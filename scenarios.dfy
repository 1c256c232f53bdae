// Client walks through the comment thread, proved from the contracts of
// the post and comment controllers alone.

module Scenarios {
  import opened CommentList
  import opened PostState
  import opened CommentState

  /** Deleting by text removes every duplicate and only those. */
  lemma DeleteExamples()
    ensures Without(["a", "hello", "b"], "hello") == ["a", "b"]
    ensures Without(["a", "a", "b"], "a") == ["b"]
    ensures Without(["a", "b"], "c") == ["a", "b"]
  {
  }

  /** Typing, publishing and deleting on a fresh post. */
  method PostSession() {
    var post := new Post();
    assert post.IsNewCommentEmpty();

    // An empty draft cannot be published.
    var sent := post.ClickPublish();
    assert !sent && post.comments == [SeedComment];

    // A submission that gets past the disabled button is rejected by the
    // browser, and the next edit clears the message.
    sent := post.AttemptSubmit();
    assert !sent && post.validationMessage == RequiredFieldMessage;
    post.HandleNewCommentChange("hello");
    assert post.validationMessage == "" && !post.IsNewCommentEmpty();

    sent := post.ClickPublish();
    assert sent;
    assert post.comments == [SeedComment, "hello"] && post.newCommentText == "";

    post.HandleNewCommentChange("hello");
    sent := post.ClickPublish();
    assert post.comments == [SeedComment, "hello", "hello"];

    // Deleting one "hello" removes both.
    var child := new Comment("hello");
    post.DeleteRequestedBy(child);
    assert Without(["hello", "hello"], "hello") == [];
    assert post.comments == [SeedComment];
    assert post.Consistent();
  }

  /** A user liking a comment `n` times in a row: the counter ends where
      `n` applications of the like updater take it. */
  method LikeRepeatedly(comment: Comment, n: nat)
    modifies comment
    ensures comment.likeCount == LikesAfter(old(comment.likeCount), n)
    ensures comment.likeCount == old(comment.likeCount) + n
  {
    var i := 0;
    while i < n
      invariant 0 <= i <= n
      invariant comment.likeCount == LikesAfter(old(comment.likeCount), i)
    {
      comment.HandleLikeComment();
      i := i + 1;
    }
    LikesAfterAdds(old(comment.likeCount), n);
  }

  /** Three likes on a fresh comment show three. */
  method LikeSession() {
    var comment := new Comment("Post muito bacana, hein?!");
    comment.HandleLikeComment();
    comment.HandleLikeComment();
    comment.HandleLikeComment();
    assert comment.likeCount == 3;
    var text := comment.HandleDeleteComment();
    assert text == "Post muito bacana, hein?!" && comment.likeCount == 3;
  }
}
