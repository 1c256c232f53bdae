// The state of one comment of a post: its text, handed down by the post,
// and a like counter that only the comment itself changes.

module CommentState {

  /** The counter of a comment that has just been created. */
  const InitialLikeCount: nat := 0

  /** The functional updater handed to the like counter's setter: the next
      value is computed from the previous one, not from a captured copy. */
  function NextLikeCount(previous: nat): (next: nat)
  {
    previous + 1
  }

  /** The counter after `likes` further likes, starting from `count`. */
  function LikesAfter(count: nat, likes: nat): (r: nat)
  {
    if likes == 0 then count else NextLikeCount(LikesAfter(count, likes - 1))
  }

  /** Every like adds exactly one to the counter. */
  lemma {:induction false} LikesAfterAdds(count: nat, likes: nat)
    ensures LikesAfter(count, likes) == count + likes
  {
    if likes > 0 {
      LikesAfterAdds(count, likes - 1);
    }
  }

  /** `n` likes on a fresh comment show exactly `n`. */
  lemma {:induction false} LikesFromFresh(n: nat)
    ensures LikesAfter(InitialLikeCount, n) == n
  {
    LikesAfterAdds(InitialLikeCount, n);
  }

  /** More likes never show a smaller count: the counter never decreases. */
  lemma {:induction false} LikesNeverDecrease(count: nat, fewer: nat, more: nat)
    requires fewer <= more
    ensures count <= LikesAfter(count, fewer) <= LikesAfter(count, more)
  {
    LikesAfterAdds(count, fewer);
    LikesAfterAdds(count, more);
  }

  /** Liking in two rounds gives the same count as liking in one. */
  lemma {:induction false} LikesCompose(count: nat, first: nat, second: nat)
    ensures LikesAfter(LikesAfter(count, first), second) == LikesAfter(count, first + second)
  {
    LikesAfterAdds(count, first);
    LikesAfterAdds(LikesAfter(count, first), second);
    LikesAfterAdds(count, first + second);
  }

  class Comment {
    /** The comment's text, as handed down by its post. */
    const content: string
    /** How many times this comment has been liked. */
    var likeCount: nat

    constructor (content: string)
      ensures this.content == content
      ensures likeCount == InitialLikeCount
    {
      this.content := content;
      likeCount := InitialLikeCount;
    }

    /** A like: the counter goes up by exactly one from its previous value. */
    method HandleLikeComment()
      modifies this`likeCount
      ensures likeCount == NextLikeCount(old(likeCount))
      ensures likeCount == old(likeCount) + 1
    {
      likeCount := NextLikeCount(likeCount);
    }

    /** A delete request: returns the text handed to the post's delete
        callback. It changes nothing here, not even the like counter. */
    method HandleDeleteComment() returns (requested: string)
      ensures requested == content
    {
      requested := content;
    }
  }
}
