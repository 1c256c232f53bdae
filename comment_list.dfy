// The pure part of a post's comment thread: the values that the post's
// handlers compute before they replace the `comments` state cell.
// Comments are identified by their text alone, so removing a comment
// removes every entry with the same text.

module CommentList {

  /** `comments` with `text` added at the end: the spread-append
      `[...comments, text]` of the submit handler. */
  function Appended(comments: seq<string>, text: string): (r: seq<string>)
    ensures |r| == |comments| + 1
    ensures r[..|comments|] == comments
    ensures r[|comments|] == text
  {
    comments + [text]
  }

  /** The entries of `comments` that differ from `target`, in their original
      order: the filter of the delete handler. */
  function Without(comments: seq<string>, target: string): (r: seq<string>)
    ensures |r| <= |comments|
    ensures forall c :: c in r <==> c in comments && c != target
  {
    if comments == [] then []
    else if comments[0] == target then Without(comments[1..], target)
    else [comments[0]] + Without(comments[1..], target)
  }

  /** `sub` is obtained from `full` by dropping some entries and keeping the
      others in order. */
  ghost predicate IsSubsequence(sub: seq<string>, full: seq<string>)
    decreases |full|
  {
    if sub == [] then true
    else if full == [] then false
    else
      (sub[0] == full[0] && IsSubsequence(sub[1..], full[1..]))
      || IsSubsequence(sub, full[1..])
  }

  /** No comment in the thread is the empty string. */
  ghost predicate NoEmptyComment(comments: seq<string>)
  {
    forall i :: 0 <= i < |comments| ==> comments[i] != ""
  }

  /** Removing `target` sets its number of occurrences to zero and keeps the
      number of occurrences of every other text: an entry survives exactly
      when it differs from `target`. */
  lemma {:induction false} WithoutCounts(comments: seq<string>, target: string)
    ensures multiset(Without(comments, target)) == multiset(comments)[target := 0]
  {
    if comments != [] {
      WithoutCounts(comments[1..], target);
      assert comments == [comments[0]] + comments[1..];
    }
  }

  /** Removing `target` shrinks the thread by exactly the number of entries
      equal to `target`. */
  lemma {:induction false} WithoutLength(comments: seq<string>, target: string)
    ensures |Without(comments, target)| == |comments| - multiset(comments)[target]
  {
    if comments != [] {
      WithoutLength(comments[1..], target);
      assert comments == [comments[0]] + comments[1..];
    }
  }

  /** The survivors keep their original relative order. */
  lemma {:induction false} WithoutIsSubsequence(comments: seq<string>, target: string)
    ensures IsSubsequence(Without(comments, target), comments)
    decreases |comments|
  {
    if comments != [] {
      var rest := Without(comments[1..], target);
      WithoutIsSubsequence(comments[1..], target);
      if comments[0] != target {
        assert Without(comments, target) == [comments[0]] + rest;
        assert ([comments[0]] + rest)[1..] == rest;
      } else {
        assert Without(comments, target) == rest;
        if rest != [] {
          assert IsSubsequence(rest, comments[1..]);
        }
      }
    }
  }

  /** Filtering a concatenation filters each part: together with the
      single-entry case this fixes the order of the result completely. */
  lemma {:induction false} WithoutConcat(front: seq<string>, back: seq<string>, target: string)
    ensures Without(front + back, target) == Without(front, target) + Without(back, target)
  {
    if front == [] {
      assert front + back == back;
    } else {
      WithoutConcat(front[1..], back, target);
      assert (front + back)[1..] == front[1..] + back;
    }
  }

  /** Removing a text that is not in the thread leaves the thread as it is. */
  lemma {:induction false} WithoutAbsent(comments: seq<string>, target: string)
    requires target !in comments
    ensures Without(comments, target) == comments
  {
    if comments != [] {
      assert comments[0] != target;
      WithoutAbsent(comments[1..], target);
      assert comments == [comments[0]] + comments[1..];
    }
  }

  /** Removing the same text twice gives the same thread as removing it once. */
  lemma {:induction false} WithoutIdempotent(comments: seq<string>, target: string)
    ensures Without(Without(comments, target), target) == Without(comments, target)
  {
    WithoutAbsent(Without(comments, target), target);
  }

  /** Removals of two texts can be done in either order. */
  lemma {:induction false} WithoutCommutes(comments: seq<string>, a: string, b: string)
    ensures Without(Without(comments, a), b) == Without(Without(comments, b), a)
  {
    if comments != [] {
      WithoutCommutes(comments[1..], a, b);
    }
  }

  /** Removing a comment never introduces an empty one. */
  lemma WithoutKeepsNoEmpty(comments: seq<string>, target: string)
    requires NoEmptyComment(comments)
    ensures NoEmptyComment(Without(comments, target))
  {
  }

  /** Appending keeps the thread free of empty comments exactly when the
      appended text is not empty. */
  lemma AppendedKeepsNoEmpty(comments: seq<string>, text: string)
    requires NoEmptyComment(comments)
    ensures NoEmptyComment(Appended(comments, text)) <==> text != ""
  {
  }
}
