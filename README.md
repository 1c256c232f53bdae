# Comment threads of a social-feed post, in Dafny

This project models the comment-thread state of the feed's `Post` and
`Comment` components and proves properties of it.

A `Post` holds three cells:
- the ordered list of comment texts, seeded with `"Post muito bacana, hein?!"`;
- the draft of a new comment;
- the custom validity message of the draft's text field.

Its handlers do four things:
- replace the draft, and clear the message, when the field changes;
- set the fixed message `"Este campo é obrigatório."` when the browser finds the field invalid;
- append the draft and clear it on submit;
- remove every comment whose text equals a given text on delete.

A `Comment` holds its text and a like counter that starts at 0 and grows by
one per like. Its delete button only hands its own text to the post's delete
callback.

Files and modules:
- `comment_list.dfy`, module `CommentList`: the pure values the post's
  handlers compute. `Appended` is the spread-append. `Without` is the
  delete filter. The lemmas cover occurrence counts, length, order,
  absence, idempotence and the "no empty comment" invariant.
- `comment.dfy`, module `CommentState`: class `Comment`, the functional
  updater `NextLikeCount` of the like counter, and lemmas about repeated
  likes.
- `post.dfy`, module `PostState`: class `Post` with the three cells as
  fields and one method per handler. It also has the two browser guards
  the handlers rely on, `AttemptSubmit` and `ClickPublish`, and the
  delete callback wiring, `DeleteRequestedBy`.
- `scenarios.dfy`, module `Scenarios`: client walks proved from the class
  contracts alone. They cover publishing, rejecting an empty draft,
  deleting duplicates, liking three times, and liking n times in a row
  (`LikeRepeatedly`, which ties the class to `LikesAfter`).

The submit handler does not check for an empty draft: it appends whatever
the draft holds. The empty draft is kept out by two guards:
- the publish button is disabled while the draft is empty (`ClickPublish`);
- the text field is marked `required`, so the browser fires the `invalid`
  handler instead of the submit handler (`AttemptSubmit`).

The browser also blocks submission while a custom validity message is set.
`AttemptSubmit` therefore submits only when the draft is non-empty and the
message is empty. `Post.Consistent` is the invariant the guarded operations
keep: no stored comment is empty, and a message is set only while the draft
is empty. The raw handlers keep it only under the condition the guards
supply, and their contracts say so.

## Model

| member | source | states |
|---|---|---|
| `CommentList.Appended` | src/components/Post.tsx:96 | the new list is one longer, keeps every earlier entry at its index, and ends with the submitted text |
| `CommentList.Without` | src/components/Post.tsx:107-109 | the result is no longer than the input; a text is in it exactly when it is in the input and differs from the deleted text |
| `CommentList.WithoutCounts` | src/components/Post.tsx:107-109 | deleting t leaves zero occurrences of t and keeps the number of occurrences of every other text |
| `CommentList.WithoutLength` | src/components/Post.tsx:107-112 | deleting t shrinks the list by exactly the number of occurrences of t |
| `CommentList.WithoutIsSubsequence` | src/components/Post.tsx:107-109 | the survivors keep their original relative order |
| `CommentList.WithoutConcat` | src/components/Post.tsx:107-109 | filtering a concatenation is the concatenation of the filtered parts, so order is preserved piece by piece |
| `CommentList.WithoutAbsent` | src/components/Post.tsx:107-112 | deleting a text that is not present leaves the list unchanged |
| `CommentList.WithoutIdempotent` | src/components/Post.tsx:107-112 | deleting the same text twice gives the same list as deleting it once |
| `CommentList.WithoutCommutes` | src/components/Post.tsx:102-113 | deleting two texts gives the same list in either order |
| `CommentList.WithoutKeepsNoEmpty` | src/components/Post.tsx:102-113 | deleting never introduces an empty comment |
| `CommentList.AppendedKeepsNoEmpty` | src/components/Post.tsx:91-98 | appending to a list without empty comments keeps it so exactly when the appended draft is non-empty |
| `CommentState.LikesAfterAdds` | src/components/Comment.tsx:46-50 | applying the like updater k times to a count c gives c + k |
| `CommentState.LikesFromFresh` | src/components/Comment.tsx:17-50 | n likes on a fresh comment (counter 0) give exactly n |
| `CommentState.LikesNeverDecrease` | src/components/Comment.tsx:46-50 | the counter never falls below its start and more likes never show less |
| `CommentState.LikesCompose` | src/components/Comment.tsx:46-50 | liking in two rounds gives the same count as liking in one round of the total |
| `CommentState.Comment.constructor` | src/components/Comment.tsx:17 | a new comment holds its text and a like counter of 0 |
| `CommentState.Comment.HandleLikeComment` | src/components/Comment.tsx:46-50 | the counter becomes its previous value plus one, through the functional updater `NextLikeCount` (the lambda at lines 47-49); nothing else changes |
| `CommentState.Comment.HandleDeleteComment` | src/components/Comment.tsx:19-21 | the text handed to the delete callback is exactly this comment's content; nothing changes, the like counter included |
| `PostState.Post.constructor` | src/components/Post.tsx:49-55 | the comments are exactly the seed comment, the draft and the validation message are empty, and the invariant holds |
| `PostState.Post.IsNewCommentEmpty` | src/components/Post.tsx:116 | true exactly when the draft is the empty string |
| `PostState.Post.HandleNewCommentChange` | src/components/Post.tsx:58-67 | the draft becomes exactly the new value, the message is cleared, the comments are untouched, and the invariant is kept |
| `PostState.Post.HandleInvalidNewComment` | src/components/Post.tsx:70-72 | the message becomes the fixed required-field text; comments and draft are untouched; the invariant is kept when the draft is empty |
| `PostState.Post.HandleCreateNewComment` | src/components/Post.tsx:91-98 | the comments become the old comments with the old draft appended, the draft becomes empty, and the invariant survives exactly when the draft was non-empty |
| `PostState.Post.DeleteComment` | src/components/Post.tsx:102-113 | the comments become the filtered old comments, the deleted text is absent, draft and message are untouched, and the invariant is kept |
| `PostState.Post.AttemptSubmit` | src/components/Post.tsx:146-154 | a submission goes through exactly when the draft is non-empty and no message is set, and then appends and clears; otherwise only the required-field message is set; the invariant is kept |
| `PostState.Post.ClickPublish` | src/components/Post.tsx:155-157 | with an empty draft the disabled button changes nothing; with a non-empty draft the click publishes exactly when no message is set, appending the draft and clearing it, and otherwise only sets the required-field message; in a consistent state it publishes exactly when the draft is non-empty; the invariant is kept |
| `PostState.Post.DeleteRequestedBy` | src/components/Post.tsx:164-169 | a comment's delete request removes every comment with that comment's text, and changes neither the draft, the message nor the comment's likes |
| `Scenarios.LikeRepeatedly` | src/components/Comment.tsx:46-50 | n likes in a row through the class take the counter to `LikesAfter` of its old value, that is, old value plus n |
| `Scenarios.DeleteExamples` | src/components/Post.tsx:107-112 | deleting "hello" from ["a", "hello", "b"] gives ["a", "b"]; deleting "a" from ["a", "a", "b"] gives ["b"]; deleting an absent text changes nothing |

## Left out

- Date formatting of the publication time (src/components/Post.tsx:74-81): these are calls into date-fns with the pt-BR locale, and the relative form reads the wall clock.
- All markup: the author header, the content blocks (src/components/Post.tsx:137-143), the comment list with its list keys (src/components/Post.tsx:161-171), and the comment's hard-coded author and time. These map props to markup and hold no state.
- The browser plumbing: `event.preventDefault()` and the DOM `setCustomValidity` call. The validity message is a plain field here, and the browser's constraint validation appears only as the guard in `AttemptSubmit`.
- React's scheduling: batching of state updates, re-rendering, and the stale-value concern behind the functional updater (src/components/Comment.tsx:30-45). Each handler runs to completion on the current state.
- src/App.tsx is not part of this model: it holds only static sample posts and renders them. It passes `author`, `content` and `publishedAt` props that do not match `Post`'s single `post` prop.
- src/components/Avatar.tsx is not part of this model: it spreads props onto an image and picks a CSS class.
- The like counter is a JavaScript number, a double: `stateOfLike + 1` (src/components/Comment.tsx:48) is exact only up to 2^53, beyond which a like no longer changes the count. The model's counter is an unbounded `nat`; no sequence of clicks comes near that bound.
- Comments are identified by text, so deleting one removes all its duplicates. The model keeps this behaviour on purpose. It is a property of the design, not a slip in the code.
