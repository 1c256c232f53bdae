// The comment-thread state of one post: the list of comment texts, the
// draft of a new comment, and the validation message of the draft's text
// field. Each handler runs to completion before the next one starts.

module PostState {
  import opened CommentList
  import CommentState

  /** The one comment every post starts with. */
  const SeedComment: string := "Post muito bacana, hein?!"

  /** The message shown when an empty comment is submitted. */
  const RequiredFieldMessage: string := "Este campo é obrigatório."

  class Post {
    /** The comment texts, in display order. */
    var comments: seq<string>
    /** The draft of the next comment, bound to the text field. */
    var newCommentText: string
    /** The text field's custom validity message; "" means valid. */
    var validationMessage: string

    /** The state the controller keeps between handlers when the browser
        calls them only as the form's guards allow: no empty comment is
        stored, and the field is marked invalid only while it is empty. */
    ghost predicate Consistent()
      reads this
    {
      NoEmptyComment(comments) && (validationMessage != "" ==> newCommentText == "")
    }

    constructor ()
      ensures comments == [SeedComment]
      ensures newCommentText == ""
      ensures validationMessage == ""
      ensures Consistent()
    {
      comments := [SeedComment];
      newCommentText := "";
      validationMessage := "";
    }

    /** Whether the draft is empty; the publish button is disabled exactly
        when it is. */
    function IsNewCommentEmpty(): (empty: bool)
      reads this
      ensures empty <==> newCommentText == ""
    {
      |newCommentText| == 0
    }

    /** The text field changed: the draft becomes the new value and the
        validation message is cleared. */
    method HandleNewCommentChange(value: string)
      modifies this`newCommentText, this`validationMessage
      ensures newCommentText == value
      ensures validationMessage == ""
      ensures comments == old(comments)
      ensures old(Consistent()) ==> Consistent()
    {
      validationMessage := "";
      newCommentText := value;
    }

    /** The browser found the field invalid: the fixed message is set. */
    method HandleInvalidNewComment()
      modifies this`validationMessage
      ensures validationMessage == RequiredFieldMessage
      ensures comments == old(comments) && newCommentText == old(newCommentText)
      ensures old(Consistent()) && old(IsNewCommentEmpty()) ==> Consistent()
    {
      validationMessage := RequiredFieldMessage;
    }

    /** The form was submitted: the draft is appended to the comments and
        then cleared. The handler itself does not look at the draft; only
        the form's guards (see AttemptSubmit) keep an empty draft out. */
    method HandleCreateNewComment()
      modifies this`comments, this`newCommentText
      ensures comments == Appended(old(comments), old(newCommentText))
      ensures newCommentText == ""
      ensures validationMessage == old(validationMessage)
      ensures old(Consistent()) ==> (Consistent() <==> old(newCommentText) != "")
    {
      if NoEmptyComment(comments) {
        AppendedKeepsNoEmpty(comments, newCommentText);
      }
      comments := Appended(comments, newCommentText);
      newCommentText := "";
    }

    /** A comment asked to be deleted: every comment with that text is
        removed, the others keep their order. */
    method DeleteComment(commentToDelete: string)
      modifies this`comments
      ensures comments == Without(old(comments), commentToDelete)
      ensures commentToDelete !in comments
      ensures newCommentText == old(newCommentText)
      ensures validationMessage == old(validationMessage)
      ensures old(Consistent()) ==> Consistent()
    {
      if NoEmptyComment(comments) {
        WithoutKeepsNoEmpty(comments, commentToDelete);
      }
      comments := Without(comments, commentToDelete);
    }

    /** A submission of the form, as the browser handles it for a text field
        marked `required`: if the field is empty or carries a validation
        message, the `invalid` handler runs instead of the submit handler. */
    method AttemptSubmit() returns (submitted: bool)
      modifies this`comments, this`newCommentText, this`validationMessage
      ensures submitted <==> old(newCommentText) != "" && old(validationMessage) == ""
      ensures submitted ==>
                comments == Appended(old(comments), old(newCommentText))
                && newCommentText == "" && validationMessage == ""
      ensures !submitted ==>
                comments == old(comments)
                && newCommentText == old(newCommentText)
                && validationMessage == RequiredFieldMessage
      ensures old(Consistent()) ==> Consistent()
    {
      if IsNewCommentEmpty() || validationMessage != "" {
        HandleInvalidNewComment();
        submitted := false;
      } else {
        HandleCreateNewComment();
        submitted := true;
      }
    }

    /** A click on the publish button, which is disabled while the draft is
        empty: a disabled button submits nothing. */
    method ClickPublish() returns (submitted: bool)
      modifies this`comments, this`newCommentText, this`validationMessage
      ensures old(IsNewCommentEmpty()) ==>
                !submitted
                && comments == old(comments)
                && newCommentText == old(newCommentText)
                && validationMessage == old(validationMessage)
      ensures !old(IsNewCommentEmpty()) ==> (submitted <==> old(validationMessage) == "")
      ensures old(Consistent()) ==> (submitted <==> old(newCommentText) != "")
      ensures submitted ==>
                comments == Appended(old(comments), old(newCommentText))
                && newCommentText == "" && validationMessage == ""
      ensures !submitted && !old(IsNewCommentEmpty()) ==>
                comments == old(comments)
                && newCommentText == old(newCommentText)
                && validationMessage == RequiredFieldMessage
      ensures old(Consistent()) ==> Consistent()
    {
      if IsNewCommentEmpty() {
        submitted := false;
      } else {
        submitted := AttemptSubmit();
      }
    }

    /** The delete callback handed to each comment, invoked by that comment's
        delete button with the comment's own text. */
    method DeleteRequestedBy(child: CommentState.Comment)
      modifies this`comments
      ensures comments == Without(old(comments), child.content)
      ensures newCommentText == old(newCommentText)
      ensures validationMessage == old(validationMessage)
      ensures child.likeCount == old(child.likeCount)
      ensures old(Consistent()) ==> Consistent()
    {
      var text := child.HandleDeleteComment();
      DeleteComment(text);
    }
  }
}
