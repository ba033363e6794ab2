/** The collapsible form that creates an issue: its four state cells, and what submit and cancel
    do to them and which server action they call. */
module CreateIssueForm {
  import opened Schema
  import opened Calls
  import Text

  /** The submit button is disabled exactly when the title is empty or all whitespace. */
  function SubmitDisabled(title: string): (r: bool)
    ensures r <==> Text.IsBlank(title)
  {
    Text.Trim(title) == []
  }

  /** The form's state cells, and the server actions it has called. */
  class Form {
    var isExpanded: bool
    var title: string
    var description: string
    var priority: Priority
    var calls: seq<Call>

    /** Collapsed, with empty title and description and `medium` priority. */
    predicate AtDefaults()
      reads this
    {
      !isExpanded && title == [] && description == [] && priority == Medium
    }

    constructor ()
      ensures AtDefaults() && calls == []
    {
      isExpanded := false;
      title := [];
      description := [];
      priority := Medium;
      calls := [];
    }

    /** The "Create new issue" button of the collapsed form. */
    method Expand()
      modifies this
      ensures isExpanded
      ensures title == old(title) && description == old(description) && priority == old(priority)
      ensures calls == old(calls)
    {
      isExpanded := true;
    }

    /** The title input. */
    method TypeTitle(value: string)
      modifies this
      ensures title == value
      ensures isExpanded == old(isExpanded) && description == old(description) && priority == old(priority)
      ensures calls == old(calls)
    {
      title := value;
    }

    /** The description editor's change callback (the editor itself is not modelled). */
    method TypeDescription(value: string)
      modifies this
      ensures description == value
      ensures isExpanded == old(isExpanded) && title == old(title) && priority == old(priority)
      ensures calls == old(calls)
    {
      description := value;
    }

    /** The priority select. */
    method ChoosePriority(value: Priority)
      modifies this
      ensures priority == value
      ensures isExpanded == old(isExpanded) && title == old(title) && description == old(description)
      ensures calls == old(calls)
    {
      priority := value;
    }

    /** `handleSubmit`: with a blank title nothing is called and nothing changes; otherwise
        `createIssue` is called with the trimmed title and the current description and priority,
        and the form goes back to its defaults. */
    method Submit()
      modifies this
      ensures SubmitDisabled(old(title)) ==>
        && isExpanded == old(isExpanded) && title == old(title) && description == old(description)
        && priority == old(priority) && calls == old(calls)
      ensures !SubmitDisabled(old(title)) ==>
        AtDefaults() && calls == old(calls) + [CreateIssue(Text.Trim(old(title)), old(description), old(priority))]
    {
      var trimmedTitle := Text.Trim(title);
      if trimmedTitle == [] {
        return;
      }
      calls := calls + [CreateIssue(trimmedTitle, description, priority)];
      title := [];
      description := [];
      priority := Medium;
      isExpanded := false;
    }

    /** `handleCancel`: back to the defaults whatever was typed; nothing is called. */
    method Cancel()
      modifies this
      ensures AtDefaults() && calls == old(calls)
    {
      title := [];
      description := [];
      priority := Medium;
      isExpanded := false;
    }
  }

  /** The title a successful submit sends is never empty and has no whitespace at either end. */
  lemma SubmittedTitleTrimmed(title: string)
    requires !SubmitDisabled(title)
    ensures Text.Trim(title) != []
    ensures !Text.IsJsWhitespace(Text.Trim(title)[0]) && !Text.IsJsWhitespace(Text.Trim(title)[|Text.Trim(title)| - 1])
    ensures Text.Trim(Text.Trim(title)) == Text.Trim(title)
  {
    Text.TrimIdempotent(title);
  }
}
