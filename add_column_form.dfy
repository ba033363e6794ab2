/** The board's "add another list" form: its two state cells, and opening, typing, submitting and
    cancelling it. */
module AddColumnForm {
  import opened Calls
  import Text

  /** The form's state cells, and the server actions it has called. */
  class Form {
    var columnTitle: string
    var isAdding: bool
    var calls: seq<Call>

    /** Closed, with an empty title. */
    constructor ()
      ensures columnTitle == [] && !isAdding && calls == []
    {
      columnTitle := [];
      isAdding := false;
      calls := [];
    }

    /** The "+ Add another list" button. */
    method Open()
      modifies this
      ensures isAdding && columnTitle == old(columnTitle) && calls == old(calls)
    {
      isAdding := true;
    }

    /** The title input. */
    method Type(value: string)
      modifies this
      ensures columnTitle == value && isAdding == old(isAdding) && calls == old(calls)
    {
      columnTitle := value;
    }

    /** `handleSubmit`: a blank title calls nothing and changes nothing; otherwise `addColumn` is
        called with the trimmed title, the title is cleared and the form closes. */
    method Submit()
      modifies this
      ensures Text.IsBlank(old(columnTitle)) ==>
        columnTitle == old(columnTitle) && isAdding == old(isAdding) && calls == old(calls)
      ensures !Text.IsBlank(old(columnTitle)) ==>
        columnTitle == [] && !isAdding && calls == old(calls) + [AddColumn(Text.Trim(old(columnTitle)))]
    {
      var title := Text.Trim(columnTitle);
      if title == [] {
        return;
      }
      calls := calls + [AddColumn(title)];
      columnTitle := [];
      isAdding := false;
    }

    /** The ✕ button: the form closes and the title is cleared; nothing is called. */
    method Cancel()
      modifies this
      ensures !isAdding && columnTitle == [] && calls == old(calls)
    {
      isAdding := false;
      columnTitle := [];
    }
  }
}
