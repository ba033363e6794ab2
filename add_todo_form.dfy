/** The terminal-style input that adds a todo: its one state cell and what submit does. */
module AddTodoForm {
  import opened Calls
  import Text

  /** The input's state cell, and the server actions the form has called. */
  class Form {
    var task: string
    var calls: seq<Call>

    constructor ()
      ensures task == [] && calls == []
    {
      task := [];
      calls := [];
    }

    /** The input's change handler: the task is the input's value. */
    method Type(value: string)
      modifies this
      ensures task == value && calls == old(calls)
    {
      task := value;
    }

    /** `handleSubmit`: a blank task is not submitted and stays as typed; otherwise `addTodo` is
        called with the trimmed task and the input is cleared. */
    method Submit()
      modifies this
      ensures Text.IsBlank(old(task)) ==> task == old(task) && calls == old(calls)
      ensures !Text.IsBlank(old(task)) ==> task == [] && calls == old(calls) + [AddTodo(Text.Trim(old(task)))]
    {
      var text := Text.Trim(task);
      if text == [] {
        return;
      }
      calls := calls + [AddTodo(text)];
      task := [];
    }
  }

  /** The test's `Test todo` is submitted as it was typed. */
  lemma TypedTextSubmitted()
    ensures Text.Trim("Test todo") == "Test todo"
  {
    Text.TrimAround("", "Test todo", "");
    assert "" + "Test todo" + "" == "Test todo";
  }

  /** The test's three spaces are not submitted. */
  lemma SpacesNotSubmitted()
    ensures Text.IsBlank("   ")
  {
  }
}
