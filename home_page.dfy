/** The first revision's page: a todo list held in two state cells, `todos` and `task`. */
module HomePage {
  import opened Schema
  import Seqs
  import Text

  /** `toggleTodo`: matching todos get their `completed` flipped; length, ids, texts and order stay. */
  function Toggled(todos: seq<Todo>, id: int): (r: seq<Todo>)
    ensures |r| == |todos|
    ensures forall k :: 0 <= k < |r| ==> r[k].id == todos[k].id && r[k].text == todos[k].text
    ensures forall k :: 0 <= k < |r| ==> (r[k].completed != todos[k].completed <==> todos[k].id == id)
  {
    seq(|todos|, k requires 0 <= k < |todos| =>
      if todos[k].id == id then todos[k].(completed := !todos[k].completed) else todos[k])
  }

  /** Toggling the same id twice restores the list. */
  lemma ToggleTwice(todos: seq<Todo>, id: int)
    ensures Toggled(Toggled(todos, id), id) == todos
  {
    var r := Toggled(Toggled(todos, id), id);
    assert forall k :: 0 <= k < |todos| ==> r[k] == todos[k];
  }

  /** Toggles of different ids commute. */
  lemma TogglesCommute(todos: seq<Todo>, a: int, b: int)
    ensures Toggled(Toggled(todos, a), b) == Toggled(Toggled(todos, b), a)
  {
    var l, r := Toggled(Toggled(todos, a), b), Toggled(Toggled(todos, b), a);
    assert forall k :: 0 <= k < |todos| ==> l[k] == r[k];
  }

  /** `removeTodo`: the todos whose id differs, in their original order. */
  function Removed(todos: seq<Todo>, id: int): (r: seq<Todo>)
    ensures forall x :: x in r <==> x in todos && x.id != id
  {
    Seqs.Filter(todos, (x: Todo) => x.id != id)
  }

  /** Removal keeps the relative order of what remains, whatever part of the list it is in. */
  lemma RemovedConcat(a: seq<Todo>, b: seq<Todo>, id: int)
    ensures Removed(a + b, id) == Removed(a, id) + Removed(b, id)
  {
    Seqs.FilterConcat(a, b, (x: Todo) => x.id != id);
  }

  /** Toggling a todo and then removing it is removing it. */
  lemma ToggleThenRemove(todos: seq<Todo>, id: int)
    ensures Removed(Toggled(todos, id), id) == Removed(todos, id)
  {
    Seqs.FilterPointwise(Toggled(todos, id), todos, (x: Todo) => x.id != id);
  }

  /** The page's state cells. */
  class Page {
    var todos: seq<Todo>
    var task: string

    /** The state before the stored list is loaded. */
    constructor ()
      ensures todos == [] && task == []
    {
      todos := [];
      task := [];
    }

    /** The input's change handler. */
    method Type(value: string)
      modifies this
      ensures task == value && todos == old(todos)
    {
      task := value;
    }

    /** `addTodo` on submit; `now` is the clock reading that becomes the new todo's id. A blank
        task changes nothing; otherwise one todo with the trimmed text is appended and the input
        is cleared. */
    method AddTodo(now: int)
      modifies this
      ensures Text.IsBlank(old(task)) ==> todos == old(todos) && task == old(task)
      ensures !Text.IsBlank(old(task)) ==>
        && todos == old(todos) + [Todo(now, Text.Trim(old(task)), false)]
        && task == []
      ensures !Text.IsBlank(old(task)) ==> todos[|todos| - 1].text != [] && todos[..|old(todos)|] == old(todos)
    {
      if Text.Trim(task) == [] {
        return;
      }
      todos := todos + [Todo(now, Text.Trim(task), false)];
      task := [];
    }

    /** The toggle button of a row. */
    method Toggle(id: int)
      modifies this
      ensures todos == Toggled(old(todos), id) && task == old(task)
    {
      todos := Toggled(todos, id);
    }

    /** The delete button of a row. */
    method Remove(id: int)
      modifies this
      ensures todos == Removed(old(todos), id) && task == old(task)
    {
      todos := Removed(todos, id);
    }
  }
}
