/** The terminal-style todo list: its optimistic reducer, the numbered rows it renders, and what
    its two buttons dispatch and call. */
module TodoList {
  import opened Schema
  import opened Calls
  import Seqs
  import Text

  /** The optimistic update; any update that is not a toggle is a delete. */
  datatype TodoUpdate = ToggleUpdate(id: int, completed: bool) | DeleteUpdate(id: int)

  /** The `toggle` update: matching todos get the supplied `completed`, everything else stays. */
  function WithCompleted(state: seq<Todo>, id: int, completed: bool): (r: seq<Todo>)
    ensures |r| == |state|
    ensures forall k :: 0 <= k < |r| ==> r[k].(completed := state[k].completed) == state[k]
    ensures forall k :: 0 <= k < |r| ==> if state[k].id == id then r[k].completed == completed else r[k] == state[k]
  {
    seq(|state|, k requires 0 <= k < |state| =>
      if state[k].id == id then state[k].(completed := completed) else state[k])
  }

  /** The `delete` update: the todos whose id differs, in their original order. */
  function Without(state: seq<Todo>, id: int): (r: seq<Todo>)
    ensures forall x :: x in r <==> x in state && x.id != id
  {
    Seqs.Filter(state, (x: Todo) => x.id != id)
  }

  /** The reducer passed to `useOptimistic`. */
  function Reduce(state: seq<Todo>, update: TodoUpdate): (r: seq<Todo>)
    ensures update.ToggleUpdate? ==> |r| == |state|
    ensures update.DeleteUpdate? ==> forall x :: x in r ==> x.id != update.id
  {
    match update
    case ToggleUpdate(id, completed) => WithCompleted(state, id, completed)
    case DeleteUpdate(id) => Without(state, id)
  }

  /** A delete keeps the surviving todos in their relative order, whatever part of the list they are in. */
  lemma WithoutConcat(a: seq<Todo>, b: seq<Todo>, id: int)
    ensures Without(a + b, id) == Without(a, id) + Without(b, id)
  {
    Seqs.FilterConcat(a, b, (x: Todo) => x.id != id);
  }

  /** A delete removes something exactly when some todo has the id. */
  lemma DeleteShrinksIffPresent(state: seq<Todo>, id: int)
    ensures |Without(state, id)| < |state| <==> exists x :: x in state && x.id == id
  {
    Seqs.FilterSameLength(state, (x: Todo) => x.id != id);
  }

  /** The row number: `String(index + 1).padStart(2, '0')` in brackets. */
  function RowLabel(index: nat): (r: string)
    ensures |r| >= 4 && r[0] == '[' && r[|r| - 1] == ']'
  {
    "[" + Text.PadStart(Text.DecimalString(index + 1), 2, '0') + "]"
  }

  /** Between the brackets stand at least two digits that denote `index + 1`; exactly two for the
      first 99 rows, and no leading zero beyond them. */
  lemma RowLabelDenotesIndex(index: nat)
    ensures Text.IsDigits(RowLabel(index)[1..|RowLabel(index)| - 1])
    ensures Text.ParseDecimal(RowLabel(index)[1..|RowLabel(index)| - 1]) == index + 1
    ensures |RowLabel(index)| == 4 <==> index < 99
    ensures index >= 9 ==> RowLabel(index)[1] != '0'
  {
    var d := Text.DecimalString(index + 1);
    var p := Text.PadStart(d, 2, '0');
    assert RowLabel(index)[1..|RowLabel(index)| - 1] == p;
    Text.ParseDecimalString(index + 1);
    Text.PadStartZeroValue(d, 2);
    if index + 1 >= 100 {
      assert Text.ParseDecimal(d) >= 100;
      DigitsBound(d);
    } else if index + 1 >= 10 {
      DigitsBound(d);
      assert |d| == 2;
    }
  }

  /** A string of at most two digits denotes a number below 100; without a leading zero and with
      two or more digits it denotes at least 10. */
  lemma DigitsBound(s: string)
    requires Text.IsDigits(s)
    ensures |s| <= 2 ==> Text.ParseDecimal(s) < 100
    ensures |s| == 1 ==> Text.ParseDecimal(s) < 10
  {
    if |s| == 2 {
      assert Text.ParseDecimal(s[..1]) < 10;
    }
  }

  /** The checkbox in front of a todo's text. */
  function CheckboxPrefix(completed: bool): (r: string)
    ensures |r| == 4 && r[0] == '[' && r[2] == ']' && r[3] == ' '
    ensures r[1] == 'X' <==> completed
    ensures !completed ==> r[1] == ' '
  {
    if completed then "[X] " else "[ ] "
  }

  /** One rendered row: its number, the text of its toggle button, and whether that text is struck through. */
  datatype Row = Row(number: string, caption: string, struck: bool)

  /** The rows rendered for a list: one per todo, numbered from 1; none for an empty list. */
  function Rows(todos: seq<Todo>): (r: seq<Row>)
    ensures |r| == |todos|
    ensures forall k :: 0 <= k < |r| ==> r[k].number == RowLabel(k)
    ensures forall k :: 0 <= k < |r| ==> r[k].caption == CheckboxPrefix(todos[k].completed) + todos[k].text
    ensures forall k :: 0 <= k < |r| ==> |r[k].caption| >= 4 && r[k].caption[4..] == todos[k].text
    ensures forall k :: 0 <= k < |r| ==> (r[k].caption[1] == 'X' <==> todos[k].completed)
    ensures forall k :: 0 <= k < |r| ==> (r[k].struck <==> todos[k].completed)
  {
    seq(|todos|, k requires 0 <= k < |todos| =>
      Row(RowLabel(k), CheckboxPrefix(todos[k].completed) + todos[k].text, todos[k].completed))
  }

  /** Clicking the row at `index`: it dispatches a toggle to the negation of the todo's
      `completed` and calls the toggle action with the same arguments. */
  function OnToggleClick(state: seq<Todo>, index: nat): (r: (seq<Todo>, Call))
    requires index < |state|
    ensures r.1 == ToggleTodo(state[index].id, !state[index].completed)
    ensures r.0 == WithCompleted(state, state[index].id, !state[index].completed)
    ensures |r.0| == |state| && r.0[index].completed != state[index].completed
  {
    var todo := state[index];
    (Reduce(state, ToggleUpdate(todo.id, !todo.completed)), ToggleTodo(todo.id, !todo.completed))
  }

  /** Clicking `[DEL]` on the row at `index`: it dispatches a delete of the row's id and calls the
      delete action with it. */
  function OnDeleteClick(state: seq<Todo>, index: nat): (r: (seq<Todo>, Call))
    requires index < |state|
    ensures r.1 == DeleteTodo(state[index].id)
    ensures r.0 == Without(state, state[index].id)
    ensures state[index] !in r.0 && |r.0| < |state|
  {
    DeleteShrinksIffPresent(state, state[index].id);
    (Reduce(state, DeleteUpdate(state[index].id)), DeleteTodo(state[index].id))
  }

  /** The three todos the component's tests render. */
  const Fixture: seq<Todo> := [Todo(1, "Test todo 1", false), Todo(2, "Test todo 2", true), Todo(3, "Test todo 3", false)]

  /** The fixture renders `[01]`, `[02]`, `[03]`, two unchecked boxes and one checked box, and
      only the checked row is struck through. */
  lemma FixtureRows()
    ensures |Rows(Fixture)| == 3
    ensures Rows(Fixture)[0].number == "[01]" && Rows(Fixture)[1].number == "[02]" && Rows(Fixture)[2].number == "[03]"
    ensures Rows(Fixture)[0].caption[..4] == "[ ] " && Rows(Fixture)[1].caption[..4] == "[X] "
    ensures Rows(Fixture)[2].caption[..4] == "[ ] "
    ensures !Rows(Fixture)[0].struck && Rows(Fixture)[1].struck && !Rows(Fixture)[2].struck
  {
    SingleDigitLabel(0);
    SingleDigitLabel(1);
    SingleDigitLabel(2);
  }

  /** Each of the first nine rows shows a zero and the one digit of its number. */
  lemma SingleDigitLabel(index: nat)
    requires index < 9
    ensures RowLabel(index) == ['[', '0', Text.DigitChar(index + 1), ']']
  {
    var d := Text.DecimalString(index + 1);
    assert d == [Text.DigitChar(index + 1)];
    assert Text.PadStart(d, 2, '0') == ['0'] + d;
    assert RowLabel(index) == "[" + (['0'] + d) + "]";
  }

  /** Rows 10 to 99 show the two digits of their number, so the tenth is `[10]`. */
  lemma TwoDigitLabel(index: nat)
    requires 9 <= index < 99
    ensures RowLabel(index) == ['[', Text.DigitChar((index + 1) / 10), Text.DigitChar((index + 1) % 10), ']']
  {
    var n := index + 1;
    var d := Text.DecimalString(n);
    assert Text.DecimalString(n / 10) == [Text.DigitChar(n / 10)];
    assert d == [Text.DigitChar(n / 10), Text.DigitChar(n % 10)];
    assert Text.PadStart(d, 2, '0') == d;
    assert RowLabel(index) == "[" + d + "]";
  }

  /** Rows 100 to 999 show the three digits of their number, so the hundredth is `[100]`. */
  lemma ThreeDigitLabel(index: nat)
    requires 99 <= index < 999
    ensures RowLabel(index) == ['[', Text.DigitChar((index + 1) / 100), Text.DigitChar((index + 1) / 10 % 10),
                                Text.DigitChar((index + 1) % 10), ']']
  {
    var n := index + 1;
    var d := Text.DecimalString(n);
    assert Text.DecimalString(n / 10) == [Text.DigitChar(n / 100), Text.DigitChar(n / 10 % 10)];
    assert d == [Text.DigitChar(n / 100), Text.DigitChar(n / 10 % 10), Text.DigitChar(n % 10)];
    assert Text.PadStart(d, 2, '0') == d;
    assert RowLabel(index) == "[" + d + "]";
  }

  /** On the fixture, clicking the first two rows calls toggle with `(1, true)` and `(2, false)`;
      the first `[DEL]` calls delete with `1`. An empty list renders no rows. */
  lemma FixtureClicks()
    ensures OnToggleClick(Fixture, 0).1 == ToggleTodo(1, true)
    ensures OnToggleClick(Fixture, 1).1 == ToggleTodo(2, false)
    ensures OnDeleteClick(Fixture, 0).1 == DeleteTodo(1)
    ensures Rows([]) == []
  {
  }
}
