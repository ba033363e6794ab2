/** The kanban board's view computation: todos grouped by column, each group sorted by position
    in place, and the columns sorted by position in place. */
module Board {
  import opened Schema
  import Seqs

  /** The todos of one column, in input order. */
  function InColumn(todos: seq<BoardTodo>, columnId: int): (r: seq<BoardTodo>)
    ensures forall t :: t in r <==> t in todos && t.columnId == columnId
  {
    Seqs.Filter(todos, (t: BoardTodo) => t.columnId == columnId)
  }

  /** The columns some todo belongs to. */
  function ColumnIds(todos: seq<BoardTodo>): (r: set<int>) {
    set t | t in todos :: t.columnId
  }

  /** A column no todo belongs to has no todos. */
  lemma InColumnEmpty(todos: seq<BoardTodo>, columnId: int)
    ensures InColumn(todos, columnId) == [] <==> columnId !in ColumnIds(todos)
  {
    var r := InColumn(todos, columnId);
    if r != [] {
      assert r[0] in r;
    }
    if columnId in ColumnIds(todos) {
      var t :| t in todos && t.columnId == columnId;
      assert t in r;
    }
  }

  /** The sizes of the groups with the given keys, added up. */
  ghost function SizeOver<K>(groups: map<K, seq<BoardTodo>>, keys: set<K>): (r: nat)
    decreases keys
  {
    if keys == {} then 0
    else
      var k :| k in keys;
      (if k in groups then |groups[k]| else 0) + SizeOver(groups, keys - {k})
  }

  /** The number of todos in all groups together. */
  ghost function TotalSize<K>(groups: map<K, seq<BoardTodo>>): (r: nat) {
    SizeOver(groups, groups.Keys)
  }

  /** Any key of the set can be taken out first. */
  lemma {:induction false} SizeOverRemove<K>(groups: map<K, seq<BoardTodo>>, keys: set<K>, k: K)
    requires k in keys
    ensures SizeOver(groups, keys) == (if k in groups then |groups[k]| else 0) + SizeOver(groups, keys - {k})
    decreases keys
  {
    var j :| j in keys && SizeOver(groups, keys) == (if j in groups then |groups[j]| else 0) + SizeOver(groups, keys - {j});
    if j != k {
      SizeOverRemove(groups, keys - {j}, k);
      SizeOverRemove(groups, keys - {k}, j);
      assert keys - {j} - {k} == keys - {k} - {j};
    }
  }

  /** Groups that agree on the keys have the same size over them. */
  lemma {:induction false} SizeOverAgree<K>(g: map<K, seq<BoardTodo>>, h: map<K, seq<BoardTodo>>, keys: set<K>)
    requires forall k :: k in keys ==> (k in g <==> k in h) && (k in g ==> |g[k]| == |h[k]|)
    ensures SizeOver(g, keys) == SizeOver(h, keys)
    decreases keys
  {
    if keys != {} {
      var k :| k in keys;
      SizeOverRemove(g, keys, k);
      SizeOverRemove(h, keys, k);
      SizeOverAgree(g, h, keys - {k});
    }
  }

  /** Pushing one todo onto a group, creating the group if needed, adds one to the total. */
  lemma PushAddsOne<K>(groups: map<K, seq<BoardTodo>>, c: K, t: BoardTodo)
    ensures TotalSize(groups[c := (if c in groups then groups[c] else []) + [t]]) == TotalSize(groups) + 1
  {
    var g := groups[c := (if c in groups then groups[c] else []) + [t]];
    SizeOverRemove(g, g.Keys, c);
    assert g.Keys - {c} == groups.Keys - {c};
    SizeOverAgree(g, groups, groups.Keys - {c});
    if c in groups {
      SizeOverRemove(groups, groups.Keys, c);
    } else {
      assert groups.Keys - {c} == groups.Keys;
    }
  }

  /** One more todo in the input: only its own column's group grows, by that todo at the end. */
  lemma InColumnSnoc(todos: seq<BoardTodo>, t: BoardTodo, c: int)
    ensures InColumn(todos + [t], c) == InColumn(todos, c) + if t.columnId == c then [t] else []
  {
    Seqs.FilterSnoc(todos, t, (x: BoardTodo) => x.columnId == c);
  }

  /** The grouping of a prefix of the input: one group per column present, holding that column's todos in order. */
  ghost predicate GroupsOf(groups: map<int, seq<BoardTodo>>, todos: seq<BoardTodo>) {
    && groups.Keys == ColumnIds(todos)
    && (forall c :: c in groups ==> groups[c] == InColumn(todos, c))
    && TotalSize(groups) == |todos|
  }

  /** The empty accumulator groups the empty list. */
  lemma GroupsOfEmpty()
    ensures GroupsOf(map[], [])
  {
    assert ColumnIds([]) == {};
  }

  /** The map after one step of the `reduce`: the todo pushed onto its column's group, which is
      created empty first if missing. */
  function Pushed(groups: map<int, seq<BoardTodo>>, t: BoardTodo): (r: map<int, seq<BoardTodo>>)
  {
    groups[t.columnId := (if t.columnId in groups then groups[t.columnId] else []) + [t]]
  }

  /** One step of the `reduce` adds the todo's column to the keys, appends the todo to that
      column's group, or starts the group with it, and leaves every other group alone. */
  lemma PushedGroups(groups: map<int, seq<BoardTodo>>, t: BoardTodo)
    ensures Pushed(groups, t).Keys == groups.Keys + {t.columnId}
    ensures forall c :: c in groups && c != t.columnId ==> Pushed(groups, t)[c] == groups[c]
    ensures t.columnId in groups ==> Pushed(groups, t)[t.columnId] == groups[t.columnId] + [t]
    ensures t.columnId !in groups ==> Pushed(groups, t)[t.columnId] == [t]
  {
  }

  /** One step of the `reduce` keeps the grouping exact for the longer prefix `next`. The longer
      prefix is a parameter, rather than `todos + [t]` in the ensures, so that the loop in
      `GroupByColumn` can pass its slice `todos[..i + 1]` without the solver having to equate the
      two sequences under the grouping's quantifiers, which is costly. */
  lemma GroupStep(groups: map<int, seq<BoardTodo>>, todos: seq<BoardTodo>, t: BoardTodo, next: seq<BoardTodo>)
    requires GroupsOf(groups, todos) && next == todos + [t]
    ensures GroupsOf(Pushed(groups, t), next)
  {
    PushAddsOne(groups, t.columnId, t);
    ColumnIdsSnoc(todos, t);
    GroupContentsStep(groups, todos, t);
  }

  /** The prefix one longer is the prefix and the next element. */
  lemma PrefixSnoc<T>(s: seq<T>, i: nat)
    requires i < |s|
    ensures s[..i + 1] == s[..i] + [s[i]]
  {
  }

  lemma ColumnIdsSnoc(todos: seq<BoardTodo>, t: BoardTodo)
    ensures ColumnIds(todos + [t]) == ColumnIds(todos) + {t.columnId}
  {
  }

  /** The contents part of `GroupStep`. */
  lemma GroupContentsStep(groups: map<int, seq<BoardTodo>>, todos: seq<BoardTodo>, t: BoardTodo)
    requires forall c :: c in groups ==> groups[c] == InColumn(todos, c)
    requires groups.Keys == ColumnIds(todos)
    ensures forall d :: d in Pushed(groups, t) ==> Pushed(groups, t)[d] == InColumn(todos + [t], d)
  {
    var c := t.columnId;
    if c !in groups {
      InColumnEmpty(todos, c);
    }
    var g := Pushed(groups, t);
    forall d | d in g
      ensures g[d] == InColumn(todos + [t], d)
    {
      InColumnSnoc(todos, t, d);
    }
  }

  /** The `reduce` that groups the todos by `columnId`, pushing each onto its column's array. */
  method GroupByColumn(todos: seq<BoardTodo>) returns (groups: map<int, seq<BoardTodo>>)
    ensures groups.Keys == ColumnIds(todos)
    ensures forall c :: c in groups ==> groups[c] == InColumn(todos, c)
    ensures TotalSize(groups) == |todos|
  {
    groups := map[];
    var i := 0;
    GroupsOfEmpty();
    assert todos[..0] == [];
    while i < |todos|
      invariant 0 <= i <= |todos|
      invariant GroupsOf(groups, todos[..i])
    {
      PrefixSnoc(todos, i);
      GroupStep(groups, todos[..i], todos[i], todos[..i + 1]);
      groups := Push(groups, todos[i]);
      i := i + 1;
    }
    assert todos[..i] == todos;
  }

  /** The body of the `reduce`: `acc[todo.columnId]` is created empty when missing, then the todo
      is pushed onto it. */
  method Push(acc: map<int, seq<BoardTodo>>, todo: BoardTodo) returns (r: map<int, seq<BoardTodo>>)
    ensures r == Pushed(acc, todo)
  {
    r := acc;
    if todo.columnId !in r {
      r := r[todo.columnId := []];
    }
    r := r[todo.columnId := r[todo.columnId] + [todo]];
  }

  /** Every todo is in the group of its own column and in no other. */
  lemma GroupedOnce(groups: map<int, seq<BoardTodo>>, todos: seq<BoardTodo>, t: BoardTodo, c: int)
    requires forall d :: d in groups ==> groups[d] == InColumn(todos, d)
    requires groups.Keys == ColumnIds(todos)
    requires t in todos
    ensures t.columnId in groups && t in groups[t.columnId]
    ensures c in groups && t in groups[c] ==> c == t.columnId
  {
  }

  /** Non-decreasing in the given key. */
  predicate SortedBy<T>(s: seq<T>, key: T -> int) {
    forall i, j :: 0 <= i < j < |s| ==> key(s[i]) <= key(s[j])
  }

  /** `sort((a, b) => key(a) - key(b))` in place: an insertion sort by adjacent swaps. */
  method SortByKey<T>(a: array<T>, key: T -> int)
    modifies a
    ensures SortedBy(a[..], key)
    ensures multiset(a[..]) == multiset(old(a[..]))
  {
    if a.Length == 0 {
      return;
    }
    var i := 1;
    while i < a.Length
      invariant 1 <= i <= a.Length
      invariant SortedBy(a[..i], key)
      invariant multiset(a[..]) == multiset(old(a[..]))
    {
      Sink(a, i, key);
      i := i + 1;
    }
    assert a[..i] == a[..];
  }

  /** Moves `a[i]` down past the larger elements of the sorted prefix `a[..i]`. */
  method Sink<T>(a: array<T>, i: nat, key: T -> int)
    requires i < a.Length && SortedBy(a[..i], key)
    modifies a
    ensures SortedBy(a[..i + 1], key)
    ensures multiset(a[..]) == multiset(old(a[..]))
  {
    SinkStart(a[..], i, key);
    var j := i;
    while j > 0 && key(a[j - 1]) > key(a[j])
      invariant 0 <= j <= i
      invariant SortedExcept(a[..], i, j, key)
      invariant multiset(a[..]) == multiset(old(a[..]))
    {
      ghost var s := a[..];
      a[j - 1], a[j] := a[j], a[j - 1];
      SwapDown(s, i, j, key);
      assert a[..] == s[j - 1 := s[j]][j := s[j - 1]];
      j := j - 1;
    }
    SinkDone(a[..], i, j, key);
  }

  /** The state of the sinking: `s[..i + 1]` is sorted except around the moving element at `j`,
      which is below everything after it. */
  ghost predicate SortedExcept<T>(s: seq<T>, i: nat, j: nat, key: T -> int) {
    && j <= i < |s|
    && (forall p, q :: 0 <= p < q <= i && p != j && q != j ==> key(s[p]) <= key(s[q]))
    && (forall q :: j < q <= i ==> key(s[j]) < key(s[q]))
  }

  /** A sorted prefix with one element appended is the starting state. */
  lemma SinkStart<T>(s: seq<T>, i: nat, key: T -> int)
    requires i < |s| && SortedBy(s[..i], key)
    ensures SortedExcept(s, i, i, key)
  {
    assert forall p, q :: 0 <= p < q < i ==> s[..i][p] == s[p] && s[..i][q] == s[q];
  }

  /** Swapping the moving element with a larger left neighbour keeps the state one place lower. */
  lemma SwapDown<T>(s: seq<T>, i: nat, j: nat, key: T -> int)
    requires SortedExcept(s, i, j, key) && 0 < j && key(s[j - 1]) > key(s[j])
    ensures SortedExcept(s[j - 1 := s[j]][j := s[j - 1]], i, j - 1, key)
    ensures multiset(s[j - 1 := s[j]][j := s[j - 1]]) == multiset(s)
  {
    var t := s[j - 1 := s[j]][j := s[j - 1]];
    forall p, q | 0 <= p < q <= i && p != j - 1 && q != j - 1
      ensures key(t[p]) <= key(t[q])
    {
      if q == j {
        assert t[q] == s[j - 1];
      } else if p == j {
        assert key(s[j]) < key(s[q]);
      }
    }
  }

  /** When the moving element is not below its left neighbour, the prefix is sorted. */
  lemma SinkDone<T>(s: seq<T>, i: nat, j: nat, key: T -> int)
    requires SortedExcept(s, i, j, key) && (j == 0 || key(s[j - 1]) <= key(s[j]))
    ensures SortedBy(s[..i + 1], key)
  {
    forall p, q | 0 <= p < q <= i ensures key(s[p]) <= key(s[q]) {
      if p == j {
      } else if q == j {
        assert key(s[p]) <= key(s[j - 1]);
      }
    }
    assert forall p, q :: 0 <= p < q <= i ==> s[..i + 1][p] == s[p] && s[..i + 1][q] == s[q];
  }

  /** The sort key of a todo. */
  function Position(t: BoardTodo): (r: int) { t.position }

  /** The sort key of a column. */
  function ColumnPosition(c: BoardColumn): (r: int) { c.position }

  /** The `forEach` that sorts every group in place by `position`, whatever the type of the keys. */
  method SortGroups<K>(groups: map<K, seq<BoardTodo>>) returns (sorted: map<K, seq<BoardTodo>>)
    ensures sorted.Keys == groups.Keys
    ensures forall c :: c in sorted ==> SortedBy(sorted[c], Position)
    ensures forall c :: c in sorted ==> multiset(sorted[c]) == multiset(groups[c])
  {
    sorted := groups;
    var pending := groups.Keys;
    while pending != {}
      invariant pending <= groups.Keys && sorted.Keys == groups.Keys
      invariant forall c :: c in pending ==> sorted[c] == groups[c]
      invariant forall c :: c in sorted && c !in pending ==> SortedBy(sorted[c], Position)
      invariant forall c :: c in sorted ==> multiset(sorted[c]) == multiset(groups[c])
      decreases pending
    {
      var c :| c in pending;
      var group := sorted[c];
      var a := new BoardTodo[|group|](k requires 0 <= k < |group| => group[k]);
      assert a[..] == group;
      SortByKey(a, Position);
      sorted := sorted[c := a[..]];
      pending := pending - {c};
    }
  }

  /** A rendered column with the todos it is given. */
  datatype Lane = Lane(column: BoardColumn, todos: seq<BoardTodo>)

  /** `todosByColumn[column.id] || []`. */
  function LaneTodos(groups: map<int, seq<BoardTodo>>, column: BoardColumn): (r: seq<BoardTodo>)
    ensures column.id in groups ==> r == groups[column.id]
    ensures column.id !in groups ==> r == []
  {
    if column.id in groups then groups[column.id] else []
  }

  /** The board: the columns state array is sorted in place by position, then each column is
      given its todos, sorted by position; a column without todos is given the empty list. */
  method Render(columns: array<BoardColumn>, todos: seq<BoardTodo>) returns (lanes: seq<Lane>)
    modifies columns
    ensures SortedBy(columns[..], ColumnPosition)
    ensures multiset(columns[..]) == multiset(old(columns[..]))
    ensures |lanes| == columns.Length
    ensures forall k :: 0 <= k < |lanes| ==> lanes[k].column == columns[k]
    ensures forall k :: 0 <= k < |lanes| ==> SortedBy(lanes[k].todos, Position)
    ensures forall k :: 0 <= k < |lanes| ==>
      multiset(lanes[k].todos) == multiset(InColumn(todos, columns[k].id))
    ensures forall k :: 0 <= k < |lanes| ==> (lanes[k].todos == [] <==> columns[k].id !in ColumnIds(todos))
  {
    var groups := GroupByColumn(todos);
    var sorted := SortGroups(groups);
    SortByKey(columns, ColumnPosition);
    lanes := [];
    var i := 0;
    while i < columns.Length
      invariant 0 <= i <= columns.Length && |lanes| == i
      invariant forall k :: 0 <= k < i ==> lanes[k] == Lane(columns[k], LaneTodos(sorted, columns[k]))
    {
      lanes := lanes + [Lane(columns[i], LaneTodos(sorted, columns[i]))];
      i := i + 1;
    }
    forall k | 0 <= k < |lanes|
      ensures multiset(lanes[k].todos) == multiset(InColumn(todos, columns[k].id))
      ensures lanes[k].todos == [] <==> columns[k].id !in ColumnIds(todos)
    {
      InColumnEmpty(todos, columns[k].id);
    }
  }
}
