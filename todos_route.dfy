/** The todos REST route: `GET` lists the table, `POST` inserts a todo, `PATCH` sets a todo's
    `completed`, `DELETE` removes a todo. Each handler reads the request's JSON body, checks the
    fields it needs, and answers 400 when they are wrong. */
module TodosRoute {
  import opened Schema
  import Text
  import Seqs
  import TodoList

  /** A JSON value as `JSON.parse` produces it; numbers are exact decimals here. */
  datatype Json =
    | JNull
    | JBool(b: bool)
    | JNumber(x: real)
    | JString(s: string)
    | JArray(items: seq<Json>)
    | JObject(fields: map<string, Json>)

  /** What a handler answers with. `Thrown` is an exception escaping the handler: a body that is
      not JSON, or the JSON `null`, whose fields cannot be destructured; or a `PATCH` that matched
      no row, whose `undefined` result `NextResponse.json` cannot serialise. */
  datatype Body = Error(message: string) | One(row: Todo) | All(rows: seq<Todo>) | Updated(updated: Todo) | NoBody
  datatype Response = Reply(status: int, body: Body) | Thrown

  /** The property `name` of a parsed body that is not `null`: `None` is `undefined`, which is
      what every value but an object holding the key gives. */
  function Field(body: Json, name: string): (r: Option<Json>)
    requires !body.JNull?
    ensures r.Some? <==> body.JObject? && name in body.fields
    ensures r.Some? ==> r.value == body.fields[name]
  {
    if body.JObject? && name in body.fields then Some(body.fields[name]) else None
  }

  /** JavaScript truthiness of a property value (`undefined` is `None`). */
  function Truthy(v: Option<Json>): (r: bool)
    ensures v.None? || v.value.JNull? ==> !r
    ensures v.Some? && v.value.JString? ==> (r <==> v.value.s != [])
    ensures v.Some? && v.value.JNumber? ==> (r <==> v.value.x != 0.0)
    ensures v.Some? && (v.value.JArray? || v.value.JObject?) ==> r
  {
    match v
    case None => false
    case Some(JNull) => false
    case Some(JBool(b)) => b
    case Some(JNumber(x)) => x != 0.0
    case Some(JString(s)) => s != []
    case Some(_) => true
  }

  /** The `POST` guard exactly as written: a falsy `text`, a `text` that is not a string, or one
      that trims to the empty string. */
  function PostRejects(text: Option<Json>): (r: bool)
    ensures r <==> !(text.Some? && text.value.JString? && !Text.IsBlank(text.value.s))
  {
    || !Truthy(text)
    || !(text.Some? && text.value.JString?)
    || Text.Trim(text.value.s) == []
  }

  /** The first of the three checks is subsumed by the other two: dropping the truthiness check
      rejects the same bodies. */
  lemma PostRejectsIff(text: Option<Json>)
    ensures PostRejects(text) <==> !(text.Some? && text.value.JString?) || Text.Trim(text.value.s) == []
  {
  }

  /** The `completed` `POST` stores: the table's default, since the request's is not read. */
  const DefaultCompleted := false

  /** The `PATCH` guard: `id` must be a number and `completed` a boolean. */
  function PatchAccepts(id: Option<Json>, completed: Option<Json>): (r: bool)
    ensures r <==> DeleteAccepts(id) && completed.Some? && completed.value.JBool?
  {
    id.Some? && id.value.JNumber? && completed.Some? && completed.value.JBool?
  }

  /** The `DELETE` guard: `id` must be a number; any number passes, a numeric string does not. */
  function DeleteAccepts(id: Option<Json>): (r: bool)
    ensures r ==> id.Some?
    ensures id.Some? ==> (r <==> id.value.JNumber?)
  {
    id.Some? && id.value.JNumber?
  }

  /** A row matches `where(eq(todos.id, id))` when its integer id equals the number. */
  function Matches(row: Todo, id: real): (r: bool)
    ensures r <==> id.Floor as real == id && row.id == id.Floor
  {
    row.id as real == id
  }

  /** The `update ... set({ completed })` on the table: matching rows get the value; every other
      field and every other row stays, in order. */
  function SetCompleted(rows: seq<Todo>, id: real, completed: bool): (r: seq<Todo>)
    ensures |r| == |rows|
    ensures forall k :: 0 <= k < |r| ==> r[k].(completed := rows[k].completed) == rows[k]
    ensures forall k :: 0 <= k < |r| ==> if Matches(rows[k], id) then r[k].completed == completed else r[k] == rows[k]
  {
    seq(|rows|, k requires 0 <= k < |rows| =>
      if Matches(rows[k], id) then rows[k].(completed := completed) else rows[k])
  }

  /** The `delete ... where(eq(todos.id, id))` on the table. */
  function DeleteWhere(rows: seq<Todo>, id: real): (r: seq<Todo>)
    ensures forall x :: x in r <==> x in rows && !Matches(x, id)
  {
    Seqs.Filter(rows, (t: Todo) => !Matches(t, id))
  }

  /** What `.returning().get()` gives after the update: the first row with the id, if any. */
  function FirstMatch(rows: seq<Todo>, id: real): (r: Option<Todo>)
    ensures r.Some? ==> r.value in rows && Matches(r.value, id)
    ensures r.None? <==> forall x :: x in rows ==> !Matches(x, id)
  {
    if rows == [] then None
    else if Matches(rows[0], id) then Some(rows[0])
    else FirstMatch(rows[1..], id)
  }

  /** A number with a fractional part matches no row, so `PATCH` and `DELETE` with it change
      nothing. */
  lemma FractionalIdMatchesNothing(rows: seq<Todo>, id: real, completed: bool)
    requires id.Floor as real != id
    ensures SetCompleted(rows, id, completed) == rows
    ensures DeleteWhere(rows, id) == rows
    ensures FirstMatch(rows, id) == None
  {
    Seqs.FilterKeepsAll(rows, (t: Todo) => !Matches(t, id));
  }

  /** For an integer id the server's update and delete are the list's optimistic toggle and
      delete updates. */
  lemma ServerAgreesWithOptimistic(rows: seq<Todo>, id: int, completed: bool)
    ensures SetCompleted(rows, id as real, completed) == TodoList.WithCompleted(rows, id, completed)
    ensures DeleteWhere(rows, id as real) == TodoList.Without(rows, id)
  {
    Seqs.FilterCongruent(rows, (t: Todo) => !Matches(t, id as real), (x: Todo) => x.id != id);
  }

  /** Setting `completed` twice on the same id: the last value wins. */
  lemma SetCompletedLastWins(rows: seq<Todo>, id: real, first: bool, second: bool)
    ensures SetCompleted(SetCompleted(rows, id, first), id, second) == SetCompleted(rows, id, second)
  {
  }

  /** The todos table in insertion order, and the counter its serial ids come from. */
  class TodoTable {
    var rows: seq<Todo>
    var nextId: int

    /** The ids are distinct and below the counter. */
    ghost predicate Valid()
      reads this
    {
      && (forall k :: 0 <= k < |rows| ==> rows[k].id < nextId)
      && (forall i, j :: 0 <= i < j < |rows| ==> rows[i].id != rows[j].id)
    }

    constructor ()
      ensures rows == [] && nextId == 1 && Valid()
    {
      rows := [];
      nextId := 1;
    }

    /** `GET`: every row, and the table is not touched. */
    method Get() returns (res: Response)
      ensures res == Reply(200, All(rows))
    {
      res := Reply(200, All(rows));
    }

    /** `POST`; `body` is the parsed request body, `None` when it is not JSON. */
    method Post(body: Option<Json>) returns (res: Response)
      requires Valid()
      modifies this
      ensures Valid()
      ensures body.None? || body.value.JNull? ==> res == Thrown && rows == old(rows) && nextId == old(nextId)
      ensures body.Some? && !body.value.JNull? && PostRejects(Field(body.value, "text")) ==>
        res == Reply(400, Error("Text is required")) && rows == old(rows) && nextId == old(nextId)
      ensures body.Some? && !body.value.JNull? && !PostRejects(Field(body.value, "text")) ==>
        var row := Todo(old(nextId), Text.Trim(Field(body.value, "text").value.s), DefaultCompleted);
        && res == Reply(201, One(row))
        && rows == old(rows) + [row]
        && nextId == old(nextId) + 1
    {
      if body.None? || body.value.JNull? {
        return Thrown;
      }
      var text := Field(body.value, "text");
      if PostRejects(text) {
        return Reply(400, Error("Text is required"));
      }
      var inserted := Todo(nextId, Text.Trim(text.value.s), DefaultCompleted);
      rows := rows + [inserted];
      nextId := nextId + 1;
      res := Reply(201, One(inserted));
    }

    /** `PATCH`: a valid payload sets `completed` on the row with the id and answers with that
        row; when no row has the id the update writes nothing and the handler throws. */
    method Patch(body: Option<Json>) returns (res: Response)
      requires Valid()
      modifies this
      ensures Valid() && nextId == old(nextId)
      ensures body.None? || body.value.JNull? ==> res == Thrown && rows == old(rows)
      ensures body.Some? && !body.value.JNull? ==>
        var id := Field(body.value, "id");
        var completed := Field(body.value, "completed");
        if PatchAccepts(id, completed) then
          && rows == SetCompleted(old(rows), id.value.x, completed.value.b)
          && res == (if FirstMatch(rows, id.value.x).Some? then Reply(200, Updated(FirstMatch(rows, id.value.x).value))
                     else Thrown)
        else
          res == Reply(400, Error("Invalid payload")) && rows == old(rows)
    {
      if body.None? || body.value.JNull? {
        return Thrown;
      }
      var id := Field(body.value, "id");
      var completed := Field(body.value, "completed");
      if !PatchAccepts(id, completed) {
        return Reply(400, Error("Invalid payload"));
      }
      rows := SetCompleted(rows, id.value.x, completed.value.b);
      var updated := FirstMatch(rows, id.value.x);
      if updated.None? {
        return Thrown;
      }
      res := Reply(200, Updated(updated.value));
    }

    /** `DELETE`: a numeric id removes the row with it, if any, and answers 204 with no body. */
    method Delete(body: Option<Json>) returns (res: Response)
      requires Valid()
      modifies this
      ensures Valid() && nextId == old(nextId)
      ensures body.None? || body.value.JNull? ==> res == Thrown && rows == old(rows)
      ensures body.Some? && !body.value.JNull? ==>
        var id := Field(body.value, "id");
        if DeleteAccepts(id) then rows == DeleteWhere(old(rows), id.value.x) && res == Reply(204, NoBody)
        else res == Reply(400, Error("Invalid id")) && rows == old(rows)
    {
      if body.None? || body.value.JNull? {
        return Thrown;
      }
      var id := Field(body.value, "id");
      if !DeleteAccepts(id) {
        return Reply(400, Error("Invalid id"));
      }
      assert Seqs.DistinctBy(rows, (t: Todo) => t.id);
      Seqs.FilterKeepsDistinct(rows, (t: Todo) => !Matches(t, id.value.x), (t: Todo) => t.id);
      rows := DeleteWhere(rows, id.value.x);
      assert forall k :: 0 <= k < |rows| ==> rows[k] in old(rows);
      assert Seqs.DistinctBy(rows, (t: Todo) => t.id);
      res := Reply(204, NoBody);
    }
  }
}
