/** The issue server actions: each one inserts, updates or deletes rows of the issues table and
    then revalidates the page at `/`. The table is a map from id to row; the revalidations are a
    log of the paths revalidated, in order. */
module IssueActions {
  import opened Schema
  import Text
  import IssueList

  /** The priority `createIssue` stores: the argument, or `medium` when it is left out. */
  function PriorityOrDefault(priority: Option<Priority>): (r: Priority)
    ensures priority.Some? ==> r == priority.value
    ensures priority.None? ==> r == Medium
  {
    if priority.Some? then priority.value else Medium
  }

  /** The row `createIssue` inserts under `id`, or `None` when the title is blank. */
  function NewRow(id: int, title: string, description: string, priority: Option<Priority>,
                  status: Status, created: int, updated: int): (r: Option<Issue>)
    ensures r.None? <==> Text.IsBlank(title)
    ensures r.Some? ==> r.value.id == id && r.value.title == Text.Trim(title) && r.value.title != []
    ensures r.Some? ==> r.value.description == description && r.value.priority == PriorityOrDefault(priority)
    ensures r.Some? ==> r.value.status == status && r.value.createdAt == created && r.value.updatedAt == updated
  {
    var trimmed := Text.Trim(title);
    if trimmed == [] then None
    else Some(Issue(id, trimmed, description, status, PriorityOrDefault(priority), created, updated))
  }

  /** The stored title has no whitespace at either end and is the input without its surrounding
      whitespace. */
  lemma NewRowTitleTrimmed(id: int, title: string, description: string, priority: Option<Priority>,
                           status: Status, created: int, updated: int)
    requires !Text.IsBlank(title)
    ensures var t := NewRow(id, title, description, priority, status, created, updated).value.title;
      && !Text.IsJsWhitespace(t[0]) && !Text.IsJsWhitespace(t[|t| - 1])
      && t == title[Text.TrimOffset(title)..Text.TrimOffset(title) + |t|]
      && Text.Trim(t) == t
  {
    Text.TrimIsInfix(title);
    Text.TrimIdempotent(title);
  }

  /** `updateIssueStatus` on the table: the row with the id gets the status and the new
      `updated_at`; no other field and no other row changes, and an unknown id changes nothing. */
  function StatusSet(rows: map<int, Issue>, id: int, status: Status, now: int): (r: map<int, Issue>)
    ensures r.Keys == rows.Keys
    ensures forall k :: k in rows && k != id ==> r[k] == rows[k]
    ensures id in rows ==> r[id].status == status && r[id].updatedAt == now
    ensures id in rows ==> r[id].(status := rows[id].status, updatedAt := rows[id].updatedAt) == rows[id]
  {
    if id in rows then rows[id := rows[id].(status := status, updatedAt := now)] else rows
  }

  /** The row `updateIssue` writes over `row`: the new title, description, priority and
      `updated_at`; its id, status and `created_at` stay. */
  function EditedRow(row: Issue, title: string, description: string, priority: Priority, now: int): (r: Issue)
    ensures r.title == title && r.description == description && r.priority == priority && r.updatedAt == now
    ensures r.(title := row.title, description := row.description, priority := row.priority, updatedAt := row.updatedAt) == row
  {
    row.(title := title, description := description, priority := priority, updatedAt := now)
  }

  /** `updateIssue` on the table, given the title it stores: only the row with the id is
      rewritten, and an unknown id changes nothing. */
  function Edited(rows: map<int, Issue>, id: int, title: string, description: string,
                  priority: Priority, now: int): (r: map<int, Issue>)
    ensures r.Keys == rows.Keys
    ensures forall k :: k in rows && k != id ==> r[k] == rows[k]
    ensures id in rows ==> r[id] == EditedRow(rows[id], title, description, priority, now)
  {
    if id in rows then rows[id := EditedRow(rows[id], title, description, priority, now)] else rows
  }

  /** `deleteIssue` on the table: the row with the id is gone, the others stay. */
  function Deleted(rows: map<int, Issue>, id: int): (r: map<int, Issue>)
    ensures r.Keys == rows.Keys - {id}
    ensures forall k :: k in r ==> r[k] == rows[k]
    ensures id !in rows ==> r == rows
  {
    rows - {id}
  }

  /** Of two status updates of the same row, the last one wins, status and timestamp alike. */
  lemma StatusLastWins(rows: map<int, Issue>, id: int, first: Status, second: Status, t1: int, t2: int)
    ensures StatusSet(StatusSet(rows, id, first, t1), id, second, t2) == StatusSet(rows, id, second, t2)
  {
  }

  /** After a delete, a status update or an edit of the same id changes nothing. */
  lemma UpdateAfterDelete(rows: map<int, Issue>, id: int, status: Status, title: string,
                          description: string, priority: Priority, now: int)
    ensures StatusSet(Deleted(rows, id), id, status, now) == Deleted(rows, id)
    ensures Edited(Deleted(rows, id), id, title, description, priority, now) == Deleted(rows, id)
  {
  }

  /** An edit does not touch the status, so a status update and an edit of the same row commute
      up to the `updated_at` they leave behind. */
  lemma StatusEditCommute(rows: map<int, Issue>, id: int, status: Status, title: string,
                          description: string, priority: Priority, t1: int, t2: int)
    ensures Edited(StatusSet(rows, id, status, t1), id, title, description, priority, t2)
         == StatusSet(Edited(rows, id, title, description, priority, t1), id, status, t2)
  {
  }

  /** Every issue of the optimistic list that is a row of the table. */
  ghost predicate Mirrors(rows: map<int, Issue>, state: seq<Issue>) {
    forall k :: 0 <= k < |state| ==> state[k].id in rows && rows[state[k].id] == state[k]
  }

  /** The optimistic status update shows what the server stores, except for `updated_at`, which
      only the server sets. */
  lemma OptimisticStatusAgrees(rows: map<int, Issue>, state: seq<Issue>, id: int, status: Status, now: int)
    requires Mirrors(rows, state)
    ensures var server := StatusSet(rows, id, status, now);
            var client := IssueList.WithStatus(state, id, status);
            forall k :: 0 <= k < |state| ==>
              server[state[k].id].(updatedAt := client[k].updatedAt) == client[k]
  {
    var server := StatusSet(rows, id, status, now);
    var client := IssueList.WithStatus(state, id, status);
    forall k | 0 <= k < |state|
      ensures server[state[k].id].(updatedAt := client[k].updatedAt) == client[k]
    {
      if state[k].id == id {
        assert client[k] == state[k].(status := status);
      }
    }
  }

  /** The optimistic delete keeps exactly the issues whose rows the server keeps. */
  lemma OptimisticDeleteAgrees(rows: map<int, Issue>, state: seq<Issue>, id: int)
    requires Mirrors(rows, state)
    ensures forall x :: x in IssueList.Without(state, id) <==> x in state && x.id in Deleted(rows, id)
  {
  }

  /** The optimistic edit shows the title as typed while the server stores it trimmed: the two
      agree on the edited issue exactly when the typed title has no surrounding whitespace. */
  lemma OptimisticEditAgreesIff(rows: map<int, Issue>, state: seq<Issue>, k: nat, title: string,
                                description: string, priority: Priority, now: int)
    requires Mirrors(rows, state) && k < |state|
    ensures var id := state[k].id;
            var server := Edited(rows, id, Text.Trim(title), description, priority, now);
            var client := IssueList.WithEdit(state, id, title, description, priority);
            server[id].(updatedAt := client[k].updatedAt) == client[k] <==> Text.Trim(title) == title
  {
    var id := state[k].id;
    var server := Edited(rows, id, Text.Trim(title), description, priority, now);
    var client := IssueList.WithEdit(state, id, title, description, priority);
    if Text.Trim(title) == title {
      assert client[k] == state[k].(title := title, description := description, priority := priority);
    } else {
      assert server[id].title != client[k].title;
    }
  }

  /** The issues table with its id counter and the log of revalidated paths. The ids come from
      the table (an increasing counter, as an auto-incremented key), as does the status a new row
      starts in. */
  class IssueTable {
    var rows: map<int, Issue>
    var nextId: int
    var revalidated: seq<string>
    const defaultStatus: Status

    /** Every row is stored under its own id, and every id is below the counter. */
    ghost predicate Valid()
      reads this
    {
      forall k :: k in rows ==> rows[k].id == k && k < nextId
    }

    constructor (defaultStatus: Status)
      ensures rows == map[] && nextId == 1 && revalidated == [] && this.defaultStatus == defaultStatus
      ensures Valid()
    {
      rows := map[];
      nextId := 1;
      revalidated := [];
      this.defaultStatus := defaultStatus;
    }

    /** `createIssue`; `created` and `updated` are the two clock readings. A blank title writes
        nothing and revalidates nothing; otherwise one new row is inserted under a fresh id, no
        existing row changes, and `/` is revalidated. */
    method CreateIssue(title: string, description: string, priority: Option<Priority>, created: int, updated: int)
      requires Valid()
      modifies this
      ensures Valid()
      ensures Text.IsBlank(title) ==>
        rows == old(rows) && nextId == old(nextId) && revalidated == old(revalidated)
      ensures !Text.IsBlank(title) ==>
        && old(nextId) !in old(rows)
        && rows == old(rows)[old(nextId) := NewRow(old(nextId), title, description, priority, defaultStatus, created, updated).value]
        && nextId == old(nextId) + 1
        && revalidated == old(revalidated) + ["/"]
    {
      var row := NewRow(nextId, title, description, priority, defaultStatus, created, updated);
      if row.None? {
        return;
      }
      rows := rows[nextId := row.value];
      nextId := nextId + 1;
      revalidated := revalidated + ["/"];
    }

    /** `updateIssueStatus`; `now` is the clock reading. */
    method UpdateIssueStatus(id: int, status: Status, now: int)
      requires Valid()
      modifies this
      ensures Valid()
      ensures rows == StatusSet(old(rows), id, status, now)
      ensures nextId == old(nextId) && revalidated == old(revalidated) + ["/"]
    {
      rows := StatusSet(rows, id, status, now);
      revalidated := revalidated + ["/"];
    }

    /** `updateIssue`: the title is stored trimmed; a blank title is not rejected but stored as
        the empty string. */
    method UpdateIssue(id: int, title: string, description: string, priority: Priority, now: int)
      requires Valid()
      modifies this
      ensures Valid()
      ensures rows == Edited(old(rows), id, Text.Trim(title), description, priority, now)
      ensures nextId == old(nextId) && revalidated == old(revalidated) + ["/"]
    {
      rows := Edited(rows, id, Text.Trim(title), description, priority, now);
      revalidated := revalidated + ["/"];
    }

    /** `deleteIssue`: the page is revalidated whether or not a row had the id. */
    method DeleteIssue(id: int)
      requires Valid()
      modifies this
      ensures Valid()
      ensures rows == Deleted(old(rows), id)
      ensures nextId == old(nextId) && revalidated == old(revalidated) + ["/"]
    {
      rows := Deleted(rows, id);
      revalidated := revalidated + ["/"];
    }
  }

  /** A blank title is stored by `updateIssue` as the empty string, which `createIssue` would
      have refused. */
  lemma BlankEditStored(rows: map<int, Issue>, id: int, title: string, description: string,
                        priority: Priority, now: int)
    requires id in rows && Text.IsBlank(title)
    ensures Edited(rows, id, Text.Trim(title), description, priority, now)[id].title == []
    ensures NewRow(id, title, description, Some(priority), rows[id].status, now, now).None?
  {
  }
}
