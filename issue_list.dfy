/** The issue list component: its optimistic reducer over the issue list, the badge class
    lookups, and the handlers that move its edit and expand state. */
module IssueList {
  import opened Schema
  import opened Calls
  import Seqs

  /** The optimistic update the handlers dispatch; `Other` stands for any other `type`. */
  datatype IssueUpdate =
    | StatusUpdate(id: int, status: Status)
    | DeleteUpdate(id: int)
    | EditUpdate(id: int, title: string, description: string, priority: Priority)
    | Other(kind: string, id: int)

  /** The `status` update: matching issues get the new status and keep every other field. */
  function WithStatus(state: seq<Issue>, id: int, status: Status): (r: seq<Issue>)
    ensures |r| == |state|
    ensures forall k :: 0 <= k < |r| ==> r[k].(status := state[k].status) == state[k]
    ensures forall k :: 0 <= k < |r| ==> if state[k].id == id then r[k].status == status else r[k] == state[k]
  {
    seq(|state|, k requires 0 <= k < |state| =>
      if state[k].id == id then state[k].(status := status) else state[k])
  }

  /** The `delete` update: the issues whose id differs, in their original order. */
  function Without(state: seq<Issue>, id: int): (r: seq<Issue>)
    ensures forall x :: x in r <==> x in state && x.id != id
  {
    Seqs.Filter(state, (x: Issue) => x.id != id)
  }

  /** The `edit` update: matching issues get the new title, description and priority;
      their id, status and timestamps stay. */
  function WithEdit(state: seq<Issue>, id: int, title: string, description: string, priority: Priority): (r: seq<Issue>)
    ensures |r| == |state|
    ensures forall k :: 0 <= k < |r| ==>
      r[k].(title := state[k].title, description := state[k].description, priority := state[k].priority) == state[k]
    ensures forall k :: 0 <= k < |r| ==>
      if state[k].id == id then r[k].title == title && r[k].description == description && r[k].priority == priority
      else r[k] == state[k]
  {
    seq(|state|, k requires 0 <= k < |state| =>
      if state[k].id == id then state[k].(title := title, description := description, priority := priority)
      else state[k])
  }

  /** The reducer passed to `useOptimistic`. */
  function Reduce(state: seq<Issue>, update: IssueUpdate): (r: seq<Issue>)
    ensures |r| <= |state|
    ensures !update.DeleteUpdate? ==> |r| == |state|
    ensures forall x :: x in r ==> x.id in set y | y in state :: y.id
  {
    match update
    case StatusUpdate(id, status) => WithStatus(state, id, status)
    case DeleteUpdate(id) => Without(state, id)
    case EditUpdate(id, title, description, priority) => WithEdit(state, id, title, description, priority)
    case Other(_, _) => state
  }

  /** An update whose `type` is none of the three the reducer knows leaves the list as it was. */
  lemma ReduceOtherIsIdentity(state: seq<Issue>, kind: string, id: int)
    ensures Reduce(state, Other(kind, id)) == state
  {
  }

  /** Deleting removes every issue with the id from any part of the list and keeps the rest in order. */
  lemma WithoutConcat(a: seq<Issue>, b: seq<Issue>, id: int)
    ensures Without(a + b, id) == Without(a, id) + Without(b, id)
  {
    Seqs.FilterConcat(a, b, (x: Issue) => x.id != id);
  }

  /** Applying the same `delete` twice is applying it once. */
  lemma DeleteIdempotent(state: seq<Issue>, id: int)
    ensures Reduce(Reduce(state, DeleteUpdate(id)), DeleteUpdate(id)) == Reduce(state, DeleteUpdate(id))
  {
    Seqs.FilterIdempotent(state, (x: Issue) => x.id != id);
  }

  /** Deleting an id that no issue has changes nothing. */
  lemma DeleteAbsent(state: seq<Issue>, id: int)
    requires forall k :: 0 <= k < |state| ==> state[k].id != id
    ensures Without(state, id) == state
  {
    Seqs.FilterKeepsAll(state, (x: Issue) => x.id != id);
  }

  /** A status change of an issue that is then deleted leaves no trace. */
  lemma StatusThenDelete(state: seq<Issue>, id: int, status: Status)
    ensures Without(WithStatus(state, id, status), id) == Without(state, id)
  {
    Seqs.FilterPointwise(WithStatus(state, id, status), state, (x: Issue) => x.id != id);
  }

  /** Status updates of the same id: the last one wins. */
  lemma StatusLastWins(state: seq<Issue>, id: int, first: Status, second: Status)
    ensures WithStatus(WithStatus(state, id, first), id, second) == WithStatus(state, id, second)
  {
  }

  /** A status update and an edit touch disjoint fields, so their order does not matter. */
  lemma StatusEditCommute(state: seq<Issue>, id1: int, status: Status,
                          id2: int, title: string, description: string, priority: Priority)
    ensures WithEdit(WithStatus(state, id1, status), id2, title, description, priority)
         == WithStatus(WithEdit(state, id2, title, description, priority), id1, status)
  {
  }

  /** `getStatusBadgeClass`. */
  function StatusBadgeClass(status: string): (r: string)
    ensures |r| > 6 && r[..6] == "badge "
  {
    match status
    case "open" => "badge badge-open"
    case "in_progress" => "badge badge-in-progress"
    case "closed" => "badge badge-closed"
    case _ => "badge badge-closed"
  }

  /** `getPriorityBadgeClass`. */
  function PriorityBadgeClass(priority: string): (r: string)
    ensures |r| > 6 && r[..6] == "badge "
  {
    match priority
    case "high" => "badge badge-high"
    case "medium" => "badge badge-medium"
    case "low" => "badge badge-low"
    case _ => "badge badge-medium"
  }

  /** The three statuses get three distinct badges; any other string gets the closed badge. */
  lemma StatusBadgeTotal(s: string)
    ensures StatusBadgeClass(Open.Name()) != StatusBadgeClass(InProgress.Name())
    ensures StatusBadgeClass(Open.Name()) != StatusBadgeClass(Closed.Name())
    ensures StatusBadgeClass(InProgress.Name()) != StatusBadgeClass(Closed.Name())
    ensures s != "open" && s != "in_progress" ==> StatusBadgeClass(s) == StatusBadgeClass(Closed.Name())
  {
  }

  /** The three priorities get three distinct badges; any other string gets the medium badge. */
  lemma PriorityBadgeTotal(s: string)
    ensures PriorityBadgeClass(High.Name()) != PriorityBadgeClass(Medium.Name())
    ensures PriorityBadgeClass(High.Name()) != PriorityBadgeClass(Low.Name())
    ensures PriorityBadgeClass(Medium.Name()) != PriorityBadgeClass(Low.Name())
    ensures s != "high" && s != "low" ==> PriorityBadgeClass(s) == PriorityBadgeClass(Medium.Name())
  {
  }

  /** The expand button: the clicked issue collapses if it was the expanded one, else it becomes
      the only expanded issue. */
  function NextExpanded(expanded: Option<int>, id: int): (r: Option<int>)
    ensures r == Some(id) <==> expanded != Some(id)
    ensures r == None || r == Some(id)
  {
    if expanded == Some(id) then None else Some(id)
  }

  /** Two clicks on the same issue's button: from collapsed it is collapsed again (nothing is
      expanded), and from expanded it is expanded again. */
  lemma ExpandTwice(expanded: Option<int>, id: int)
    ensures NextExpanded(NextExpanded(expanded, id), id) == if expanded == Some(id) then expanded else None
  {
  }

  /** The component's state: the optimistic issue list, the expand and edit state cells, and the
      server actions its handlers have called. */
  class View {
    var issues: seq<Issue>
    var expandedIssue: Option<int>
    var editingIssue: Option<int>
    var editTitle: string
    var editDescription: string
    var editPriority: Priority
    var calls: seq<Call>

    /** Nothing expanded, nothing being edited, and the edit fields at their defaults. */
    predicate EditCleared()
      reads this
    {
      editingIssue == None && editTitle == [] && editDescription == [] && editPriority == Medium
    }

    constructor (initialIssues: seq<Issue>)
      ensures issues == initialIssues && calls == []
      ensures expandedIssue == None && EditCleared()
    {
      issues := initialIssues;
      expandedIssue := None;
      editingIssue := None;
      editTitle := [];
      editDescription := [];
      editPriority := Medium;
      calls := [];
    }

    /** `handleStatusChange`: the optimistic status update, then the server action. */
    method ChangeStatus(id: int, status: Status)
      modifies this
      ensures issues == Reduce(old(issues), StatusUpdate(id, status))
      ensures calls == old(calls) + [UpdateIssueStatus(id, status)]
      ensures expandedIssue == old(expandedIssue) && editingIssue == old(editingIssue)
      ensures editTitle == old(editTitle) && editDescription == old(editDescription) && editPriority == old(editPriority)
    {
      issues := Reduce(issues, StatusUpdate(id, status));
      calls := calls + [UpdateIssueStatus(id, status)];
    }

    /** `handleDelete`: nothing happens unless the user confirms the dialog. */
    method Delete(id: int, confirmed: bool)
      modifies this
      ensures issues == if confirmed then Reduce(old(issues), DeleteUpdate(id)) else old(issues)
      ensures calls == old(calls) + if confirmed then [DeleteIssue(id)] else []
      ensures expandedIssue == old(expandedIssue) && editingIssue == old(editingIssue)
      ensures editTitle == old(editTitle) && editDescription == old(editDescription) && editPriority == old(editPriority)
    {
      if !confirmed {
        return;
      }
      issues := Reduce(issues, DeleteUpdate(id));
      calls := calls + [DeleteIssue(id)];
    }

    /** `handleEditStart`: the edit fields take the issue's values and the list collapses. */
    method StartEdit(issue: Issue)
      modifies this
      ensures editingIssue == Some(issue.id) && editTitle == issue.title
      ensures editDescription == issue.description && editPriority == issue.priority
      ensures expandedIssue == None
      ensures issues == old(issues) && calls == old(calls)
    {
      editingIssue := Some(issue.id);
      editTitle := issue.title;
      editDescription := issue.description;
      editPriority := issue.priority;
      expandedIssue := None;
    }

    /** The edit form's inputs. */
    method TypeEdit(title: string, description: string, priority: Priority)
      modifies this
      ensures editTitle == title && editDescription == description && editPriority == priority
      ensures editingIssue == old(editingIssue) && expandedIssue == old(expandedIssue)
      ensures issues == old(issues) && calls == old(calls)
    {
      editTitle, editDescription, editPriority := title, description, priority;
    }

    /** `handleEditSave`: the optimistic edit with the current edit fields, the server action,
        then the edit form closes; the edit fields keep their values. */
    method SaveEdit(id: int)
      modifies this
      ensures issues == Reduce(old(issues), EditUpdate(id, old(editTitle), old(editDescription), old(editPriority)))
      ensures calls == old(calls) + [UpdateIssue(id, old(editTitle), old(editDescription), old(editPriority))]
      ensures editingIssue == None && expandedIssue == old(expandedIssue)
      ensures editTitle == old(editTitle) && editDescription == old(editDescription) && editPriority == old(editPriority)
    {
      issues := Reduce(issues, EditUpdate(id, editTitle, editDescription, editPriority));
      calls := calls + [UpdateIssue(id, editTitle, editDescription, editPriority)];
      editingIssue := None;
    }

    /** `handleEditCancel`: the edit state goes back to its defaults; nothing is called. */
    method CancelEdit()
      modifies this
      ensures EditCleared()
      ensures issues == old(issues) && calls == old(calls) && expandedIssue == old(expandedIssue)
    {
      editingIssue := None;
      editTitle := [];
      editDescription := [];
      editPriority := Medium;
    }

    /** The Expand/Collapse button of the issue `id`. */
    method ToggleExpanded(id: int)
      modifies this
      ensures expandedIssue == NextExpanded(old(expandedIssue), id)
      ensures editingIssue == old(editingIssue) && editTitle == old(editTitle)
      ensures editDescription == old(editDescription) && editPriority == old(editPriority)
      ensures issues == old(issues) && calls == old(calls)
    {
      expandedIssue := if expandedIssue == Some(id) then None else Some(id);
    }
  }
}
