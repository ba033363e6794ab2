# Issue tracker, todo list and board: a Dafny model

This project models the state logic of a small Next.js application. The application has three
parts:

- an issue tracker: a list of issues, a creation form, and server actions over an issues table;
- a terminal-style todo list: a list, an input, and a REST route over a todos table;
- a Trello-like board, which groups todos into columns and sorts them by position.

It also models the first revision of the home page, which kept its todos in local state.

The model follows the source file by file:

- **Pure code becomes functions with lemmas.** This covers the optimistic reducers, the badge
  lookups, the row labels and the request guards.
- **Code that changes state becomes classes.** Their methods update fields and state their whole
  new state in their contracts. This covers the React state cells of the forms and the lists, and
  the tables behind the server actions and the route.
- **The board is methods without a class.** Its `reduce` becomes a loop that builds a new map
  value. Its two `sort` calls work in place on arrays, as in the source.

Shared pieces:

- `Text`: JavaScript's `trim`, with the full ECMAScript whitespace set; `String(n)` for naturals;
  and `padStart`.
- `Seqs`: `Array.prototype.filter` with its order-preservation facts.
- `Schema`: the records.
- `Calls`: the server-action calls a component records.

A component does not apply a server action to a table; it appends the call to its `calls` log.
The server side is modelled separately, in `IssueActions` and `TodosRoute`. Lemmas there relate
the server's effect to the optimistic update the client shows:

- `IssueActions.OptimisticStatusAgrees`
- `IssueActions.OptimisticDeleteAgrees`
- `IssueActions.OptimisticEditAgreesIff`
- `TodosRoute.ServerAgreesWithOptimistic`

The third of these, `IssueActions.OptimisticEditAgreesIff`, shows a divergence visible in the
source. The optimistic edit shows the title
as typed, but `updateIssue` stores it trimmed. The two agree exactly when the typed title has no
surrounding whitespace.

Where the two actions files disagree, the model follows the code. `TodoList.tsx` and
`AddTodoForm.tsx` import `addTodo`, `toggleTodo` and `deleteTodo`, and `AddColumnForm.tsx` imports
`addColumn`. In this revision `src/app/actions.ts` exports only issue actions, so those four are
modelled as calls only. The server effect of the three todo calls is modelled through the REST
route, which uses the same todos table. `addColumn` has no server side in the model.

## Model

| member | source | states |
|---|---|---|
| Text.Trim | src/app/page.tsx:35 | `trim` gives the empty string exactly when the input is all whitespace, and otherwise neither end of the result is whitespace |
| Text.TrimIsInfix | src/app/components/CreateIssueForm.tsx:15 | the trimmed string is a contiguous slice of the input, and only whitespace lies before and after it |
| Text.TrimIdempotent | src/app/components/AddTodoForm.tsx:11 | trimming an already trimmed value changes nothing |
| Text.DecimalString | src/app/components/TodoList.tsx:47 | `String(n)` is a non-empty run of digits with no leading zero, one digit exactly below 10 |
| Text.ParseDecimalString | src/app/components/TodoList.tsx:47 | the digits of `String(n)` denote `n` |
| Text.PadStart | src/app/components/TodoList.tsx:47 | `padStart` has the target width (or the input's width if larger), ends with the input, and is fill characters before it |
| Text.PadStartZeroValue | src/app/components/TodoList.tsx:47 | zero-padding keeps the number the digits denote |
| Seqs.Filter | src/app/components/IssueList.tsx:30 | `filter` keeps exactly the elements satisfying the predicate and never grows the list |
| Seqs.FilterConcat | src/app/components/IssueList.tsx:30 | filtering a concatenation is the concatenation of the filtered parts, so relative order is preserved |
| Seqs.FilterSameLength | src/app/components/TodoList.tsx:22 | a filter drops nothing exactly when every element satisfies the predicate |
| IssueList.WithStatus | src/app/components/IssueList.tsx:23-28 | the status update keeps length and order; matching issues get the status and keep every other field; other issues are unchanged |
| IssueList.Without | src/app/components/IssueList.tsx:29-30 | the delete update keeps exactly the issues whose id differs |
| IssueList.WithEdit | src/app/components/IssueList.tsx:31-36 | the edit update replaces title, description and priority of matching issues only; id, status and timestamps stay; length and order are kept |
| IssueList.Reduce | src/app/components/IssueList.tsx:22-39 | only delete shrinks the list; no update introduces an id the list did not have |
| IssueList.ReduceOtherIsIdentity | src/app/components/IssueList.tsx:38 | an update of any other type returns the state unchanged |
| IssueList.WithoutConcat | src/app/components/IssueList.tsx:30 | delete keeps the surviving issues in their original relative order |
| IssueList.DeleteIdempotent | src/app/components/IssueList.tsx:30 | applying the same delete twice equals applying it once |
| IssueList.DeleteAbsent | src/app/components/IssueList.tsx:30 | deleting an id no issue has changes nothing |
| IssueList.StatusThenDelete | src/app/components/IssueList.tsx:23-30 | a status change followed by a delete of the same id is the delete alone |
| IssueList.StatusLastWins | src/app/components/IssueList.tsx:23-28 | of two status updates of the same id the last wins |
| IssueList.StatusEditCommute | src/app/components/IssueList.tsx:23-36 | a status update and an edit commute |
| IssueList.StatusBadgeTotal | src/app/components/IssueList.tsx:42-49 | open, in_progress and closed get three distinct classes; every other string gets the closed class |
| IssueList.PriorityBadgeTotal | src/app/components/IssueList.tsx:51-58 | high, medium and low get three distinct classes; every other string gets the medium class |
| IssueList.StatusBadgeClass | src/app/components/IssueList.tsx:42-49 | every status class starts with the common `badge ` class |
| IssueList.PriorityBadgeClass | src/app/components/IssueList.tsx:51-58 | every priority class starts with the common `badge ` class |
| IssueList.NextExpanded | src/app/components/IssueList.tsx:221 | clicking an issue's button expands it exactly when it was not the expanded one, and otherwise collapses everything |
| IssueList.ExpandTwice | src/app/components/IssueList.tsx:221 | two clicks on the same collapsed issue leave nothing expanded; two clicks on the expanded one leave it expanded |
| IssueList.View.constructor | src/app/components/IssueList.tsx:13-18 | the initial state: nothing expanded or being edited, empty edit fields, medium priority, no calls |
| IssueList.View.ChangeStatus | src/app/components/IssueList.tsx:60-65 | the optimistic status update, then the `updateIssueStatus` call; the edit state is unchanged |
| IssueList.View.Delete | src/app/components/IssueList.tsx:67-74 | without confirmation nothing happens; with it, the optimistic delete and the `deleteIssue` call |
| IssueList.View.StartEdit | src/app/components/IssueList.tsx:76-82 | the edit fields take the issue's id, title, description and priority, and the expanded issue is cleared |
| IssueList.View.TypeEdit | src/app/components/IssueList.tsx:148-164 | the edit inputs set the edit fields only |
| IssueList.View.SaveEdit | src/app/components/IssueList.tsx:84-96 | the optimistic edit with the current fields, the `updateIssue` call with the same fields, then editing ends |
| IssueList.View.CancelEdit | src/app/components/IssueList.tsx:98-103 | editing ends, the edit title and description empty, priority medium; the list and the calls are unchanged |
| IssueList.View.ToggleExpanded | src/app/components/IssueList.tsx:221 | the expand button changes only the expanded issue, as `NextExpanded` |
| TodoList.WithCompleted | src/app/components/TodoList.tsx:15-20 | the toggle update sets `completed` on matching todos only; length, order and other fields are kept |
| TodoList.Without | src/app/components/TodoList.tsx:21-23 | the delete update keeps exactly the todos whose id differs |
| TodoList.Reduce | src/app/components/TodoList.tsx:14-24 | toggle keeps the length; every non-toggle update leaves no todo with the id |
| TodoList.WithoutConcat | src/app/components/TodoList.tsx:22 | delete keeps the rest in their original order |
| TodoList.DeleteShrinksIffPresent | src/app/components/TodoList.tsx:22 | a delete shortens the list exactly when some todo has the id |
| TodoList.RowLabel | src/app/components/TodoList.tsx:47 | the row number is bracketed |
| TodoList.RowLabelDenotesIndex | src/app/components/TodoList.tsx:47 | the digits in the brackets denote `index + 1`; they are two digits for the first 99 rows, with no leading zero after the ninth row |
| TodoList.CheckboxPrefix | src/app/components/TodoList.tsx:62 | the prefix is the four characters `[X] ` exactly when the todo is completed, and `[ ] ` otherwise |
| TodoList.Rows | src/app/components/TodoList.tsx:39-63 | one row per todo, numbered by `RowLabel`; the caption is the todo's checkbox prefix followed by its text; struck through exactly when completed |
| TodoList.OnToggleClick | src/app/components/TodoList.tsx:27-30 | clicking a row dispatches the toggle update, giving `WithCompleted` of the list with the row's id and the negation of its `completed`, and calls toggle with the same two values |
| TodoList.OnDeleteClick | src/app/components/TodoList.tsx:32-35 | `[DEL]` dispatches the delete update, giving `Without` of the list with the row's id, which removes the row and keeps the others; it calls delete with that id |
| TodoList.FixtureRows | src/app/components/__tests__/TodoList.test.tsx:29-49 | the three-todo fixture renders `[01]`, `[02]`, `[03]`, two unchecked rows and one checked, struck-through row |
| TodoList.SingleDigitLabel | src/app/components/TodoList.tsx:47 | each of the first nine rows is labelled with a zero and its one digit, as `[01]` |
| TodoList.TwoDigitLabel | src/app/components/TodoList.tsx:47 | rows 10 to 99 are labelled with the two digits of their number, as `[10]`, with no padding |
| TodoList.ThreeDigitLabel | src/app/components/TodoList.tsx:47 | rows 100 to 999 are labelled with the three digits of their number, as `[100]`: `padStart` never truncates |
| TodoList.FixtureClicks | src/app/components/__tests__/TodoList.test.tsx:51-86 | on the fixture, toggle is called with `(1, true)` and `(2, false)`, delete with `1`; an empty list renders no rows |
| HomePage.Toggled | src/app/page.tsx:43-46 | toggle flips `completed` on matching todos only; length, ids, texts and order are kept |
| HomePage.ToggleTwice | src/app/page.tsx:45 | toggling the same id twice restores the list |
| HomePage.TogglesCommute | src/app/page.tsx:43-46 | toggles of different ids commute |
| HomePage.Removed | src/app/page.tsx:48-49 | remove keeps exactly the todos whose id differs |
| HomePage.RemovedConcat | src/app/page.tsx:49 | remove keeps the relative order of the rest |
| HomePage.ToggleThenRemove | src/app/page.tsx:43-49 | toggling and then removing an id is removing it |
| HomePage.Page.constructor | src/app/page.tsx:13-14 | the page starts with no todos and an empty task |
| HomePage.Page.Type | src/app/page.tsx:72 | the input sets the task only |
| HomePage.Page.AddTodo | src/app/page.tsx:33-41 | a blank task changes nothing; otherwise exactly one todo is appended with the trimmed text, `completed` false and the clock as id, earlier todos stay, and the task is cleared |
| HomePage.Page.Toggle | src/app/page.tsx:43-46 | the toggle button applies `Toggled` and leaves the task |
| HomePage.Page.Remove | src/app/page.tsx:48-49 | the remove button applies `Removed` and leaves the task |
| Board.InColumn | src/app/components/Board.tsx:18-24 | a column's group holds exactly the input todos with that `columnId` |
| Board.InColumnEmpty | src/app/components/Board.tsx:45 | a column's group is empty exactly when no todo has its id |
| Board.GroupByColumn | src/app/components/Board.tsx:18-24 | the reduce creates one group per column id present; each group is that column's todos in input order; the group sizes add up to the number of todos |
| Board.Push | src/app/components/Board.tsx:19-22 | the reduce body creates the group when missing and appends the todo to it |
| Board.PushedGroups | src/app/components/Board.tsx:19-22 | one reduce step adds the todo's column to the keys, appends the todo to that column's group or starts the group with it, and leaves the other groups alone |
| Board.GroupStep | src/app/components/Board.tsx:18-24 | one step of the reduce keeps the grouping exact for the prefix one longer |
| Board.GroupedOnce | src/app/components/Board.tsx:18-24 | every todo is in the group of its own column and in no other |
| Board.SortByKey | src/app/components/Board.tsx:28 | the in-place sort leaves the array non-decreasing in the key and a permutation of its contents |
| Board.Sink | src/app/components/Board.tsx:28 | one insertion pass extends the sorted prefix by one element and permutes the array |
| Board.SortGroups | src/app/components/Board.tsx:27-29 | after the forEach, every group is non-decreasing in `position` and a permutation of its contents before the sort, and the keys are unchanged |
| Board.LaneTodos | src/app/components/Board.tsx:45 | definition of the lookup with the empty array as fallback: a column gets its group when it has one and the empty list otherwise |
| Board.Render | src/app/components/Board.tsx:39-46 | the columns array is sorted in place by `position` and permuted; each column gets its own todos sorted by position, and the empty list when it has none |
| IssueActions.PriorityOrDefault | src/app/actions.ts:8 | definition of the default argument: a priority left out is medium |
| IssueActions.NewRow | src/app/actions.ts:8-18 | no row for a blank title; otherwise a row with the trimmed, non-empty title, the description, the defaulted priority, the table's status, and both clock readings |
| IssueActions.NewRowTitleTrimmed | src/app/actions.ts:9 | the stored title is the input without its surrounding whitespace and is its own trim |
| IssueActions.StatusSet | src/app/actions.ts:22-30 | only the row with the id changes, and only its status and `updated_at`; an unknown id changes nothing |
| IssueActions.EditedRow | src/app/actions.ts:37-42 | the edited row gets the new title, description, priority and `updated_at`; id, status and `created_at` stay |
| IssueActions.Edited | src/app/actions.ts:35-44 | only the row with the id is rewritten, as `EditedRow` |
| IssueActions.Deleted | src/app/actions.ts:49 | the row with the id is gone and the others stay; an unknown id changes nothing |
| IssueActions.StatusLastWins | src/app/actions.ts:22-30 | of two status updates of the same row the last wins |
| IssueActions.UpdateAfterDelete | src/app/actions.ts:22-49 | after a delete, a status update or an edit of the same id changes nothing |
| IssueActions.StatusEditCommute | src/app/actions.ts:22-44 | a status update and an edit of the same row commute, apart from the `updated_at` they leave |
| IssueActions.OptimisticStatusAgrees | src/app/actions.ts:22-30 | the list's optimistic status update shows what the server stores, except `updated_at` |
| IssueActions.OptimisticDeleteAgrees | src/app/actions.ts:49 | the list's optimistic delete keeps exactly the issues whose rows the server keeps |
| IssueActions.OptimisticEditAgreesIff | src/app/actions.ts:38 | the optimistic edit matches the stored row exactly when the typed title is already trimmed |
| IssueActions.BlankEditStored | src/app/actions.ts:34-44 | `updateIssue` stores a blank title as the empty string, which `createIssue` would refuse |
| IssueActions.IssueTable.constructor | src/app/actions.ts:12-18 | the table the insert writes to starts empty, with the counter at 1, no revalidations, and the given status default |
| IssueActions.IssueTable.CreateIssue | src/app/actions.ts:8-20 | a blank title writes nothing and revalidates nothing; otherwise one row under a fresh id, no other row touched, and `/` revalidated |
| IssueActions.IssueTable.UpdateIssueStatus | src/app/actions.ts:22-32 | the table becomes `StatusSet` of it and `/` is revalidated |
| IssueActions.IssueTable.UpdateIssue | src/app/actions.ts:34-46 | the table becomes `Edited` of it with the trimmed title, with no blank check, and `/` is revalidated |
| IssueActions.IssueTable.DeleteIssue | src/app/actions.ts:48-51 | the table becomes `Deleted` of it and `/` is revalidated even when no row matched |
| TodosRoute.Field | src/app/api/todos/route.ts:14 | definition of destructuring: a field of a non-null body gives a value exactly when the body is an object with that key, and the value is the one stored under the key |
| TodosRoute.Truthy | src/app/api/todos/route.ts:15 | definition of ECMAScript ToBoolean on parsed JSON: `undefined` and `null` are falsy, a string is truthy exactly when non-empty, a number exactly when non-zero, and arrays and objects always |
| TodosRoute.PostRejects | src/app/api/todos/route.ts:15-17 | the three-part guard rejects exactly when `text` is not a string or is all whitespace |
| TodosRoute.PostRejectsIff | src/app/api/todos/route.ts:15 | the truthiness check is redundant: without it the guard rejects the same bodies |
| TodosRoute.PatchAccepts | src/app/api/todos/route.ts:28 | definition of the `typeof` test: the `PATCH` guard passes exactly when the `DELETE` guard passes for `id` and `completed` is a boolean |
| TodosRoute.DeleteAccepts | src/app/api/todos/route.ts:42 | definition of the `typeof` test: the `DELETE` guard fails for a missing `id` and passes exactly when `id` is a number, integral or not |
| TodosRoute.Matches | src/app/api/todos/route.ts:34 | a row matches a number exactly when the number is integral and equals the row's id |
| TodosRoute.SetCompleted | src/app/api/todos/route.ts:31-36 | only rows with the id change, and only their `completed`; length and order are kept |
| TodosRoute.DeleteWhere | src/app/api/todos/route.ts:45 | exactly the rows without the id remain |
| TodosRoute.FirstMatch | src/app/api/todos/route.ts:35-36 | the returned row has the id; there is none exactly when no row has it |
| TodosRoute.FractionalIdMatchesNothing | src/app/api/todos/route.ts:28-45 | a number that is not an integer passes the type check but matches no row, so PATCH and DELETE change nothing |
| TodosRoute.ServerAgreesWithOptimistic | src/app/api/todos/route.ts:31-45 | for an integer id the route's update and delete are the todo list's optimistic toggle and delete |
| TodosRoute.SetCompletedLastWins | src/app/api/todos/route.ts:31-36 | of two PATCHes of the same id the last wins |
| TodosRoute.TodoTable.constructor | src/app/api/todos/route.ts:18-22 | the table the insert writes to starts empty with the counter at 1 |
| TodosRoute.TodoTable.Get | src/app/api/todos/route.ts:8-11 | GET answers 200 with every row and does not touch the table |
| TodosRoute.TodoTable.Post | src/app/api/todos/route.ts:13-24 | a non-JSON or null body throws; a rejected `text` answers 400 and writes nothing; otherwise one row with the trimmed text and `completed` false is appended under a fresh id and returned with 201 |
| TodosRoute.TodoTable.Patch | src/app/api/todos/route.ts:26-38 | 400 and no write unless `id` is a number and `completed` a boolean; otherwise `SetCompleted`, then 200 with the first matching row, or a thrown exception (a 500) when no row has the id, since `NextResponse.json` cannot serialise `undefined` |
| TodosRoute.TodoTable.Delete | src/app/api/todos/route.ts:40-47 | 400 and no write for a non-numeric id; otherwise the matching rows are removed and 204 with no body, also when none matched |
| CreateIssueForm.SubmitDisabled | src/app/components/CreateIssueForm.tsx:114 | the submit button is disabled exactly when the title is all whitespace |
| CreateIssueForm.SubmittedTitleTrimmed | src/app/components/CreateIssueForm.tsx:15-18 | the title sent is non-empty, has no whitespace at either end, and is its own trim |
| CreateIssueForm.Form.constructor | src/app/components/CreateIssueForm.tsx:8-11 | the form starts collapsed, with empty title and description and medium priority |
| CreateIssueForm.Form.Expand | src/app/components/CreateIssueForm.tsx:35 | the collapsed button expands the form and changes nothing else |
| CreateIssueForm.Form.TypeTitle | src/app/components/CreateIssueForm.tsx:70 | the title input sets the title only |
| CreateIssueForm.Form.TypeDescription | src/app/components/CreateIssueForm.tsx:81 | the editor callback sets the description only |
| CreateIssueForm.Form.ChoosePriority | src/app/components/CreateIssueForm.tsx:95 | the select sets the priority only |
| CreateIssueForm.Form.Submit | src/app/components/CreateIssueForm.tsx:13-23 | a disabled submit calls nothing and changes nothing; otherwise `createIssue` gets the trimmed title, description and priority, and the form returns to its defaults |
| CreateIssueForm.Form.Cancel | src/app/components/CreateIssueForm.tsx:25-30 | cancel returns the form to its defaults whatever it holds, and calls nothing |
| AddTodoForm.Form.constructor | src/app/components/AddTodoForm.tsx:7 | the form starts with an empty task and no calls |
| AddTodoForm.Form.Type | src/app/components/AddTodoForm.tsx:23 | typing sets the task to the input value |
| AddTodoForm.Form.Submit | src/app/components/AddTodoForm.tsx:9-16 | a blank task is not submitted and stays; otherwise `addTodo` gets the trimmed task and the task is cleared |
| AddTodoForm.TypedTextSubmitted | src/app/components/__tests__/AddTodoForm.test.tsx:30-40 | the typed `Test todo` is its own trim, so `addTodo` is called with it unchanged |
| AddTodoForm.SpacesNotSubmitted | src/app/components/__tests__/AddTodoForm.test.tsx:54-62 | three spaces are blank, so submitting them calls nothing |
| Text.TrimAround | src/app/components/AddTodoForm.tsx:11 | whitespace around a string with no whitespace at its ends is exactly what `trim` removes |
| AddColumnForm.Form.constructor | src/app/components/AddColumnForm.tsx:7-8 | the form starts closed with an empty title |
| AddColumnForm.Form.Open | src/app/components/AddColumnForm.tsx:23 | "+ Add another list" opens the form |
| AddColumnForm.Form.Type | src/app/components/AddColumnForm.tsx:35 | the input sets the title only |
| AddColumnForm.Form.Submit | src/app/components/AddColumnForm.tsx:10-18 | a blank title calls nothing and changes nothing; otherwise `addColumn` gets the trimmed title, the title is cleared and the form closes |
| AddColumnForm.Form.Cancel | src/app/components/AddColumnForm.tsx:49-52 | cancel closes the form and clears the title, and calls nothing |

## Left out

- Rendering, JSX, class names and styling are not modelled, except the badge lookups, the row
  captions and the strike-through flag. `formatDate` depends on the locale and the clock.
- `localStorage` loading and persisting in `src/app/page.tsx`, and its JSON parsing, are not
  modelled.
- Clocks and ids are parameters:
  - `Date.now()` becomes the `now` parameter of `HomePage.Page.AddTodo`.
  - `new Date()` becomes the `created`, `updated` and `now` parameters of the issue actions.
  - The serial ids of both tables come from a counter field.
- The issues table's definition is not among the files. Its auto-incremented id and its status
  default are assumed: the counter `nextId`, and the `defaultStatus` given to the table's
  constructor.
- `revalidatePath` is an entry appended to a log. `useTransition`, `await` and the concurrent
  interleaving of actions are not modelled. The optimistic state is taken as the committed state:
  there is no revert after a transition ends. Actions that fail or throw are not modelled, so a
  form's reset after an awaited call always happens.
- The database setup and the ORM are not modelled; a table is a map (issues) or a sequence in
  insertion order (todos). The order `GET` returns rows in is taken to be insertion order.
- `RichTextEditor` is not modelled: only what its `onChange` delivers is. `Card.tsx` and
  `Column.tsx` are presentational and not modelled.
- A `Thrown` response in the todos route stands for an exception escaping the handler, which the framework
  answers with a 500; that answer's body is not modelled.
- JSON numbers are exact reals, so floating-point precision, `NaN` and `-0` are not modelled.
  Malformed JSON is the `None` body.
- `IssueActions.NewRow`: `description || ''` is the identity on strings, so the description is
  stored as given; a missing or non-string description is not modelled.
- `Board.SortByKey`: JavaScript's sort is stable, but this contract does not state stability,
  only sortedness and permutation. `Board.SortGroups` does not state the order the keys are
  visited in, which does not affect the result.
- No board reordering or position shifting appears in the source, and none is modelled.
