/** The server actions the client components call. Their effect on the server is not part of a
    component's state: a component records each call, in order, in its call log. */
module Calls {
  import opened Schema

  datatype Call =
    | CreateIssue(title: string, description: string, priority: Priority)
    | UpdateIssueStatus(id: int, status: Status)
    | UpdateIssue(id: int, title: string, description: string, priority: Priority)
    | DeleteIssue(id: int)
    | AddTodo(text: string)
    | ToggleTodo(id: int, completed: bool)
    | DeleteTodo(id: int)
    | AddColumn(title: string)
}
