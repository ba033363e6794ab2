/** The records the components and handlers pass around, and the values of their enum columns. */
module Schema {

  /** A nullable value (`T | null` in the components' state). */
  datatype Option<T> = None | Some(value: T)

  /** An issue's status; `Name` is the string stored in the row. */
  datatype Status = Open | InProgress | Closed {
    function Name(): (r: string) {
      match this
      case Open => "open"
      case InProgress => "in_progress"
      case Closed => "closed"
    }
  }

  /** An issue's priority; `Name` is the string stored in the row. */
  datatype Priority = Low | Medium | High {
    function Name(): (r: string) {
      match this
      case Low => "low"
      case Medium => "medium"
      case High => "high"
    }
  }

  /** A row of the issues table; the timestamps are clock readings in milliseconds. */
  datatype Issue = Issue(id: int, title: string, description: string, status: Status,
                         priority: Priority, createdAt: int, updatedAt: int)

  /** A row of the todos table of the list revisions, and the local todo of the first revision. */
  datatype Todo = Todo(id: int, text: string, completed: bool)

  /** A card of the board revision: a todo placed in a column at a position. */
  datatype BoardTodo = BoardTodo(id: int, text: string, columnId: int, position: int)

  /** A column (list) of the board revision. */
  datatype BoardColumn = BoardColumn(id: int, title: string, position: int)
}
