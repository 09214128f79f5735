/** The todo record and the request bodies of the todo routes. */
module TodoTypes {
  import opened Wrappers
  import opened FlatFile

  /** A stored todo. There is no owner field: the record carries no user id. */
  datatype Todo = Todo(
    id: int,
    title: string,
    description: Option<string>,
    completed: bool,
    createdAt: Timestamp,
    updatedAt: Timestamp)

  /** The body of a create request; a field the client left out is `None`. */
  datatype CreateTodoDto = CreateTodoDto(title: Option<string>, description: Option<string>)

  /** The body of an update request; only the fields present are to change. */
  datatype UpdateTodoDto = UpdateTodoDto(title: Option<string>, description: Option<string>, completed: Option<bool>)
}
