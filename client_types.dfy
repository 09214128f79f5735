/**
 * The frontend's own view of the records (frontend/src/types/index.ts):
 * timestamps arrive as strings, and a todo carries the owner id the
 * client expects, even though the todo service does not set it.
 */
module ClientTypes {
  import opened Wrappers

  datatype ClientUser = ClientUser(id: int, username: string, email: string, createdAt: string, updatedAt: string)

  datatype ClientTodo = ClientTodo(
    id: int,
    userId: int,
    title: string,
    description: Option<string>,
    completed: bool,
    createdAt: string,
    updatedAt: string)

  /** A failed API call, as the HTTP client reports it. */
  datatype ApiError = ApiError(statusCode: int, message: string)
}
