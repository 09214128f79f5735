/**
 * todo.controller.ts: every route first asks the session for the current
 * user's id and only then calls the todo service with the route's id and
 * body unchanged. The id it obtains is passed along, but the service as
 * written takes no such parameter, so it has no effect on the outcome.
 */
module TodoRoutes {
  import opened Wrappers
  import opened FlatFile
  import opened UserTypes
  import opened TodoTypes
  import opened Todos
  import TodoService
  import Session

  const LoginFirst := Unauthorized("Please login first")

  /** `getCurrentUserId`: the bound user's id, or Unauthorized when the slot is empty. */
  function CurrentUserId(slot: Option<UserResponse>): (r: Result<int, Exception>)
    ensures r.Err? <==> slot.None?
    ensures r.Err? ==> r.error == LoginFirst
    ensures r.Ok? ==> r.value == slot.value.id
  {
    match slot
    case None => Err(LoginFirst)
    case Some(u) => Ok(u.id)
  }

  /**
   * A route guarded by the session: with no user bound, Unauthorized and
   * the file as it was; otherwise the service step's result and file.
   */
  function Guarded<T>(slot: Option<UserResponse>, file: Option<seq<Todo>>,
                      step: (Result<T, Exception>, Option<seq<Todo>>)): (g: (Result<T, Exception>, Option<seq<Todo>>))
    ensures slot.None? ==> g == (Err(LoginFirst), file)
    ensures slot.Some? ==> g == step
  {
    if slot.None? then (Err(LoginFirst), file) else step
  }

  /**
   * Without a session the guard answers before the service's own checks:
   * id 0 is Unauthorized, not the BadRequest the service gives once a user
   * is bound, and the file is not touched.
   */
  lemma LoginCheckedBeforeId(file: Option<seq<Todo>>, dto: UpdateTodoDto, now: Timestamp, u: UserResponse)
    ensures Guarded(None, file, UpdateStep(file, 0, dto, now)) == (Err(LoginFirst), file)
    ensures Guarded(Some(u), file, UpdateStep(file, 0, dto, now)) == (Err(InvalidId), file)
    ensures Guarded(None, file, RemoveStep(file, 0)) == (Err(LoginFirst), file)
    ensures Guarded(Some(u), file, RemoveStep(file, 0)) == (Err(InvalidId), file)
    ensures Guarded(None, file, ToggleStep(file, 0, now)) == (Err(LoginFirst), file)
    ensures Guarded(Some(u), file, ToggleStep(file, 0, now)) == (Err(InvalidId), file)
  {
  }

  class TodoController {
    const todoService: TodoService.TodoService
    const authService: Session.AuthService

    constructor (todoService: TodoService.TodoService, authService: Session.AuthService)
      ensures this.todoService == todoService && this.authService == authService
    {
      this.todoService := todoService;
      this.authService := authService;
    }

    /** `getCurrentUserId`: reads the slot, changes nothing. */
    method GetCurrentUserId() returns (r: Result<int, Exception>)
      ensures r == CurrentUserId(authService.currentUser)
    {
      var user := authService.GetCurrentUser();
      if user.None? {
        return Err(LoginFirst);
      }
      return Ok(user.value.id);
    }

    /** `POST /todos`. */
    method Create(dto: CreateTodoDto, now: Timestamp) returns (r: Result<Todo, Exception>)
      modifies todoService.db
      ensures (r, todoService.db.file)
              == Guarded(authService.currentUser, old(todoService.db.file), CreateStep(old(todoService.db.file), dto, now))
    {
      var userId := GetCurrentUserId();
      if userId.Err? {
        return Err(userId.error);
      }
      r := todoService.Create(dto, now);
    }

    /** `GET /todos`. */
    method FindAll() returns (r: Result<seq<Todo>, Exception>)
      ensures authService.currentUser.None? ==> r == Err(LoginFirst)
      ensures authService.currentUser.Some? ==> r == Ok(todoService.db.Contents())
    {
      var userId := GetCurrentUserId();
      if userId.Err? {
        return Err(userId.error);
      }
      var todos := todoService.FindAll();
      return Ok(todos);
    }

    /** `GET /todos/:id`. */
    method FindOne(id: int) returns (r: Result<Todo, Exception>)
      ensures authService.currentUser.None? ==> r == Err(LoginFirst)
      ensures authService.currentUser.Some? ==> r == FindOneResult(todoService.db.Contents(), id)
    {
      var userId := GetCurrentUserId();
      if userId.Err? {
        return Err(userId.error);
      }
      r := todoService.FindOne(id);
    }

    /** `PATCH /todos/:id`. */
    method Update(id: int, dto: UpdateTodoDto, now: Timestamp) returns (r: Result<Todo, Exception>)
      modifies todoService.db
      ensures (r, todoService.db.file)
              == Guarded(authService.currentUser, old(todoService.db.file), UpdateStep(old(todoService.db.file), id, dto, now))
    {
      var userId := GetCurrentUserId();
      if userId.Err? {
        return Err(userId.error);
      }
      r := todoService.Update(id, dto, now);
    }

    /** `PATCH /todos/:id/toggle`. */
    method ToggleComplete(id: int, now: Timestamp) returns (r: Result<Todo, Exception>)
      modifies todoService.db
      ensures (r, todoService.db.file)
              == Guarded(authService.currentUser, old(todoService.db.file), ToggleStep(old(todoService.db.file), id, now))
    {
      var userId := GetCurrentUserId();
      if userId.Err? {
        return Err(userId.error);
      }
      r := todoService.ToggleComplete(id, now);
    }

    /** `DELETE /todos/:id`. */
    method Remove(id: int) returns (r: Result<(), Exception>)
      modifies todoService.db
      ensures (r, todoService.db.file)
              == Guarded(authService.currentUser, old(todoService.db.file), RemoveStep(old(todoService.db.file), id))
    {
      var userId := GetCurrentUserId();
      if userId.Err? {
        return Err(userId.error);
      }
      r := todoService.Remove(id);
    }
  }
}
