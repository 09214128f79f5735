/**
 * todo.service.ts as a class over the JSON store: each method runs the
 * guards in the source's order and is proved to have the result and the
 * file effect of the matching step function in `Todos`.
 */
module TodoService {
  import opened Wrappers
  import opened Text
  import opened FlatFile
  import opened TodoTypes
  import opened TodoStore
  import opened Todos

  class TodoService {
    const db: JsonDatabase

    constructor (db: JsonDatabase)
      ensures this.db == db
    {
      this.db := db;
    }

    /** `findAll`: the store's list, unfiltered. */
    method FindAll() returns (todos: seq<Todo>)
      ensures todos == db.Contents()
    {
      todos := db.FindAll();
    }

    /** `findOne`: BadRequest for a non-positive id, NotFound for an absent one. */
    method FindOne(id: int) returns (r: Result<Todo, Exception>)
      ensures r == FindOneResult(db.Contents(), id)
    {
      if id <= 0 {
        return Err(InvalidId);
      }
      var todo := db.FindOne(id);
      if todo.None? {
        return Err(TodoNotFound(id));
      }
      return Ok(todo.value);
    }

    /** `create`: the three guards, then the store's append of the trimmed fields. */
    method Create(dto: CreateTodoDto, now: Timestamp) returns (r: Result<Todo, Exception>)
      modifies db
      ensures (r, db.file) == CreateStep(old(db.file), dto, now)
    {
      if dto.title.None? || |Trim(dto.title.value)| == 0 {
        return Err(BadRequest("Title is required"));
      }
      if |dto.title.value| > MaxTitleLength {
        return Err(BadRequest("Title must be less than 200 characters"));
      }
      if dto.description.Some? && dto.description.value != "" && |dto.description.value| > MaxDescriptionLength {
        return Err(BadRequest("Description must be less than 1000 characters"));
      }
      var description := "";
      if dto.description.Some? && Trim(dto.description.value) != "" {
        description := Trim(dto.description.value);
      }
      var t := db.Create(TodoData(Trim(dto.title.value), Some(description), false), now);
      return Ok(t);
    }

    /**
     * `update`: id guard, `findOne`, then the patch built field by field
     * with each supplied field's guards, then the store's merge.
     */
    method Update(id: int, dto: UpdateTodoDto, now: Timestamp) returns (r: Result<Todo, Exception>)
      modifies db
      ensures (r, db.file) == UpdateStep(old(db.file), id, dto, now)
    {
      if id <= 0 {
        return Err(InvalidId);
      }
      var found := FindOne(id);
      if found.Err? {
        return Err(found.error);
      }
      var title: Option<string> := None;
      if dto.title.Some? {
        if |Trim(dto.title.value)| == 0 {
          return Err(BadRequest("Title cannot be empty"));
        }
        if |dto.title.value| > MaxTitleLength {
          return Err(BadRequest("Title must be less than 200 characters"));
        }
        title := Some(Trim(dto.title.value));
      }
      var description: Option<string> := None;
      if dto.description.Some? {
        if dto.description.value != "" && |dto.description.value| > MaxDescriptionLength {
          return Err(BadRequest("Description must be less than 1000 characters"));
        }
        description := Some(if Trim(dto.description.value) != "" then Trim(dto.description.value) else "");
      }
      var updated := db.Update(id, TodoPatch(title, description, dto.completed), now);
      if updated.None? {
        return Err(TodoNotFound(id));
      }
      return Ok(updated.value);
    }

    /** `remove`: id guard, then the store's splice; nothing removed is NotFound. */
    method Remove(id: int) returns (r: Result<(), Exception>)
      modifies db
      ensures (r, db.file) == RemoveStep(old(db.file), id)
    {
      if id <= 0 {
        return Err(InvalidId);
      }
      var deleted := db.Remove(id);
      if !deleted {
        return Err(TodoNotFound(id));
      }
      return Ok(());
    }

    /** `toggleComplete`: `findOne`, then `update` of `completed` alone. */
    method ToggleComplete(id: int, now: Timestamp) returns (r: Result<Todo, Exception>)
      modifies db
      ensures (r, db.file) == ToggleStep(old(db.file), id, now)
    {
      var found := FindOne(id);
      if found.Err? {
        return Err(found.error);
      }
      r := Update(id, UpdateTodoDto(None, None, Some(!found.value.completed)), now);
    }
  }
}
