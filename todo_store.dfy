/** The todo collection kept in one JSON file, read whole and rewritten whole on every change. */
module TodoStore {
  import opened Wrappers
  import opened FlatFile
  import opened TodoTypes

  /** What `create` receives: a todo without its id and timestamps. */
  datatype TodoData = TodoData(title: string, description: Option<string>, completed: bool)

  /** What `update` receives: the fields to overwrite; `None` leaves a field as it is. */
  datatype TodoPatch = TodoPatch(title: Option<string>, description: Option<string>, completed: Option<bool>)

  /** The ids of a list of todos, position by position. */
  function Ids(todos: seq<Todo>): (ids: seq<int>)
    ensures |ids| == |todos|
    ensures forall i :: 0 <= i < |todos| ==> ids[i] == todos[i].id
  {
    seq(|todos|, i requires 0 <= i < |todos| => todos[i].id)
  }

  /** `todos.find(todo => todo.id === id) || null`: the first todo with that id. */
  function FindById(todos: seq<Todo>, id: int): (r: Option<Todo>)
    ensures r.None? <==> forall t :: t in todos ==> t.id != id
    ensures r.Some? ==> exists k :: 0 <= k < |todos| && todos[k] == r.value && r.value.id == id
                                    && forall j :: 0 <= j < k ==> todos[j].id != id
  {
    var k := FindIndex(Ids(todos), id);
    if k == -1 then
      assert forall t :: t in todos ==> t.id in Ids(todos);
      None
    else
      Some(todos[k])
  }

  /** The record `create` appends: a fresh id, the given fields, both timestamps `now`. */
  function NewTodo(todos: seq<Todo>, data: TodoData, now: Timestamp): (t: Todo)
    ensures forall x :: x in todos ==> x.id < t.id
    ensures |todos| == 0 ==> t.id == 1
    ensures t.title == data.title && t.description == data.description && t.completed == data.completed
    ensures t.createdAt == now && t.updatedAt == now
  {
    Todo(NextId(Ids(todos)), data.title, data.description, data.completed, now, now)
  }

  /** `{...todo, ...patch, updatedAt: now}`: each supplied field is taken, the others kept; id and createdAt never change. */
  function Merge(t: Todo, p: TodoPatch, now: Timestamp): (r: Todo)
    ensures r.id == t.id && r.createdAt == t.createdAt && r.updatedAt == now
    ensures r.title == p.title.GetOr(t.title)
    ensures p.description.Some? ==> r.description == p.description
    ensures p.description.None? ==> r.description == t.description
    ensures r.completed == p.completed.GetOr(t.completed)
  {
    t.(title := p.title.GetOr(t.title),
       description := if p.description.Some? then p.description else t.description,
       completed := p.completed.GetOr(t.completed),
       updatedAt := now)
  }

  /** The patch that applies `p` and then `q`: a field `q` supplies wins. */
  function Then(p: TodoPatch, q: TodoPatch): TodoPatch {
    TodoPatch(
      if q.title.Some? then q.title else p.title,
      if q.description.Some? then q.description else p.description,
      if q.completed.Some? then q.completed else p.completed)
  }

  /** An empty patch only refreshes updatedAt. */
  lemma MergeEmpty(t: Todo, now: Timestamp)
    ensures Merge(t, TodoPatch(None, None, None), now) == t.(updatedAt := now)
  {
  }

  /** Two successive updates are one update with the later fields winning. */
  lemma MergeTwice(t: Todo, p: TodoPatch, q: TodoPatch, n1: Timestamp, n2: Timestamp)
    ensures Merge(Merge(t, p, n1), q, n2) == Merge(t, Then(p, q), n2)
  {
  }

  /** The service of json-database.service.ts; `file` stands for data/todos.json. */
  class JsonDatabase {
    /** The parsed contents of the file, or `None` while it is missing or unreadable. */
    var file: Option<seq<Todo>>

    constructor (file: Option<seq<Todo>>)
      ensures this.file == file
    {
      this.file := file;
    }

    /** The list every read yields. */
    function Contents(): seq<Todo>
      reads this
    {
      Load(file)
    }

    /** `readTodos`: the parsed file, or [] when reading or parsing fails. */
    method ReadTodos() returns (todos: seq<Todo>)
      ensures file.None? ==> todos == []
      ensures file.Some? ==> todos == file.value
    {
      match file
      case None => todos := [];
      case Some(records) => todos := records;
    }

    /** `writeTodos`: replaces the whole file. */
    method WriteTodos(todos: seq<Todo>)
      modifies this
      ensures file == Some(todos)
    {
      file := Some(todos);
    }

    /** `findAll`: every stored todo, in file order. */
    method FindAll() returns (todos: seq<Todo>)
      ensures file.None? ==> todos == []
      ensures file.Some? ==> todos == file.value
    {
      todos := ReadTodos();
    }

    /** `findOne`: the first todo with that id, or null. */
    method FindOne(id: int) returns (r: Option<Todo>)
      ensures r == FindById(Contents(), id)
    {
      var todos := ReadTodos();
      r := FindById(todos, id);
    }

    /** `create`: appends a record with id `max + 1` (1 on an empty list) and rewrites the file. */
    method Create(data: TodoData, now: Timestamp) returns (t: Todo)
      modifies this
      ensures t == NewTodo(old(Contents()), data, now)
      ensures file == Some(old(Contents()) + [t])
    {
      var todos := ReadTodos();
      var newId := if |todos| > 0 then MaxId(Ids(todos)) + 1 else 1;
      t := Todo(newId, data.title, data.description, data.completed, now, now);
      todos := todos + [t];
      WriteTodos(todos);
    }

    /**
     * `update`: merges the patch into the first record with that id and
     * rewrites the file; an absent id returns null and writes nothing.
     */
    method Update(id: int, patch: TodoPatch, now: Timestamp) returns (r: Option<Todo>)
      modifies this
      ensures var before := old(Contents()); var k := FindIndex(Ids(before), id);
              if k == -1 then r.None? && file == old(file)
              else r == Some(Merge(before[k], patch, now)) && file == Some(before[k := r.value])
    {
      var todos := ReadTodos();
      var k := FindIndex(Ids(todos), id);
      if k == -1 {
        return None;
      }
      todos := todos[k := Merge(todos[k], patch, now)];
      WriteTodos(todos);
      r := Some(todos[k]);
    }

    /**
     * `remove`: splices out the first record with that id and rewrites the
     * file; an absent id returns false and writes nothing.
     */
    method Remove(id: int) returns (removed: bool)
      modifies this
      ensures var before := old(Contents()); var k := FindIndex(Ids(before), id);
              if k == -1 then !removed && file == old(file)
              else removed && file == Some(RemoveAt(before, k))
    {
      var todos := ReadTodos();
      var k := FindIndex(Ids(todos), id);
      if k == -1 {
        return false;
      }
      todos := RemoveAt(todos, k);
      WriteTodos(todos);
      removed := true;
    }
  }
}
