/**
 * The validation layer of todo.service.ts: ordered guards that throw
 * BadRequest or NotFound before the store is asked to change anything.
 * The service takes no user id and filters nothing by owner.
 */
module Todos {
  import opened Wrappers
  import opened Text
  import opened FlatFile
  import opened TodoTypes
  import opened TodoStore

  /** The longest title accepted, counted before trimming. */
  const MaxTitleLength := 200
  /** The longest description accepted, counted before trimming. */
  const MaxDescriptionLength := 1000

  const InvalidId := BadRequest("Invalid todo ID")

  function TodoNotFound(id: int): Exception {
    NotFound("Todo with ID " + IntToString(id) + " not found")
  }

  /** What every todo that went through `create` and `update` looks like. */
  predicate WellFormed(t: Todo) {
    && t.title != [] && |t.title| <= MaxTitleLength && Trimmed(t.title)
    && t.description.Some?
    && |t.description.value| <= MaxDescriptionLength && Trimmed(t.description.value)
  }

  predicate AllWellFormed(todos: seq<Todo>) {
    forall i :: 0 <= i < |todos| ==> WellFormed(todos[i])
  }

  /**
   * The guards of `create`, in their order, and the data it hands the store:
   * the title is checked for blankness after trimming but for length before.
   */
  function ValidateCreate(dto: CreateTodoDto): (r: Result<TodoData, Exception>)
    ensures r.Err? ==> r.error.BadRequest?
    ensures r.Ok? ==> && dto.title.Some? && |dto.title.value| <= MaxTitleLength
                      && r.value.title == Trim(dto.title.value) && r.value.title != []
                      && r.value.description.Some? && !r.value.completed
  {
    if dto.title.None? || |Trim(dto.title.value)| == 0 then
      Err(BadRequest("Title is required"))
    else if |dto.title.value| > MaxTitleLength then
      Err(BadRequest("Title must be less than 200 characters"))
    else if dto.description.Some? && dto.description.value != "" && |dto.description.value| > MaxDescriptionLength then
      Err(BadRequest("Description must be less than 1000 characters"))
    else
      var title := Trim(dto.title.value);
      var description := if dto.description.Some? && Trim(dto.description.value) != "" then Trim(dto.description.value) else "";
      Ok(TodoData(title, Some(description), false))
  }

  /** `create` accepts exactly a present, non-blank title of at most 200 raw characters and a description of at most 1000. */
  lemma CreateAcceptsExactly(dto: CreateTodoDto)
    ensures ValidateCreate(dto).Ok? <==>
            && dto.title.Some? && !IsBlank(dto.title.value)
            && |dto.title.value| <= MaxTitleLength
            && (dto.description.None? || |dto.description.value| <= MaxDescriptionLength)
  {
    TrimEmptyIffBlank(dto.title.GetOr(""));
  }

  /** The first failing guard of `create` decides the error. */
  lemma CreateGuardOrder(dto: CreateTodoDto)
    ensures (dto.title.None? || IsBlank(dto.title.value)) ==> ValidateCreate(dto) == Err(BadRequest("Title is required"))
    ensures (dto.title.Some? && !IsBlank(dto.title.value) && |dto.title.value| > MaxTitleLength)
            ==> ValidateCreate(dto) == Err(BadRequest("Title must be less than 200 characters"))
    ensures (&& dto.title.Some? && !IsBlank(dto.title.value) && |dto.title.value| <= MaxTitleLength
             && dto.description.Some? && |dto.description.value| > MaxDescriptionLength)
            ==> ValidateCreate(dto) == Err(BadRequest("Description must be less than 1000 characters"))
  {
    if dto.title.Some? {
      TrimEmptyIffBlank(dto.title.value);
    }
  }

  /** What `create` stores: the trimmed title, the trimmed description or '', and completed = false. */
  lemma CreateStoresTrimmed(dto: CreateTodoDto)
    requires ValidateCreate(dto).Ok?
    ensures var data := ValidateCreate(dto).value;
            && data.title == Trim(dto.title.value)
            && data.description == Some(Trim(dto.description.GetOr("")))
            && !data.completed
            && WellFormed(NewTodo([], data, 0))
  {
    TrimEmptyIffBlank(dto.title.value);
    assert Trim("") == "";
  }

  /**
   * The fields `update` hands the store, built from the supplied fields only,
   * or the first field guard that fails.
   */
  function UpdatePatch(dto: UpdateTodoDto): (r: Result<TodoPatch, Exception>)
    ensures r.Err? ==> r.error.BadRequest?
    ensures r.Ok? ==> && r.value.completed == dto.completed
                      && (r.value.title.Some? <==> dto.title.Some?)
                      && (r.value.description.Some? <==> dto.description.Some?)
    ensures r.Ok? && r.value.title.Some? ==> r.value.title.value != [] && |r.value.title.value| <= MaxTitleLength
  {
    if dto.title.Some? && |Trim(dto.title.value)| == 0 then
      Err(BadRequest("Title cannot be empty"))
    else if dto.title.Some? && |dto.title.value| > MaxTitleLength then
      Err(BadRequest("Title must be less than 200 characters"))
    else if dto.description.Some? && dto.description.value != "" && |dto.description.value| > MaxDescriptionLength then
      Err(BadRequest("Description must be less than 1000 characters"))
    else
      Ok(TodoPatch(
        if dto.title.Some? then Some(Trim(dto.title.value)) else None,
        if dto.description.Some? then
          Some(if Trim(dto.description.value) != "" then Trim(dto.description.value) else "")
        else None,
        dto.completed))
  }

  /**
   * An update is refused exactly when a supplied title is blank or over 200
   * raw characters, or a supplied description is over 1000; otherwise the
   * patch carries the supplied fields, trimmed, and nothing else.
   */
  lemma UpdatePatchFields(dto: UpdateTodoDto)
    ensures UpdatePatch(dto).Ok? <==>
            && (dto.title.None? || (!IsBlank(dto.title.value) && |dto.title.value| <= MaxTitleLength))
            && (dto.description.None? || |dto.description.value| <= MaxDescriptionLength)
    ensures dto.title.Some? && IsBlank(dto.title.value) ==> UpdatePatch(dto) == Err(BadRequest("Title cannot be empty"))
    ensures UpdatePatch(dto).Ok? ==>
            var p := UpdatePatch(dto).value;
            && (p.title.Some? <==> dto.title.Some?)
            && (p.description.Some? <==> dto.description.Some?)
            && p.completed == dto.completed
            && (p.title.Some? ==> p.title.value == Trim(dto.title.value))
            && (p.description.Some? ==> p.description.value == Trim(dto.description.value))
  {
    if dto.title.Some? {
      TrimEmptyIffBlank(dto.title.value);
    }
  }

  /** The guards of `findOne`: a positive id, then a stored todo with it. */
  function FindOneResult(todos: seq<Todo>, id: int): (r: Result<Todo, Exception>)
    ensures id <= 0 ==> r == Err(InvalidId)
    ensures id > 0 ==> (r.Err? <==> forall t :: t in todos ==> t.id != id)
    ensures id > 0 && r.Err? ==> r.error == TodoNotFound(id)
    ensures r.Ok? ==> r.value in todos && r.value.id == id
  {
    if id <= 0 then Err(InvalidId)
    else
      match FindById(todos, id)
      case None => Err(TodoNotFound(id))
      case Some(t) => Ok(t)
  }

  /** `create` on a store whose file holds `file`: the result and the file afterwards. */
  function CreateStep(file: Option<seq<Todo>>, dto: CreateTodoDto, now: Timestamp)
    : (s: (Result<Todo, Exception>, Option<seq<Todo>>))
    ensures s.0.Err? ==> s.1 == file
    ensures s.0.Ok? ==> s.1 == Some(Load(file) + [s.0.value])
                        && forall t :: t in Load(file) ==> t.id < s.0.value.id
  {
    match ValidateCreate(dto)
    case Err(e) => (Err(e), file)
    case Ok(data) =>
      var t := NewTodo(Load(file), data, now);
      (Ok(t), Some(Load(file) + [t]))
  }

  /** `update`: id guard, existence, field guards, then the store's merge. */
  function UpdateStep(file: Option<seq<Todo>>, id: int, dto: UpdateTodoDto, now: Timestamp)
    : (s: (Result<Todo, Exception>, Option<seq<Todo>>))
    ensures s.0.Err? ==> s.1 == file
    ensures s.0.Ok? ==> id > 0 && s.0.value.id == id && s.1.Some? && |s.1.value| == |Load(file)|
  {
    if id <= 0 then (Err(InvalidId), file)
    else
      var todos := Load(file);
      match FindOneResult(todos, id)
      case Err(e) => (Err(e), file)
      case Ok(_) =>
        match UpdatePatch(dto)
        case Err(e) => (Err(e), file)
        case Ok(patch) =>
          var k := FindIndex(Ids(todos), id);
          if k == -1 then (Err(TodoNotFound(id)), file)
          else
            var updated := Merge(todos[k], patch, now);
            (Ok(updated), Some(todos[k := updated]))
  }

  /** `remove`: id guard, then the store's splice; a false from the store is NotFound. */
  function RemoveStep(file: Option<seq<Todo>>, id: int): (s: (Result<(), Exception>, Option<seq<Todo>>))
    ensures s.0.Err? ==> s.1 == file
    ensures s.0.Ok? ==> id > 0 && s.1.Some? && |s.1.value| == |Load(file)| - 1
  {
    if id <= 0 then (Err(InvalidId), file)
    else
      var todos := Load(file);
      var k := FindIndex(Ids(todos), id);
      if k == -1 then (Err(TodoNotFound(id)), file)
      else (Ok(()), Some(RemoveAt(todos, k)))
  }

  /** `toggleComplete`: `findOne`, then `update` with only `completed` negated. */
  function ToggleStep(file: Option<seq<Todo>>, id: int, now: Timestamp)
    : (s: (Result<Todo, Exception>, Option<seq<Todo>>))
    ensures s.0.Err? ==> s.1 == file
    ensures s.0.Ok? ==> && FindOneResult(Load(file), id).Ok? && s.0.value.id == id
                        && s.0.value.completed == !FindOneResult(Load(file), id).value.completed
  {
    match FindOneResult(Load(file), id)
    case Err(e) => (Err(e), file)
    case Ok(t) => UpdateStep(file, id, UpdateTodoDto(None, None, Some(!t.completed)), now)
  }

  /** A non-positive id is refused with BadRequest before the store is read or written. */
  lemma InvalidIdRefusedFirst(file: Option<seq<Todo>>, id: int, dto: UpdateTodoDto, now: Timestamp)
    requires id <= 0
    ensures FindOneResult(Load(file), id) == Err(InvalidId)
    ensures UpdateStep(file, id, dto, now) == (Err(InvalidId), file)
    ensures RemoveStep(file, id) == (Err(InvalidId), file)
    ensures ToggleStep(file, id, now) == (Err(InvalidId), file)
  {
  }

  /**
   * An absent id is NotFound for update, remove and toggle, whatever the
   * body: existence is checked before any field.
   */
  lemma MissingTodoNotFound(file: Option<seq<Todo>>, id: int, dto: UpdateTodoDto, now: Timestamp)
    requires id > 0
    requires forall t :: t in Load(file) ==> t.id != id
    ensures FindOneResult(Load(file), id) == Err(TodoNotFound(id))
    ensures UpdateStep(file, id, dto, now) == (Err(TodoNotFound(id)), file)
    ensures RemoveStep(file, id) == (Err(TodoNotFound(id)), file)
    ensures ToggleStep(file, id, now) == (Err(TodoNotFound(id)), file)
  {
  }

  /**
   * Once the todo exists, an explicitly supplied empty or blank title is
   * refused, whatever else the body holds, and nothing is written.
   */
  lemma BlankTitleRefused(file: Option<seq<Todo>>, id: int, dto: UpdateTodoDto, now: Timestamp)
    requires id > 0 && exists t :: t in Load(file) && t.id == id
    requires dto.title.Some? && IsBlank(dto.title.value)
    ensures UpdateStep(file, id, dto, now) == (Err(BadRequest("Title cannot be empty")), file)
  {
    UpdatePatchFields(dto);
  }

  /**
   * A successful update replaces the first record with that id and nothing
   * else: supplied fields take their trimmed value, unsupplied ones keep
   * theirs, id and createdAt stay, updatedAt becomes `now`.
   */
  lemma UpdateChangesOnlySuppliedFields(file: Option<seq<Todo>>, id: int, dto: UpdateTodoDto, now: Timestamp)
    requires UpdateStep(file, id, dto, now).0.Ok?
    ensures var before := Load(file);
            var k := FindIndex(Ids(before), id);
            var t := before[k];
            var r := UpdateStep(file, id, dto, now).0.value;
            && 0 <= k < |before|
            && UpdateStep(file, id, dto, now).1 == Some(before[k := r])
            && r.id == id == t.id && r.createdAt == t.createdAt && r.updatedAt == now
            && r.title == (if dto.title.Some? then Trim(dto.title.value) else t.title)
            && r.description == (if dto.description.Some? then Some(Trim(dto.description.value)) else t.description)
            && r.completed == dto.completed.GetOr(t.completed)
  {
    UpdatePatchFields(dto);
  }

  /** Replacing a record by one with the same id leaves the ids as they were. */
  lemma IdsAfterReplace(todos: seq<Todo>, k: nat, t: Todo)
    requires k < |todos| && t.id == todos[k].id
    ensures Ids(todos[k := t]) == Ids(todos)
  {
  }

  /** Toggling twice restores `completed`; only updatedAt differs from the original record. */
  lemma ToggleTwiceRestores(file: Option<seq<Todo>>, id: int, n1: Timestamp, n2: Timestamp)
    requires ToggleStep(file, id, n1).0.Ok?
    ensures var before := Load(file);
            var k := FindIndex(Ids(before), id);
            var second := ToggleStep(ToggleStep(file, id, n1).1, id, n2);
            && 0 <= k < |before|
            && second.0 == Ok(before[k].(updatedAt := n2))
            && second.1 == Some(before[k := before[k].(updatedAt := n2)])
  {
    var before := Load(file);
    var k := FindIndex(Ids(before), id);
    var t := FindOneResult(before, id).value;
    var flip := UpdateTodoDto(None, None, Some(!t.completed));
    assert ToggleStep(file, id, n1) == UpdateStep(file, id, flip, n1);
    UpdateChangesOnlySuppliedFields(file, id, flip, n1);
    var u := UpdateStep(file, id, flip, n1).0.value;
    var mid := before[k := u];
    var f1 := Some(mid);
    assert ToggleStep(file, id, n1).1 == f1;
    IdsAfterReplace(before, k, u);
    assert FindById(mid, id) == Some(u);
    assert FindOneResult(Load(f1), id) == Ok(u);
    var back := UpdateTodoDto(None, None, Some(!u.completed));
    assert ToggleStep(f1, id, n2) == UpdateStep(f1, id, back, n2);
    UpdateChangesOnlySuppliedFields(f1, id, back, n2);
    assert mid[k := UpdateStep(f1, id, back, n2).0.value] == before[k := before[k].(updatedAt := n2)];
  }

  /** Every id in the list is positive, as every id `create` hands out is. */
  predicate PositiveIds(todos: seq<Todo>) {
    forall i :: 0 <= i < |todos| ==> todos[i].id > 0
  }

  /** No two records share an id. */
  predicate UniqueIds(todos: seq<Todo>) {
    forall i, j :: 0 <= i < j < |todos| ==> todos[i].id != todos[j].id
  }

  /** A key missing from a list is found at the end once appended. */
  lemma FindIndexAppendFresh<K>(keys: seq<K>, k: K)
    requires k !in keys
    ensures FindIndex(keys + [k], k) == |keys|
  {
    var r := FindIndex(keys + [k], k);
    assert (keys + [k])[|keys|] == k;
  }

  /** A created todo is found again by its id, with the trimmed fields and completed = false. */
  lemma CreateStepOk(file: Option<seq<Todo>>, dto: CreateTodoDto, now: Timestamp)
    requires ValidateCreate(dto).Ok?
    ensures CreateStep(file, dto, now)
            == (Ok(NewTodo(Load(file), ValidateCreate(dto).value, now)),
                Some(Load(file) + [NewTodo(Load(file), ValidateCreate(dto).value, now)]))
  {
  }

  lemma FindAppended(before: seq<Todo>, t: Todo)
    requires PositiveIds(before)
    requires forall x :: x in before ==> x.id < t.id
    requires t.id > 0
    ensures FindOneResult(before + [t], t.id) == Ok(t)
  {
    assert t.id !in Ids(before);
    assert Ids(before + [t]) == Ids(before) + [t.id];
    FindIndexAppendFresh(Ids(before), t.id);
    assert (before + [t])[|before|] == t;
  }

  lemma CreateThenFindOne(file: Option<seq<Todo>>, dto: CreateTodoDto, now: Timestamp)
    requires PositiveIds(Load(file))
    requires ValidateCreate(dto).Ok?
    ensures var (r, after) := CreateStep(file, dto, now);
            && r.Ok?
            && FindOneResult(Load(after), r.value.id) == Ok(r.value)
            && r.value.title == Trim(dto.title.value)
            && r.value.description == Some(Trim(dto.description.GetOr("")))
            && !r.value.completed
  {
    CreateStoresTrimmed(dto);
    var before := Load(file);
    var t := NewTodo(before, ValidateCreate(dto).value, now);
    CreateStepOk(file, dto, now);
    if |before| > 0 {
      assert before[0] in before;
    }
    FindAppended(before, t);
  }

  /** The round trip of a create: a title "t" and description "d" come back as stored. */
  lemma CreateThenFindOneExample(file: Option<seq<Todo>>, now: Timestamp)
    requires PositiveIds(Load(file))
    ensures var (r, after) := CreateStep(file, CreateTodoDto(Some("t"), Some("d")), now);
            && r.Ok?
            && FindOneResult(Load(after), r.value.id)
               == Ok(Todo(r.value.id, "t", Some("d"), false, now, now))
  {
    var dto := CreateTodoDto(Some("t"), Some("d"));
    assert Trim("t") == "t" by { TrimSpaceFree("t"); }
    assert Trim("d") == "d" by { TrimSpaceFree("d"); }
    CreateAcceptsExactly(dto);
    CreateThenFindOne(file, dto, now);
  }

  /** The invariant the service keeps on the collection: positive, distinct ids and well-formed fields. */
  predicate Consistent(todos: seq<Todo>) {
    PositiveIds(todos) && UniqueIds(todos) && AllWellFormed(todos)
  }

  /** Appending a record whose id is above every other keeps the ids positive and distinct. */
  lemma AppendFreshKeepsIds(before: seq<Todo>, t: Todo)
    requires PositiveIds(before) && UniqueIds(before)
    requires forall x :: x in before ==> x.id < t.id
    requires t.id > 0
    ensures PositiveIds(before + [t]) && UniqueIds(before + [t])
  {
    var after := before + [t];
    forall i, j | 0 <= i < j < |after| ensures after[i].id != after[j].id {
      assert after[i] == before[i];
      if j == |before| {
        assert before[i] in before;
      } else {
        assert after[j] == before[j];
      }
    }
  }

  /** A well-formed record appended to well-formed records. */
  lemma AllWellFormedAppend(before: seq<Todo>, t: Todo)
    requires AllWellFormed(before) && WellFormed(t)
    ensures AllWellFormed(before + [t])
  {
    var after := before + [t];
    forall i | 0 <= i < |after| ensures WellFormed(after[i]) {
      if i < |before| {
        assert after[i] == before[i];
      } else {
        assert after[i] == t;
      }
    }
  }

  /** `create` keeps the collection consistent: the new id is above every other and the fields are checked. */
  lemma CreatePreservesConsistency(file: Option<seq<Todo>>, dto: CreateTodoDto, now: Timestamp)
    requires Consistent(Load(file))
    ensures Consistent(Load(CreateStep(file, dto, now).1))
  {
    if ValidateCreate(dto).Ok? {
      var before := Load(file);
      var data := ValidateCreate(dto).value;
      var t := NewTodo(before, data, now);
      CreateStepOk(file, dto, now);
      CreateStoresTrimmed(dto);
      assert WellFormed(t) by {
        assert NewTodo([], data, 0).title == t.title;
        assert NewTodo([], data, 0).description == t.description;
      }
      if |before| > 0 {
        assert before[0] in before;
      }
      AppendFreshKeepsIds(before, t);
      AllWellFormedAppend(before, t);
      assert Load(CreateStep(file, dto, now).1) == before + [t];
    }
  }

  /** A field that passed the update guards is stored in the form `WellFormed` asks for. */
  lemma PatchedFieldsWellFormed(t: Todo, dto: UpdateTodoDto, now: Timestamp)
    requires WellFormed(t)
    requires UpdatePatch(dto).Ok?
    ensures WellFormed(Merge(t, UpdatePatch(dto).value, now))
  {
    UpdatePatchFields(dto);
    var p := UpdatePatch(dto).value;
    var m := Merge(t, p, now);
    if dto.title.Some? {
      var raw := dto.title.value;
      TrimEmptyIffBlank(raw);
      assert m.title == Trim(raw);
    } else {
      assert m.title == t.title;
    }
    if dto.description.Some? {
      assert m.description == Some(Trim(dto.description.value));
    } else {
      assert m.description == t.description;
    }
  }

  /** Replacing one record by one with the same id keeps the ids positive and distinct. */
  lemma ReplaceKeepsIds(before: seq<Todo>, k: nat, t: Todo)
    requires PositiveIds(before) && UniqueIds(before)
    requires k < |before| && t.id == before[k].id
    ensures PositiveIds(before[k := t]) && UniqueIds(before[k := t])
  {
    var after := before[k := t];
    assert forall i :: 0 <= i < |after| ==> after[i].id == before[i].id;
  }

  /** Replacing one record by a well-formed one keeps every record well formed. */
  lemma AllWellFormedReplace(before: seq<Todo>, k: nat, t: Todo)
    requires AllWellFormed(before) && WellFormed(t) && k < |before|
    ensures AllWellFormed(before[k := t])
  {
    var after := before[k := t];
    forall i | 0 <= i < |after| ensures WellFormed(after[i]) {
      if i != k {
        assert after[i] == before[i];
      }
    }
  }

  /** `update` keeps the collection consistent: the id stays and the new fields are checked. */
  lemma UpdatePreservesConsistency(file: Option<seq<Todo>>, id: int, dto: UpdateTodoDto, now: Timestamp)
    requires Consistent(Load(file))
    ensures Consistent(Load(UpdateStep(file, id, dto, now).1))
  {
    if UpdateStep(file, id, dto, now).0.Ok? {
      var before := Load(file);
      var k := FindIndex(Ids(before), id);
      UpdateChangesOnlySuppliedFields(file, id, dto, now);
      var r := UpdateStep(file, id, dto, now).0.value;
      assert r == Merge(before[k], UpdatePatch(dto).value, now);
      PatchedFieldsWellFormed(before[k], dto, now);
      ReplaceKeepsIds(before, k, r);
      AllWellFormedReplace(before, k, r);
    }
  }

  /** `toggleComplete` keeps the collection consistent, being an update of `completed` alone. */
  lemma TogglePreservesConsistency(file: Option<seq<Todo>>, id: int, now: Timestamp)
    requires Consistent(Load(file))
    ensures Consistent(Load(ToggleStep(file, id, now).1))
  {
    var r := FindOneResult(Load(file), id);
    if r.Ok? {
      UpdatePreservesConsistency(file, id, UpdateTodoDto(None, None, Some(!r.value.completed)), now);
    }
  }

  /** Removing one record keeps the ids positive and distinct, and its id is gone. */
  lemma RemoveAtKeepsIds(before: seq<Todo>, k: nat)
    requires PositiveIds(before) && UniqueIds(before) && k < |before|
    ensures PositiveIds(RemoveAt(before, k)) && UniqueIds(RemoveAt(before, k))
    ensures forall t :: t in RemoveAt(before, k) ==> t.id != before[k].id
  {
    var after := RemoveAt(before, k);
    assert forall i :: 0 <= i < |after| ==> after[i] == before[if i < k then i else i + 1];
    forall t | t in after ensures t.id != before[k].id {
      var i :| 0 <= i < |after| && after[i] == t;
    }
  }

  /** Removing one record keeps every other record well formed. */
  lemma AllWellFormedRemoveAt(before: seq<Todo>, k: nat)
    requires AllWellFormed(before) && k < |before|
    ensures AllWellFormed(RemoveAt(before, k))
  {
    var after := RemoveAt(before, k);
    forall i | 0 <= i < |after| ensures WellFormed(after[i]) {
      assert after[i] == before[if i < k then i else i + 1];
    }
  }

  /** `remove` keeps the collection consistent and, ids being distinct, the id is gone afterwards. */
  lemma RemovePreservesConsistency(file: Option<seq<Todo>>, id: int)
    requires Consistent(Load(file))
    ensures Consistent(Load(RemoveStep(file, id).1))
    ensures RemoveStep(file, id).0.Ok? ==> forall t :: t in Load(RemoveStep(file, id).1) ==> t.id != id
  {
    var before := Load(file);
    var k := FindIndex(Ids(before), id);
    if id > 0 && k != -1 {
      assert Load(RemoveStep(file, id).1) == RemoveAt(before, k);
      assert Ids(before)[k] == id;
      RemoveAtKeepsIds(before, k);
      AllWellFormedRemoveAt(before, k);
    }
  }

  /** Removing the id of a record just appended under a fresh positive id gives back the list before it. */
  lemma RemoveAppended(before: seq<Todo>, t: Todo)
    requires t.id > 0 && forall x :: x in before ==> x.id != t.id
    ensures RemoveStep(Some(before + [t]), t.id) == (Ok(()), Some(before))
  {
    assert t.id !in Ids(before);
    assert Ids(before + [t]) == Ids(before) + [t.id];
    FindIndexAppendFresh(Ids(before), t.id);
    assert RemoveAt(before + [t], |before|) == before;
  }

  /**
   * Ids are reused: removing the todo just created and creating again hands
   * out the same id, and the removal restored the list exactly.
   */
  lemma CreateRemoveCreateReusesId(file: Option<seq<Todo>>, dto: CreateTodoDto, dto2: CreateTodoDto,
                                   n1: Timestamp, n2: Timestamp)
    requires PositiveIds(Load(file))
    requires ValidateCreate(dto).Ok? && ValidateCreate(dto2).Ok?
    ensures var c1 := CreateStep(file, dto, n1);
            var d := RemoveStep(c1.1, c1.0.value.id);
            var c2 := CreateStep(d.1, dto2, n2);
            && d.0.Ok? && Load(d.1) == Load(file)
            && c2.0.Ok? && c2.0.value.id == c1.0.value.id
  {
    var before := Load(file);
    var t := NewTodo(before, ValidateCreate(dto).value, n1);
    CreateStepOk(file, dto, n1);
    if |before| > 0 {
      assert before[0] in before;
    }
    RemoveAppended(before, t);
    CreateStepOk(Some(before), dto2, n2);
  }

  /** The file after `create` was called with each body in turn, each at its own time. */
  function CreateAll(file: Option<seq<Todo>>, dtos: seq<CreateTodoDto>, nows: seq<Timestamp>): Option<seq<Todo>>
    requires |nows| == |dtos|
    decreases |dtos|
  {
    if dtos == [] then file
    else CreateStep(CreateAll(file, dtos[..|dtos| - 1], nows[..|nows| - 1]), dtos[|dtos| - 1], nows[|nows| - 1]).1
  }

  /** On a missing or empty file, n accepted creates leave exactly the ids 1..n, in order. */
  lemma {:induction false} CreatesFromEmptyNumberFromOne(start: Option<seq<Todo>>, dtos: seq<CreateTodoDto>, nows: seq<Timestamp>)
    requires Load(start) == []
    requires |nows| == |dtos|
    requires forall i :: 0 <= i < |dtos| ==> ValidateCreate(dtos[i]).Ok?
    ensures Ids(Load(CreateAll(start, dtos, nows))) == Sequential(|dtos|)
    decreases |dtos|
  {
    var n := |dtos|;
    if n > 0 {
      var prefix := dtos[..n - 1];
      var file := CreateAll(start, prefix, nows[..n - 1]);
      assert forall i :: 0 <= i < |prefix| ==> prefix[i] == dtos[i];
      CreatesFromEmptyNumberFromOne(start, prefix, nows[..n - 1]);
      CreateStepOk(file, dtos[n - 1], nows[n - 1]);
      var t := NewTodo(Load(file), ValidateCreate(dtos[n - 1]).value, nows[n - 1]);
      NextIdAfterSequential(n - 1);
      AppendNextSequential(Load(file), t, n - 1);
    }
  }

  /** Appending the record with id n + 1 to the ids 1..n gives the ids 1..n + 1. */
  lemma AppendNextSequential(before: seq<Todo>, t: Todo, n: nat)
    requires Ids(before) == Sequential(n) && t.id == n + 1
    ensures Ids(before + [t]) == Sequential(n + 1)
  {
    assert Ids(before + [t]) == Ids(before) + [t.id];
  }

  /** So after n accepted creates on a missing or empty file, the next accepted create is given id n + 1. */
  lemma NextCreateGetsNextId(start: Option<seq<Todo>>, dtos: seq<CreateTodoDto>, nows: seq<Timestamp>, dto: CreateTodoDto, now: Timestamp)
    requires Load(start) == []
    requires |nows| == |dtos|
    requires forall i :: 0 <= i < |dtos| ==> ValidateCreate(dtos[i]).Ok?
    requires ValidateCreate(dto).Ok?
    ensures CreateStep(CreateAll(start, dtos, nows), dto, now).0.Ok?
    ensures CreateStep(CreateAll(start, dtos, nows), dto, now).0.value.id == |dtos| + 1
  {
    var file := CreateAll(start, dtos, nows);
    CreatesFromEmptyNumberFromOne(start, dtos, nows);
    CreateStepOk(file, dto, now);
    NextIdAfterSequential(|dtos|);
  }

  /** `c` repeated `n` times. */
  function Repeat(c: char, n: nat): (s: string)
    ensures |s| == n && forall i :: 0 <= i < n ==> s[i] == c
  {
    if n == 0 then [] else Repeat(c, n - 1) + [c]
  }

  /**
   * The title limit counts raw characters: 200 letters pass, 201 fail, and
   * so do 200 letters with one leading space, although they trim to 200.
   */
  lemma TitleLengthBoundary()
    ensures ValidateCreate(CreateTodoDto(Some(Repeat('a', 200)), None)).Ok?
    ensures ValidateCreate(CreateTodoDto(Some(Repeat('a', 201)), None))
            == Err(BadRequest("Title must be less than 200 characters"))
    ensures ValidateCreate(CreateTodoDto(Some(" " + Repeat('a', 200)), None))
            == Err(BadRequest("Title must be less than 200 characters"))
    ensures ValidateCreate(CreateTodoDto(Some(""), None)) == Err(BadRequest("Title is required"))
    ensures ValidateCreate(CreateTodoDto(Some(" \t\n"), None)) == Err(BadRequest("Title is required"))
  {
    var padded := " " + Repeat('a', 200);
    assert !IsSpace(Repeat('a', 200)[0]);
    assert !IsSpace(Repeat('a', 201)[0]);
    assert !IsSpace(padded[1]);
    CreateGuardOrder(CreateTodoDto(Some(Repeat('a', 200)), None));
    CreateAcceptsExactly(CreateTodoDto(Some(Repeat('a', 200)), None));
    CreateGuardOrder(CreateTodoDto(Some(Repeat('a', 201)), None));
    CreateGuardOrder(CreateTodoDto(Some(padded), None));
    CreateGuardOrder(CreateTodoDto(Some(""), None));
    CreateGuardOrder(CreateTodoDto(Some(" \t\n"), None));
  }
}
