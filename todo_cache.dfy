/**
 * The query keys and the list-cache updaters of use-todos.ts. A cache
 * entry is `None` while nothing has been fetched under its key
 * (react-query's `undefined`).
 */
module TodoCache {
  import opened Wrappers
  import opened ClientTypes

  /** One element of a query key: a string, an id, or the `{ filters }` object. */
  datatype KeyPart = Name(name: string) | Id(id: int) | Filters(filters: string)

  type QueryKey = seq<KeyPart>

  /** `todoKeys.all`. */
  function AllKey(): (k: QueryKey)
    ensures k == [Name("todos")]
  {
    [Name("todos")]
  }

  /** `todoKeys.lists()`: the key of the cached list every updater writes; it lies under `all`. */
  function ListsKey(): (k: QueryKey)
    ensures k == [Name("todos"), Name("list")]
    ensures AllKey() < k
  {
    AllKey() + [Name("list")]
  }

  /** `todoKeys.list(filters)`: under `lists()`, so invalidating `lists()` reaches every filtered list. */
  function ListKey(filters: string): (k: QueryKey)
    ensures k == [Name("todos"), Name("list"), Filters(filters)]
    ensures ListsKey() < k
  {
    ListsKey() + [Filters(filters)]
  }

  /** `todoKeys.details()`: under `all`, and apart from `lists()`. */
  function DetailsKey(): (k: QueryKey)
    ensures k == [Name("todos"), Name("detail")]
    ensures AllKey() < k && !(ListsKey() <= k) && !(k <= ListsKey())
  {
    var k := AllKey() + [Name("detail")];
    assert k[1] != ListsKey()[1];
    k
  }

  /** `todoKeys.detail(id)`: under `details()` and never under `lists()`; the id is its last part. */
  function DetailKey(id: int): (k: QueryKey)
    ensures k == [Name("todos"), Name("detail"), Id(id)]
    ensures DetailsKey() < k && !(ListsKey() <= k)
  {
    DetailsKey() + [Id(id)]
  }

  /**
   * The key shapes: every key starts with "todos"; lists() is a proper
   * prefix of every list(filters) and of no detail key; distinct ids and
   * distinct filters give distinct keys.
   */
  lemma KeyShapes(id: int, id2: int, f: string, f2: string)
    ensures ListsKey() == [Name("todos"), Name("list")]
    ensures DetailKey(id) == [Name("todos"), Name("detail"), Id(id)]
    ensures ListsKey() < ListKey(f) && !(ListsKey() <= DetailKey(id))
    ensures DetailKey(id) == DetailKey(id2) <==> id == id2
    ensures ListKey(f) == ListKey(f2) <==> f == f2
    ensures ListKey(f) != DetailKey(id)
  {
    assert DetailKey(id)[2] == Id(id) && DetailKey(id2)[2] == Id(id2);
    assert ListKey(f)[2] == Filters(f) && ListKey(f2)[2] == Filters(f2);
    assert DetailKey(id)[1] != ListsKey()[1];
  }

  /** The `useCreateTodo` updater: the new todo appended, or a one-element list on an empty cache. */
  function AfterCreate(cached: Option<seq<ClientTodo>>, newTodo: ClientTodo): (r: seq<ClientTodo>)
    ensures cached.None? ==> r == [newTodo]
    ensures cached.Some? ==> r == cached.value + [newTodo]
  {
    match cached
    case None => [newTodo]
    case Some(todos) => todos + [newTodo]
  }

  /** `todos.map(todo => todo.id === updated.id ? updated : todo)`. */
  function ReplaceById(todos: seq<ClientTodo>, updated: ClientTodo): (r: seq<ClientTodo>)
    ensures |r| == |todos|
    ensures forall i :: 0 <= i < |todos| ==> r[i] == if todos[i].id == updated.id then updated else todos[i]
  {
    seq(|todos|, i requires 0 <= i < |todos| => if todos[i].id == updated.id then updated else todos[i])
  }

  /** The `useUpdateTodo` and `useToggleTodo` updater (the same lambda in both). */
  function AfterUpdate(cached: Option<seq<ClientTodo>>, updated: ClientTodo): (r: seq<ClientTodo>)
    ensures cached.None? ==> r == [updated]
    ensures cached.Some? ==> r == ReplaceById(cached.value, updated)
  {
    match cached
    case None => [updated]
    case Some(todos) => ReplaceById(todos, updated)
  }

  /** `todos.filter(todo => todo.id !== id)`. */
  function WithoutId(todos: seq<ClientTodo>, id: int): (r: seq<ClientTodo>)
    ensures |r| <= |todos|
    ensures forall i :: 0 <= i < |r| ==> r[i].id != id
  {
    if todos == [] then []
    else if todos[0].id != id then [todos[0]] + WithoutId(todos[1..], id)
    else WithoutId(todos[1..], id)
  }

  /** The `useDeleteTodo` updater. */
  function AfterDelete(cached: Option<seq<ClientTodo>>, id: int): (r: seq<ClientTodo>)
    ensures cached.None? ==> r == []
    ensures cached.Some? ==> r == WithoutId(cached.value, id)
  {
    match cached
    case None => []
    case Some(todos) => WithoutId(todos, id)
  }

  /** The filter keeps exactly the entries with another id. */
  lemma {:induction false} WithoutIdMembers(todos: seq<ClientTodo>, id: int)
    ensures forall t :: t in WithoutId(todos, id) <==> t in todos && t.id != id
    ensures |WithoutId(todos, id)| <= |todos|
    decreases |todos|
  {
    if todos != [] {
      WithoutIdMembers(todos[1..], id);
      assert todos == [todos[0]] + todos[1..];
    }
  }

  /** The filter keeps the order: filtering a concatenation filters each part. */
  lemma {:induction false} WithoutIdConcat(a: seq<ClientTodo>, b: seq<ClientTodo>, id: int)
    ensures WithoutId(a + b, id) == WithoutId(a, id) + WithoutId(b, id)
    decreases |a|
  {
    if a != [] {
      assert (a + b)[1..] == a[1..] + b;
      WithoutIdConcat(a[1..], b, id);
    } else {
      assert a + b == b;
    }
  }

  /** A list with no entry of that id passes the filter unchanged. */
  lemma {:induction false} WithoutAbsentId(todos: seq<ClientTodo>, id: int)
    requires forall t :: t in todos ==> t.id != id
    ensures WithoutId(todos, id) == todos
    decreases |todos|
  {
    if todos != [] {
      assert todos[0] in todos;
      assert forall t :: t in todos[1..] ==> t in todos;
      WithoutAbsentId(todos[1..], id);
      assert todos == [todos[0]] + todos[1..];
    }
  }

  /**
   * After a delete, no cached entry has the deleted id, and the others are
   * still there in their old order.
   */
  lemma DeleteRemovesOnlyThatId(cached: Option<seq<ClientTodo>>, id: int)
    ensures forall t :: t in AfterDelete(cached, id) ==> t.id != id
    ensures cached.Some? ==> forall t :: t in cached.value && t.id != id ==> t in AfterDelete(cached, id)
    ensures cached.Some? ==> |AfterDelete(cached, id)| <= |cached.value|
  {
    if cached.Some? {
      WithoutIdMembers(cached.value, id);
    }
  }

  /** Deleting a freshly created todo gives back the list as it was (the empty list for an empty cache). */
  lemma DeleteUndoesCreate(cached: Option<seq<ClientTodo>>, t: ClientTodo)
    requires cached.Some? ==> forall x :: x in cached.value ==> x.id != t.id
    ensures AfterDelete(Some(AfterCreate(cached, t)), t.id) == cached.GetOr([])
  {
    var before := cached.GetOr([]);
    assert AfterCreate(cached, t) == before + [t];
    WithoutIdConcat(before, [t], t.id);
    WithoutAbsentId(before, t.id);
    assert WithoutId([t], t.id) == [];
  }

  /**
   * An update keeps the list's length and positions; every entry with the
   * updated id becomes the new record and no other entry changes.
   */
  lemma UpdateReplacesInPlace(todos: seq<ClientTodo>, updated: ClientTodo)
    ensures |AfterUpdate(Some(todos), updated)| == |todos|
    ensures forall i :: 0 <= i < |todos| && todos[i].id != updated.id ==> AfterUpdate(Some(todos), updated)[i] == todos[i]
    ensures forall i :: 0 <= i < |todos| && todos[i].id == updated.id ==> AfterUpdate(Some(todos), updated)[i] == updated
    ensures (forall t :: t in todos ==> t.id != updated.id) ==> AfterUpdate(Some(todos), updated) == todos
  {
  }

  /** Applying the same update twice is the same as applying it once. */
  lemma {:induction false} UpdateIdempotent(cached: Option<seq<ClientTodo>>, updated: ClientTodo)
    ensures AfterUpdate(Some(AfterUpdate(cached, updated)), updated) == AfterUpdate(cached, updated)
  {
    var once := AfterUpdate(cached, updated);
    var twice := AfterUpdate(Some(once), updated);
    assert |twice| == |once|;
    forall i | 0 <= i < |once| ensures twice[i] == once[i] {
    }
  }

  /** A delete after an update of the same id leaves what the delete alone would. */
  lemma {:induction false} DeleteAfterUpdate(todos: seq<ClientTodo>, updated: ClientTodo)
    ensures AfterDelete(Some(AfterUpdate(Some(todos), updated)), updated.id) == AfterDelete(Some(todos), updated.id)
    decreases |todos|
  {
    if todos != [] {
      var rest := todos[1..];
      DeleteAfterUpdate(rest, updated);
      var mapped := ReplaceById(todos, updated);
      assert mapped[1..] == ReplaceById(rest, updated);
    }
  }
}
