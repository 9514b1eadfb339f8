/** The `useTodos` hook: the cached todo list, the toggle-complete request it derives
    from that list, and the cache invalidation wired to the three mutations. */
module UseTodo {
  import opened Optional
  import opened TodoTypes

  /** The variables handed to a mutation's `mutate`. */
  datatype Request =
    | CreateTodo(form: FormData)
    | UpdateTodo(id: int, patch: Patch)
    | DeleteTodo(id: int)

  /** `const { data: todos = [] } = useQuery(...)`: the list, or the empty list while
      the query has no data. */
  function DefaultTodos(data: Option<seq<Todo>>): (todos: seq<Todo>)
    ensures data.None? ==> todos == []
    ensures data.Some? ==> todos == data.value
  {
    match data
    case None => []
    case Some(s) => s
  }

  /** `todos.find((td) => td.id === id)`, as the index of the record it finds. */
  function FirstWithId(todos: seq<Todo>, id: int): (r: Option<nat>)
    ensures r.None? <==> forall i :: 0 <= i < |todos| ==> todos[i].id != id
    ensures r.Some? ==> r.value < |todos| && todos[r.value].id == id
    ensures r.Some? ==> forall j :: 0 <= j < r.value ==> todos[j].id != id
  {
    if todos == [] then None
    else if todos[0].id == id then Some(0)
    else
      match FirstWithId(todos[1..], id)
      case None => None
      case Some(k) => Some(k + 1)
  }

  /** `handleToggleComplete(id)`: nothing when no record has that id; otherwise one
      update of that id whose patch holds only `completed`, negated from the first
      record with that id. */
  function ToggleRequest(todos: seq<Todo>, id: int): (r: Option<Request>)
    ensures r.None? <==> forall t :: t in todos ==> t.id != id
    ensures r.Some? ==>
      exists i :: 0 <= i < |todos| && todos[i].id == id
        && (forall j :: 0 <= j < i ==> todos[j].id != id)
        && r.value == UpdateTodo(id, CompletedOnly(!todos[i].completed))
  {
    match FirstWithId(todos, id)
    case None => None
    case Some(i) => Some(UpdateTodo(id, CompletedOnly(!todos[i].completed)))
  }

  // ---------------------------------------------------------------------------
  // The service's side of an update, used to state what a toggle achieves.

  /** `PATCH /todos/{id}` as the service is assumed to apply it: a field changes
      exactly when the patch sends it, and `id` and `createdAt` never change. */
  function ApplyPatch(t: Todo, p: Patch): (r: Todo)
    ensures r.id == t.id && r.createdAt == t.createdAt
    ensures p.title.Some? ==> r.title == p.title.value
    ensures p.title.None? ==> r.title == t.title
    ensures p.description.Some? ==> r.description == p.description.value
    ensures p.description.None? ==> r.description == t.description
    ensures p.completionDate.Some? ==> r.completionDate == p.completionDate.value
    ensures p.completionDate.None? ==> r.completionDate == t.completionDate
    ensures p.completed.Some? ==> r.completed == p.completed.value
    ensures p.completed.None? ==> r.completed == t.completed
  {
    Todo(
      t.id,
      if p.title.Some? then p.title.value else t.title,
      if p.description.Some? then p.description.value else t.description,
      if p.completionDate.Some? then p.completionDate.value else t.completionDate,
      if p.completed.Some? then p.completed.value else t.completed,
      t.createdAt)
  }

  /** The collection after the service applies `p` to the records with that id. */
  function ApplyUpdate(todos: seq<Todo>, id: int, p: Patch): (r: seq<Todo>)
    ensures |r| == |todos|
    ensures forall i :: 0 <= i < |r| ==> r[i].id == todos[i].id
    ensures forall i :: 0 <= i < |r| && todos[i].id != id ==> r[i] == todos[i]
    ensures forall i :: 0 <= i < |r| && todos[i].id == id ==> r[i] == ApplyPatch(todos[i], p)
  {
    seq(|todos|, i requires 0 <= i < |todos| => if todos[i].id == id then ApplyPatch(todos[i], p) else todos[i])
  }

  predicate UniqueIds(todos: seq<Todo>) {
    forall i, j :: 0 <= i < j < |todos| ==> todos[i].id != todos[j].id
  }

  /** The collection once the toggle request (if any) has been applied. */
  function AfterToggle(todos: seq<Todo>, id: int): (r: seq<Todo>)
    ensures |r| == |todos|
    ensures forall i :: 0 <= i < |r| ==> r[i].id == todos[i].id
    ensures (forall t :: t in todos ==> t.id != id) ==> r == todos
    ensures forall i :: 0 <= i < |r| && todos[i].id != id ==> r[i] == todos[i]
  {
    match ToggleRequest(todos, id)
    case None => todos
    case Some(r) => if r.UpdateTodo? then ApplyUpdate(todos, r.id, r.patch) else todos
  }

  /** The toggle patch flips `completed` of the record it targets and changes nothing
      else; a second toggle patch, taken from the updated record, restores it. */
  lemma TogglePatchTwice(t: Todo)
    ensures ApplyPatch(t, CompletedOnly(!t.completed)) == t.(completed := !t.completed)
    ensures var t' := ApplyPatch(t, CompletedOnly(!t.completed));
      ApplyPatch(t', CompletedOnly(!t'.completed)) == t
  {
  }

  /** A toggle flips `completed` of the one record with that id and leaves every other
      record and every other field as it was. */
  lemma {:induction false} ToggleFlipsOne(todos: seq<Todo>, id: int, i: int)
    requires UniqueIds(todos)
    requires 0 <= i < |todos| && todos[i].id == id
    ensures AfterToggle(todos, id) == todos[i := todos[i].(completed := !todos[i].completed)]
  {
    var k := FirstWithId(todos, id).value;
    assert k == i;
    var r := AfterToggle(todos, id);
    assert r == ApplyUpdate(todos, id, CompletedOnly(!todos[i].completed));
    forall j | 0 <= j < |todos|
      ensures r[j] == todos[i := todos[i].(completed := !todos[i].completed)][j]
    {
      if j != i {
        assert todos[j].id != id;
      }
    }
  }

  /** Toggling the same id twice, each time from the collection the first one left,
      restores the collection. */
  lemma ToggleTwiceRestores(todos: seq<Todo>, id: int)
    requires UniqueIds(todos)
    ensures AfterToggle(AfterToggle(todos, id), id) == todos
  {
    match FirstWithId(todos, id)
    case None =>
    case Some(i) =>
      ToggleFlipsOne(todos, id, i);
      var once := AfterToggle(todos, id);
      assert UniqueIds(once) by {
        forall a, b | 0 <= a < b < |once| ensures once[a].id != once[b].id {
          assert once[a].id == todos[a].id && once[b].id == todos[b].id;
        }
      }
      ToggleFlipsOne(once, id, i);
  }

  /** Editing sends the three form fields and leaves `id`, `completed` and `createdAt`
      as they were. */
  lemma EditKeepsOtherFields(t: Todo, data: FormData)
    ensures ApplyPatch(t, FormPatch(data)) == Todo(t.id, data.title, data.description, data.completionDate, t.completed, t.createdAt)
  {
  }

  // ---------------------------------------------------------------------------
  // The query cache

  type QueryKey = seq<string>

  /** The one query key of the application. */
  const TodosKey: QueryKey := ["todos"]

  /** A cache entry: the last fetched list (none before the first fetch lands) and
      whether it is marked for re-fetching. */
  datatype Entry = Entry(data: Option<seq<Todo>>, stale: bool)

  type QueryCache = map<QueryKey, Entry>

  datatype Outcome = Succeeded | Failed

  /** `invalidateQueries({ queryKey: filter })`: marks stale every entry whose key
      begins with `filter` and keeps every entry's data, so readers go on seeing the
      previous list until the re-fetch lands. */
  function Invalidate(cache: QueryCache, filter: QueryKey): (c: QueryCache)
    ensures c.Keys == cache.Keys
    ensures forall k :: k in c ==> c[k].data == cache[k].data
    ensures forall k :: k in c ==> (c[k].stale <==> cache[k].stale || filter <= k)
  {
    map k | k in cache :: if filter <= k then cache[k].(stale := true) else cache[k]
  }

  /** The key each mutation's `onSuccess` invalidates. */
  function OnSuccessKey(m: Request): (key: QueryKey)
    ensures key == TodosKey
  {
    match m
    case CreateTodo(_) => TodosKey
    case UpdateTodo(_, _) => TodosKey
    case DeleteTodo(_) => TodosKey
  }

  /** The cache once mutation `m` settles: invalidation runs only in `onSuccess`. */
  function Settle(cache: QueryCache, m: Request, outcome: Outcome): (c: QueryCache)
    ensures c.Keys == cache.Keys
    ensures forall k :: k in c ==> c[k].data == cache[k].data
    ensures outcome == Failed ==> c == cache
    ensures outcome == Succeeded ==>
      forall k :: k in c ==> (c[k].stale <==> cache[k].stale || TodosKey <= k)
  {
    match outcome
    case Succeeded => Invalidate(cache, OnSuccessKey(m))
    case Failed => cache
  }

  /** Since every mutation invalidates the same key, it does not matter which one
      succeeded, and a second success changes nothing more. */
  lemma SameKeyForAllMutations(cache: QueryCache, m1: Request, m2: Request)
    ensures Settle(cache, m1, Succeeded) == Settle(cache, m2, Succeeded)
    ensures Settle(Settle(cache, m1, Succeeded), m2, Succeeded) == Settle(cache, m1, Succeeded)
  {
  }

  /** A successful create, update or delete marks the todo list stale, keeps its data,
      and changes no entry whose key does not begin with "todos". */
  lemma SuccessMarksTodosStale(cache: QueryCache, m: Request)
    ensures Settle(cache, m, Succeeded).Keys == cache.Keys
    ensures TodosKey in cache ==>
      Settle(cache, m, Succeeded)[TodosKey] == cache[TodosKey].(stale := true)
    ensures forall k :: k in cache && !(TodosKey <= k) ==> Settle(cache, m, Succeeded)[k] == cache[k]
  {
  }

  /** Concurrent mutations may settle in either order with the same resulting cache;
      in particular a failure before or after a success does not undo it. */
  lemma SettlesCommute(cache: QueryCache, m1: Request, o1: Outcome, m2: Request, o2: Outcome)
    ensures Settle(Settle(cache, m1, o1), m2, o2) == Settle(Settle(cache, m2, o2), m1, o1)
  {
  }

  /** Invalidation never empties the list readers see. */
  lemma SettleKeepsVisibleList(cache: QueryCache, m: Request, outcome: Outcome)
    requires TodosKey in cache
    ensures TodosKey in Settle(cache, m, outcome)
    ensures DefaultTodos(Settle(cache, m, outcome)[TodosKey].data) == DefaultTodos(cache[TodosKey].data)
  {
  }
}
