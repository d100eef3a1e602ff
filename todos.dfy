/** A model of the todo service: the queries and mutations over the `todos`
    table, with the caller's identity passed in explicitly and every failure
    returned as a typed error instead of a thrown exception. */
module Todos {

  // ---------------------------------------------------------------------------
  // Data model
  // ---------------------------------------------------------------------------

  /** Opaque identifiers of users and of todo documents. */
  type UserId = nat
  type TodoId = nat

  datatype Option<T> = None | Some(value: T) {
    function GetOr(default: T): T {
      match this
      case Some(v) => v
      case None => default
    }
  }

  datatype Priority = Low | Medium | High

  /** A document of the `todos` table. `id` and `creationTime` are the
      store-assigned system fields; `dueDate` is an opaque timestamp. */
  datatype Todo = Todo(
    id: TodoId,
    creationTime: nat,
    title: string,
    description: Option<string>,
    completed: bool,
    priority: Priority,
    dueDate: Option<int>,
    userId: UserId)

  /** The three errors the handlers throw, in the order they are checked. */
  datatype Error = NotAuthenticated | NotFound | NotAuthorized

  datatype Result<T> = Ok(value: T) | Err(error: Error)

  /** The result of a mutation that returns nothing on success. */
  datatype Outcome = Done | Failed(error: Error)

  /** The optional fields of an update; an absent field keeps its value.
      There is no way to name `id`, `userId` or `creationTime` here. */
  datatype Patch = Patch(
    title: Option<string>,
    description: Option<string>,
    completed: Option<bool>,
    priority: Option<Priority>,
    dueDate: Option<int>)

  const NoChange: Patch := Patch(None, None, None, None, None)

  // ---------------------------------------------------------------------------
  // Table invariants and orderings
  // ---------------------------------------------------------------------------

  /** Every document is stored under its own id. */
  ghost predicate KeyedById(todos: map<TodoId, Todo>) {
    forall id :: id in todos ==> todos[id].id == id
  }

  /** A document with a larger id was inserted later. */
  ghost predicate Chronological(todos: map<TodoId, Todo>) {
    forall a, b :: a in todos && b in todos && a < b ==> todos[a].creationTime < todos[b].creationTime
  }

  /** `s` lists documents by strictly descending creation time. */
  ghost predicate NewestFirst(s: seq<Todo>) {
    forall i, j :: 0 <= i < j < |s| ==> s[i].creationTime > s[j].creationTime
  }

  ghost predicate IdsDescending(s: seq<Todo>) {
    forall i, j :: 0 <= i < j < |s| ==> s[i].id > s[j].id
  }

  /** `t` is the document the table stores under `t.id`. */
  ghost predicate Stored(todos: map<TodoId, Todo>, t: Todo) {
    t.id in todos && todos[t.id] == t
  }

  // ---------------------------------------------------------------------------
  // Index scans (getTodos, getTodosByStatus)
  // ---------------------------------------------------------------------------

  /** The equality range of an index: `by_user_id` on `user` when `status` is
      None, `by_user_and_completed` on `(user, status)` otherwise. */
  predicate InIndexRange(t: Todo, user: UserId, status: Option<bool>) {
    t.userId == user && (status.None? || t.completed == status.value)
  }

  /** The documents with id below `k` in the index range, highest id first. */
  function IndexScan(todos: map<TodoId, Todo>, user: UserId, status: Option<bool>, k: nat): (r: seq<Todo>)
    requires KeyedById(todos)
    ensures forall t :: t in r <==> t.id < k && Stored(todos, t) && InIndexRange(t, user, status)
    decreases k
  {
    if k == 0 then []
    else
      var rest := IndexScan(todos, user, status, k - 1);
      if k - 1 in todos && InIndexRange(todos[k - 1], user, status) then [todos[k - 1]] + rest else rest
  }

  /** A scan lists strictly descending ids, hence no document twice. */
  lemma {:induction false} ScanIdsDescending(todos: map<TodoId, Todo>, user: UserId, status: Option<bool>, k: nat)
    requires KeyedById(todos)
    ensures IdsDescending(IndexScan(todos, user, status, k))
  {
    if k > 0 {
      ScanIdsDescending(todos, user, status, k - 1);
    }
  }

  /** Scanning below `k` sees only the documents with ids below `k`. */
  lemma {:induction false} ScanBelow(m1: map<TodoId, Todo>, m2: map<TodoId, Todo>, user: UserId, status: Option<bool>, k: nat)
    requires KeyedById(m1) && KeyedById(m2)
    requires forall id :: id < k ==> (id in m1 <==> id in m2)
    requires forall id :: id < k && id in m1 ==> m1[id] == m2[id]
    ensures IndexScan(m1, user, status, k) == IndexScan(m2, user, status, k)
  {
    if k > 0 {
      ScanBelow(m1, m2, user, status, k - 1);
    }
  }

  /** Inserting a document under a fresh id above every key puts it at the
      head of every index range it belongs to and nowhere else. */
  lemma ScanInsert(m: map<TodoId, Todo>, t: Todo, user: UserId, status: Option<bool>)
    requires KeyedById(m)
    requires forall id :: id in m ==> id < t.id
    ensures KeyedById(m[t.id := t])
    ensures IndexScan(m[t.id := t], user, status, t.id + 1)
         == if InIndexRange(t, user, status) then [t] + IndexScan(m, user, status, t.id) else IndexScan(m, user, status, t.id)
  {
    ScanBelow(m[t.id := t], m, user, status, t.id);
  }

  /** Removing one document removes it from every scan and keeps the order of the rest. */
  lemma ScanRemove(m: map<TodoId, Todo>, id: TodoId, user: UserId, status: Option<bool>, k: nat)
    requires KeyedById(m)
    ensures KeyedById(m - {id})
    ensures IndexScan(m - {id}, user, status, k) == Without(IndexScan(m, user, status, k), id)
  {
    ScanRemoved(m, m - {id}, id, user, status, k);
  }

  /** ScanRemove over any map that agrees with `m` except that it lacks `id`. */
  lemma {:induction false} ScanRemoved(m: map<TodoId, Todo>, m': map<TodoId, Todo>, id: TodoId,
                                       user: UserId, status: Option<bool>, k: nat)
    requires KeyedById(m)
    requires m'.Keys == m.Keys - {id}
    requires forall x :: x in m' ==> m'[x] == m[x]
    ensures KeyedById(m')
    ensures IndexScan(m', user, status, k) == Without(IndexScan(m, user, status, k), id)
  {
    if k > 0 {
      ScanRemoved(m, m', id, user, status, k - 1);
      ScanRemovedStep(m, m', id, user, status, k);
    }
  }

  /** The induction step of ScanRemoved. */
  lemma ScanRemovedStep(m: map<TodoId, Todo>, m': map<TodoId, Todo>, id: TodoId,
                        user: UserId, status: Option<bool>, k: nat)
    requires KeyedById(m) && KeyedById(m') && k > 0
    requires m'.Keys == m.Keys - {id}
    requires forall x :: x in m' ==> m'[x] == m[x]
    requires IndexScan(m', user, status, k - 1) == Without(IndexScan(m, user, status, k - 1), id)
    ensures IndexScan(m', user, status, k) == Without(IndexScan(m, user, status, k), id)
  {
    var rest := IndexScan(m, user, status, k - 1);
    if k - 1 in m && InIndexRange(m[k - 1], user, status) {
      assert ([m[k - 1]] + rest)[1..] == rest;
    }
  }

  /** `s` with the document of id `id` left out. */
  function Without(s: seq<Todo>, id: TodoId): (r: seq<Todo>)
    ensures forall t :: t in r <==> t in s && t.id != id
  {
    if s == [] then []
    else (if s[0].id == id then [] else [s[0]]) + Without(s[1..], id)
  }

  /** The documents of `s` whose `completed` flag is `c`, in the order of `s`. */
  function WithStatus(s: seq<Todo>, c: bool): (r: seq<Todo>)
    ensures forall t :: t in r <==> t in s && t.completed == c
  {
    if s == [] then []
    else (if s[0].completed == c then [s[0]] else []) + WithStatus(s[1..], c)
  }

  /** The composite index returns exactly what the owner index returns,
      filtered by status, in the same order. */
  lemma {:induction false} ScanByStatus(todos: map<TodoId, Todo>, user: UserId, c: bool, k: nat)
    requires KeyedById(todos)
    ensures IndexScan(todos, user, Some(c), k) == WithStatus(IndexScan(todos, user, None, k), c)
  {
    if k > 0 {
      ScanByStatus(todos, user, c, k - 1);
      var rest := IndexScan(todos, user, None, k - 1);
      if k - 1 in todos && InIndexRange(todos[k - 1], user, None) {
        assert ([todos[k - 1]] + rest)[1..] == rest;
      }
    }
  }

  /** Splitting a list by status loses and duplicates nothing. */
  lemma {:induction false} StatusSplit(s: seq<Todo>)
    ensures multiset(WithStatus(s, true)) + multiset(WithStatus(s, false)) == multiset(s)
    ensures |WithStatus(s, true)| + |WithStatus(s, false)| == |s|
  {
    if s != [] {
      StatusSplit(s[1..]);
      assert s == [s[0]] + s[1..];
    }
  }

  /** Under the table invariants, descending ids are descending creation times. */
  lemma IdOrderIsTimeOrder(todos: map<TodoId, Todo>, s: seq<Todo>)
    requires KeyedById(todos) && Chronological(todos)
    requires forall t :: t in s ==> Stored(todos, t)
    requires IdsDescending(s)
    ensures NewestFirst(s)
  {
    forall i, j | 0 <= i < j < |s|
      ensures s[i].creationTime > s[j].creationTime
    {
      assert Stored(todos, s[i]) && Stored(todos, s[j]);
    }
  }

  /** Inserting under the next id with the next creation time keeps the table invariants. */
  lemma InsertKeepsInvariant(m: map<TodoId, Todo>, t: Todo, m': map<TodoId, Todo>, nextId: TodoId, clock: nat)
    requires KeyedById(m) && Chronological(m)
    requires forall id :: id in m ==> id < nextId && m[id].creationTime < clock
    requires t.id == nextId && t.creationTime == clock && m' == m[nextId := t]
    ensures KeyedById(m') && Chronological(m')
    ensures forall id :: id in m' ==> id < nextId + 1 && m'[id].creationTime < clock + 1
  {
  }

  // ---------------------------------------------------------------------------
  // Checks and document updates shared by the mutations
  // ---------------------------------------------------------------------------

  /** The checks updateTodo, deleteTodo and toggleTodo run before they write:
      identity first, then existence, then ownership. */
  function Authorize(todos: map<TodoId, Todo>, caller: Option<UserId>, id: TodoId): (r: Result<Todo>)
    ensures caller.None? ==> r == Err(NotAuthenticated)
    ensures caller.Some? && id !in todos ==> r == Err(NotFound)
    ensures caller.Some? && id in todos && todos[id].userId != caller.value ==> r == Err(NotAuthorized)
    ensures r.Ok? <==> caller.Some? && id in todos && todos[id].userId == caller.value
    ensures r.Ok? ==> r.value == todos[id]
  {
    if caller.None? then Err(NotAuthenticated)
    else if id !in todos then Err(NotFound)
    else if todos[id].userId != caller.value then Err(NotAuthorized)
    else Ok(todos[id])
  }

  /** A document after `ctx.db.patch` with the supplied fields of `p`: every
      field the patch supplies takes its new value, every absent field keeps
      its old one, and the system fields and the owner cannot be named. */
  function Patched(t: Todo, p: Patch): (u: Todo)
    ensures u.id == t.id && u.userId == t.userId && u.creationTime == t.creationTime
    ensures p == NoChange ==> u == t
  {
    t.(title := p.title.GetOr(t.title),
       description := if p.description.Some? then p.description else t.description,
       completed := p.completed.GetOr(t.completed),
       priority := p.priority.GetOr(t.priority),
       dueDate := if p.dueDate.Some? then p.dueDate else t.dueDate)
  }

  /** The patch toggleTodo sends: only `completed`, negated. */
  function TogglePatch(t: Todo): Patch {
    Patch(None, None, Some(!t.completed), None, None)
  }

  /** Applying the same patch twice is the same as applying it once. */
  lemma PatchIdempotent(t: Todo, p: Patch)
    ensures Patched(Patched(t, p), p) == Patched(t, p)
  {
  }

  /** Toggling changes `completed` and nothing else, and undoes itself. */
  lemma ToggleInvolution(t: Todo)
    ensures Patched(t, TogglePatch(t)) == t.(completed := !t.completed)
    ensures Patched(Patched(t, TogglePatch(t)), TogglePatch(Patched(t, TogglePatch(t)))) == t
  {
  }

  // ---------------------------------------------------------------------------
  // The store
  // ---------------------------------------------------------------------------

  /** The `todos` table together with the store's id and creation-time counters. */
  class Store {
    var todos: map<TodoId, Todo>
    /** The id the next insert receives. */
    var nextId: TodoId
    /** The creation time the next insert receives. */
    var clock: nat

    ghost predicate Valid()
      reads this
    {
      && KeyedById(todos)
      && Chronological(todos)
      && (forall id :: id in todos ==> id < nextId && todos[id].creationTime < clock)
    }

    constructor ()
      ensures Valid() && todos == map[]
    {
      todos := map[];
      nextId := 0;
      clock := 0;
    }

    /** getTodos: the caller's documents through `by_user_id`, newest first. */
    function GetTodos(caller: Option<UserId>): (r: Result<seq<Todo>>)
      reads this
      requires Valid()
      ensures caller.None? <==> r == Err(NotAuthenticated)
      ensures caller.Some? ==> r.Ok?
      ensures r.Ok? ==> forall t :: t in r.value <==> Stored(todos, t) && t.userId == caller.value
      ensures r.Ok? ==> NewestFirst(r.value)
    {
      if caller.None? then Err(NotAuthenticated)
      else
        var s := IndexScan(todos, caller.value, None, nextId);
        ScanIdsDescending(todos, caller.value, None, nextId);
        IdOrderIsTimeOrder(todos, s);
        Ok(s)
    }

    /** getTodosByStatus: the caller's documents with the given `completed`
        flag through `by_user_and_completed`, newest first. */
    function GetTodosByStatus(caller: Option<UserId>, completed: bool): (r: Result<seq<Todo>>)
      reads this
      requires Valid()
      ensures caller.None? <==> r == Err(NotAuthenticated)
      ensures caller.Some? ==> r.Ok?
      ensures r.Ok? ==> forall t :: t in r.value <==> Stored(todos, t) && t.userId == caller.value && t.completed == completed
      ensures r.Ok? ==> NewestFirst(r.value)
    {
      if caller.None? then Err(NotAuthenticated)
      else
        var s := IndexScan(todos, caller.value, Some(completed), nextId);
        ScanIdsDescending(todos, caller.value, Some(completed), nextId);
        IdOrderIsTimeOrder(todos, s);
        Ok(s)
    }

    /** createTodo: inserts a pending document owned by the caller and returns its id. */
    method CreateTodo(caller: Option<UserId>, title: string, description: Option<string>,
                      priority: Priority, dueDate: Option<int>) returns (r: Result<TodoId>)
      requires Valid()
      modifies this
      ensures Valid()
      ensures caller.None? <==> r == Err(NotAuthenticated)
      ensures caller.None? ==> unchanged(this)
      ensures caller.Some? ==> r.Ok? && r.value !in old(todos)
      ensures r.Ok? ==> old(nextId) <= r.value < nextId
      ensures nextId >= old(nextId) && clock >= old(clock)
      ensures r.Ok? ==> todos == old(todos)[r.value :=
        Todo(r.value, old(clock), title, description, false, priority, dueDate, caller.value)]
      ensures r.Ok? ==> forall id :: id in old(todos) ==> old(todos)[id].creationTime < todos[r.value].creationTime
      ensures r.Ok? ==> GetTodos(caller) == Ok([todos[r.value]] + old(GetTodos(caller)).value)
      ensures r.Ok? ==> GetTodosByStatus(caller, false) == Ok([todos[r.value]] + old(GetTodosByStatus(caller, false)).value)
      ensures GetTodosByStatus(caller, true) == old(GetTodosByStatus(caller, true))
      ensures forall other: UserId :: Some(other) != caller ==> GetTodos(Some(other)) == old(GetTodos(Some(other)))
    {
      if caller.None? {
        return Err(NotAuthenticated);
      }
      var t := Todo(nextId, clock, title, description, false, priority, dueDate, caller.value);
      ghost var m := todos;
      InsertKeepsInvariant(m, t, m[nextId := t], nextId, clock);
      todos := todos[nextId := t];
      r := Ok(nextId);
      nextId := nextId + 1;
      clock := clock + 1;
      assert GetTodos(caller) == Ok([t] + old(GetTodos(caller)).value) by {
        ScanInsert(m, t, caller.value, None);
      }
      assert GetTodosByStatus(caller, false) == Ok([t] + old(GetTodosByStatus(caller, false)).value) by {
        ScanInsert(m, t, caller.value, Some(false));
      }
      assert GetTodosByStatus(caller, true) == old(GetTodosByStatus(caller, true)) by {
        ScanInsert(m, t, caller.value, Some(true));
      }
      forall other: UserId | Some(other) != caller
        ensures GetTodos(Some(other)) == old(GetTodos(Some(other)))
      {
        ScanInsert(m, t, other, None);
      }
    }

    /** updateTodo: after the checks, overwrites the supplied fields only. */
    method UpdateTodo(caller: Option<UserId>, id: TodoId, patch: Patch) returns (r: Outcome)
      requires Valid()
      modifies this
      ensures Valid()
      ensures r.Failed? <==> Authorize(old(todos), caller, id).Err?
      ensures r.Failed? ==> r.error == Authorize(old(todos), caller, id).error && unchanged(this)
      ensures r.Done? ==> todos == old(todos)[id := Patched(old(todos)[id], patch)]
      ensures nextId == old(nextId) && clock == old(clock)
    {
      var a := Authorize(todos, caller, id);
      if a.Err? {
        return Failed(a.error);
      }
      todos := todos[id := Patched(a.value, patch)];
      r := Done;
    }

    /** deleteTodo: after the checks, removes exactly that document. */
    method DeleteTodo(caller: Option<UserId>, id: TodoId) returns (r: Outcome)
      requires Valid()
      modifies this
      ensures Valid()
      ensures r.Failed? <==> Authorize(old(todos), caller, id).Err?
      ensures r.Failed? ==> r.error == Authorize(old(todos), caller, id).error && unchanged(this)
      ensures r.Done? ==> todos == old(todos) - {id}
      ensures r.Done? ==> forall u :: GetTodos(u).Ok? ==> GetTodos(u).value == Without(old(GetTodos(u)).value, id)
      ensures nextId == old(nextId) && clock == old(clock)
    {
      var a := Authorize(todos, caller, id);
      if a.Err? {
        return Failed(a.error);
      }
      ghost var m := todos;
      forall user: UserId
        ensures IndexScan(m - {id}, user, None, nextId) == Without(IndexScan(m, user, None, nextId), id)
      {
        ScanRemove(m, id, user, None, nextId);
      }
      todos := todos - {id};
      r := Done;
    }

    /** toggleTodo: after the checks, negates `completed` and changes nothing else. */
    method ToggleTodo(caller: Option<UserId>, id: TodoId) returns (r: Outcome)
      requires Valid()
      modifies this
      ensures Valid()
      ensures r.Failed? <==> Authorize(old(todos), caller, id).Err?
      ensures r.Failed? ==> r.error == Authorize(old(todos), caller, id).error && unchanged(this)
      ensures r.Done? ==> todos == old(todos)[id := old(todos)[id].(completed := !old(todos)[id].completed)]
      ensures nextId == old(nextId) && clock == old(clock)
    {
      var a := Authorize(todos, caller, id);
      if a.Err? {
        return Failed(a.error);
      }
      ToggleInvolution(a.value);
      todos := todos[id := Patched(a.value, TogglePatch(a.value))];
      r := Done;
    }
  }

  // ---------------------------------------------------------------------------
  // Properties relating several operations
  // ---------------------------------------------------------------------------

  /** The completed and pending views split the caller's full view: each is
      the full view filtered by status, and their sizes add up to its size. */
  lemma StatsPartition(s: Store, caller: UserId)
    requires s.Valid()
    ensures s.GetTodosByStatus(Some(caller), true).value == WithStatus(s.GetTodos(Some(caller)).value, true)
    ensures s.GetTodosByStatus(Some(caller), false).value == WithStatus(s.GetTodos(Some(caller)).value, false)
    ensures multiset(s.GetTodosByStatus(Some(caller), true).value) + multiset(s.GetTodosByStatus(Some(caller), false).value)
         == multiset(s.GetTodos(Some(caller)).value)
    ensures |s.GetTodosByStatus(Some(caller), true).value| + |s.GetTodosByStatus(Some(caller), false).value|
         == |s.GetTodos(Some(caller)).value|
  {
    ScanByStatus(s.todos, caller, true, s.nextId);
    ScanByStatus(s.todos, caller, false, s.nextId);
    StatusSplit(s.GetTodos(Some(caller)).value);
  }

  /** A caller may change exactly the documents its own listing shows. */
  lemma MutableIffListed(s: Store, caller: UserId, id: TodoId)
    requires s.Valid()
    ensures Authorize(s.todos, Some(caller), id).Ok? <==> id in s.todos && s.todos[id] in s.GetTodos(Some(caller)).value
  {
  }

  /** Toggling the same document twice restores the table. */
  method ToggleTwice(s: Store, caller: Option<UserId>, id: TodoId) returns (r1: Outcome, r2: Outcome)
    requires s.Valid()
    modifies s
    ensures s.Valid()
    ensures r1 == r2
    ensures s.todos == old(s.todos)
  {
    r1 := s.ToggleTodo(caller, id);
    r2 := s.ToggleTodo(caller, id);
  }

  /** An id is never issued twice: once its document is deleted, a later
      create gets a different id and a toggle of the old id finds nothing. */
  method StaleIdNotFound(s: Store, caller: UserId, title: string, priority: Priority)
    returns (first: Result<TodoId>, second: Result<TodoId>, toggled: Outcome)
    requires s.Valid()
    modifies s
    ensures s.Valid()
    ensures first.Ok? && second.Ok? && first.value != second.value
    ensures toggled == Failed(NotFound)
  {
    first := s.CreateTodo(Some(caller), title, None, priority, None);
    var deleted := s.DeleteTodo(Some(caller), first.value);
    second := s.CreateTodo(Some(caller), title, None, priority, None);
    toggled := s.ToggleTodo(Some(caller), first.value);
  }

  /** Repeating the same update leaves the table as one update does. */
  method UpdateTwice(s: Store, caller: Option<UserId>, id: TodoId, patch: Patch) returns (r1: Outcome, r2: Outcome)
    requires s.Valid()
    modifies s
    ensures s.Valid()
    ensures r1 == r2
    ensures r1.Done? <==> Authorize(old(s.todos), caller, id).Ok?
    ensures r1.Done? ==> s.todos == old(s.todos)[id := Patched(old(s.todos)[id], patch)]
    ensures r1.Failed? ==> s.todos == old(s.todos)
  {
    r1 := s.UpdateTodo(caller, id, patch);
    if r1.Done? {
      PatchIdempotent(old(s.todos)[id], patch);
    }
    r2 := s.UpdateTodo(caller, id, patch);
  }
}
