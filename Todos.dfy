/** The todo record and the pure list transforms the page applies to its
    in-memory list: prepend a created record, drop by id, replace by id, and
    the filtered view and remaining count derived from the list. */
module Todos {
  import opened Sequences

  /** One row of the `todos` table as the API returns it; the timestamps are
      opaque strings produced by the datastore. */
  datatype Todo = Todo(id: string, title: string, is_done: bool, created_at: string, updated_at: string)

  /** The page's filter selector. */
  datatype TodoFilter = All | Active | Done

  /** No two records of the list share an id (the datastore's key). */
  ghost predicate UniqueIds(todos: seq<Todo>) {
    forall i, j :: 0 <= i < j < |todos| ==> todos[i].id != todos[j].id
  }

  ghost predicate HasId(todos: seq<Todo>, id: string) {
    exists i :: 0 <= i < |todos| && todos[i].id == id
  }

  function IsActive(t: Todo): bool { !t.is_done }

  function IsDone(t: Todo): bool { t.is_done }

  /** The predicate `todo.id !== id` used when a delete succeeds. */
  function OtherId(id: string): Todo -> bool {
    (t: Todo) => t.id != id
  }

  /** The replacement `t.id === updated.id ? updated : t` used when an update succeeds. */
  function SwapIn(updated: Todo): Todo -> Todo {
    (t: Todo) => if t.id == updated.id then updated else t
  }

  /** `[created, ...prev]`: the server's new record goes first, newest first. */
  function Prepend(created: Todo, todos: seq<Todo>): (r: seq<Todo>)
    ensures |r| == |todos| + 1 && r[0] == created && r[1..] == todos
  {
    [created] + todos
  }

  /** `prev.filter((todo) => todo.id !== id)`: every record with that id is gone,
      every other record keeps its multiplicity. */
  function RemoveById(todos: seq<Todo>, id: string): (r: seq<Todo>)
    ensures forall t :: t in r <==> t in todos && t.id != id
    ensures forall t :: multiset(r)[t] == if t.id == id then 0 else multiset(todos)[t]
  {
    Filter(todos, OtherId(id))
  }

  /** `prev.map((t) => (t.id === updated.id ? updated : t))`: same length, each
      record with the updated id replaced by the server's copy, all others kept
      in place. */
  function ReplaceById(todos: seq<Todo>, updated: Todo): (r: seq<Todo>)
    ensures |r| == |todos|
    ensures forall i :: 0 <= i < |todos| ==> r[i].id == todos[i].id
    ensures forall i :: 0 <= i < |todos| && todos[i].id != updated.id ==> r[i] == todos[i]
    ensures forall i :: 0 <= i < |todos| && todos[i].id == updated.id ==> r[i] == updated
  {
    Map(todos, SwapIn(updated))
  }

  /** The view under a filter: the records the filter shows, each as often as
      in the list, in list order. */
  function FilteredTodos(todos: seq<Todo>, filter: TodoFilter): (r: seq<Todo>)
    ensures filter == All ==> r == todos
    ensures forall t :: t in r <==> t in todos && (filter == Active ==> !t.is_done) && (filter == Done ==> t.is_done)
    ensures forall t :: multiset(r)[t] == (if (filter == Active && t.is_done) || (filter == Done && !t.is_done) then 0 else multiset(todos)[t])
  {
    match filter
    case Active => Filter(todos, IsActive)
    case Done => Filter(todos, IsDone)
    case All => todos
  }

  /** The number of records not yet done, counted over the whole list: it is
      the size of the "active" view, and with the "done" view it makes up the
      list. */
  function RemainingCount(todos: seq<Todo>): (n: nat)
    ensures n == |FilteredTodos(todos, Active)|
    ensures n + |FilteredTodos(todos, Done)| == |todos|
  {
    FilterComplement(todos, IsActive, IsDone);
    |Filter(todos, IsActive)|
  }

  /** The filtered view keeps the list's order. */
  lemma FilteredIsSubsequence(todos: seq<Todo>, filter: TodoFilter)
    ensures IsSubsequence(FilteredTodos(todos, filter), todos)
  {
    match filter
    case Active => FilterIsSubsequence(todos, IsActive);
    case Done => FilterIsSubsequence(todos, IsDone);
    case All => SubsequenceOfSelf(todos);
  }

  lemma {:induction false} SubsequenceOfSelf(s: seq<Todo>)
    ensures IsSubsequence(s, s)
  {
    if s != [] {
      SubsequenceOfSelf(s[1..]);
    }
  }

  /** Prepending a record whose id is new keeps the ids unique. */
  lemma PrependKeepsIdsUnique(created: Todo, todos: seq<Todo>)
    requires UniqueIds(todos) && !HasId(todos, created.id)
    ensures UniqueIds(Prepend(created, todos))
  {
  }

  /** Prepending a record adds one to the remaining count exactly when it is
      not done (the server creates every record with `is_done: false`). */
  lemma PrependRemainingCount(created: Todo, todos: seq<Todo>)
    ensures RemainingCount(Prepend(created, todos)) == RemainingCount(todos) + (if created.is_done then 0 else 1)
  {
  }

  /** Deleting keeps the others in order. */
  lemma RemoveByIdIsSubsequence(todos: seq<Todo>, id: string)
    ensures IsSubsequence(RemoveById(todos, id), todos)
  {
    FilterIsSubsequence(todos, OtherId(id));
  }

  /** Deleting the same id twice is deleting it once. */
  lemma RemoveByIdIdempotent(todos: seq<Todo>, id: string)
    ensures RemoveById(RemoveById(todos, id), id) == RemoveById(todos, id)
  {
    FilterIdempotent(todos, OtherId(id));
  }

  /** Deleting an id that is not in the list changes nothing. */
  lemma RemoveByIdAbsent(todos: seq<Todo>, id: string)
    requires !HasId(todos, id)
    ensures RemoveById(todos, id) == todos
  {
    forall t | t in todos ensures OtherId(id)(t) {
      var i :| 0 <= i < |todos| && todos[i] == t;
    }
    FilterKeepsAll(todos, OtherId(id));
  }

  /** Deleting an id that occurs once shortens the list by one. */
  lemma {:induction false} RemoveByIdLength(todos: seq<Todo>, id: string)
    requires UniqueIds(todos) && HasId(todos, id)
    ensures |RemoveById(todos, id)| == |todos| - 1
  {
    assert todos == [todos[0]] + todos[1..];
    if todos[0].id == id {
      assert !HasId(todos[1..], id);
      RemoveByIdAbsent(todos[1..], id);
      assert RemoveById(todos, id) == RemoveById(todos[1..], id);
    } else {
      var i :| 0 <= i < |todos| && todos[i].id == id;
      assert todos[1..][i - 1].id == id;
      RemoveByIdLength(todos[1..], id);
      assert RemoveById(todos, id) == [todos[0]] + RemoveById(todos[1..], id);
    }
  }

  /** Deleting keeps the ids unique. */
  lemma {:induction false} RemoveByIdKeepsIdsUnique(todos: seq<Todo>, id: string)
    requires UniqueIds(todos)
    ensures UniqueIds(RemoveById(todos, id))
  {
    if todos != [] {
      var rest := todos[1..];
      var kept := RemoveById(rest, id);
      RemoveByIdKeepsIdsUnique(rest, id);
      RemoveByIdCons(todos, id);
      if todos[0].id != id {
        HeadIdNotInTail(todos);
        ConsKeepsIdsUnique(todos[0], kept);
      }
    }
  }

  /** Deleting from a non-empty list: the head survives exactly when its id differs. */
  lemma RemoveByIdCons(todos: seq<Todo>, id: string)
    requires todos != []
    ensures RemoveById(todos, id) == if todos[0].id != id then [todos[0]] + RemoveById(todos[1..], id) else RemoveById(todos[1..], id)
  {
  }

  lemma HeadIdNotInTail(todos: seq<Todo>)
    requires UniqueIds(todos) && todos != []
    ensures UniqueIds(todos[1..])
    ensures forall t :: t in todos[1..] ==> t.id != todos[0].id
  {
  }

  lemma ConsKeepsIdsUnique(head: Todo, tail: seq<Todo>)
    requires UniqueIds(tail)
    requires forall t :: t in tail ==> t.id != head.id
    ensures UniqueIds([head] + tail)
  {
  }

  /** Replacing by the server's copy keeps the ids unique. */
  lemma ReplaceByIdKeepsIdsUnique(todos: seq<Todo>, updated: Todo)
    requires UniqueIds(todos)
    ensures UniqueIds(ReplaceById(todos, updated))
  {
  }

  /** Applying the same server copy twice is applying it once. */
  lemma ReplaceByIdIdempotent(todos: seq<Todo>, updated: Todo)
    ensures ReplaceById(ReplaceById(todos, updated), updated) == ReplaceById(todos, updated)
  {
  }

  /** A server copy whose id is not in the list changes nothing. */
  lemma ReplaceByIdAbsent(todos: seq<Todo>, updated: Todo)
    requires !HasId(todos, updated.id)
    ensures ReplaceById(todos, updated) == todos
  {
  }

  /** The number of records not done, counted one record at a time. */
  ghost function ActiveCount(todos: seq<Todo>): nat {
    if todos == [] then 0 else (if todos[0].is_done then 0 else 1) + ActiveCount(todos[1..])
  }

  /** The remaining count is the record-by-record count of records not done. */
  lemma {:induction false} RemainingCountIsActiveCount(todos: seq<Todo>)
    ensures RemainingCount(todos) == ActiveCount(todos)
  {
    if todos != [] {
      assert todos == [todos[0]] + todos[1..];
      RemainingCountIsActiveCount(todos[1..]);
    }
  }

  /** With unique ids, replacing the record `before` by a copy with the same id
      moves the remaining count by the change in that one record's flag: a
      toggle that the server confirms moves it by exactly one. */
  lemma ReplaceByIdRemainingCount(todos: seq<Todo>, before: Todo, updated: Todo)
    requires UniqueIds(todos) && before in todos && updated.id == before.id
    ensures RemainingCount(ReplaceById(todos, updated))
         == RemainingCount(todos) - (if before.is_done then 0 else 1) + (if updated.is_done then 0 else 1)
  {
    RemainingCountIsActiveCount(todos);
    RemainingCountIsActiveCount(ReplaceById(todos, updated));
    ReplaceByIdActiveCount(todos, before, updated);
  }

  lemma {:induction false} ReplaceByIdActiveCount(todos: seq<Todo>, before: Todo, updated: Todo)
    requires UniqueIds(todos) && before in todos && updated.id == before.id
    ensures ActiveCount(ReplaceById(todos, updated))
         == ActiveCount(todos) - (if before.is_done then 0 else 1) + (if updated.is_done then 0 else 1)
  {
    var r := ReplaceById(todos, updated);
    assert r[1..] == ReplaceById(todos[1..], updated);
    assert UniqueIds(todos[1..]);
    if todos[0].id == before.id {
      assert todos[0] == before by {
        var i :| 0 <= i < |todos| && todos[i] == before;
      }
      assert !HasId(todos[1..], before.id);
      ReplaceByIdAbsent(todos[1..], updated);
    } else {
      assert todos == [todos[0]] + todos[1..];
      assert before in todos[1..];
      ReplaceByIdActiveCount(todos[1..], before, updated);
    }
  }
}
