/** What each operation of TodoService (src/app/services/todo.service.ts)
    does to the list of todos, as functions on values. The class in
    todo_service.dfy is proved to change its list exactly as these say. */
module TodoLists {
  import opened Wrappers
  import opened Sequences
  import opened TodoModel

  /** Some record of `s` has the id `id` (under `===`). */
  predicate Contains(s: seq<Todo>, id: TodoId)
  {
    exists i :: 0 <= i < |s| && s[i].id == id
  }

  /** No two records of `s` share an id. Nothing in the store ensures this. */
  ghost predicate UniqueIds(s: seq<Todo>)
  {
    forall i, j :: 0 <= i < j < |s| ==> s[i].id != s[j].id
  }

  /** `todos.findIndex(t => t.id === id)`: the first matching index, or -1. */
  function FindIndex(s: seq<Todo>, id: TodoId): (r: int)
    ensures -1 <= r < |s|
    ensures r == -1 <==> !Contains(s, id)
    ensures 0 <= r ==> s[r].id == id
    ensures 0 <= r ==> forall j :: 0 <= j < r ==> s[j].id != id
  {
    if s == [] then -1
    else if s[0].id == id then 0
    else
      var k := FindIndex(s[1..], id);
      assert forall j :: 1 <= j < |s| ==> s[j] == s[1..][j - 1];
      if k == -1 then -1 else k + 1
  }

  /** `todos.find(t => t.id === id)`: the first record with that id, or
      `undefined`. */
  function Find(s: seq<Todo>, id: TodoId): (r: Option<Todo>)
    ensures r.None? <==> !Contains(s, id)
    ensures r.Some? ==> exists i :: 0 <= i < |s| && s[i] == r.value && s[i].id == id &&
                                    forall j :: 0 <= j < i ==> s[j].id != id
  {
    var i := FindIndex(s, id);
    if i == -1 then None else Some(s[i])
  }

  /** The list after `updateTodo(id, u)`: the first record with that id is
      merged with the patch; nothing happens when there is none. */
  function Updated(s: seq<Todo>, id: TodoId, u: TodoUpdate): (r: seq<Todo>)
    ensures |r| == |s|
    ensures !Contains(s, id) ==> r == s
    ensures Contains(s, id) ==> r[FindIndex(s, id)] == Merge(s[FindIndex(s, id)], u)
    ensures forall j :: 0 <= j < |s| && j != FindIndex(s, id) ==> r[j] == s[j]
  {
    var i := FindIndex(s, id);
    if i == -1 then s else s[i := Merge(s[i], u)]
  }

  /** The patch `{ completed: !todo.completed }` that `toggleTodo` sends. */
  function FlipCompleted(t: Todo): (u: TodoUpdate)
    ensures Merge(t, u) == t.(completed := !t.completed)
  {
    TodoUpdate(None, None, Some(!t.completed))
  }

  /** The list after `toggleTodo(id)`. */
  function Toggled(s: seq<Todo>, id: TodoId): (r: seq<Todo>)
    ensures |r| == |s|
    ensures !Contains(s, id) ==> r == s
    ensures Contains(s, id) ==>
              var i := FindIndex(s, id);
              r[i].completed == !s[i].completed && r[i].(completed := s[i].completed) == s[i]
    ensures forall j :: 0 <= j < |s| && j != FindIndex(s, id) ==> r[j] == s[j]
  {
    match Find(s, id)
    case None => s
    case Some(t) => Updated(s, id, FlipCompleted(t))
  }

  predicate IsCompleted(t: Todo) { t.completed }

  predicate IsActive(t: Todo) { !t.completed }

  /** A record whose id is not `id`: the test `t => t.id !== id`. */
  function OtherThan(id: TodoId): Todo -> bool
  {
    (t: Todo) => t.id != id
  }

  /** A record whose id is `id`. */
  function Having(id: TodoId): Todo -> bool
  {
    (t: Todo) => t.id == id
  }

  /** `todos.filter(t => t.completed)`. */
  function Completed(s: seq<Todo>): (r: seq<Todo>)
    ensures forall x :: x in r <==> x in s && x.completed
    ensures IsSubsequence(r, s)
  {
    FilterMembershipAll(s, IsCompleted);
    FilterIsSubsequence(s, IsCompleted);
    Filter(s, IsCompleted)
  }

  /** `todos.filter(t => !t.completed)`. */
  function Active(s: seq<Todo>): (r: seq<Todo>)
    ensures forall x :: x in r <==> x in s && !x.completed
    ensures IsSubsequence(r, s)
  {
    FilterMembershipAll(s, IsActive);
    FilterIsSubsequence(s, IsActive);
    Filter(s, IsActive)
  }

  /** `todos.filter(t => t.id !== id)`: the list after `deleteTodo(id)`. */
  function Without(s: seq<Todo>, id: TodoId): (r: seq<Todo>)
    ensures forall x :: x in r <==> x in s && x.id != id
    ensures IsSubsequence(r, s)
  {
    FilterMembershipAll(s, OtherThan(id));
    FilterIsSubsequence(s, OtherThan(id));
    Filter(s, OtherThan(id))
  }

  /** Updating the first record with an id leaves it the first record with
      that id, since the merge keeps the id. */
  lemma FindIndexAfterUpdate(s: seq<Todo>, id: TodoId, u: TodoUpdate)
    ensures FindIndex(Updated(s, id, u), id) == FindIndex(s, id)
  {
    var i, r := FindIndex(s, id), Updated(s, id, u);
    if i != -1 {
      assert r[i].id == id;
    }
  }

  /** Reading a record back after updating it gives the merged record. */
  lemma FindAfterUpdate(s: seq<Todo>, id: TodoId, u: TodoUpdate)
    ensures Contains(s, id) ==> Find(Updated(s, id, u), id) == Some(Merge(Find(s, id).value, u))
    ensures !Contains(s, id) ==> Find(Updated(s, id, u), id) == None
  {
    FindIndexAfterUpdate(s, id, u);
  }

  /** Toggling the same id twice restores the original list. */
  lemma ToggleTwice(s: seq<Todo>, id: TodoId)
    ensures Toggled(Toggled(s, id), id) == s
  {
    if Contains(s, id) {
      var i := FindIndex(s, id);
      var once := Toggled(s, id);
      FindIndexAfterUpdate(s, id, FlipCompleted(s[i]));
      assert FindIndex(once, id) == i;
      var twice := Toggled(once, id);
      assert twice[i] == s[i];
      assert forall j :: 0 <= j < |s| ==> twice[j] == s[j];
    }
  }

  /** Appending a record: a search for an id finds the earlier record when
      there is one (ids from the clock may repeat), else the new record when
      it has that id. */
  lemma FindAfterAppend(s: seq<Todo>, t: Todo, id: TodoId)
    ensures Find(s + [t], id) ==
              if Contains(s, id) then Find(s, id)
              else if t.id == id then Some(t)
              else None
  {
    var s' := s + [t];
    assert forall j :: 0 <= j < |s| ==> s'[j] == s[j];
    if Contains(s, id) {
      var i := FindIndex(s, id);
      assert s'[i].id == id;
      assert FindIndex(s', id) == i;
    } else if t.id == id {
      assert s'[|s|].id == id;
      assert FindIndex(s', id) == |s|;
    } else {
      assert !Contains(s', id) by {
        assert forall j :: 0 <= j < |s'| ==> s'[j].id != id;
      }
    }
  }

  /** `deleteTodo` removes every record with the id and keeps every other
      record, in the original order and with every copy of it; the list gets
      shorter exactly when the id was present. Afterwards the id cannot be
      found. */
  lemma DeleteProperties(s: seq<Todo>, id: TodoId)
    ensures forall x :: x in Without(s, id) <==> x in s && x.id != id
    ensures IsSubsequence(Without(s, id), s)
    ensures |Without(s, id)| + |Filter(s, Having(id))| == |s|
    ensures multiset(Without(s, id)) + multiset(Filter(s, Having(id))) == multiset(s)
    ensures |Without(s, id)| < |s| <==> Contains(s, id)
    ensures !Contains(s, id) ==> Without(s, id) == s
    ensures Find(Without(s, id), id) == None
  {
    forall x {
      FilterMembership(s, OtherThan(id), x);
    }
    FilterIsSubsequence(s, OtherThan(id));
    FilterKeepsAll(s, OtherThan(id));
    FilterPartition(s, OtherThan(id), Having(id));
    var r := Without(s, id);
    assert !Contains(r, id) by {
      forall j | 0 <= j < |r| ensures r[j].id != id {
        assert OtherThan(id)(r[j]);
      }
    }
  }

  /** With unique ids, deleting a present id removes exactly one record. */
  lemma DeleteUniqueRemovesOne(s: seq<Todo>, id: TodoId)
    requires UniqueIds(s) && Contains(s, id)
    ensures |Without(s, id)| == |s| - 1
  {
    FilterPartition(s, Having(id), OtherThan(id));
    AtMostOneHaving(s, id);
    var i := FindIndex(s, id);
    FilterMembership(s, Having(id), s[i]);
  }

  lemma {:induction false} AtMostOneHaving(s: seq<Todo>, id: TodoId)
    requires UniqueIds(s)
    ensures |Filter(s, Having(id))| <= 1
  {
    if s != [] {
      var tail := s[1..];
      assert UniqueIds(tail) by {
        forall i, j | 0 <= i < j < |tail| ensures tail[i].id != tail[j].id {
          assert s[i + 1].id != s[j + 1].id;
        }
      }
      AtMostOneHaving(tail, id);
      if s[0].id == id {
        FilterKeepsNone(tail, Having(id));
        assert forall i :: 0 <= i < |tail| ==> tail[i] == s[i + 1];
      }
    }
  }

  /** `deleteCompleted`: the active records are kept in their original
      order, the completed ones are exactly those removed, and the two counts
      add up to the length. */
  lemma ClearCompletedProperties(s: seq<Todo>)
    ensures |Completed(s)| + |Active(s)| == |s|
    ensures multiset(Completed(s)) + multiset(Active(s)) == multiset(s)
    ensures forall x :: x in Active(s) <==> x in s && !x.completed
    ensures IsSubsequence(Active(s), s)
  {
    FilterPartition(s, IsCompleted, IsActive);
    forall x {
      FilterMembership(s, IsActive, x);
    }
    FilterIsSubsequence(s, IsActive);
  }

  /** A new record is active: appending it leaves the completed records as
      they were and adds it at the end of the active ones. */
  lemma AppendActive(s: seq<Todo>, t: Todo)
    requires !t.completed
    ensures Active(s + [t]) == Active(s) + [t]
    ensures Completed(s + [t]) == Completed(s)
  {
    FilterAppend(s, [t], IsActive);
    FilterAppend(s, [t], IsCompleted);
    assert Filter([t], IsActive) == [t];
    assert Filter([t], IsCompleted) == [];
  }
}
