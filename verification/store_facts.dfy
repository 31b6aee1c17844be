/** What the repository keeps true across calls, and what follows from it: todo ids are
    assigned, bounded by the todo counter and strictly increasing in list order (so never
    repeated); task ids are assigned, bounded by the task counter and unique across the whole
    store; every task's back-reference names the todo that holds it. */
module StoreFacts {
  import opened Wrappers
  import opened Seqs
  import Tasks
  import Todos
  import opened TodoStore

  ghost predicate TodoIdsValid(s: Store) {
    && (forall k :: 0 <= k < |s.todos| ==> s.todos[k].id.Some? && 1 <= s.todos[k].id.value <= s.nextTodoId)
    && (forall a, b :: 0 <= a < b < |s.todos| ==> s.todos[a].id.value < s.todos[b].id.value)
  }

  ghost predicate TaskIdsValid(s: Store) {
    && (forall k, i :: 0 <= k < |s.todos| && 0 <= i < |s.todos[k].tasks| ==>
          && s.todos[k].tasks[i].id.Some?
          && 1 <= s.todos[k].tasks[i].id.value <= s.nextTaskId
          && s.todos[k].tasks[i].parent == s.todos[k].id)
    && (forall k1, i1, k2, i2 ::
          && 0 <= k1 < |s.todos| && 0 <= i1 < |s.todos[k1].tasks|
          && 0 <= k2 < |s.todos| && 0 <= i2 < |s.todos[k2].tasks|
          && (k1 != k2 || i1 != i2)
          ==> s.todos[k1].tasks[i1].id != s.todos[k2].tasks[i2].id)
  }

  ghost predicate Valid(s: Store) {
    TodoIdsValid(s) && TaskIdsValid(s)
  }

  /** A new repository, and one just cleared, satisfy the invariant. */
  lemma NewIsValid(s: Store)
    ensures Valid(New()) && Valid(Clear(s))
  {
  }

  /** `create` keeps the invariant when the todo comes in without tasks, as every todo built
      with `new Todo()` does. */
  lemma CreatePreservesValid(s: Store, todo: Todos.Todo)
    requires Valid(s)
    requires todo.tasks == []
    ensures Valid(Create(s, todo).0)
  {
    var s' := Create(s, todo).0;
    assert forall k :: 0 <= k < |s.todos| ==> s'.todos[k] == s.todos[k];
  }

  /** A successful `addTask` keeps the invariant: the new task id is above every id in use. */
  lemma AddTaskPreservesValid(s: Store, todoId: int, task: Tasks.Task)
    requires Valid(s)
    ensures Valid(AddTask(s, todoId, task).0)
  {
    var r := AddTask(s, todoId, task);
    if r.1.Ok? {
      var s' := r.0;
      var k := IndexOf(s.todos, todoId).value;
      var n := |s.todos[k].tasks|;
      assert TodoIdsValid(s') by {
        assert forall j :: 0 <= j < |s.todos| ==> s'.todos[j].id == s.todos[j].id;
      }
      forall j, i | 0 <= j < |s'.todos| && 0 <= i < |s'.todos[j].tasks| && (j != k || i != n)
        ensures i < |s.todos[j].tasks| && s'.todos[j].tasks[i] == s.todos[j].tasks[i]
      {
        if j == k {
          assert s'.todos[k].tasks[..n] == s.todos[k].tasks;
          assert s'.todos[k].tasks[i] == s'.todos[k].tasks[..n][i];
        }
      }
      OneNewTaskKeepsTaskIds(s, s', k, n);
    }
  }

  /** A store that differs from a valid one only by one task at position `(k, n)` whose id is
      the next task id, held by the todo with the task's parent id, keeps task ids valid. */
  lemma OneNewTaskKeepsTaskIds(s: Store, s': Store, k: nat, n: nat)
    requires Valid(s)
    requires |s'.todos| == |s.todos| && k < |s.todos| && n < |s'.todos[k].tasks|
    requires s'.nextTaskId == s.nextTaskId + 1
    requires forall j :: 0 <= j < |s.todos| ==> s'.todos[j].id == s.todos[j].id
    requires forall j, i ::
               0 <= j < |s'.todos| && 0 <= i < |s'.todos[j].tasks| && (j != k || i != n) ==>
               i < |s.todos[j].tasks| && s'.todos[j].tasks[i] == s.todos[j].tasks[i]
    requires s'.todos[k].tasks[n].id == Some(s'.nextTaskId)
    requires s'.todos[k].tasks[n].parent == s'.todos[k].id
    ensures TaskIdsValid(s')
  {
    forall j, i | 0 <= j < |s'.todos| && 0 <= i < |s'.todos[j].tasks|
      ensures s'.todos[j].tasks[i].id.Some?
      ensures 1 <= s'.todos[j].tasks[i].id.value <= s'.nextTaskId
      ensures s'.todos[j].tasks[i].parent == s'.todos[j].id
    {
    }
    forall k1, i1, k2, i2 |
      && 0 <= k1 < |s'.todos| && 0 <= i1 < |s'.todos[k1].tasks|
      && 0 <= k2 < |s'.todos| && 0 <= i2 < |s'.todos[k2].tasks|
      && (k1 != k2 || i1 != i2)
      ensures s'.todos[k1].tasks[i1].id != s'.todos[k2].tasks[i2].id
    {
      var t1, t2 := s'.todos[k1].tasks[i1], s'.todos[k2].tasks[i2];
      if k1 == k && i1 == n {
        assert t2 == s.todos[k2].tasks[i2];
      } else if k2 == k && i2 == n {
        assert t1 == s.todos[k1].tasks[i1];
      } else {
        assert t1 == s.todos[k1].tasks[i1];
        assert t2 == s.todos[k2].tasks[i2];
      }
    }
  }

  /** Dropping one todo from a store that satisfies the invariant leaves one that does. */
  lemma RemoveTodoPreservesValid(s: Store, k: nat)
    requires Valid(s)
    requires k < |s.todos|
    ensures Valid(s.(todos := RemoveAt(s.todos, k)))
  {
    var s' := s.(todos := RemoveAt(s.todos, k));
    var ys := s'.todos;
    assert TodoIdsValid(s') by {
      forall j | 0 <= j < |ys|
        ensures ys[j].id.Some? && 1 <= ys[j].id.value <= s'.nextTodoId
      {
        assert ys[j] == s.todos[if j < k then j else j + 1];
      }
      forall a, b | 0 <= a < b < |ys|
        ensures ys[a].id.Some? && ys[b].id.Some? && ys[a].id.value < ys[b].id.value
      {
        assert ys[a] == s.todos[if a < k then a else a + 1];
        assert ys[b] == s.todos[if b < k then b else b + 1];
      }
    }
    assert TaskIdsValid(s') by {
      forall j, i | 0 <= j < |ys| && 0 <= i < |ys[j].tasks|
        ensures && ys[j].tasks[i].id.Some?
                && 1 <= ys[j].tasks[i].id.value <= s'.nextTaskId
                && ys[j].tasks[i].parent == ys[j].id
      {
        assert ys[j] == s.todos[if j < k then j else j + 1];
      }
      forall k1, i1, k2, i2 |
        && 0 <= k1 < |ys| && 0 <= i1 < |ys[k1].tasks|
        && 0 <= k2 < |ys| && 0 <= i2 < |ys[k2].tasks|
        && (k1 != k2 || i1 != i2)
        ensures ys[k1].tasks[i1].id != ys[k2].tasks[i2].id
      {
        assert ys[k1] == s.todos[if k1 < k then k1 else k1 + 1];
        assert ys[k2] == s.todos[if k2 < k then k2 else k2 + 1];
      }
    }
  }

  /** A successful `delete` keeps the invariant: what remains is the old list minus one todo. */
  lemma DeletePreservesValid(s: Store, id: int)
    requires Valid(s)
    ensures Valid(Delete(s, id).0)
  {
    var r := Delete(s, id);
    if r.1.Ok? {
      var k := IndexOf(s.todos, id).value;
      RemoveTodoPreservesValid(s, k);
      assert r.0 == s.(todos := RemoveAt(s.todos, k));
    }
  }

  /** Dropping one task from one todo of a store that satisfies the invariant leaves one that
      does. */
  lemma RemoveTaskPreservesValid(s: Store, j0: nat, i0: nat)
    requires Valid(s)
    requires j0 < |s.todos| && i0 < |s.todos[j0].tasks|
    ensures Valid(s.(todos := s.todos[j0 := s.todos[j0].(tasks := RemoveAt(s.todos[j0].tasks, i0))]))
  {
    var s' := s.(todos := s.todos[j0 := s.todos[j0].(tasks := RemoveAt(s.todos[j0].tasks, i0))]);
    var ys := s'.todos;
    assert forall j :: 0 <= j < |ys| ==> ys[j].id == s.todos[j].id;
    assert forall j, i :: 0 <= j < |ys| && 0 <= i < |ys[j].tasks| ==>
             ys[j].tasks[i] == s.todos[j].tasks[if j == j0 && i >= i0 then i + 1 else i];
    assert TaskIdsValid(s') by {
      forall k1, i1, k2, i2 |
        && 0 <= k1 < |ys| && 0 <= i1 < |ys[k1].tasks|
        && 0 <= k2 < |ys| && 0 <= i2 < |ys[k2].tasks|
        && (k1 != k2 || i1 != i2)
        ensures ys[k1].tasks[i1].id != ys[k2].tasks[i2].id
      {
        var m1 := if k1 == j0 && i1 >= i0 then i1 + 1 else i1;
        var m2 := if k2 == j0 && i2 >= i0 then i2 + 1 else i2;
        assert ys[k1].tasks[i1] == s.todos[k1].tasks[m1];
        assert ys[k2].tasks[i2] == s.todos[k2].tasks[m2];
      }
    }
  }

  /** A successful `deleteTask` keeps the invariant: one task list loses one task. */
  lemma DeleteTaskPreservesValid(s: Store, id: int)
    requires Valid(s)
    ensures Valid(DeleteTask(s, id).0)
  {
    var r := DeleteTask(s, id);
    if r.1.Ok? {
      var j0 := LocateTask(s.todos, id).value.0;
      var i0 := LocateTask(s.todos, id).value.1;
      RemoveTaskPreservesValid(s, j0, i0);
      assert r.0.todos == s.todos[j0 := s.todos[j0].(tasks := RemoveAt(s.todos[j0].tasks, i0))];
    }
  }

  /** Under the invariant the back-reference of the task `deleteTask` finds names the todo that
      holds it, and no other todo carries that id: removing the task from "the todo it points
      to" is removing it from its holder. */
  lemma BackReferenceIsOwner(s: Store, id: int)
    requires Valid(s)
    requires LocateTask(s.todos, id).Some?
    ensures var j := LocateTask(s.todos, id).value.0;
            var i := LocateTask(s.todos, id).value.1;
            && s.todos[j].tasks[i].parent == s.todos[j].id
            && forall j' :: 0 <= j' < |s.todos| && j' != j ==> s.todos[j'].id != s.todos[j].id
  {
    var j := LocateTask(s.todos, id).value.0;
    forall j' | 0 <= j' < |s.todos| && j' != j
      ensures s.todos[j'].id != s.todos[j].id
    {
      if j' < j {
        assert s.todos[j'].id.value < s.todos[j].id.value;
      } else {
        assert s.todos[j].id.value < s.todos[j'].id.value;
      }
    }
  }

  /** Under the invariant a todo is found exactly when some todo carries the id, and it is
      the only one that does. */
  lemma FindIsUnique(s: Store, id: int, k: nat)
    requires Valid(s)
    requires k < |s.todos| && s.todos[k].id == Some(id)
    ensures Find(s, id) == Some(s.todos[k])
  {
  }

  /** Under the invariant an id the todo counter has never handed out finds nothing. */
  lemma FindNeverAssigned(s: Store, id: int)
    requires Valid(s)
    requires id < 1 || id > s.nextTodoId
    ensures Find(s, id).None?
  {
  }

  /** After `create`, `find` of the new id returns the stored todo, and every other id finds
      what it found before. */
  lemma FindAfterCreate(s: Store, todo: Todos.Todo, id: int)
    requires Valid(s)
    ensures Find(Create(s, todo).0, s.nextTodoId + 1) == Some(Create(s, todo).1)
    ensures id != s.nextTodoId + 1 ==> Find(Create(s, todo).0, id) == Find(s, id)
  {
    var s' := Create(s, todo).0;
    assert forall k :: 0 <= k < |s.todos| ==> s'.todos[k] == s.todos[k];
    assert s'.todos[|s.todos|] == Create(s, todo).1;
    match IndexOf(s'.todos, s.nextTodoId + 1)
    case None =>
    case Some(k) =>
      assert k == |s.todos|;
  }

  /** After a successful `delete`, the id finds nothing and deleting it again throws; every
      other id finds what it found before. */
  lemma FindAfterDelete(s: Store, id: int, other: int)
    requires Valid(s)
    requires Delete(s, id).1.Ok?
    ensures Find(Delete(s, id).0, id).None?
    ensures Delete(Delete(s, id).0, id).1.Err?
    ensures other != id ==> Find(Delete(s, id).0, other) == Find(s, other)
  {
    var k := IndexOf(s.todos, id).value;
    assert Delete(s, id).0.todos == RemoveAt(s.todos, k);
    NoOtherTodoHasId(s, k);
    if other != id {
      FindOtherAfterDelete(s, id, other);
    }
  }

  /** The other-id half of `FindAfterDelete`. */
  lemma FindOtherAfterDelete(s: Store, id: int, other: int)
    requires Delete(s, id).1.Ok?
    requires other != id
    ensures Find(Delete(s, id).0, other) == Find(s, other)
  {
    var k := IndexOf(s.todos, id).value;
    assert Delete(s, id).0 == s.(todos := RemoveAt(s.todos, k));
    FindAfterRemoval(s, k, other);
  }

  /** `find` of an id the removed todo does not carry is unaffected by the removal. */
  lemma FindAfterRemoval(s: Store, k: nat, other: int)
    requires k < |s.todos| && s.todos[k].id != Some(other)
    ensures Find(s.(todos := RemoveAt(s.todos, k)), other) == Find(s, other)
  {
    var ys := RemoveAt(s.todos, k);
    RemovalKeepsFirstMatch(s.todos, k, other);
    match IndexOf(s.todos, other)
    case None =>
      assert IndexOf(ys, other).None?;
    case Some(m) =>
      var m' := if m < k then m else m - 1;
      assert IndexOf(ys, other) == Some(m');
      assert ys[m'] == s.todos[m];
  }

  /** Removing a todo that does not carry `other` keeps the first match for `other` first,
      one place earlier when it came after the removed todo. */
  lemma RemovalKeepsFirstMatch(xs: seq<Todos.Todo>, k: nat, other: int)
    requires k < |xs| && xs[k].id != Some(other)
    ensures IndexOf(xs, other).None? ==> IndexOf(RemoveAt(xs, k), other).None?
    ensures IndexOf(xs, other).Some? ==>
              var m := IndexOf(xs, other).value;
              IndexOf(RemoveAt(xs, k), other) == Some(if m < k then m else m - 1)
  {
    var ys := RemoveAt(xs, k);
    match IndexOf(xs, other)
    case None =>
      assert forall j :: 0 <= j < |ys| ==> ys[j].id != Some(other);
    case Some(m) =>
      var m' := if m < k then m else m - 1;
      assert ys[m'] == xs[m];
      forall j | 0 <= j < m'
        ensures !IdIs(other)(ys[j])
      {
        assert ys[j] == xs[if j < k then j else j + 1];
      }
      FirstIndexIs(ys, IdIs(other), m');
  }

  /** Under the invariant no todo other than the one at `k` carries its id. */
  lemma NoOtherTodoHasId(s: Store, k: nat)
    requires Valid(s)
    requires k < |s.todos|
    ensures forall j :: 0 <= j < |s.todos| - 1 ==> RemoveAt(s.todos, k)[j].id != s.todos[k].id
  {
    forall j | 0 <= j < |s.todos| - 1
      ensures RemoveAt(s.todos, k)[j].id != s.todos[k].id
    {
      var j0 := if j < k then j else j + 1;
      assert RemoveAt(s.todos, k)[j] == s.todos[j0];
      if j0 < k {
        assert s.todos[j0].id.value < s.todos[k].id.value;
      } else {
        assert s.todos[k].id.value < s.todos[j0].id.value;
      }
    }
  }

  /** After a successful `deleteTask`, no task anywhere carries the id, so deleting it again
      throws. */
  lemma DeleteTaskRemovesId(s: Store, id: int)
    requires Valid(s)
    requires DeleteTask(s, id).1.Ok?
    ensures forall j, i :: 0 <= j < |DeleteTask(s, id).0.todos| && 0 <= i < |DeleteTask(s, id).0.todos[j].tasks| ==>
                           DeleteTask(s, id).0.todos[j].tasks[i].id != Some(id)
    ensures DeleteTask(DeleteTask(s, id).0, id).1.Err?
  {
    var j0 := LocateTask(s.todos, id).value.0;
    var i0 := LocateTask(s.todos, id).value.1;
    var ys := s.todos[j0 := s.todos[j0].(tasks := RemoveAt(s.todos[j0].tasks, i0))];
    assert DeleteTask(s, id).0.todos == ys;
    TaskIdGone(s, j0, i0);
  }

  /** Under the invariant, once the task at (`j0`, `i0`) is removed no task carries its id. */
  lemma TaskIdGone(s: Store, j0: nat, i0: nat)
    requires Valid(s)
    requires j0 < |s.todos| && i0 < |s.todos[j0].tasks|
    ensures var ys := s.todos[j0 := s.todos[j0].(tasks := RemoveAt(s.todos[j0].tasks, i0))];
            forall j, i :: 0 <= j < |ys| && 0 <= i < |ys[j].tasks| ==> ys[j].tasks[i].id != s.todos[j0].tasks[i0].id
  {
    var ys := s.todos[j0 := s.todos[j0].(tasks := RemoveAt(s.todos[j0].tasks, i0))];
    forall j, i | 0 <= j < |ys| && 0 <= i < |ys[j].tasks|
      ensures ys[j].tasks[i].id != s.todos[j0].tasks[i0].id
    {
      var i1 := if j == j0 && i >= i0 then i + 1 else i;
      assert ys[j].tasks[i] == s.todos[j].tasks[i1];
    }
  }

  /** After a successful `delete`, the tasks of the deleted todo can no longer be deleted:
      `deleteTask` of any of their ids throws. */
  lemma DeleteDropsTasks(s: Store, id: int, i: nat)
    requires Valid(s)
    requires Delete(s, id).1.Ok?
    requires i < |Find(s, id).value.tasks|
    ensures Find(s, id).value.tasks[i].id.Some?
    ensures DeleteTask(Delete(s, id).0, Find(s, id).value.tasks[i].id.value).1.Err?
  {
    var k := IndexOf(s.todos, id).value;
    var s' := Delete(s, id).0;
    var tid := s.todos[k].tasks[i].id;
    forall j, i' | 0 <= j < |s'.todos| && 0 <= i' < |s'.todos[j].tasks|
      ensures s'.todos[j].tasks[i'].id != tid
    {
      var j0 := if j < k then j else j + 1;
      assert s'.todos[j] == s.todos[j0];
    }
  }

  /** `deleteTask` looks at tasks in the order of the flattened stream: the task it locates is
      the first task with the id in the concatenation of all task lists, in todo order. */
  lemma LocateTaskIsFirstInFlatten(todos: seq<Todos.Todo>, id: int)
    ensures LocateTask(todos, id).None? <==> FirstIndex(Flatten(todos), TaskIdIs(id)).None?
    ensures LocateTask(todos, id).Some? ==>
              var j := LocateTask(todos, id).value.0;
              var i := LocateTask(todos, id).value.1;
              && FirstIndex(Flatten(todos), TaskIdIs(id)) == Some(|Flatten(todos[..j])| + i)
              && Flatten(todos)[|Flatten(todos[..j])| + i] == todos[j].tasks[i]
  {
    AllLocatedFirstInFlatten(todos, id);
  }

  /** Induction on the todos for `LocateTaskIsFirstInFlatten`. */
  lemma {:induction false} AllLocatedFirstInFlatten(todos: seq<Todos.Todo>, id: int)
    ensures LocatedFirstInFlatten(todos, id)
  {
    if |todos| > 0 {
      AllLocatedFirstInFlatten(todos[1..], id);
      LocatedFromRest(todos, id);
    } else {
      assert LocateTask(todos, id).None? && Flatten(todos) == [];
    }
  }

  /** The two postconditions of `LocateTaskIsFirstInFlatten`, as one fact about `todos`. */
  ghost predicate LocatedFirstInFlatten(todos: seq<Todos.Todo>, id: int)
  {
    && (LocateTask(todos, id).None? <==> FirstIndex(Flatten(todos), TaskIdIs(id)).None?)
    && (LocateTask(todos, id).Some? ==>
          var j := LocateTask(todos, id).value.0;
          var i := LocateTask(todos, id).value.1;
          && FirstIndex(Flatten(todos), TaskIdIs(id)) == Some(|Flatten(todos[..j])| + i)
          && Flatten(todos)[|Flatten(todos[..j])| + i] == todos[j].tasks[i])
  }

  /** The inductive step: agreement for all but the first todo gives agreement for all. */
  lemma LocatedFromRest(todos: seq<Todos.Todo>, id: int)
    requires |todos| > 0
    requires LocatedFirstInFlatten(todos[1..], id)
    ensures LocatedFirstInFlatten(todos, id)
  {
    if FirstIndex(todos[0].tasks, TaskIdIs(id)).Some? {
      MatchInFirstTodo(todos, id);
    } else {
      if LocateTask(todos[1..], id).Some? {
        MatchInLaterTodo(todos, id);
      } else {
        NoMatchInAnyTodo(todos, id);
      }
    }
  }

  lemma MatchInFirstTodo(todos: seq<Todos.Todo>, id: int)
    requires |todos| > 0
    requires FirstIndex(todos[0].tasks, TaskIdIs(id)).Some?
    ensures LocatedFirstInFlatten(todos, id)
  {
    var i := FirstIndex(todos[0].tasks, TaskIdIs(id)).value;
    assert LocateTask(todos, id) == Some((0, i));
    assert Flatten(todos) == todos[0].tasks + Flatten(todos[1..]);
    FirstIndexConcat(todos[0].tasks, Flatten(todos[1..]), TaskIdIs(id));
    assert todos[..0] == [];
    assert Flatten(todos[..0]) == [];
  }

  lemma MatchInLaterTodo(todos: seq<Todos.Todo>, id: int)
    requires |todos| > 0
    requires FirstIndex(todos[0].tasks, TaskIdIs(id)).None?
    requires LocateTask(todos[1..], id).Some?
    requires LocatedFirstInFlatten(todos[1..], id)
    ensures LocatedFirstInFlatten(todos, id)
  {
    var j := LocateTask(todos[1..], id).value.0;
    var i := LocateTask(todos[1..], id).value.1;
    assert LocateTask(todos, id) == Some((j + 1, i));
    var head := todos[0].tasks;
    var tail := Flatten(todos[1..]);
    var off := |Flatten(todos[1..][..j])| + i;
    assert FirstIndex(tail, TaskIdIs(id)) == Some(off);
    assert tail[off] == todos[1..][j].tasks[i];
    assert Flatten(todos) == head + tail;
    FirstIndexShifted(head, tail, TaskIdIs(id), off);
    FlattenPrefix(todos, j + 1);
    assert |Flatten(todos[..j + 1])| + i == |head| + off;
    assert todos[1..][j] == todos[j + 1];
  }

  lemma NoMatchInAnyTodo(todos: seq<Todos.Todo>, id: int)
    requires |todos| > 0
    requires FirstIndex(todos[0].tasks, TaskIdIs(id)).None?
    requires LocateTask(todos[1..], id).None?
    requires LocatedFirstInFlatten(todos[1..], id)
    ensures LocatedFirstInFlatten(todos, id)
  {
    assert LocateTask(todos, id).None?;
    assert FirstIndex(Flatten(todos[1..]), TaskIdIs(id)).None?;
    assert Flatten(todos) == todos[0].tasks + Flatten(todos[1..]);
    FirstIndexConcat(todos[0].tasks, Flatten(todos[1..]), TaskIdIs(id));
  }

  /** The tasks of the first `j` todos are those of the first todo followed by those of the next
      `j - 1`. */
  lemma FlattenPrefix(todos: seq<Todos.Todo>, j: nat)
    requires 0 < j <= |todos|
    ensures Flatten(todos[..j]) == todos[0].tasks + Flatten(todos[1..][..j - 1])
  {
    assert todos[..j][0] == todos[0];
    assert todos[..j][1..] == todos[1..][..j - 1];
  }

  /** `count` is the length of the list `findAll` pages through: one page of `count` todos is
      the whole list in order, and the page after it is empty. */
  lemma CountIsWholeList(s: Store)
    ensures FindAll(s, 0, Count(s)) == s.todos
    ensures FindAll(s, 1, Count(s)) == []
  {
  }

  /** Flattening keeps every task of every todo and invents none. */
  lemma {:induction false} FlattenKeepsEveryTask(todos: seq<Todos.Todo>)
    ensures forall j, i :: 0 <= j < |todos| && 0 <= i < |todos[j].tasks| ==> todos[j].tasks[i] in Flatten(todos)
    ensures forall t :: t in Flatten(todos) ==> exists j :: 0 <= j < |todos| && t in todos[j].tasks
  {
    if |todos| > 0 {
      var rest := todos[1..];
      FlattenKeepsEveryTask(rest);
      assert Flatten(todos) == todos[0].tasks + Flatten(rest);
      forall j, i | 0 <= j < |todos| && 0 <= i < |todos[j].tasks|
        ensures todos[j].tasks[i] in Flatten(todos)
      {
        if j > 0 {
          assert todos[j] == rest[j - 1];
        }
      }
      forall t | t in Flatten(todos)
        ensures exists j :: 0 <= j < |todos| && t in todos[j].tasks
      {
        if t !in todos[0].tasks {
          var j :| 0 <= j < |rest| && t in rest[j].tasks;
          assert todos[j + 1] == rest[j];
        }
      }
    }
  }
}
