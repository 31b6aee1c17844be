/** Sequences of repository calls. Only the mutating calls appear: `count`, `find` and `findAll`
    are functions of the store and leave it as it is. */
module StoreRuns {
  import opened Wrappers
  import Tasks
  import Todos
  import opened TodoStore
  import opened StoreFacts

  datatype Call =
    | CreateCall(todo: Todos.Todo)
    | AddTaskCall(todoId: int, task: Tasks.Task)
    | DeleteCall(id: int)
    | DeleteTaskCall(id: int)
    | ClearCall

  /** The store after one call, whether the call succeeded or threw. */
  function Step(s: Store, c: Call): Store {
    match c
    case CreateCall(t) => Create(s, t).0
    case AddTaskCall(id, t) => AddTask(s, id, t).0
    case DeleteCall(id) => Delete(s, id).0
    case DeleteTaskCall(id) => DeleteTask(s, id).0
    case ClearCall => Clear(s)
  }

  /** The store after the calls, in order. */
  function Run(s: Store, cs: seq<Call>): Store
    decreases |cs|
  {
    if |cs| == 0 then s else Run(Step(s, cs[0]), cs[1..])
  }

  predicate NoClear(cs: seq<Call>) {
    forall i :: 0 <= i < |cs| ==> !cs[i].ClearCall?
  }

  /** Every `create` hands over a todo without tasks. */
  predicate FreshTodos(cs: seq<Call>) {
    forall i :: 0 <= i < |cs| ==> cs[i].CreateCall? ==> cs[i].todo.tasks == []
  }

  /** How many of the calls are `create`s. */
  function Creates(cs: seq<Call>): nat {
    if |cs| == 0 then 0 else (if cs[0].CreateCall? then 1 else 0) + Creates(cs[1..])
  }

  /** How many `delete`s succeed when the calls run from `s`. */
  function Deletes(s: Store, cs: seq<Call>): nat
    decreases |cs|
  {
    if |cs| == 0 then 0
    else
      var hit := if cs[0].DeleteCall? && Delete(s, cs[0].id).1.Ok? then 1 else 0;
      hit + Deletes(Step(s, cs[0]), cs[1..])
  }

  /** How many `addTask`s succeed when the calls run from `s`. */
  function AddedTasks(s: Store, cs: seq<Call>): nat
    decreases |cs|
  {
    if |cs| == 0 then 0
    else
      var hit := if cs[0].AddTaskCall? && AddTask(s, cs[0].todoId, cs[0].task).1.Ok? then 1 else 0;
      hit + AddedTasks(Step(s, cs[0]), cs[1..])
  }

  /** Without a `clear`, the todo counter moves up by one per `create` and for nothing else
      (deletions included), and the task counter by one per successful `addTask`. */
  lemma {:induction false} RunAdvancesCounters(s: Store, cs: seq<Call>)
    requires NoClear(cs)
    ensures Run(s, cs).nextTodoId == s.nextTodoId + Creates(cs)
    ensures Run(s, cs).nextTaskId == s.nextTaskId + AddedTasks(s, cs)
    decreases |cs|
  {
    if |cs| > 0 {
      assert NoClear(cs[1..]) by {
        assert forall i :: 0 <= i < |cs| - 1 ==> cs[1..][i] == cs[i + 1];
      }
      RunAdvancesCounters(Step(s, cs[0]), cs[1..]);
    }
  }

  /** The n-th `create` since construction or the last `clear` gets id n, whatever was deleted
      in between: ids are never reused. */
  lemma NthCreateGetsN(s: Store, cs: seq<Call>, todo: Todos.Todo)
    requires NoClear(cs)
    ensures Create(Run(New(), cs), todo).1.id == Some(Creates(cs) + 1)
    ensures Create(Run(Clear(s), cs), todo).1.id == Some(Creates(cs) + 1)
  {
    RunAdvancesCounters(New(), cs);
  }

  /** Without a `clear`, `count` is the starting count plus the `create`s minus the successful
      `delete`s. */
  lemma {:induction false} RunCount(s: Store, cs: seq<Call>)
    requires NoClear(cs)
    ensures Count(Run(s, cs)) + Deletes(s, cs) == Count(s) + Creates(cs)
    decreases |cs|
  {
    if |cs| > 0 {
      assert NoClear(cs[1..]) by {
        assert forall i :: 0 <= i < |cs| - 1 ==> cs[1..][i] == cs[i + 1];
      }
      RunCount(Step(s, cs[0]), cs[1..]);
    }
  }

  /** Every call keeps the store invariant, provided created todos come in without tasks. */
  lemma {:induction false} RunPreservesValid(s: Store, cs: seq<Call>)
    requires Valid(s)
    requires FreshTodos(cs)
    ensures Valid(Run(s, cs))
    decreases |cs|
  {
    if |cs| > 0 {
      match cs[0] {
        case CreateCall(t) => CreatePreservesValid(s, t);
        case AddTaskCall(id, t) => AddTaskPreservesValid(s, id, t);
        case DeleteCall(id) => DeletePreservesValid(s, id);
        case DeleteTaskCall(id) => DeleteTaskPreservesValid(s, id);
        case ClearCall => NewIsValid(s);
      }
      assert FreshTodos(cs[1..]) by {
        assert forall i :: 0 <= i < |cs| - 1 ==> cs[1..][i] == cs[i + 1];
      }
      RunPreservesValid(Step(s, cs[0]), cs[1..]);
    }
  }
}
