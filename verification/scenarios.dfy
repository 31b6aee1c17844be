/** The concrete situations the repository's unit tests set up, stated for every choice of the
    randomised fields the tests leave open. */
module Scenarios {
  import opened Wrappers
  import Tasks
  import Todos
  import opened TodoStore
  import opened StoreFacts

  /** `create` of each todo in turn, as the tests' `generateRandomizedTodos` does. */
  function CreateAll(s: Store, ts: seq<Todos.Todo>): (r: Store)
    ensures r.nextTodoId == s.nextTodoId + |ts| && r.nextTaskId == s.nextTaskId
    ensures |r.todos| == |s.todos| + |ts|
    ensures forall i :: 0 <= i < |s.todos| ==> r.todos[i] == s.todos[i]
    ensures forall i :: |s.todos| <= i < |r.todos| ==>
              r.todos[i] == ts[i - |s.todos|].(id := Some(s.nextTodoId + (i - |s.todos|) + 1))
    decreases |ts|
  {
    if |ts| == 0 then s else Create(CreateAll(s, ts[..|ts| - 1]), ts[|ts| - 1]).0
  }

  /** After `clear` the store is empty, finds nothing, and the next `create` gets id 1. */
  lemma ClearResets(s: Store, todo: Todos.Todo, id: int)
    ensures Count(Clear(s)) == 0
    ensures Find(Clear(s), id).None?
    ensures Create(Clear(s), todo).1.id == Some(1)
  {
  }

  /** One `create` on a new repository: id 1, author and details as given, no tasks; `find(0)`
      finds nothing and `find(1)` finds it. */
  lemma CreateAndFindScenario()
    ensures var todo := Todos.Blank().(author := Some("Test Author"), details := Some("Test details."));
            var r := Create(New(), todo);
            && r.1.id == Some(1)
            && r.1.author == todo.author && r.1.details == todo.details
            && |r.1.tasks| == 0
            && Find(r.0, 0).None?
            && Find(r.0, 1) == Some(r.1)
  {
  }

  /** Fifteen todos, paged by ten and by five: page sizes and the todos at the page ends, each
      the one `find` returns for its id. */
  lemma FindAllScenario(ts: seq<Todos.Todo>)
    requires |ts| == 15
    ensures var s := CreateAll(New(), ts);
            && |FindAll(s, 0, 10)| == 10 && Find(s, 1) == Some(FindAll(s, 0, 10)[0]) && Find(s, 10) == Some(FindAll(s, 0, 10)[9])
            && |FindAll(s, 1, 10)| == 5 && Find(s, 11) == Some(FindAll(s, 1, 10)[0]) && Find(s, 15) == Some(FindAll(s, 1, 10)[4])
            && |FindAll(s, 0, 5)| == 5 && Find(s, 1) == Some(FindAll(s, 0, 5)[0]) && Find(s, 5) == Some(FindAll(s, 0, 5)[4])
            && |FindAll(s, 1, 5)| == 5 && Find(s, 6) == Some(FindAll(s, 1, 5)[0]) && Find(s, 10) == Some(FindAll(s, 1, 5)[4])
            && |FindAll(s, 2, 5)| == 5 && Find(s, 11) == Some(FindAll(s, 2, 5)[0]) && Find(s, 15) == Some(FindAll(s, 2, 5)[4])
            && |FindAll(s, 3, 5)| == 0
  {
    var s := CreateAll(New(), ts);
    forall k | 0 <= k < 15
      ensures Find(s, k + 1) == Some(s.todos[k])
    {
      assert s.todos[k].id == Some(k + 1);
    }
  }

  /** Fifteen todos give a count of 15; deleting id 1 leaves 14, and deleting it again throws. */
  lemma CountAndDeleteScenario(ts: seq<Todos.Todo>)
    requires |ts| == 15
    ensures Count(CreateAll(New(), ts)) == 15
    ensures Delete(CreateAll(New(), ts), 1).1.Ok?
    ensures Count(Delete(CreateAll(New(), ts), 1).0) == 14
    ensures Delete(Delete(CreateAll(New(), ts), 1).0, 1).1.Err?
  {
    CreateAllIds(ts);
    DeleteFirstOfNumbered(CreateAll(New(), ts));
  }

  /** On a new repository the todos created in turn carry ids 1, 2, 3, ... in order. */
  lemma CreateAllIds(ts: seq<Todos.Todo>)
    ensures forall k :: 0 <= k < |ts| ==> CreateAll(New(), ts).todos[k].id == Some(k + 1)
  {
    var r := CreateAll(New(), ts);
    forall k | 0 <= k < |ts|
      ensures r.todos[k].id == Some(k + 1)
    {
      assert r.todos[k] == ts[k].(id := Some(k + 1));
    }
  }

  /** In a store whose todos carry ids 1, 2, 3, ... in order, deleting id 1 removes the first
      todo, and deleting it again throws. */
  lemma DeleteFirstOfNumbered(s: Store)
    requires |s.todos| > 0
    requires forall k :: 0 <= k < |s.todos| ==> s.todos[k].id == Some(k + 1)
    ensures Delete(s, 1).1.Ok?
    ensures Delete(s, 1).0.todos == s.todos[1..]
    ensures Count(Delete(s, 1).0) == Count(s) - 1
    ensures Delete(Delete(s, 1).0, 1).1.Err?
  {
    assert IndexOf(s.todos, 1) == Some(0);
    var rest := Delete(s, 1).0.todos;
    assert rest == s.todos[1..];
    assert forall k :: 0 <= k < |rest| ==> rest[k] == s.todos[k + 1];
  }

  /** Two tasks added to one todo: the todo holds them in the order added, with task ids 1 and
      2 from the global task counter. The test also changes the first task through its own
      reference after storing it; values have no shared references, so that change is not
      part of this scenario. */
  lemma AddTaskScenario()
    ensures var todo := Todos.Blank().(author := Some("Test Author"), details := Some("Test details."));
            var s1 := Create(New(), todo).0;
            var task := Tasks.For(Some(1)).(completed := Some(false), details := Some("Do some stuff."));
            var task2 := Tasks.For(Some(1));
            var r1 := AddTask(s1, 1, task);
            var r2 := AddTask(r1.0, 1, task2);
            && r1.1.Ok? && |r1.1.value.tasks| == 1 && Tasks.Equals(r1.1.value.tasks[0], task.(id := Some(1)))
            && r2.1.Ok? && |r2.1.value.tasks| == 2 && Tasks.Equals(r2.1.value.tasks[1], task2.(id := Some(2)))
            && r2.1.value.tasks[0] == r1.1.value.tasks[0]
  {
  }

  /** `addTask` of each task in turn to the todo with id `todoId`, as the tests'
      `generateRandomizedTasks` does. */
  function AddAll(s: Store, todoId: int, ts: seq<Tasks.Task>): (r: Store)
    requires 0 < |s.todos| && s.todos[0].id == Some(todoId)
    ensures |r.todos| == |s.todos| && r.todos[0].id == Some(todoId)
    ensures r.nextTaskId == s.nextTaskId + |ts|
    ensures |r.todos[0].tasks| == |s.todos[0].tasks| + |ts|
    ensures forall i :: 0 <= i < |s.todos[0].tasks| ==> r.todos[0].tasks[i] == s.todos[0].tasks[i]
    ensures forall i :: |s.todos[0].tasks| <= i < |r.todos[0].tasks| ==>
              && r.todos[0].tasks[i].id == Some(s.nextTaskId + (i - |s.todos[0].tasks|) + 1)
              && r.todos[0].tasks[i].details == ts[i - |s.todos[0].tasks|].details
    decreases |ts|
  {
    if |ts| == 0 then s
    else
      var before := AddAll(s, todoId, ts[..|ts| - 1]);
      AddTask(before, todoId, ts[|ts| - 1]).0
  }

  /** One todo with five tasks; deleting the first task by its id leaves four, none of them
      with that id. */
  lemma DeleteTaskScenario(todo: Todos.Todo, ts: seq<Tasks.Task>)
    requires todo.tasks == []
    requires |ts| == 5
    ensures var s := AddAll(Create(New(), todo).0, 1, ts);
            && |s.todos[0].tasks| == 5
            && s.todos[0].tasks[0].id == Some(1)
            && DeleteTask(s, 1).1.Ok?
            && |DeleteTask(s, 1).0.todos[0].tasks| == 4
            && forall i :: 0 <= i < 4 ==> DeleteTask(s, 1).0.todos[0].tasks[i].id != Some(1)
  {
    var s := AddAll(Create(New(), todo).0, 1, ts);
    assert s.todos[0].tasks[0].id == Some(1);
  }
}
