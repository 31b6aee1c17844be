/** `InMemoryTodoRepository`: todos kept in a list in insertion order, with ids handed out by
    two auto-increment counters, one for todos and one for tasks across the whole store.
    Each operation is a function from the store before the call to the store after it and the
    call's answer; `Err(NoSuchElement)` is the `NoSuchElementException` the repository throws
    when an id resolves to nothing. */
module TodoStore {
  import opened Wrappers
  import opened Seqs
  import Tasks
  import Todos

  datatype Store = Store(nextTodoId: nat, nextTaskId: nat, todos: seq<Todos.Todo>)

  datatype Error = NoSuchElement

  function Min(a: int, b: int): int {
    if a <= b then a else b
  }

  function Max(a: int, b: int): int {
    if a <= b then b else a
  }

  /** A newly constructed repository: both counters at 0 and no todos, so `find` finds
      nothing. */
  function New(): (r: Store)
    ensures r.nextTodoId == 0 && r.nextTaskId == 0 && Count(r) == 0
    ensures forall id :: Find(r, id).None?
  {
    Store(0, 0, [])
  }

  /** `count`: the number of todos held now. */
  function Count(s: Store): nat {
    |s.todos|
  }

  /** `create`: append the todo at the end of the list and give it the pre-incremented todo
      counter as its id. Author, details and tasks are stored as given. */
  function Create(s: Store, todo: Todos.Todo): (r: (Store, Todos.Todo))
    ensures r.0.nextTodoId == s.nextTodoId + 1 && r.1.id == Some(r.0.nextTodoId)
    ensures r.1 == todo.(id := r.1.id)
    ensures r.0.nextTaskId == s.nextTaskId
    ensures r.0.todos == s.todos + [r.1]
    ensures Count(r.0) == Count(s) + 1
  {
    var stored := todo.(id := Some(s.nextTodoId + 1));
    (Store(s.nextTodoId + 1, s.nextTaskId, s.todos + [stored]), stored)
  }

  /** The test `todo.getId().equals(id)`. */
  function IdIs(id: int): Todos.Todo -> bool {
    (t: Todos.Todo) => t.id == Some(id)
  }

  /** The test `Objects.equals(id, task.getId())`. */
  function TaskIdIs(id: int): Tasks.Task -> bool {
    (t: Tasks.Task) => t.id == Some(id)
  }

  /** Position of the first todo, in list order, whose id is `id`. */
  function IndexOf(todos: seq<Todos.Todo>, id: int): (r: Option<nat>)
    ensures r.Some? ==> r.value < |todos| && todos[r.value].id == Some(id)
    ensures r.Some? ==> forall j :: 0 <= j < r.value ==> todos[j].id != Some(id)
    ensures r.None? ==> forall j :: 0 <= j < |todos| ==> todos[j].id != Some(id)
  {
    FirstIndex(todos, IdIs(id))
  }

  /** `find`: the first todo in list order whose id is `id`, or nothing. */
  function Find(s: Store, id: int): (r: Option<Todos.Todo>)
    ensures r.None? <==> forall j :: 0 <= j < |s.todos| ==> s.todos[j].id != Some(id)
    ensures r.Some? ==> exists k :: 0 <= k < |s.todos| && s.todos[k] == r.value && r.value.id == Some(id)
                                    && forall j :: 0 <= j < k ==> s.todos[j].id != Some(id)
  {
    match IndexOf(s.todos, id)
    case None => None
    case Some(k) => Some(s.todos[k])
  }

  /** `find` as the loop the stream pipeline runs: look at each todo in turn and stop at the
      first whose id matches. */
  method FindScan(s: Store, id: int) returns (r: Option<Todos.Todo>)
    ensures r == Find(s, id)
  {
    var i := 0;
    while i < |s.todos|
      invariant 0 <= i <= |s.todos|
      invariant forall j :: 0 <= j < i ==> s.todos[j].id != Some(id)
    {
      if s.todos[i].id == Some(id) {
        return Some(s.todos[i]);
      }
      i := i + 1;
    }
    return None;
  }

  /** `findAll(page, size)`: the page of `size` todos starting at `page * size`, in insertion
      order; empty for an empty store or an offset at or past the end. */
  function FindAll(s: Store, page: nat, size: nat): (r: seq<Todos.Todo>)
    ensures |r| == Min(size, Max(0, |s.todos| - page * size))
    ensures forall i :: 0 <= i < |r| ==> r[i] == s.todos[page * size + i]
  {
    var offset := page * size;
    if |s.todos| == 0 then s.todos
    else if offset >= |s.todos| then []
    else s.todos[offset..Min(offset + size, |s.todos|)]
  }

  /** `addTask`: find the todo, point the task at it, append the task to its list and give
      the task the pre-incremented global task counter as its id. Throws, changing nothing,
      when no todo has the id. */
  function AddTask(s: Store, todoId: int, task: Tasks.Task): (r: (Store, Result<Todos.Todo, Error>))
    ensures r.1.Err? <==> Find(s, todoId).None?
    ensures r.1.Err? ==> r.0 == s
    ensures r.1.Ok? ==> IndexOf(s.todos, todoId).Some?
    ensures r.1.Ok? ==> r.0.nextTaskId == s.nextTaskId + 1 && r.0.nextTodoId == s.nextTodoId
    ensures r.1.Ok? ==> |r.0.todos| == |s.todos|
    ensures r.1.Ok? ==> forall j :: 0 <= j < |s.todos| && j != IndexOf(s.todos, todoId).value ==>
                                    r.0.todos[j] == s.todos[j]
    ensures r.1.Ok? ==>
              var k := IndexOf(s.todos, todoId).value;
              var before := s.todos[k];
              var after := r.0.todos[k];
              && r.1.value == after
              && after == before.(tasks := after.tasks)
              && |after.tasks| == |before.tasks| + 1
              && after.tasks[..|before.tasks|] == before.tasks
              && after.tasks[|before.tasks|].id == Some(r.0.nextTaskId)
              && after.tasks[|before.tasks|].parent == Some(todoId)
              && after.tasks[|before.tasks|].completed == task.completed
              && after.tasks[|before.tasks|].details == task.details
  {
    match IndexOf(s.todos, todoId)
    case None => (s, Err(NoSuchElement))
    case Some(k) =>
      var parent := s.todos[k];
      var added := task.(parent := parent.id, id := Some(s.nextTaskId + 1));
      var updated := parent.(tasks := parent.tasks + [added]);
      (Store(s.nextTodoId, s.nextTaskId + 1, s.todos[k := updated]), Ok(updated))
  }

  /** `delete`: find the todo and remove it from the list with `List.remove`, which drops the
      first element equal to it. Throws, changing nothing, when no todo has the id. */
  function Delete(s: Store, id: int): (r: (Store, Result<(), Error>))
    ensures r.1.Err? <==> Find(s, id).None?
    ensures r.1.Err? ==> r.0 == s
    ensures r.0.nextTodoId == s.nextTodoId && r.0.nextTaskId == s.nextTaskId
    ensures r.1.Ok? ==> IndexOf(s.todos, id).Some?
    ensures r.1.Ok? ==> var k := IndexOf(s.todos, id).value;
                        r.0.todos == RemoveAt(s.todos, k)
    ensures r.1.Ok? ==> Count(r.0) == Count(s) - 1
  {
    match IndexOf(s.todos, id)
    case None => (s, Err(NoSuchElement))
    case Some(k) =>
      var found := s.todos[k];
      var equalsFound := (t: Todos.Todo) => Todos.Equals(t, found);
      FirstIndexNarrowed(s.todos, IdIs(id), equalsFound, k);
      (s.(todos := RemoveFirst(s.todos, equalsFound)), Ok(()))
  }

  /** Every task of the store, todo by todo and within a todo in list order: the
      `flatMap(t -> t.getTasks().stream())` of `deleteTask`. */
  function Flatten(todos: seq<Todos.Todo>): seq<Tasks.Task> {
    if |todos| == 0 then [] else todos[0].tasks + Flatten(todos[1..])
  }

  /** Position (todo index, task index) of the first task whose id is `id`, searching todo by
      todo and within a todo in list order. */
  function LocateTask(todos: seq<Todos.Todo>, id: int): (r: Option<(nat, nat)>)
    ensures r.Some? ==> r.value.0 < |todos| && r.value.1 < |todos[r.value.0].tasks|
                        && todos[r.value.0].tasks[r.value.1].id == Some(id)
    ensures r.Some? ==> forall j, i :: 0 <= j < r.value.0 && 0 <= i < |todos[j].tasks| ==>
                                      todos[j].tasks[i].id != Some(id)
    ensures r.Some? ==> forall i :: 0 <= i < r.value.1 ==> todos[r.value.0].tasks[i].id != Some(id)
    ensures r.None? ==> forall j, i :: 0 <= j < |todos| && 0 <= i < |todos[j].tasks| ==>
                                      todos[j].tasks[i].id != Some(id)
  {
    if |todos| == 0 then None
    else
      match FirstIndex(todos[0].tasks, TaskIdIs(id))
      case Some(i) => Some((0, i))
      case None =>
        assert forall j :: 1 <= j < |todos| ==> todos[j] == todos[1..][j - 1];
        match LocateTask(todos[1..], id)
        case None => None
        case Some(p) => Some((p.0 + 1, p.1))
  }

  /** `deleteTask`: find the first task with the id across all todos and remove it, with
      `List.remove`, from the task list of the todo holding it; the first task there equal to
      it is that task. Throws, changing nothing, when no task has the id. */
  function DeleteTask(s: Store, id: int): (r: (Store, Result<(), Error>))
    ensures r.1.Err? <==> forall j, i :: 0 <= j < |s.todos| && 0 <= i < |s.todos[j].tasks| ==>
                                        s.todos[j].tasks[i].id != Some(id)
    ensures r.1.Err? ==> r.0 == s
    ensures r.0.nextTodoId == s.nextTodoId && r.0.nextTaskId == s.nextTaskId
    ensures |r.0.todos| == |s.todos|
    ensures r.1.Ok? ==> LocateTask(s.todos, id).Some?
    ensures r.1.Ok? ==> forall j :: 0 <= j < |s.todos| && j != LocateTask(s.todos, id).value.0 ==>
                                    r.0.todos[j] == s.todos[j]
    ensures r.1.Ok? ==>
              var j := LocateTask(s.todos, id).value.0;
              var i := LocateTask(s.todos, id).value.1;
              r.0.todos[j] == s.todos[j].(tasks := RemoveAt(s.todos[j].tasks, i))
  {
    match LocateTask(s.todos, id)
    case None => (s, Err(NoSuchElement))
    case Some(p) =>
      var owner := s.todos[p.0];
      var found := owner.tasks[p.1];
      var equalsFound := (t: Tasks.Task) => Tasks.Equals(t, found);
      FirstIndexNarrowed(owner.tasks, TaskIdIs(id), equalsFound, p.1);
      var remaining := RemoveFirst(owner.tasks, equalsFound);
      (s.(todos := s.todos[p.0 := owner.(tasks := remaining)]), Ok(()))
  }

  /** `clear`: both counters back to 0 and no todos. */
  function Clear(s: Store): (r: Store)
    ensures Count(r) == 0 && r.nextTodoId == 0 && r.nextTaskId == 0
  {
    New()
  }
}
