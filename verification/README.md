# In-memory todo repository, modelled in Dafny

This project models `InMemoryTodoRepository` from the `cybr406-todo` teaching service, together
with the two records it stores, `Todo` and `Task`. The repository keeps todos in a list in
insertion order. It hands out todo ids and task ids from two auto-increment counters. The task
counter is shared by the whole store. `findAll` pages through the list by offset and limit.
`addTask`, `delete` and `deleteTask` throw `NoSuchElementException` when an id resolves to
nothing. `clear` resets everything.

The model is functional. A store is the value `Store(nextTodoId, nextTaskId, todos)`. Each
operation maps the store before the call to the store after it, paired with the call's answer.
A thrown `NoSuchElementException` is the answer `Err(NoSuchElement)`, and on that path the store
comes back unchanged. Java `null` fields become `Option` values. The back-reference `Task.todo`
is kept as the id of the todo it points to.

Files, one module each:

- `wrappers.dfy`: `Option` and `Result`.
- `seqs.dfy`: first-match search and first-match removal. These are the
  `stream().filter(..).findFirst()` and `List.remove(Object)` idioms the repository uses.
- `java_lang.dfy`: Java `int` wrap-around, plus `Objects.hash`, `List.hashCode`,
  `String.hashCode`, `Long.hashCode` and `Boolean.hashCode`.
- `task.dfy`, `todo.dfy`: the two records, their `equals` and their `hashCode`.
- `store.dfy`: the repository operations.
- `store_facts.dfy`: the store invariant, its preservation by every operation, and what
  follows from it.
- `paging.dfy`: how pages fit back together, and `findAll` with Java `int` arithmetic.
- `store_runs.dfy`: sequences of calls (counters, count, invariant).
- `scenarios.dfy`: the situations the repository's unit tests set up.

Two details of the code shape the model.

- `Todo.equals` compares task lists with `List.equals`, which uses `Task.equals`. `Task.equals`
  ignores the back-reference. So two todos can be equal in Java without being the same value;
  `Todos.Equals` models Java's relation.
- `delete` and `deleteTask` remove with `List.remove(Object)`. That call drops the first element
  *equal* to the one found, not the found object itself. The model does the same, and proves
  that the dropped element is exactly the found one. This holds because equal todos (or equal
  tasks) share an id, and the one found is the first with its id.

`count`, `find` and `findAll` are functions of the store, so they cannot change it.

Some lemmas only record facts that hold by definition. For example, `Tasks.SettersRoundTrip` and
`Todos.SettersRoundTrip` say the setters are plain field updates. The proofs that carry real
work are the `*PreservesValid` lemmas, `Paging.PagesArePrefix`, `Seqs.RemoveFirstScanSplices`,
`StoreFacts.LocateTaskIsFirstInFlatten` and the loop in `TodoStore.FindScan`.

## Model

| member | source | states |
|---|---|---|
| `Seqs.FirstIndex` | src/main/java/com/cybr406/todo/InMemoryTodoRepository.java:43-45 | the stream's `filter(..).findFirst()`: the index of an element satisfying the test, with no earlier element satisfying it; no index when no element does |
| `Seqs.RemoveAt` | src/main/java/com/cybr406/todo/InMemoryTodoRepository.java:76 | removing the element at one position shortens the list by one, keeps the earlier elements in place and shifts the later ones down by one |
| `Seqs.RemoveFirst` | src/main/java/com/cybr406/todo/InMemoryTodoRepository.java:76 | `List.remove(Object)`: the list without the element at the first matching index, or unchanged when nothing matches |
| `Seqs.RemoveFirstScanSplices` | src/main/java/com/cybr406/todo/InMemoryTodoRepository.java:86 | the element-by-element scan of `List.remove(Object)` removes exactly the element at the first match and keeps the rest in order; with no match it keeps everything |
| `Seqs.FirstIndexConcat` | src/main/java/com/cybr406/todo/InMemoryTodoRepository.java:81-84 | searching a concatenation finds the first match in the first part, else the first match in the second part shifted past the first part |
| `JavaLang.ToInt` | src/main/java/com/cybr406/todo/InMemoryTodoRepository.java:50 | Java `int` truncation: the result is an `int`, congruent to the input modulo 2^32, and equal to the input when the input already fits |
| `JavaLang.LongHash` | src/main/java/com/cybr406/todo/Task.java:70 | `Long.hashCode` of an id is an `int`, and an id in 0 .. 2^31-1 hashes to itself |
| `JavaLang.Examples` | src/main/java/com/cybr406/todo/Todo.java:62 | worked values of the Java hash functions: `"a"` hashes to 97, `"ab"` to 31*97+98, the long -1 to 0, `Objects.hash()` is 1, `Objects.hash(null, null)` is 961 |
| `Tasks.Blank` | src/main/java/com/cybr406/todo/Task.java:18-20 | `new Task()` sets nothing: id, back-reference, flag and details are all unset, and its hash is `Objects.hash(null, null, null)`, that is 31^3 = 29791 |
| `Tasks.For` | src/main/java/com/cybr406/todo/Task.java:18-24 | `new Task(todo)` sets the back-reference and is otherwise equal to `new Task()` |
| `Tasks.Equals` | src/main/java/com/cybr406/todo/Task.java:58-66 | two tasks are equal exactly when id, flag and details agree, that is when they are the same once both back-references are cleared |
| `Tasks.HashCode` | src/main/java/com/cybr406/todo/Task.java:68-71 | `Task.hashCode` is a Java `int` |
| `Tasks.EqualsIsEquivalence` | src/main/java/com/cybr406/todo/Task.java:58-66 | `Task.equals` is reflexive, symmetric and transitive |
| `Tasks.HashCodeConsistent` | src/main/java/com/cybr406/todo/Task.java:68-71 | equal tasks have equal hash codes, whatever their back-references |
| `Tasks.SettersRoundTrip` | src/main/java/com/cybr406/todo/Task.java:26-56 | each setter stores what the getter returns and setting the old value back restores the task; `setTodo` leaves the task equal to what it was |
| `Todos.Blank` | src/main/java/com/cybr406/todo/Todo.java:9-15 | `new Todo()` has no id, author or details and an empty task list, and its hash is `Objects.hash(null, null, null, 1)`, that is 923522 |
| `Todos.TasksEqual` | src/main/java/com/cybr406/todo/Todo.java:57 | `Objects.equals` of two task lists, which is `List.equals`: the lists are equal exactly when they are the same once every back-reference is cleared |
| `Todos.Equals` | src/main/java/com/cybr406/todo/Todo.java:49-58 | two todos are equal exactly when they are the same value once every task back-reference is cleared |
| `Todos.TasksHashCode` | src/main/java/com/cybr406/todo/Todo.java:62 | `List.hashCode` of the task list is a Java `int`, and 1 for the empty list |
| `Todos.HashCode` | src/main/java/com/cybr406/todo/Todo.java:60-63 | `Todo.hashCode` is a Java `int` |
| `Todos.EqualsIsEquivalence` | src/main/java/com/cybr406/todo/Todo.java:49-58 | `Todo.equals` is reflexive, symmetric and transitive |
| `Todos.HashCodeConsistent` | src/main/java/com/cybr406/todo/Todo.java:60-63 | equal todos have equal hash codes |
| `Todos.TasksHashCodeConsistent` | src/main/java/com/cybr406/todo/Todo.java:62 | pairwise-equal task lists have equal `List.hashCode` |
| `Todos.SettersRoundTrip` | src/main/java/com/cybr406/todo/Todo.java:17-47 | each setter stores what the getter returns and setting the old value back restores the todo; `setTasks` replaces the whole list |
| `TodoStore.New` | src/main/java/com/cybr406/todo/InMemoryTodoRepository.java:22-26 | a new repository starts both counters at 0 and holds no todos, so its count is 0 and `find` finds nothing for any id |
| `StoreFacts.CountIsWholeList` | src/main/java/com/cybr406/todo/InMemoryTodoRepository.java:29-31 | `count` is the size of the list `findAll` pages through: one page of `count` todos gives the whole list in order, and the page after it is empty |
| `TodoStore.Create` | src/main/java/com/cybr406/todo/InMemoryTodoRepository.java:34-39 | the todo counter rises by exactly one and the new value becomes the todo's id; only the id changes; the todo is appended at the end; the task counter stays; the count rises by one |
| `TodoStore.IndexOf` | src/main/java/com/cybr406/todo/InMemoryTodoRepository.java:42-46 | the position of the first todo carrying the id, or none when no todo carries it |
| `TodoStore.Find` | src/main/java/com/cybr406/todo/InMemoryTodoRepository.java:42-46 | absent exactly when no todo carries the id; otherwise the first todo in list order carrying it |
| `TodoStore.FindScan` | src/main/java/com/cybr406/todo/InMemoryTodoRepository.java:43-45 | the loop that looks at each todo in turn and stops at the first match computes `find` |
| `TodoStore.FindAll` | src/main/java/com/cybr406/todo/InMemoryTodoRepository.java:49-59 | the page has `min(size, max(0, count - page*size))` todos, and its i-th todo is the todo at `page*size + i`, so the empty-store and past-the-end cases give an empty page |
| `TodoStore.AddTask` | src/main/java/com/cybr406/todo/InMemoryTodoRepository.java:62-70 | throws exactly when `find` finds nothing, and then the store is unchanged; otherwise only the first todo with the id changes, and only in its task list; the task is appended after the earlier tasks; it gets the incremented global task counter as its id and a back-reference to the todo; its flag and details are kept; the changed todo is returned |
| `TodoStore.Delete` | src/main/java/com/cybr406/todo/InMemoryTodoRepository.java:73-77 | throws exactly when `find` finds nothing, and then the store is unchanged; otherwise the list loses exactly the first todo with the id, and its tasks with it; counters unchanged; count falls by one |
| `TodoStore.LocateTask` | src/main/java/com/cybr406/todo/InMemoryTodoRepository.java:81-85 | the (todo, task) position of a task with the id such that no earlier todo, and no earlier task of that todo, carries it; none when no task does |
| `TodoStore.DeleteTask` | src/main/java/com/cybr406/todo/InMemoryTodoRepository.java:80-87 | throws exactly when no task in the store has the id, and then the store is unchanged; otherwise exactly that task leaves its todo's list; the other tasks keep their order; every other todo and both counters are unchanged |
| `TodoStore.Clear` | src/main/java/com/cybr406/todo/InMemoryTodoRepository.java:89-93 | both counters are 0 and no todo is held |
| `StoreFacts.NewIsValid` | src/main/java/com/cybr406/todo/InMemoryTodoRepository.java:22-26 | a new repository, and a cleared one, satisfy the store invariant |
| `StoreFacts.CreatePreservesValid` | src/main/java/com/cybr406/todo/InMemoryTodoRepository.java:34-39 | `create` of a todo without tasks keeps the invariant, so todo ids stay assigned, bounded by the counter and strictly increasing along the list |
| `StoreFacts.AddTaskPreservesValid` | src/main/java/com/cybr406/todo/InMemoryTodoRepository.java:62-70 | `addTask` keeps the invariant, so task ids stay unique across the store and every back-reference names the todo holding the task |
| `StoreFacts.DeletePreservesValid` | src/main/java/com/cybr406/todo/InMemoryTodoRepository.java:73-77 | `delete` keeps the invariant |
| `StoreFacts.DeleteTaskPreservesValid` | src/main/java/com/cybr406/todo/InMemoryTodoRepository.java:80-87 | `deleteTask` keeps the invariant |
| `StoreFacts.RemoveTodoPreservesValid` | src/main/java/com/cybr406/todo/InMemoryTodoRepository.java:76 | removing any one todo from a store that satisfies the invariant leaves one that does |
| `StoreFacts.RemoveTaskPreservesValid` | src/main/java/com/cybr406/todo/InMemoryTodoRepository.java:86 | removing any one task from a store that satisfies the invariant leaves one that does |
| `StoreFacts.BackReferenceIsOwner` | src/main/java/com/cybr406/todo/InMemoryTodoRepository.java:86 | under the invariant, the back-reference of the task `deleteTask` finds names the todo holding it, and no other todo carries that id |
| `StoreFacts.FindIsUnique` | src/main/java/com/cybr406/todo/InMemoryTodoRepository.java:42-46 | under the invariant, `find` of the id a todo carries returns that todo |
| `StoreFacts.FindNeverAssigned` | src/main/java/com/cybr406/todo/InMemoryTodoRepository.java:42-46 | under the invariant, `find` of an id the counter has never handed out (below 1 or above the counter) is absent |
| `StoreFacts.FindAfterCreate` | src/main/java/com/cybr406/todo/InMemoryTodoRepository.java:34-46 | after `create`, `find` of the new id returns the stored todo, and every other id finds what it found before |
| `StoreFacts.FindAfterDelete` | src/main/java/com/cybr406/todo/InMemoryTodoRepository.java:73-77 | after a successful `delete`, `find` of the id is absent and a second `delete` throws; other ids are unaffected |
| `StoreFacts.FindAfterRemoval` | src/main/java/com/cybr406/todo/InMemoryTodoRepository.java:42-46 | removing a todo that does not carry an id leaves `find` of that id as it was |
| `StoreFacts.DeleteTaskRemovesId` | src/main/java/com/cybr406/todo/InMemoryTodoRepository.java:80-87 | after a successful `deleteTask`, no task in the store carries the id, so a second `deleteTask` throws |
| `StoreFacts.DeleteDropsTasks` | src/main/java/com/cybr406/todo/InMemoryTodoRepository.java:73-77 | after a successful `delete`, `deleteTask` of any task of the deleted todo throws |
| `StoreFacts.LocateTaskIsFirstInFlatten` | src/main/java/com/cybr406/todo/InMemoryTodoRepository.java:81-85 | the task located is the first match in the `flatMap` of all task lists in todo order, at the offset of its todo plus its index; a match exists in one exactly when it exists in the other |
| `StoreFacts.FlattenKeepsEveryTask` | src/main/java/com/cybr406/todo/InMemoryTodoRepository.java:81-82 | the `flatMap` over the todos' task lists holds every task of every todo, and every task in it belongs to some todo |
| `Paging.PagesArePrefix` | src/main/java/com/cybr406/todo/InMemoryTodoRepository.java:49-59 | pages 0 .. k-1 put together are the first `k*size` todos, or all of them when fewer, with no gap and no repeat |
| `Paging.PagesCoverAll` | src/main/java/com/cybr406/todo/InMemoryTodoRepository.java:49-59 | enough pages put together give the whole list in insertion order |
| `Paging.FindAllAsWritten` | src/main/java/com/cybr406/todo/InMemoryTodoRepository.java:49-59 | `findAll` in Java `int` arithmetic, with the `subList` exceptions, agrees with `FindAll` when `page*size + size` fits in an `int` |
| `Paging.FindAllOverflowReturnsFirstPage` | src/main/java/com/cybr406/todo/InMemoryTodoRepository.java:50 | for page 2^30 of size 4 the `int` offset wraps to 0: the code returns the first four todos where the page should be empty |
| `StoreRuns.RunAdvancesCounters` | src/main/java/com/cybr406/todo/InMemoryTodoRepository.java:34-70 | with no `clear`, the todo counter rises by the number of `create`s (deletions do not touch it), and the task counter by the number of successful `addTask`s |
| `StoreRuns.NthCreateGetsN` | src/main/java/com/cybr406/todo/InMemoryTodoRepository.java:34-39 | the n-th `create` since construction or the last `clear` gets id n, whatever was deleted in between |
| `StoreRuns.RunCount` | src/main/java/com/cybr406/todo/InMemoryTodoRepository.java:29-31 | with no `clear`, the count is the starting count plus the `create`s minus the successful `delete`s |
| `StoreRuns.RunPreservesValid` | src/main/java/com/cybr406/todo/InMemoryTodoRepository.java:28-93 | any sequence of calls keeps the invariant, provided each created todo comes in without tasks |
| `Scenarios.CreateAll` | src/test/java/com/cybr406/todo/ungraded/InMemoryTodoRepositoryTests.java:26-33 | creating todos one after another appends them in order with ids counting up from the counter |
| `Scenarios.CreateAllIds` | src/test/java/com/cybr406/todo/ungraded/InMemoryTodoRepositoryTests.java:26-33 | on a new repository, the todos created in turn carry ids 1, 2, 3, ... in list order |
| `Scenarios.AddAll` | src/test/java/com/cybr406/todo/ungraded/InMemoryTodoRepositoryTests.java:35-42 | adding tasks one after another to the first todo appends them in order with task ids counting up from the counter |
| `Scenarios.ClearResets` | src/main/java/com/cybr406/todo/InMemoryTodoRepository.java:89-93 | after `clear` the count is 0, `find` finds nothing, and the next `create` gets id 1 |
| `Scenarios.CreateAndFindScenario` | src/test/java/com/cybr406/todo/ungraded/InMemoryTodoRepositoryTests.java:44-62 | the first `create` gets id 1 and keeps author and details, with no tasks; `find(0)` is absent and `find(1)` returns it |
| `Scenarios.FindAllScenario` | src/test/java/com/cybr406/todo/ungraded/InMemoryTodoRepositoryTests.java:70-101 | over 15 todos, pages (0,10), (1,10), (0,5), (1,5), (2,5) hold 10, 5, 5, 5, 5 todos, each end being the todo `find` gives for the expected id; page (3,5) is empty |
| `Scenarios.CountAndDeleteScenario` | src/test/java/com/cybr406/todo/ungraded/InMemoryTodoRepositoryTests.java:103-138 | 15 creates give a count of 15; deleting id 1 leaves 14; deleting id 1 again throws |
| `Scenarios.AddTaskScenario` | src/test/java/com/cybr406/todo/ungraded/InMemoryTodoRepositoryTests.java:109-131 | two `addTask`s leave the todo with one and then two tasks in the order added, equal to the given tasks with ids 1 and 2 |
| `Scenarios.DeleteTaskScenario` | src/test/java/com/cybr406/todo/ungraded/InMemoryTodoRepositoryTests.java:140-155 | with five tasks on one todo, deleting the first by its id leaves four, none carrying that id |

## Left out

- Concurrency: the repository is not thread-safe, so it is modelled as used from one thread.
- Object identity and aliasing: the model works with values, not references. Five Java
  behaviours therefore have no counterpart. First, mutating a todo after `create` also changes
  the stored object. Second, mutating a task after `addTask` also changes the stored task; the
  repository's unit test for `addTask` does this at lines 125-126 of
  src/test/java/com/cybr406/todo/ungraded/InMemoryTodoRepositoryTests.java. Third, `findAll`
  returns a live `subList` view, or the list itself when the store is empty. Fourth, the same
  todo object could be stored twice. Fifth, the same task object could be added twice, to one
  todo or to two, and then a later `addTask` renumbers it in every place it is held.
- `TodoStore.DeleteTask` removes the task from the todo that holds it. Java removes it from the
  todo the task's back-reference points to. `StoreFacts.BackReferenceIsOwner` proves the two are
  the same for every store satisfying the invariant. A store can break the invariant only when a
  caller hands `create` a todo with tasks already attached.
- `Tasks.For` takes the id of the todo, because a back-reference is modelled by the target's
  id. For a todo that has no id yet, the model records no parent.
- `TodoStore.FindAll` takes natural numbers. The overflowing and negative `int` cases are
  modelled separately by `Paging.FindAllAsWritten`.
- The two counters are `long` in Java. The model uses unbounded naturals, so wrap-around after
  2^63 - 1 ids is not modelled.
- `null` arguments are not modelled. In Java a `null` id matches no todo, so `find` is absent
  and `addTask` and `delete` throw. `deleteTask(null)` throws too while every stored task has an
  id. A task stored without an id can only come from a todo handed to `create` with its tasks
  already attached, and `deleteTask(null)` matches the first such task. When that task's
  back-reference is unset, line 86 of `InMemoryTodoRepository.java` throws
  `NullPointerException`. Otherwise line 86 removes, from the list of the todo the
  back-reference names, the first task equal to it. That is the matched task itself only when
  the back-reference names the todo holding it; when it does not, the call may return with
  nothing removed, or remove another task.
- A todo without an id never matches in `find`. In Java the scan at lines 43-45 is lazy, so such
  a todo causes a `NullPointerException` only when it comes before the first match. `create`
  gives every stored todo an id, so this cannot happen.
- `setTasks(null)` is not modelled; the task list is always a sequence.
- `JavaLang.StringHash` hashes each Dafny character by its code. Java hashes UTF-16 units, so
  the two agree only for characters in the Basic Multilingual Plane.
- JSON serialisation, the REST controller, the JPA repositories, the demo-data configuration
  and the schema migrations are not part of this model.

## Findings

| source | as written | input that shows it | evidently intended | confidence | as-written member | corrected member |
|---|---|---|---|---|---|---|
| src/main/java/com/cybr406/todo/InMemoryTodoRepository.java:50 | `int offset = page * size` wraps around in 32-bit arithmetic | `findAll(1073741824, 4)` on a store of 15 todos: the offset wraps to 0 and the first four todos come back | a page starting past the end is empty | high, not executed | `Paging.FindAllOverflowReturnsFirstPage` | `TodoStore.FindAll` |
