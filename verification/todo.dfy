/** The `Todo` record: an id, an author, details and the ordered list of its tasks. The id,
    author and details may be unset (Java `null`); the task list starts empty. */
module Todos {
  import opened Wrappers
  import JavaLang
  import Tasks

  datatype Todo = Todo(id: Option<int>, author: Option<string>, details: Option<string>, tasks: seq<Tasks.Task>)

  /** `new Todo()`: no id, author or details, and an empty task list. */
  function Blank(): (t: Todo)
    ensures t.id.None? && t.author.None? && t.details.None?
    ensures |t.tasks| == 0
    ensures HashCode(t) == 923522
  {
    assert [0, 0, 0, 1][..3] == [0, 0, 0] && [0, 0, 0][..2] == [0, 0];
    assert [0, 0][..1] == [0] && [0][..0] == [];
    Todo(None, None, None, [])
  }

  /** `List.equals` over two task lists: same length and pairwise `Task.equals`; so the lists
      are equal exactly when they are the same once every back-reference is cleared. */
  predicate TasksEqual(xs: seq<Tasks.Task>, ys: seq<Tasks.Task>)
    ensures TasksEqual(xs, ys) <==> DetachedTasks(xs) == DetachedTasks(ys)
  {
    assert |xs| == |ys| ==> forall i :: 0 <= i < |xs| ==>
             (Tasks.Equals(xs[i], ys[i]) <==> DetachedTasks(xs)[i] == DetachedTasks(ys)[i]);
    |xs| == |ys| && forall i :: 0 <= i < |xs| ==> Tasks.Equals(xs[i], ys[i])
  }

  /** `Todo.equals`: id, author, details and task lists agree, the task lists compared by
      `Task.equals` and therefore blind to back-references: two todos are equal exactly when
      they are the same value once every task back-reference is cleared. */
  predicate Equals(a: Todo, b: Todo)
    ensures Equals(a, b) <==> Detached(a) == Detached(b)
  {
    a.id == b.id && a.author == b.author && a.details == b.details && TasksEqual(a.tasks, b.tasks)
  }

  /** `List.hashCode` of a task list. */
  function TasksHashCode(ts: seq<Tasks.Task>): (h: int)
    ensures JavaLang.IsInt(h)
    ensures |ts| == 0 ==> h == 1
  {
    JavaLang.Combine(seq(|ts|, i requires 0 <= i < |ts| => Tasks.HashCode(ts[i])))
  }

  /** `Todo.hashCode`: `Objects.hash(id, author, details, tasks)`. */
  function HashCode(t: Todo): (h: int)
    ensures JavaLang.IsInt(h)
  {
    JavaLang.Combine([JavaLang.LongOrNull(t.id), JavaLang.StringOrNull(t.author),
                      JavaLang.StringOrNull(t.details), TasksHashCode(t.tasks)])
  }

  /** The tasks with every back-reference cleared. */
  function DetachedTasks(ts: seq<Tasks.Task>): seq<Tasks.Task> {
    seq(|ts|, i requires 0 <= i < |ts| => ts[i].(parent := None))
  }

  /** The todo with every task's back-reference cleared. */
  function Detached(t: Todo): Todo {
    t.(tasks := DetachedTasks(t.tasks))
  }

  /** `Equals` is an equivalence relation, as `Object.equals` requires. */
  lemma EqualsIsEquivalence(a: Todo, b: Todo, c: Todo)
    ensures Equals(a, a)
    ensures Equals(a, b) ==> Equals(b, a)
    ensures Equals(a, b) && Equals(b, c) ==> Equals(a, c)
  {
  }

  /** Equal todos have equal hash codes: `hashCode` reads exactly the fields `equals` compares,
      and a task list's hash depends only on what `Task.equals` compares. */
  lemma HashCodeConsistent(a: Todo, b: Todo)
    ensures Equals(a, b) ==> HashCode(a) == HashCode(b)
  {
    if Equals(a, b) {
      TasksHashCodeConsistent(a.tasks, b.tasks);
    }
  }

  /** Pairwise-equal task lists have equal `List.hashCode`. */
  lemma TasksHashCodeConsistent(xs: seq<Tasks.Task>, ys: seq<Tasks.Task>)
    requires TasksEqual(xs, ys)
    ensures TasksHashCode(xs) == TasksHashCode(ys)
  {
    var hx := seq(|xs|, i requires 0 <= i < |xs| => Tasks.HashCode(xs[i]));
    var hy := seq(|ys|, i requires 0 <= i < |ys| => Tasks.HashCode(ys[i]));
    forall i | 0 <= i < |xs|
      ensures hx[i] == hy[i]
    {
      Tasks.HashCodeConsistent(xs[i], ys[i]);
    }
    assert hx == hy;
  }

  /** The setters are field updates: the getter returns what was stored and the other fields
      keep their values; `setTasks` replaces the whole list. */
  lemma SettersRoundTrip(t: Todo, id: Option<int>, author: Option<string>, details: Option<string>, tasks: seq<Tasks.Task>)
    ensures t.(id := id).id == id && t.(id := id).(id := t.id) == t
    ensures t.(author := author).author == author && t.(author := author).(author := t.author) == t
    ensures t.(details := details).details == details && t.(details := details).(details := t.details) == t
    ensures t.(tasks := tasks).tasks == tasks && t.(tasks := tasks).(tasks := t.tasks) == t
  {
  }
}
