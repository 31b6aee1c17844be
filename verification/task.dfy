/** The `Task` record: a sub-item of a todo with an id, a completion flag and details. Every
    field may be unset (Java `null`). The back-reference to the owning todo is kept as that
    todo's id. */
module Tasks {
  import opened Wrappers
  import JavaLang

  datatype Task = Task(id: Option<int>, parent: Option<int>, completed: Option<bool>, details: Option<string>)

  /** `new Task()`: nothing is set, so its hash is `Objects.hash(null, null, null)`, 31^3. */
  function Blank(): (t: Task)
    ensures t.id.None? && t.parent.None? && t.completed.None? && t.details.None?
    ensures HashCode(t) == 29791
  {
    assert [0, 0, 0][..2] == [0, 0] && [0, 0][..1] == [0] && [0][..0] == [];
    Task(None, None, None, None)
  }

  /** `new Task(todo)` for a todo whose id is `todoId`: the back-reference is the only field set,
      so the result is equal, in the sense of `Equals`, to a blank task. */
  function For(todoId: Option<int>): (t: Task)
    ensures t.parent == todoId
    ensures Equals(t, Blank())
  {
    Blank().(parent := todoId)
  }

  /** `Task.equals`: the id, the completion flag and the details agree; the back-reference
      plays no part, so two tasks are equal exactly when they agree once it is cleared. */
  predicate Equals(a: Task, b: Task)
    ensures Equals(a, b) <==> a.(parent := None) == b.(parent := None)
  {
    a.id == b.id && a.completed == b.completed && a.details == b.details
  }

  /** `Task.hashCode`: `Objects.hash(id, completed, details)`. */
  function HashCode(t: Task): (h: int)
    ensures JavaLang.IsInt(h)
  {
    JavaLang.Combine([JavaLang.LongOrNull(t.id), JavaLang.BooleanOrNull(t.completed), JavaLang.StringOrNull(t.details)])
  }

  /** `Equals` is an equivalence relation, as `Object.equals` requires. */
  lemma EqualsIsEquivalence(a: Task, b: Task, c: Task)
    ensures Equals(a, a)
    ensures Equals(a, b) ==> Equals(b, a)
    ensures Equals(a, b) && Equals(b, c) ==> Equals(a, c)
  {
  }

  /** Equal tasks have equal hash codes, whatever their back-references. */
  lemma HashCodeConsistent(a: Task, b: Task)
    ensures Equals(a, b) ==> HashCode(a) == HashCode(b)
  {
  }

  /** The setters are field updates: the getter returns what was stored and the other fields
      keep their values. Replacing the back-reference (`setTodo`) leaves the task equal to what
      it was. */
  lemma SettersRoundTrip(t: Task, id: Option<int>, parent: Option<int>, completed: Option<bool>, details: Option<string>)
    ensures t.(id := id).id == id && t.(id := id).(id := t.id) == t
    ensures t.(completed := completed).completed == completed && t.(completed := completed).(completed := t.completed) == t
    ensures t.(details := details).details == details && t.(details := details).(details := t.details) == t
    ensures t.(parent := parent).parent == parent && Equals(t.(parent := parent), t)
  {
  }
}
