/** Pagination by `findAll(page, size)`: consecutive pages put back together give the todo
    list, and the page arithmetic as the repository writes it, in Java `int`. */
module Paging {
  import opened Wrappers
  import Todos
  import JavaLang
  import opened TodoStore

  /** Pages `0 .. k - 1` of `size` todos each, one after the other. */
  function Pages(s: Store, size: nat, k: nat): seq<Todos.Todo> {
    if k == 0 then [] else Pages(s, size, k - 1) + FindAll(s, k - 1, size)
  }

  /** The first `k` pages are the first `k * size` todos (all of them when there are fewer):
      no todo is skipped or repeated. */
  lemma {:induction false} PagesArePrefix(s: Store, size: nat, k: nat)
    ensures Pages(s, size, k) == s.todos[..Min(k * size, |s.todos|)]
  {
    if k > 0 {
      PagesArePrefix(s, size, k - 1);
      NextOffset(k, size);
      OnePageMore(s, size, k, (k - 1) * size);
    }
  }

  /** The inductive step of `PagesArePrefix`, with the offset of page `k - 1` named `off`. */
  lemma OnePageMore(s: Store, size: nat, k: nat, off: nat)
    requires k > 0 && off == (k - 1) * size && k * size == off + size
    requires Pages(s, size, k - 1) == s.todos[..Min(off, |s.todos|)]
    ensures Pages(s, size, k) == s.todos[..Min(off + size, |s.todos|)]
  {
    var n := |s.todos|;
    PageIsSlice(s, k - 1, size);
    assert FindAll(s, k - 1, size) == s.todos[Min(off, n)..Min(off + size, n)];
    JoinSlices(s.todos, off, size);
  }

  /** Page `k` starts `size` todos after page `k - 1`. */
  lemma NextOffset(k: nat, size: nat)
    requires k > 0
    ensures k * size == (k - 1) * size + size
  {
  }

  /** A page is the slice of the list from its offset to `size` further on, both cut at the
      end of the list. */
  lemma PageIsSlice(s: Store, page: nat, size: nat)
    ensures FindAll(s, page, size) == s.todos[Min(page * size, |s.todos|)..Min(page * size + size, |s.todos|)]
  {
    var r := FindAll(s, page, size);
    var lo := Min(page * size, |s.todos|);
    var hi := Min(page * size + size, |s.todos|);
    assert |r| == hi - lo;
    assert forall i :: 0 <= i < |r| ==> r[i] == s.todos[lo..hi][i];
  }

  lemma JoinSlices<T>(xs: seq<T>, off: nat, size: nat)
    ensures xs[..Min(off, |xs|)] + xs[Min(off, |xs|)..Min(off + size, |xs|)] == xs[..Min(off + size, |xs|)]
  {
  }

  /** Enough pages reconstruct the whole list in insertion order. */
  lemma PagesCoverAll(s: Store, size: nat, k: nat)
    requires k * size >= |s.todos|
    ensures Pages(s, size, k) == s.todos
  {
    PagesArePrefix(s, size, k);
  }

  /** Exceptions `List.subList(from, to)` throws: `IndexOutOfBoundsException` for `from < 0` or
      `to > size()`, `IllegalArgumentException` for `from > to`. */
  datatype SubListError = IndexOutOfBounds | IllegalArgument

  /** `findAll` exactly as written, with `page`, `size` and the offset arithmetic in Java
      `int`: `page * size` and `offset + size` wrap around. */
  function FindAllAsWritten(s: Store, page: int, size: int): (r: Result<seq<Todos.Todo>, SubListError>)
    requires JavaLang.IsInt(page) && JavaLang.IsInt(size)
    requires |s.todos| < JavaLang.TWO_31
    ensures 0 <= page && 0 <= size && page * size + size < JavaLang.TWO_31 ==> r == Ok(FindAll(s, page, size))
  {
    OffsetsFit(page, size);
    var n := |s.todos|;
    var offset := JavaLang.ToInt(page * size);
    if n == 0 then Ok(s.todos)
    else if offset >= n then Ok([])
    else
      var end := Min(JavaLang.ToInt(offset + size), n);
      if offset < 0 || end > n then Err(IndexOutOfBounds)
      else if offset > end then Err(IllegalArgument)
      else Ok(s.todos[offset..end])
  }

  /** Without overflow the `int` offsets are the mathematical ones. */
  lemma OffsetsFit(page: int, size: int)
    ensures 0 <= page && 0 <= size && page * size + size < JavaLang.TWO_31 ==>
              && 0 <= page * size
              && JavaLang.ToInt(page * size) == page * size
              && JavaLang.ToInt(page * size + size) == page * size + size
  {
    if 0 <= page && 0 <= size {
      assert 0 <= page * size;
    }
  }

  /** `page * size` overflows for page 2^30 of size 4: the offset wraps to 0, and the call
      returns the first four todos where the page lies far past the end and should be empty. */
  lemma FindAllOverflowReturnsFirstPage(s: Store)
    requires 4 <= |s.todos| < JavaLang.TWO_31
    ensures FindAll(s, 0x4000_0000, 4) == []
    ensures FindAllAsWritten(s, 0x4000_0000, 4) == Ok(s.todos[..4])
  {
    assert JavaLang.ToInt(0x4000_0000 * 4) == 0;
  }
}
