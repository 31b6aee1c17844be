/** Linear search and first-match removal over sequences: the `stream().filter(..).findFirst()`
    and `List.remove(Object)` idioms the repository is built from. */
module Seqs {
  import opened Wrappers

  /** Index of the first element of `xs` that satisfies `p`, scanning from the front. */
  function FirstIndex<T>(xs: seq<T>, p: T -> bool): (r: Option<nat>)
    ensures r.Some? ==> r.value < |xs| && p(xs[r.value])
    ensures r.Some? ==> forall j :: 0 <= j < r.value ==> !p(xs[j])
    ensures r.None? ==> forall j :: 0 <= j < |xs| ==> !p(xs[j])
  {
    if |xs| == 0 then None
    else if p(xs[0]) then Some(0)
    else
      match FirstIndex(xs[1..], p)
      case None =>
        assert forall j :: 1 <= j < |xs| ==> xs[j] == xs[1..][j - 1];
        None
      case Some(k) =>
        assert forall j :: 1 <= j <= k ==> xs[j] == xs[1..][j - 1];
        Some(k + 1)
  }

  /** The sequence without its element at position `k`, the others kept in order. */
  function RemoveAt<T>(xs: seq<T>, k: nat): (ys: seq<T>)
    requires k < |xs|
    ensures |ys| == |xs| - 1
    ensures forall j :: 0 <= j < |ys| ==> ys[j] == xs[if j < k then j else j + 1]
  {
    xs[..k] + xs[k + 1..]
  }

  /** Drops the first element that satisfies `p`, scanning from the front as `List.remove`
      does; the sequence is returned as is when none does. */
  function RemoveFirst<T>(xs: seq<T>, p: T -> bool): (r: seq<T>)
    ensures FirstIndex(xs, p).None? ==> r == xs
    ensures FirstIndex(xs, p).Some? ==> r == RemoveAt(xs, FirstIndex(xs, p).value)
  {
    var r := RemoveFirstScan(xs, p);
    RemoveFirstScanSplices(xs, p);
    r
  }

  /** The element-by-element scan of `List.remove`: keep elements until the first match. */
  function RemoveFirstScan<T>(xs: seq<T>, p: T -> bool): seq<T>
  {
    if |xs| == 0 then xs
    else if p(xs[0]) then xs[1..]
    else [xs[0]] + RemoveFirstScan(xs[1..], p)
  }

  /** The scan removes exactly the element at the first match. */
  lemma {:induction false} RemoveFirstScanSplices<T>(xs: seq<T>, p: T -> bool)
    ensures FirstIndex(xs, p).None? ==> RemoveFirstScan(xs, p) == xs
    ensures FirstIndex(xs, p).Some? ==>
              RemoveFirstScan(xs, p) == RemoveAt(xs, FirstIndex(xs, p).value)
  {
    if |xs| > 0 && !p(xs[0]) {
      var rest := xs[1..];
      RemoveFirstScanSplices(rest, p);
      match FirstIndex(rest, p)
      case None =>
        assert FirstIndex(xs, p).None?;
        assert [xs[0]] + rest == xs;
      case Some(k) =>
        assert FirstIndex(xs, p) == Some(k + 1);
        RemoveAtTail(xs, k);
    }
  }

  /** Removing position `k` of the tail and putting the head back removes position `k + 1`. */
  lemma RemoveAtTail<T>(xs: seq<T>, k: nat)
    requires k + 1 < |xs|
    ensures [xs[0]] + RemoveAt(xs[1..], k) == RemoveAt(xs, k + 1)
  {
    assert xs[..k + 1] == [xs[0]] + xs[1..][..k];
    assert xs[k + 2..] == xs[1..][k + 1..];
  }

  /** When every `q`-element is a `p`-element and the first `p`-element satisfies `q`, the first
      `q`-element is that same element. */
  lemma FirstIndexNarrowed<T>(xs: seq<T>, p: T -> bool, q: T -> bool, k: nat)
    requires FirstIndex(xs, p) == Some(k)
    requires q(xs[k])
    requires forall x :: q(x) ==> p(x)
    ensures FirstIndex(xs, q) == Some(k)
  {
  }

  /** Searching `a + b` finds the first match of `a` if there is one, and otherwise the first
      match of `b`, shifted past `a`. */
  lemma FirstIndexConcat<T>(a: seq<T>, b: seq<T>, p: T -> bool)
    ensures FirstIndex(a, p).Some? ==> FirstIndex(a + b, p) == FirstIndex(a, p)
    ensures FirstIndex(a, p).None? && FirstIndex(b, p).Some? ==>
              FirstIndex(a + b, p) == Some(|a| + FirstIndex(b, p).value)
    ensures FirstIndex(a, p).None? && FirstIndex(b, p).None? ==> FirstIndex(a + b, p).None?
  {
    if FirstIndex(a, p).Some? {
      FirstIndexInPrefix(a, b, p);
    } else if FirstIndex(b, p).Some? {
      FirstIndexShifted(a, b, p, FirstIndex(b, p).value);
    } else {
      FirstIndexInNeither(a, b, p);
    }
  }

  lemma FirstIndexInPrefix<T>(a: seq<T>, b: seq<T>, p: T -> bool)
    requires FirstIndex(a, p).Some?
    ensures FirstIndex(a + b, p) == FirstIndex(a, p)
  {
    var k := FirstIndex(a, p).value;
    assert forall j :: 0 <= j <= k ==> (a + b)[j] == a[j];
    FirstIndexIs(a + b, p, k);
  }

  lemma FirstIndexInNeither<T>(a: seq<T>, b: seq<T>, p: T -> bool)
    requires FirstIndex(a, p).None? && FirstIndex(b, p).None?
    ensures FirstIndex(a + b, p).None?
  {
    assert forall j :: 0 <= j < |a| ==> (a + b)[j] == a[j];
    assert forall j :: |a| <= j < |a + b| ==> (a + b)[j] == b[j - |a|];
    FirstIndexAbsent(a + b, p);
  }

  /** The first match is determined by where it is and that nothing before it matches. */
  lemma FirstIndexIs<T>(xs: seq<T>, p: T -> bool, k: nat)
    requires k < |xs| && p(xs[k])
    requires forall j :: 0 <= j < k ==> !p(xs[j])
    ensures FirstIndex(xs, p) == Some(k)
  {
  }

  /** Without a match there is no first match. */
  lemma FirstIndexAbsent<T>(xs: seq<T>, p: T -> bool)
    requires forall j :: 0 <= j < |xs| ==> !p(xs[j])
    ensures FirstIndex(xs, p).None?
  {
  }

  /** When `a` has no match, the first match of `b` at `off` is the first match of `a + b`, at
      `|a| + off`. */
  lemma FirstIndexShifted<T>(a: seq<T>, b: seq<T>, p: T -> bool, off: nat)
    requires FirstIndex(a, p).None?
    requires FirstIndex(b, p) == Some(off)
    ensures FirstIndex(a + b, p) == Some(|a| + off)
    ensures (a + b)[|a| + off] == b[off]
  {
    assert forall j :: 0 <= j < |a| ==> (a + b)[j] == a[j];
    assert forall j :: 0 <= j <= off ==> (a + b)[|a| + j] == b[j];
    FirstIndexIs(a + b, p, |a| + off);
  }
}
