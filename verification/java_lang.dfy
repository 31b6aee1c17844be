/** The pieces of the Java platform the repository leans on: 32-bit `int` wrap-around, and the
    `hashCode` methods `Task.hashCode` and `Todo.hashCode` are built from: `Objects.hash` and
    `List.hashCode` (the 31-polynomial seeded with 1), `String.hashCode` (seeded with 0), `Long.hashCode` and `Boolean.hashCode`. A `null`
    argument hashes to 0. */
module JavaLang {
  import opened Wrappers

  const TWO_31: int := 0x8000_0000
  const TWO_32: int := 0x1_0000_0000
  const TWO_64: int := 0x1_0000_0000_0000_0000

  /** Values a Java `int` can hold. */
  predicate IsInt(x: int) {
    -TWO_31 <= x < TWO_31
  }

  /** Java's two's-complement truncation of a mathematical integer to an `int`. */
  function ToInt(x: int): (r: int)
    ensures IsInt(r)
    ensures (x - r) % TWO_32 == 0
    ensures IsInt(x) ==> r == x
  {
    (x + TWO_31) % TWO_32 - TWO_31
  }

  /** One step of `h = 31 * h + e` evaluated in `int` arithmetic. */
  function Step(h: int, e: int): int {
    ToInt(31 * h + e)
  }

  /** The polynomial hash of `es` started from `seed`: `seed` for no elements, then one
      `Step` per element in order. */
  function Polynomial(seed: int, es: seq<int>): (r: int)
    requires IsInt(seed)
    ensures IsInt(r)
  {
    if |es| == 0 then seed else Step(Polynomial(seed, es[..|es| - 1]), es[|es| - 1])
  }

  /** `Objects.hash(e0, e1, ...)`, equivalently `List.hashCode` of a list whose elements hash to
      `es`. */
  function Combine(es: seq<int>): (r: int)
    ensures IsInt(r)
  {
    Polynomial(1, es)
  }

  /** `String.hashCode`, with each character taken as its code. */
  function StringHash(s: string): (r: int)
    ensures IsInt(r)
    ensures |s| == 0 ==> r == 0
  {
    Polynomial(0, seq(|s|, i requires 0 <= i < |s| => s[i] as int))
  }

  /** `Long.hashCode(v)`: `(int)(v ^ (v >>> 32))`, the exclusive or of the two 32-bit halves of
      the 64-bit two's-complement pattern of `v`, read back as a signed `int`. */
  function LongHash(v: int): (r: int)
    ensures IsInt(r)
    ensures 0 <= v < TWO_31 ==> r == v
  {
    var bits := v % TWO_64;
    var low := bits % TWO_32;
    var high := bits / TWO_32;
    assert high < TWO_32;
    ToInt(Xor32(low, high))
  }

  /** Bitwise exclusive or of two 32-bit patterns. */
  function Xor32(a: int, b: int): (r: int)
    requires 0 <= a < TWO_32 && 0 <= b < TWO_32
    ensures 0 <= r < TWO_32
    ensures b == 0 ==> r == a
  {
    Pow2Of32();
    XorBits(a, b, 32)
  }

  function Pow2(n: nat): (r: nat)
    ensures r > 0
  {
    if n == 0 then 1 else 2 * Pow2(n - 1)
  }

  lemma Pow2Of32()
    ensures Pow2(32) == TWO_32
  {
    assert Pow2(8) == 256;
    assert Pow2(16) == 65536;
    assert Pow2(24) == 16777216;
  }

  /** Exclusive or of the low `n` bits of `a` and `b`, one bit at a time from the lowest. */
  function XorBits(a: nat, b: nat, n: nat): (r: nat)
    requires a < Pow2(n) && b < Pow2(n)
    ensures r < Pow2(n)
    ensures b == 0 ==> r == a
    ensures a == b ==> r == 0
  {
    if n == 0 then 0
    else
      var bit := if a % 2 == b % 2 then 0 else 1;
      bit + 2 * XorBits(a / 2, b / 2, n - 1)
  }

  /** `Boolean.hashCode`. */
  function BooleanHash(b: bool): int {
    if b then 1231 else 1237
  }

  /** `Objects.hashCode` of a `Long`, `Boolean` or `String` that may be `null`. */
  function LongOrNull(o: Option<int>): int {
    if o.Some? then LongHash(o.value) else 0
  }

  function BooleanOrNull(o: Option<bool>): int {
    if o.Some? then BooleanHash(o.value) else 0
  }

  function StringOrNull(o: Option<string>): int {
    if o.Some? then StringHash(o.value) else 0
  }

  /** Small examples of the definitions above, as Java computes them. */
  lemma Examples()
    ensures StringHash("a") == 97
    ensures StringHash("ab") == 31 * 97 + 98
    ensures LongHash(-1) == 0
    ensures Combine([]) == 1
    ensures Combine([0, 0]) == 961
  {
    assert seq(1, i requires 0 <= i < 1 => "a"[i] as int) == [97];
    assert seq(2, i requires 0 <= i < 2 => "ab"[i] as int) == [97, 98];
    assert [97, 98][..1] == [97];
    assert [0, 0][..1] == [0];
    assert [97][..0] == [];
    assert [0][..0] == [];
  }
}
