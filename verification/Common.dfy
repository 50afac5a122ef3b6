/** Types shared by the models of several components. */
module Common {

  datatype Option<+T> = None | Some(value: T)

  datatype Result<+T, +E> = Ok(value: T) | Err(error: E)

  /** One octet of a packet, a payload or a certificate. */
  type Byte = b: nat | b < 256

  type U16 = n: nat | n < 0x1_0000

  /** Rust's `u64`, the type of every clock reading and counter. */
  const U64_MAX: nat := 0xffff_ffff_ffff_ffff

  type U64 = n: nat | n <= U64_MAX

  function Min(a: nat, b: nat): nat { if a <= b then a else b }

  /** `u64::saturating_add` */
  function SaturatingAdd(a: U64, b: U64): U64 { Min(a + b, U64_MAX) }

  /** `u64::saturating_sub` */
  function SaturatingSub(a: U64, b: U64): U64 { if b <= a then a - b else 0 }

  /** A run without its last step. */
  function Earlier<T>(run: seq<T>): seq<T>
    requires run != []
  {
    run[..|run| - 1]
  }

  function Latest<T>(run: seq<T>): T
    requires run != []
  {
    run[|run| - 1]
  }

  /** The derived order on sequences: the first difference decides, then the length. */
  predicate SeqLess<T>(less: (T, T) -> bool, a: seq<T>, b: seq<T>) {
    b != [] && (a == [] || less(a[0], b[0]) || (!less(b[0], a[0]) && SeqLess(less, a[1..], b[1..])))
  }

  ghost predicate StrictTotalOrder<T(!new)>(less: (T, T) -> bool) {
    && (forall a :: !less(a, a))
    && (forall a, b, c :: less(a, b) && less(b, c) ==> less(a, c))
    && (forall a, b :: a != b ==> less(a, b) || less(b, a))
  }

  lemma {:induction false} SeqLessIrreflexive<T(!new)>(less: (T, T) -> bool, a: seq<T>)
    requires StrictTotalOrder(less)
    ensures !SeqLess(less, a, a)
    decreases |a|
  {
    if a != [] { SeqLessIrreflexive(less, a[1..]); }
  }

  lemma {:induction false} SeqLessTransitive<T(!new)>(less: (T, T) -> bool, a: seq<T>, b: seq<T>, c: seq<T>)
    requires StrictTotalOrder(less)
    requires SeqLess(less, a, b) && SeqLess(less, b, c)
    ensures SeqLess(less, a, c)
    decreases |a|
  {
    if a != [] {
      assert less(a[0], b[0]) || a[0] == b[0];
      assert less(b[0], c[0]) || b[0] == c[0];
      if a[0] == b[0] == c[0] { SeqLessTransitive(less, a[1..], b[1..], c[1..]); }
    }
  }

  lemma {:induction false} SeqLessConnected<T(!new)>(less: (T, T) -> bool, a: seq<T>, b: seq<T>)
    requires StrictTotalOrder(less) && a != b
    ensures SeqLess(less, a, b) || SeqLess(less, b, a)
    decreases |a|
  {
    if a != [] && b != [] && a[0] == b[0] {
      assert a == [a[0]] + a[1..] && b == [b[0]] + b[1..];
      SeqLessConnected(less, a[1..], b[1..]);
    }
  }

  /** The first difference between two sequences decides. */
  lemma {:induction false} FirstDifference<T(!new)>(less: (T, T) -> bool, p: seq<T>, x: T, y: T, u: seq<T>, v: seq<T>)
    requires StrictTotalOrder(less) && x != y
    ensures SeqLess(less, p + [x] + u, p + [y] + v) <==> less(x, y)
    decreases |p|
  {
    if p != [] {
      assert (p + [x] + u)[1..] == p[1..] + [x] + u && (p + [y] + v)[1..] == p[1..] + [y] + v;
      FirstDifference(less, p[1..], x, y, u, v);
    }
  }

  /** Without a difference, the shorter one is less. */
  lemma {:induction false} PrefixIsLess<T(!new)>(less: (T, T) -> bool, p: seq<T>, u: seq<T>)
    requires StrictTotalOrder(less) && u != []
    ensures SeqLess(less, p, p + u) && !SeqLess(less, p + u, p)
    decreases |p|
  {
    if p != [] {
      assert (p + u)[1..] == p[1..] + u;
      PrefixIsLess(less, p[1..], u);
    }
  }

  /** Saturating arithmetic is that of the natural numbers, cut off at both ends. */
  lemma {:induction false} SaturatingComparisons(a: U64, b: U64, c: U64)
    ensures SaturatingAdd(a, b) > c <==> a + b > c && 0xffff_ffff_ffff_ffff > c
    ensures SaturatingSub(a, b) <= c <==> a <= b + c
  {}
}
