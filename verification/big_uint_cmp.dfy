/**
 Equality and ordering of `BigUint`, a handle into the engine's big-integer
 store. Comparing two `BigUint`s is one `bi_cmp`; comparing with a machine
 integer asks for the sign when that integer is 0 and otherwise stores the
 integer behind a fresh handle and compares the two handles. The store is
 threaded through because that temporary handle is an allocation.
 */
module BigUintCmp {
  import opened RustCore
  import opened HostRegistry
  import opened BigEndian

  datatype BigUint = BigUint(handle: Handle)

  /** `a` refers to a stored value, and that value is non-negative. */
  predicate Holds(heap: BigIntHeap, a: BigUint) {
    ValidBigInts(heap) && a.handle in heap.values && heap.values[a.handle] >= 0
  }

  function Value(heap: BigIntHeap, a: BigUint): (v: nat)
    requires Holds(heap, a)
  {
    heap.values[a.handle]
  }

  // ---------------------------------------------------------------------
  // BigUint against BigUint
  // ---------------------------------------------------------------------

  /** `PartialEq::eq`. */
  function Eq(heap: BigIntHeap, a: BigUint, b: BigUint): (r: bool)
    requires Holds(heap, a) && Holds(heap, b)
    ensures r <==> Value(heap, a) == Value(heap, b)
  {
    BiCmp(heap, a.handle, b.handle).IsEq()
  }

  /** `Ord::cmp`. */
  function Cmp(heap: BigIntHeap, a: BigUint, b: BigUint): (r: Ordering)
    requires Holds(heap, a) && Holds(heap, b)
    ensures r == Less <==> Value(heap, a) < Value(heap, b)
    ensures r == Equal <==> Value(heap, a) == Value(heap, b)
    ensures r == Greater <==> Value(heap, a) > Value(heap, b)
  {
    BiCmp(heap, a.handle, b.handle)
  }

  /** `PartialOrd::partial_cmp`: always defined, and consistent with `eq`. */
  function PartialCmp(heap: BigIntHeap, a: BigUint, b: BigUint): (r: Option<Ordering>)
    requires Holds(heap, a) && Holds(heap, b)
    ensures r.Some?
    ensures r.value.IsEq() <==> Eq(heap, a, b)
    ensures r.value == Less <==> Value(heap, a) < Value(heap, b)
    ensures r.value == Greater <==> Value(heap, a) > Value(heap, b)
  {
    Some(Cmp(heap, a, b))
  }

  /** `cmp` is a total order: antisymmetric, transitive, and exactly one of
      less, equal, greater holds. */
  lemma CmpIsTotalOrder(heap: BigIntHeap, a: BigUint, b: BigUint, c: BigUint)
    requires Holds(heap, a) && Holds(heap, b) && Holds(heap, c)
    ensures Cmp(heap, b, a) == Cmp(heap, a, b).Reverse()
    ensures Cmp(heap, a, a) == Equal
    ensures Cmp(heap, a, b) == Less && Cmp(heap, b, c) == Less ==> Cmp(heap, a, c) == Less
    ensures Cmp(heap, a, b) == Equal <==> Eq(heap, a, b)
  {
  }

  /** The handle-level comparison orders two values as their big-endian
      bytes do when read as magnitudes, so nothing is lost by never
      decoding to bytes first. */
  lemma CmpAgreesWithBigEndianBytes(heap: BigIntHeap, a: BigUint, b: BigUint)
    requires Holds(heap, a) && Holds(heap, b)
    ensures Cmp(heap, a, b) == CmpBytesBE(ToBytesBE(Value(heap, a)), ToBytesBE(Value(heap, b)))
  {
    BytesOrderIsNumericOrder(Value(heap, a), Value(heap, b));
  }

  // ---------------------------------------------------------------------
  // BigUint against a machine integer
  // ---------------------------------------------------------------------

  /** What a comparison with a machine integer may do to the store: nothing
      on the zero path, one temporary handle otherwise; stored values are
      never altered. */
  predicate TempOnly(heap: BigIntHeap, heap': BigIntHeap, other: int) {
    && ValidBigInts(heap')
    && BigIntsKept(heap, heap')
    && (other == 0 ==> heap' == heap)
    && (other != 0 ==> heap'.next == heap.next + 1 && heap'.values.Keys == heap.values.Keys + {heap.next})
  }

  /** `cmp_i64`. */
  function CmpI64(heap: BigIntHeap, bi: BigUint, other: i64): (r: (BigIntHeap, Ordering))
    requires Holds(heap, bi)
    ensures r.1 == CmpInt(Value(heap, bi), other)
    ensures TempOnly(heap, r.0, other)
    ensures other != 0 ==> r.0.values[heap.next] == other
    ensures Holds(r.0, bi) && Value(r.0, bi) == Value(heap, bi)
  {
    if other == 0 then
      var ord := match BiSign(heap, bi.handle)
        case Plus => Greater
        case NoSign => Equal
        case Minus => Less;
      (heap, ord)
    else
      CmpViaHandle(heap, bi, other)
  }

  /** The general branch of `cmp_i64`, without the zero shortcut: take a
      fresh handle, store the integer there, compare handles. */
  function CmpViaHandle(heap: BigIntHeap, bi: BigUint, other: i64): (r: (BigIntHeap, Ordering))
    requires Holds(heap, bi)
    ensures r.1 == CmpInt(Value(heap, bi), other)
    ensures BigIntsKept(heap, r.0) && ValidBigInts(r.0)
    ensures r.0.next == heap.next + 1 && r.0.values.Keys == heap.values.Keys + {heap.next}
    ensures r.0.values[heap.next] == other
  {
    var (heap1, h) := NextHandle(heap);
    var heap2 := BiSetInt64(heap1, h, other);
    (heap2, BiCmp(heap2, bi.handle, h))
  }

  /** The zero shortcut answers exactly what comparing against a stored 0
      would, while leaving the store untouched. */
  lemma ZeroFastPathAgrees(heap: BigIntHeap, bi: BigUint)
    requires Holds(heap, bi)
    ensures CmpI64(heap, bi, 0).1 == CmpViaHandle(heap, bi, 0).1
    ensures CmpI64(heap, bi, 0).0 == heap
  {
  }

  /** A `BigUint` equals 0 exactly when the engine reports no sign. */
  lemma EqZeroIffNoSign(heap: BigIntHeap, bi: BigUint)
    requires Holds(heap, bi)
    ensures EqI64(heap, bi, 0).1 <==> BiSign(heap, bi.handle) == NoSign
    ensures EqI64(heap, bi, 0).0 == heap
  {
  }

  // The `partial_eq_and_ord!` instances: the operand goes through `as i64`.

  function EqI64(heap: BigIntHeap, bi: BigUint, other: i64): (r: (BigIntHeap, bool))
    requires Holds(heap, bi)
    ensures r.1 <==> Value(heap, bi) == other
    ensures TempOnly(heap, r.0, other)
    ensures other != 0 ==> r.0.values[heap.next] == other
  {
    var (heap', ord) := CmpI64(heap, bi, other);
    (heap', ord.IsEq())
  }

  function PartialCmpI64(heap: BigIntHeap, bi: BigUint, other: i64): (r: (BigIntHeap, Option<Ordering>))
    requires Holds(heap, bi)
    ensures r.1 == Some(CmpInt(Value(heap, bi), other))
    ensures TempOnly(heap, r.0, other)
    ensures other != 0 ==> r.0.values[heap.next] == other
  {
    var (heap', ord) := CmpI64(heap, bi, other);
    (heap', Some(ord))
  }

  function EqI32(heap: BigIntHeap, bi: BigUint, other: i32): (r: (BigIntHeap, bool))
    requires Holds(heap, bi)
    ensures r.1 <==> Value(heap, bi) == other
    ensures TempOnly(heap, r.0, other)
  {
    EqI64(heap, bi, I32AsI64(other))
  }

  function PartialCmpI32(heap: BigIntHeap, bi: BigUint, other: i32): (r: (BigIntHeap, Option<Ordering>))
    requires Holds(heap, bi)
    ensures r.1 == Some(CmpInt(Value(heap, bi), other))
    ensures TempOnly(heap, r.0, other)
  {
    PartialCmpI64(heap, bi, I32AsI64(other))
  }

  function EqU32(heap: BigIntHeap, bi: BigUint, other: u32): (r: (BigIntHeap, bool))
    requires Holds(heap, bi)
    ensures r.1 <==> Value(heap, bi) == other
    ensures TempOnly(heap, r.0, other)
  {
    EqI64(heap, bi, U32AsI64(other))
  }

  function PartialCmpU32(heap: BigIntHeap, bi: BigUint, other: u32): (r: (BigIntHeap, Option<Ordering>))
    requires Holds(heap, bi)
    ensures r.1 == Some(CmpInt(Value(heap, bi), other))
    ensures TempOnly(heap, r.0, other)
  {
    PartialCmpI64(heap, bi, U32AsI64(other))
  }

  /** `PartialEq<u64>` as written: operands of 2^63 and above wrap to a
      negative `i64`, which no `BigUint` equals; that wrapped value is what
      the temporary handle receives. */
  function EqU64(heap: BigIntHeap, bi: BigUint, other: u64): (r: (BigIntHeap, bool))
    requires Holds(heap, bi)
    ensures other < TWO_POW_63 ==> (r.1 <==> Value(heap, bi) == other)
    ensures other >= TWO_POW_63 ==> !r.1
    ensures TempOnly(heap, r.0, other)
    ensures 0 < other < TWO_POW_63 ==> r.0.values[heap.next] == other
    ensures other >= TWO_POW_63 ==> r.0.values[heap.next] == other - TWO_POW_64
  {
    EqI64(heap, bi, U64AsI64(other))
  }

  /** `PartialOrd<u64>` as written: operands of 2^63 and above wrap to a
      negative `i64`, below every `BigUint`. */
  function PartialCmpU64(heap: BigIntHeap, bi: BigUint, other: u64): (r: (BigIntHeap, Option<Ordering>))
    requires Holds(heap, bi)
    ensures other < TWO_POW_63 ==> r.1 == Some(CmpInt(Value(heap, bi), other))
    ensures other >= TWO_POW_63 ==> r.1 == Some(Greater)
    ensures TempOnly(heap, r.0, other)
    ensures 0 < other < TWO_POW_63 ==> r.0.values[heap.next] == other
    ensures other >= TWO_POW_63 ==> r.0.values[heap.next] == other - TWO_POW_64
  {
    PartialCmpI64(heap, bi, U64AsI64(other))
  }

  /** For every small-integer type, `eq` holds exactly when `partial_cmp`
      answers `Some(Equal)`, and both leave the same store behind. */
  lemma EqIffPartialCmpEqual(heap: BigIntHeap, bi: BigUint, a: i32, b: i64, c: u32, d: u64)
    requires Holds(heap, bi)
    ensures EqI32(heap, bi, a).1 <==> PartialCmpI32(heap, bi, a).1 == Some(Equal)
    ensures EqI64(heap, bi, b).1 <==> PartialCmpI64(heap, bi, b).1 == Some(Equal)
    ensures EqU32(heap, bi, c).1 <==> PartialCmpU32(heap, bi, c).1 == Some(Equal)
    ensures EqU64(heap, bi, d).1 <==> PartialCmpU64(heap, bi, d).1 == Some(Equal)
    ensures EqU64(heap, bi, d).0 == PartialCmpU64(heap, bi, d).0
  {
  }

  /** A `BigUint` holding `u64::MAX` is reported unequal to and greater than
      `u64::MAX`. */
  lemma U64MaxMiscompares()
    ensures var heap := BigIntHeap(map[0 := TWO_POW_64 - 1], 1);
            var bi := BigUint(0);
            && Holds(heap, bi)
            && Value(heap, bi) == TWO_POW_64 - 1
            && !EqU64(heap, bi, TWO_POW_64 - 1).1
            && PartialCmpU64(heap, bi, TWO_POW_64 - 1).1 == Some(Greater)
  {
    var heap := BigIntHeap(map[0 := TWO_POW_64 - 1], 1);
    assert Holds(heap, BigUint(0));
  }

  // The comparison with a `u64` the instances evidently intend: the operand
  // is stored with its exact value.

  function CmpU64Exact(heap: BigIntHeap, bi: BigUint, other: u64): (r: (BigIntHeap, Ordering))
    requires Holds(heap, bi)
    ensures r.1 == CmpInt(Value(heap, bi), other)
    ensures TempOnly(heap, r.0, other)
  {
    if other == 0 then
      CmpI64(heap, bi, 0)
    else
      var (heap1, h) := NextHandle(heap);
      var heap2 := BiSet(heap1, h, other);
      (heap2, BiCmp(heap2, bi.handle, h))
  }

  function EqU64Exact(heap: BigIntHeap, bi: BigUint, other: u64): (r: (BigIntHeap, bool))
    requires Holds(heap, bi)
    ensures r.1 <==> Value(heap, bi) == other
    ensures TempOnly(heap, r.0, other)
  {
    var (heap', ord) := CmpU64Exact(heap, bi, other);
    (heap', ord.IsEq())
  }

  function PartialCmpU64Exact(heap: BigIntHeap, bi: BigUint, other: u64): (r: (BigIntHeap, Option<Ordering>))
    requires Holds(heap, bi)
    ensures r.1 == Some(CmpInt(Value(heap, bi), other))
    ensures TempOnly(heap, r.0, other)
  {
    var (heap', ord) := CmpU64Exact(heap, bi, other);
    (heap', Some(ord))
  }

  /** Below 2^63, where the cast does not wrap, the exact comparison gives
      the same answer and the same store as the one as written; and the
      exact `eq` holds exactly when the exact `partial_cmp` answers
      `Some(Equal)`. */
  lemma U64ExactAgreesBelowWrap(heap: BigIntHeap, bi: BigUint, other: u64)
    requires Holds(heap, bi)
    ensures other < TWO_POW_63 ==> PartialCmpU64Exact(heap, bi, other) == PartialCmpU64(heap, bi, other)
    ensures EqU64Exact(heap, bi, other).1 <==> PartialCmpU64Exact(heap, bi, other).1 == Some(Equal)
  {
  }
}
