/**
 The small part of Rust's `core` that the managed-type layer leans on:
 fixed-width integers and the `as` casts between them, `Option`,
 `cmp::Ordering`, and the outcome of an operation that may `panic!`.
 */
module RustCore {

  const TWO_POW_32: int := 0x1_0000_0000
  const TWO_POW_63: int := 0x8000_0000_0000_0000
  const TWO_POW_64: int := 0x1_0000_0000_0000_0000

  const I32_MAX: int := 0x7FFF_FFFF

  type u8 = x: int | 0 <= x < 0x100
  type i32 = x: int | -0x8000_0000 <= x < 0x8000_0000
  type u32 = x: int | 0 <= x < 0x1_0000_0000
  type i64 = x: int | -0x8000_0000_0000_0000 <= x < 0x8000_0000_0000_0000
  type u64 = x: int | 0 <= x < 0x1_0000_0000_0000_0000

  datatype Option<T> = None | Some(value: T)

  /** `core::cmp::Ordering`. */
  datatype Ordering = Less | Equal | Greater {
    predicate IsEq() {
      this == Equal
    }

    /** The ordering seen from the other operand. */
    function Reverse(): (r: Ordering)
      ensures r.IsEq() <==> IsEq()
      ensures this == Less <==> r == Greater
    {
      match this
      case Less => Greater
      case Equal => Equal
      case Greater => Less
    }
  }

  /** Result of an operation that either completes or aborts the invocation. */
  datatype Outcome<T> = Done(value: T) | Trap

  /** The total order on mathematical integers, the reference every
      registry comparison is measured against. */
  function CmpInt(a: int, b: int): (r: Ordering)
    ensures r == Less <==> a < b
    ensures r == Equal <==> a == b
    ensures r == Greater <==> a > b
  {
    if a < b then Less else if a == b then Equal else Greater
  }

  /** `x as i64` for an `i32`: sign extension keeps the value. */
  function I32AsI64(x: i32): (r: i64)
  {
    x
  }

  /** `x as i64` for a `u32`: zero extension keeps the value. */
  function U32AsI64(x: u32): (r: i64)
  {
    x
  }

  /** `x as i64` for a `u64`: the same 64 bits read as two's complement. */
  function U64AsI64(x: u64): (r: i64)
    ensures (x - r) % TWO_POW_64 == 0
    ensures x < TWO_POW_63 <==> r >= 0
  {
    if x < TWO_POW_63 then x else x - TWO_POW_64
  }

  /** `a.wrapping_add(b)` on `i32`, which is what `a + b` compiles to in a
      release build without overflow checks. */
  function WrappingAddI32(a: i32, b: i32): (r: i32)
    ensures (a + b - r) % TWO_POW_32 == 0
    ensures -0x8000_0000 <= a + b <= I32_MAX ==> r == a + b
  {
    var s := a + b;
    if s > I32_MAX then s - TWO_POW_32
    else if s < -0x8000_0000 then s + TWO_POW_32
    else s
  }
}
