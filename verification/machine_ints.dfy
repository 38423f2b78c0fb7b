/** The fixed-width integer conversions of C++ that the engine relies on,
    written out over Dafny's unbounded integers. */
module MachineInts {

  const TWO_31: int := 0x8000_0000
  const TWO_32: int := 0x1_0000_0000

  /** `unsigned int` */
  type u32 = x: int | 0 <= x < 0x1_0000_0000

  /** `int` */
  type i32 = x: int | -0x8000_0000 <= x < 0x8000_0000

  predicate IsI32(x: int) {
    -TWO_31 <= x < TWO_31
  }

  /** Conversion of any integer to `unsigned int`: reduction modulo 2^32. */
  function ToU32(x: int): (r: u32)
    ensures (x - r) % TWO_32 == 0
    ensures 0 <= x < TWO_32 ==> r == x
  {
    x % TWO_32
  }

  /** Conversion of any integer to `int`: reduction modulo 2^32 into the
      two's-complement range. */
  function ToI32(x: int): (r: i32)
    ensures (x - r) % TWO_32 == 0
    ensures IsI32(x) ==> r == x
  {
    var u := x % TWO_32;
    if u < TWO_31 then u else u - TWO_32
  }

  /** `a - b` on two `unsigned int` operands. */
  function SubU32(a: u32, b: u32): (r: u32)
    ensures b <= a ==> r == a - b
    ensures a < b ==> r == a - b + TWO_32
  {
    ToU32(a - b)
  }

  /** An `unsigned int` converted to `int` and back is unchanged. */
  lemma U32RoundTrip(x: u32)
    ensures ToU32(ToI32(x)) == x
  {
  }

  /** A negative `int` seen as `unsigned int` is at least 2^31. */
  lemma NegativeAsUnsignedIsLarge(x: i32)
    requires x < 0
    ensures ToU32(x) == x + TWO_32
    ensures ToU32(x) >= TWO_31
  {
  }

  /** `static_cast<int>` of a floating value: truncation toward zero
      (Dafny's `Floor` rounds toward negative infinity). */
  function TruncToZero(r: real): (t: int)
    ensures 0.0 <= r ==> t as real <= r < t as real + 1.0
    ensures r < 0.0 ==> t as real - 1.0 < r <= t as real
  {
    if 0.0 <= r then r.Floor else -((-r).Floor)
  }
}
