/** Java `int` arithmetic: 32-bit two's complement with silent wrap-around. */
module Int32 {

  const INT32_MIN: int := -0x8000_0000
  const INT32_MAX: int := 0x7FFF_FFFF
  const TWO_32: int := 0x1_0000_0000

  predicate IsInt32(x: int) {
    INT32_MIN <= x <= INT32_MAX
  }

  /** The Java `int` that an exact integer is reduced to (congruent modulo 2^32). */
  function Wrap(x: int): (r: int)
    ensures IsInt32(r)
    ensures IsInt32(x) ==> r == x
    ensures (x - r) % TWO_32 == 0
  {
    (x - INT32_MIN) % TWO_32 + INT32_MIN
  }

  /** Java `a + b` on two `int` values. */
  function Add(a: int, b: int): (r: int)
    ensures IsInt32(r)
    ensures IsInt32(a + b) ==> r == a + b
    ensures IsInt32(a) && IsInt32(b) && a + b > INT32_MAX ==> r == a + b - TWO_32
  {
    Wrap(a + b)
  }
}
