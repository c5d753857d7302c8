/** Unsigned 32-bit arithmetic as the WGSL shading language defines it for `u32`:
    addition, subtraction and multiplication wrap around modulo 2^32. */
module U32 {

  const MODULUS: int := 0x1_0000_0000

  type u32 = x: int | 0 <= x < MODULUS

  /** `a + b` on u32: the mathematical sum, less 2^32 when it overflows. */
  function Add(a: u32, b: u32): (r: u32)
    ensures a + b < MODULUS ==> r == a + b
    ensures a + b >= MODULUS ==> r == a + b - MODULUS
  {
    (a + b) % MODULUS
  }

  /** `a - b` on u32: the mathematical difference, plus 2^32 when it underflows. */
  function Sub(a: u32, b: u32): (r: u32)
    ensures a >= b ==> r == a - b
    ensures a < b ==> r == a - b + MODULUS
  {
    (a - b) % MODULUS
  }

  /** `a * b` on u32: the product reduced modulo 2^32; exact when it fits. */
  function Mul(a: u32, b: u32): (r: u32)
    ensures a * b < MODULUS ==> r == a * b
  {
    var p := a * b;
    assert 0 <= p by { MulNonNegative(a, b); }
    p % MODULUS
  }

  lemma MulNonNegative(a: nat, b: nat)
    ensures 0 <= a * b
  {
  }
}
