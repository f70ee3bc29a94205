/** Integer and rounding behaviour of the C/C++ operations the firmware relies on:
    unsigned 16- and 32-bit wrap-around, division that truncates toward zero, and
    `round`, which rounds halves away from zero. */
module CArith {

  /** A value, or the absence of one where the firmware would fail. */
  datatype Option<T> = None | Some(value: T)

  /** `uint16_t` */
  type u16 = x: int | 0 <= x < 0x1_0000

  /** `uint32_t`, and `unsigned long` on the 32-bit target */
  type u32 = x: int | 0 <= x < 0x1_0000_0000

  /** Conversion of an int to `uint16_t`: the value modulo 2^16. */
  function ToU16(x: int): (r: u16)
    ensures 0 <= x < 0x1_0000 ==> r == x
    ensures (x - r) % 0x1_0000 == 0
  {
    x % 0x1_0000
  }

  /** Conversion of an int to a 32-bit unsigned value: the value modulo 2^32. */
  function ToU32(x: int): (r: u32)
    ensures 0 <= x < 0x1_0000_0000 ==> r == x
    ensures (x - r) % 0x1_0000_0000 == 0
  {
    x % 0x1_0000_0000
  }

  /** Conversion of an int to `int32_t` (`long` on the 32-bit target), two's
      complement: the value modulo 2^32, taken in [-2^31, 2^31). */
  function ToI32(x: int): (r: int)
    ensures -0x8000_0000 <= r < 0x8000_0000
    ensures -0x8000_0000 <= x < 0x8000_0000 ==> r == x
    ensures (x - r) % 0x1_0000_0000 == 0
  {
    (x + 0x8000_0000) % 0x1_0000_0000 - 0x8000_0000
  }

  /** C's `a / b` for a positive divisor: the quotient truncated toward zero. */
  function CDiv(a: int, b: int): (q: int)
    requires b > 0
    ensures a >= 0 ==> q * b <= a < q * b + b
    ensures a < 0 ==> q * b - b < a <= q * b
  {
    if a >= 0 then a / b else -((-a) / b)
  }

  /** C's `round` on a real: the nearest integer, halves away from zero. */
  function Round(x: real): (r: int)
    ensures x - 0.5 <= r as real <= x + 0.5
    ensures x >= 0.0 ==> r >= 0 && x - 0.5 < r as real
    ensures x < 0.0 ==> r <= 0 && (r as real) < x + 0.5
  {
    if x >= 0.0 then (x + 0.5).Floor else -((-x + 0.5).Floor)
  }

  /** A number congruent to y in [0, 2^32) has remainder y. */
  lemma RemainderOfCongruent(x: int, y: int)
    requires 0 <= y < 0x1_0000_0000 && (x - y) % 0x1_0000_0000 == 0
    ensures x % 0x1_0000_0000 == y
  {
    var k := (x - y) / 0x1_0000_0000;
    assert x == y + k * 0x1_0000_0000;
  }
}
