/** Fixed-width words and the serial-number comparison used for RTP timestamps. */
module Words {

  const M16 := 0x1_0000
  const M32 := 0x1_0000_0000
  const HALF32 := 0x8000_0000

  type byte = x: int | 0 <= x < 256
  type u16 = x: int | 0 <= x < M16
  type u32 = x: int | 0 <= x < M32

  /** Addition of a signed offset to a 32-bit unsigned word, with wrap-around. */
  function Add32(a: u32, d: int): u32 {
    (a + d) % M32
  }

  function Next16(a: u16): u16 {
    (a + 1) % M16
  }

  /** The serial comparison of two 32-bit timestamps. */
  predicate TsLess(a: u32, b: u32) {
    (a - b) % M32 > HALF32
  }

  /** The signed reading of a 32-bit difference. */
  function Signed32(x: u32): int {
    if x < HALF32 then x else x - M32
  }

  lemma Mod32Shift(x: int, k: int)
    ensures (x + k * M32) % M32 == x % M32
  {
  }

  /** Subtraction before and after reduction modulo 2^32 agree. */
  lemma SubMod32(a: int, b: int)
    ensures (a % M32 - b % M32) % M32 == (a - b) % M32
  {
    Mod32Shift(a - b, b / M32 - a / M32);
    assert a % M32 - b % M32 == a - b + (b / M32 - a / M32) * M32;
  }

  lemma AddMod32(a: int, d: int)
    ensures Add32(a % M32, d) == (a + d) % M32
  {
    Mod32Shift(a + d, -(a / M32));
    assert a % M32 + d == a + d + (-(a / M32)) * M32;
  }

  /** On unwrapped times less than half the range apart, the serial comparison is `<`. */
  lemma TsLessUnwrapped(a: int, b: int)
    requires -HALF32 < a - b <= HALF32
    ensures TsLess(a % M32, b % M32) <==> a < b
  {
    SubMod32(a, b);
    if a < b {
      Mod32Shift(a - b, 1);
    }
  }

  /** Unwrapped times that agree modulo 2^32 and lie less than the range apart are equal. */
  lemma EqualUnwrapped(a: int, b: int)
    requires -M32 < a - b < M32
    ensures a % M32 == b % M32 <==> a == b
  {
    SubMod32(a, b);
    if a % M32 == b % M32 && a < b {
      Mod32Shift(a - b, 1);
    }
  }
}
