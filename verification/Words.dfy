/** Machine words as bounded integers: every wrap-around is written out. */
module Words {
  import opened Congruence

  const M32: int := 0x1_0000_0000
  const M64: int := 0x1_0000_0000_0000_0000

  type u8 = x: int | 0 <= x < 256
  type u32 = x: int | 0 <= x < 0x1_0000_0000
  type u64 = x: int | 0 <= x < 0x1_0000_0000_0000_0000

  function W32(x: int): u32 { x % M32 }
  /** Arithmetic on 32-bit words. */
  function Plus32(x: int, y: int): u32 { W32(x + y) }
  function Times32(x: int, y: int): u32 { W32(x * y) }
  function Minus32(x: int, y: int): u32 { W32(x - y) }
  /** Unary minus on a 32-bit word. */
  function Neg32(x: u32): u32 { W32(M32 - x) }
  function W64(x: int): u64 { x % M64 }

  /** The modulus is 2^32, or 2^64 for double words. */
  lemma WordsAre(x: int, y: int)
    ensures W32(x) == x % 0x1_0000_0000 && W64(x) == x % 0x1_0000_0000_0000_0000
    ensures Plus32(x, y) == (x + y) % 0x1_0000_0000 && Minus32(x, y) == (x - y) % 0x1_0000_0000
    ensures Times32(x, y) == x * y % 0x1_0000_0000
    ensures 0 <= x < 0x1_0000_0000 ==> Neg32(x) == -x % 0x1_0000_0000
  {
  }

  /** Words may be reduced before or after adding and subtracting. */
  lemma WAdd(x: int, y: int)
    ensures W32(W32(x) + W32(y)) == W32(W32(x) + y) == W32(x + W32(y)) == W32(x + y)
  {
    Wrap(x, y, M32);
  }

  lemma WSub(x: int, y: int)
    ensures W32(W32(x) - W32(y)) == W32(W32(x) - y) == W32(x - W32(y)) == W32(x - y)
  {
    Wrap(x, y, M32);
  }

  lemma WMultiple(x: int, k: int)
    ensures W32(x + M32 * k) == W32(x)
  {
    ModEq(x + M32 * k, x, M32, k);
  }

  lemma WordDifference(x: int, y: int)
    ensures W32(W32(x) + Neg32(W32(y))) == W32(x - y)
  {
  }

  /** The low word of a double word. */
  lemma LowWord(x: int)
    ensures W32(W64(x)) == W32(x)
  {
    assert x == M64 * (x / M64) + W64(x);
  }

  /** Random words: any value of their type. */
  method Random8() returns (r: u8)
  {
    var x: int := *;
    r := x % 0x100;
  }

  method Random32() returns (r: u32)
  {
    var x: int := *;
    r := W32(x);
  }

  method Random64() returns (r: u64)
  {
    var x: int := *;
    r := W64(x);
  }

  /** A random word below m. */
  method RandomBelow(m: u32) returns (r: u32)
    requires m > 0
    ensures r < m
  {
    var x := Random32();
    r := x % m;
  }
}
