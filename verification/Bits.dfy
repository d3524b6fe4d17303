/** Powers of two, single bits, and the bit prefixes that address the nodes of a key tree. */
module Bits {
  import opened Congruence

  type bit = b: int | 0 <= b < 2

  function Pow2(n: nat): (r: nat)
    ensures r >= 1
  {
    if n == 0 then 1 else 2 * Pow2(n - 1)
  }

  function BitXor(a: bit, b: bit): bit {
    if a == b then 0 else 1
  }

  lemma BitXorIs(a: bit, b: bit)
    ensures BitXor(a, b) == (a + b) % 2
  {
  }

  /** x shifted right by k places. */
  function Shr(x: nat, k: nat): nat
    decreases k
  {
    if k == 0 then x else Shr(x / 2, k - 1)
  }

  /** The number made of the low n bits of x. */
  function Low(x: nat, n: nat): nat
    decreases n
  {
    if n == 0 then 0 else x % 2 + 2 * Low(x / 2, n - 1)
  }

  /** The bit that `getBit` reads: position 1 is the top bit of a 64-bit word. */
  function GetBit(x: nat, pos: nat): bit
    requires 1 <= pos <= 64
  {
    Shr(x, 64 - pos) % 2
  }

  /** The top j+1 of the low n bits of x: the index of x's ancestor at depth j. */
  function Prefix(x: nat, n: nat, j: nat): nat
    requires j < n
  {
    Shr(Low(x, n), n - 1 - j)
  }

  lemma {:induction false} Pow2Add(m: nat, n: nat)
    ensures Pow2(m + n) == Pow2(m) * Pow2(n)
  {
    if m != 0 {
      Pow2Add(m - 1, n);
      assert Pow2(m + n) == 2 * Pow2(m - 1 + n);
    }
  }

  /** Shifting divides by the power of two. */
  lemma {:induction false} ShrIsDiv(x: nat, k: nat)
    ensures Shr(x, k) == x / Pow2(k)
    decreases k
  {
    if k != 0 {
      var d := Pow2(k - 1);
      ShrIsDiv(x / 2, k - 1);
      DivMod(x / 2, d);
      assert 2 * d * (x / 2 / d) == 2 * (d * (x / 2 / d));
      DivUnique(x, 2 * d, x / 2 / d, x % 2 + 2 * (x / 2 % d));
    }
  }

  lemma Pow2Step(n: nat)
    ensures Pow2(n + 1) == 2 * Pow2(n)
  {
  }

  lemma {:induction false} Pow2Monotone(m: nat, n: nat)
    requires m <= n
    ensures Pow2(m) <= Pow2(n)
    decreases n - m
  {
    if m < n {
      Pow2Monotone(m + 1, n);
      Pow2Step(m);
    }
  }

  lemma Pow2Of32()
    ensures Pow2(32) == 0x1_0000_0000
  {
    assert Pow2(8) == 0x100;
    Pow2Add(8, 8);
    Pow2Add(16, 16);
  }

  lemma Pow2Bound(n: nat)
    requires n <= 31
    ensures Pow2(n) < 0x1_0000_0000
  {
    Pow2Of32();
    Pow2Monotone(n, 31);
    Pow2Step(31);
  }

  lemma Pow2Of64()
    ensures Pow2(64) == 0x1_0000_0000_0000_0000
  {
    Pow2Of32();
    Pow2Add(32, 32);
  }

  lemma Pow2Of128()
    ensures Pow2(128) == 0x1_0000_0000_0000_0000_0000_0000_0000_0000
  {
    Pow2Of64();
    Pow2Add(64, 64);
  }

  lemma {:induction false} ShrStep(x: nat, k: nat)
    ensures Shr(x, k + 1) == Shr(x, k) / 2
    decreases k
  {
    if k != 0 {
      ShrStep(x / 2, k - 1);
    }
  }

  lemma {:induction false} ShrBound(x: nat, m: nat, k: nat)
    requires x < Pow2(m + k)
    ensures Shr(x, k) < Pow2(m)
    decreases k
  {
    if k != 0 {
      Pow2Step(m + k - 1);
      ShrBound(x / 2, m, k - 1);
    }
  }

  lemma {:induction false} LowBound(x: nat, n: nat)
    ensures Low(x, n) < Pow2(n)
    decreases n
  {
    if n != 0 {
      LowBound(x / 2, n - 1);
    }
  }

  lemma {:induction false} LowSmall(x: nat, n: nat)
    requires x < Pow2(n)
    ensures Low(x, n) == x
    decreases n
  {
    if n != 0 {
      LowSmall(x / 2, n - 1);
    }
  }

  /** Keeping the low n bits is reducing modulo 2^n. */
  lemma {:induction false} LowIsMod(x: nat, n: nat)
    ensures Low(x, n) == x % Pow2(n)
    decreases n
  {
    LowBound(x, n);
    var q := LowQuotient(x, n);
    DivUnique(x, Pow2(n), q, Low(x, n));
  }

  lemma {:induction false} LowQuotient(x: nat, n: nat) returns (q: nat)
    ensures x == Pow2(n) * q + Low(x, n)
    decreases n
  {
    if n == 0 {
      q := x;
    } else {
      q := LowQuotient(x / 2, n - 1);
      assert Pow2(n) * q == 2 * (Pow2(n - 1) * q);
    }
  }

  /** Dropping the bits above position n keeps every bit below it. */
  lemma {:induction false} LowKeepsBit(x: nat, n: nat, k: nat)
    requires k < n
    ensures Shr(Low(x, n), k) % 2 == Shr(x, k) % 2
    decreases k
  {
    if k != 0 {
      LowKeepsBit(x / 2, n - 1, k - 1);
    }
  }

  lemma PrefixBound(x: nat, n: nat, j: nat)
    requires j < n
    ensures Prefix(x, n, j) < Pow2(j + 1)
  {
    LowBound(x, n);
    ShrBound(Low(x, n), j + 1, n - 1 - j);
  }

  lemma PrefixFirst(x: nat, n: nat)
    requires 1 <= n <= 64
    ensures Prefix(x, n, 0) == GetBit(x, 64 - n + 1)
  {
    LowKeepsBit(x, n, n - 1);
    PrefixBound(x, n, 0);
    assert Pow2(1) == 2;
  }

  lemma PrefixStep(x: nat, n: nat, j: nat)
    requires j + 1 < n <= 64
    ensures Prefix(x, n, j + 1) / 2 == Prefix(x, n, j)
    ensures Prefix(x, n, j + 1) % 2 == GetBit(x, 64 - n + j + 2)
  {
    ShrStep(Low(x, n), n - 2 - j);
    LowKeepsBit(x, n, n - 2 - j);
  }

  lemma PrefixLast(x: nat, n: nat)
    requires 1 <= n
    ensures Prefix(x, n, n - 1) == Low(x, n)
  {
  }
}
