/** Bitwise exclusive or on natural numbers, and 128-bit blocks of bytes read as numbers. */
module Blocks {
  import opened Bits

  function Xor(x: nat, y: nat): nat {
    if x == 0 then y
    else if y == 0 then x
    else BitXor(x % 2, y % 2) + 2 * Xor(x / 2, y / 2)
  }

  /** Bit by bit. */
  lemma {:induction false} XorIs(x: nat, y: nat, k: nat)
    ensures Shr(Xor(x, y), k) % 2 == (Shr(x, k) % 2 + Shr(y, k) % 2) % 2
    decreases k
  {
    XorHalf(x, y);
    if k != 0 {
      XorIs(x / 2, y / 2, k - 1);
    }
  }

  lemma {:induction false} XorComm(x: nat, y: nat)
    ensures Xor(x, y) == Xor(y, x)
  {
    if x != 0 && y != 0 {
      XorComm(x / 2, y / 2);
    }
  }

  lemma {:induction false} XorSelf(x: nat)
    ensures Xor(x, x) == 0
  {
    if x != 0 {
      XorSelf(x / 2);
    }
  }

  lemma XorHalf(x: nat, y: nat)
    ensures Xor(x, y) / 2 == Xor(x / 2, y / 2)
    ensures Xor(x, y) % 2 == BitXor(x % 2, y % 2)
  {
  }

  lemma {:induction false} XorAssoc(x: nat, y: nat, z: nat)
    ensures Xor(Xor(x, y), z) == Xor(x, Xor(y, z))
    decreases x + y + z
  {
    if x != 0 && y != 0 && z != 0 {
      XorAssoc(x / 2, y / 2, z / 2);
      XorHalf(x, y);
      XorHalf(y, z);
      XorHalf(Xor(x, y), z);
      XorHalf(x, Xor(y, z));
    }
  }

  lemma {:induction false} XorBound(x: nat, y: nat, n: nat)
    requires x < Pow2(n) && y < Pow2(n)
    ensures Xor(x, y) < Pow2(n)
    decreases n
  {
    if n != 0 {
      XorBound(x / 2, y / 2, n - 1);
      XorHalf(x, y);
    }
  }

  /** Both ways in which a correction word cancels a difference. */
  lemma XorCancels(x: nat, y: nat, c: nat)
    ensures Xor(x, c) == Xor(y, Xor(Xor(x, y), c))
    ensures Xor(x, Xor(Xor(x, y), c)) == Xor(y, c)
  {
    XorAssoc(x, y, c);
    XorAssoc(x, x, Xor(y, c));
    XorSelf(x);
    XorComm(x, y);
    XorAssoc(y, x, c);
    XorAssoc(y, y, Xor(x, c));
    XorSelf(y);
  }

  type Block = x: nat | x < 0x1_0000_0000_0000_0000_0000_0000_0000_0000

  function BlockXor(x: Block, y: Block): Block {
    Pow2Of128();
    XorBound(x, y, 128);
    Xor(x, y)
  }

  method RandomBlock() returns (r: Block)
  {
    var x: int := *;
    r := x % 0x1_0000_0000_0000_0000_0000_0000_0000_0000;
  }
}
