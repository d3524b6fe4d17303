/** The rotation offset that the players rebuild from wrapped index shares. */
module RamOffset {
  import opened Congruence
  import opened Words
  import opened WordModuli

  const HALF: int := 0x8000_0000

  /** Subtraction with one correction by c, on 32-bit words. */
  function Sub(a: u32, b: u32, c: u32): u32 {
    if a >= b then a - b else W32(a + c - b)
  }

  /** The difference of two numbers below len, brought back below len. */
  function Diff(x: int, y: int, len: int): int {
    if x >= y then x - y else x - y + len
  }

  /** One of the integers that differ from base by -1, 0, 1 or 2 times len. */
  predicate Near(d: int, base: int, len: int) {
    d == base - len || d == base || d == base + len || d == base + len + len
  }

  lemma SubIs(a: u32, b: u32, c: u32)
    requires b <= c
    ensures Sub(a, b, c) == a - b || Sub(a, b, c) == a - b + c
    ensures a < c ==> Sub(a, b, c) == Diff(a, b, c)
  {
  }

  lemma NearReduces(d: int, base: int, len: int)
    requires len >= 1 && 0 < base + len && base < len && Near(d, base, len) && d >= 0
    ensures d % len == if base >= 0 then base else base + len
  {
    var r := if base >= 0 then base else base + len;
    if d == r {
      DivUnique(d, len, 0, r);
    } else if d == r + len {
      DivUnique(d, len, 1, r);
    } else {
      assert d == r + 2 * len;
      DivUnique(d, len, 2, r);
    }
  }

  lemma WordOf(e: int)
    requires -HALF < e < HALF
    ensures W32(e) <= HALF <==> e >= 0
    ensures e >= 0 ==> W32(e) == e
  {
  }

  /** A word in the upper half stands for a negative number; adding len keeps what it stands for. */
  lemma RewindStep(e: int, base: int, len: u32)
    requires 1 <= len && 3 * len < HALF && 0 < base + len && base < len && Near(e, base, len) && W32(e) > HALF
    ensures e < 0 && Near(e + len, base, len) && W32(W32(e) + len) == W32(e + len)
  {
    WordOf(e);
  }

  /** The sum z of index shares stands for the index x: exactly as a word or, when len divides 2^32,
      modulo len. */
  ghost predicate StandsFor(z: int, x: nat, len: nat) {
    W32(z) == x || (WordModulus(len) && Cong(z, x, len))
  }

  /** A revealed word stands for the difference base: it is the word of an integer d near base, or
      len divides 2^32 and it is base modulo len. */
  ghost predicate Opens(word: u32, d: int, base: int, len: u32) {
    (Near(d, base, len) && word == W32(d)) || (WordModulus(len) && Cong(word, base, len))
  }

  /** The loop that undoes the wrap-around: a revealed word in the upper half is pushed past 2^32,
      then reduced. The result is x - y modulo len. */
  method Rewind(word: u32, len: u32, ghost d: int, ghost x: nat, ghost y: nat) returns (r: u32)
    requires 1 <= len && 3 * len < HALF && x < len && y < len
    requires Opens(word, d, x - y, len)
    ensures r == Diff(x, y, len)
  {
    hide W32, Near, WordModulus, Cong;
    r := word;
    ghost var e := d;
    while r > HALF
      invariant Opens(r, e, x - y, len)
      decreases if r > HALF then M32 - r else 0
    {
      OpensStep(r, e, x - y, len);
      r := W32(r + len);
      e := e + len;
    }
    OpensEnd(r, e, x, y, len);
    r := r % len;
  }

  lemma OpensStep(r: u32, e: int, base: int, len: u32)
    requires 1 <= len && 3 * len < HALF && 0 < base + len && base < len && Opens(r, e, base, len) && r > HALF
    ensures Opens(W32(r + len), e + len, base, len)
    ensures W32(r + len) == r + len || W32(r + len) <= HALF
  {
    if Near(e, base, len) && r == W32(e) {
      RewindStep(e, base, len);
    } else {
      hide W32;
      WordCong(r + len, len);
      CongByMultiple(r + len, r, len, 1);
      CongTrans(W32(r + len), r + len, r, len);
      CongTrans(W32(r + len), r, base, len);
    }
  }

  lemma OpensEnd(r: u32, e: int, x: nat, y: nat, len: u32)
    requires 1 <= len && 3 * len < HALF && x < len && y < len && Opens(r, e, x - y, len) && r <= HALF
    ensures r % len == Diff(x, y, len)
  {
    if Near(e, x - y, len) && r == W32(e) {
      WordOf(e);
      hide W32;
      NearReduces(e, x - y, len);
    } else {
      CongByMultiple(Diff(x, y, len), x - y, len, if x >= y then 0 else 1);
      CongMod(r, len);
      CongTrans(r % len, r, x - y, len);
      CongTrans(r % len, x - y, Diff(x, y, len), len);
      CongSmall(r % len, Diff(x, y, len), len);
    }
  }

  /** Two index shares, each taken less its share of y, add up to a word that stands for x - y; so
      they do when rest, the shares of two more players, is added as it is. */
  lemma SharesOpen(i0: u32, i1: u32, rest: nat, y0: u32, y1: u32, x: nat, y: nat, len: u32) returns (d: int)
    requires 1 <= len && x < len && y < len && y0 < len && y1 < len && 3 * len < HALF
    requires StandsFor(i0 + i1 + rest, x, len) && (y0 + y1 == y || y0 + y1 == y + len)
    ensures Opens(W32(Sub(i0, y0, len) + Sub(i1, y1, len) + rest), d, x - y, len)
  {
    SubIs(i0, y0, len);
    SubIs(i1, y1, len);
    var s := Sub(i0, y0, len) + Sub(i1, y1, len) + rest;
    var c := Sub(i0, y0, len) - (i0 - y0) + Sub(i1, y1, len) - (i1 - y1);
    d := x - (y0 + y1) + c;
    assert s == (i0 + i1 + rest) - (y0 + y1) + c;
    hide Sub;
    if W32(i0 + i1 + rest) != x {
      SharesCong(i0 + i1 + rest, s, x, y, (i0 + i1 + rest) - s - y, len);
    } else {
      assert W32(s) == W32(d);
    }
  }

  lemma SharesCong(z: int, s: int, x: int, y: int, k: int, len: u32)
    requires 1 <= len && WordModulus(len) && Cong(z, x, len) && s == z - y - k
    requires k == 0 || k == len || k == -(len as int) || k == -2 * (len as int)
    ensures Cong(W32(s), x - y, len)
  {
    hide Cong, W32;
    WordCong(s, len);
    hide WordModulus;
    CongByMultiple(s, z - y, len, if k == 0 then 0 else if k == len then -1 else if k == -(len as int) then 1 else 2);
    CongByMultiple(y, y, len, 0);
    CongAdd(z, x, y, y, len);
    CongTrans(W32(s), s, z - y, len);
    CongTrans(W32(s), z - y, x - y, len);
  }
}
