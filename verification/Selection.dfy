/** Selecting one entry of a shared array with two lists of shares of an indicator. */
module Selection {
  import opened Bits
  import opened Congruence
  import opened Words
  import opened FssCommon
  import opened FssEq
  import opened FssEq32
  import opened RingLoss
  import opened SampleTrees
  import opened RamOffset

  /** The sum of data[i] * sel[i] over the first k positions, reduced modulo m at every step. */
  function DotMod(m: int, data: seq<int>, sel: seq<u32>, k: nat): int
    requires m > 0 && k <= |data| && k <= |sel|
  {
    if k == 0 then 0 else AddProduct(m, DotMod(m, data, sel, k - 1), data[k - 1], sel[k - 1])
  }

  function AddProduct(m: int, acc: int, v: int, s: int): int
    requires m > 0
  {
    (acc + v * s) % m
  }

  /** The two lists are shares of b at position x and of 0 elsewhere. */
  ghost predicate Selects(sel0: seq<u32>, sel1: seq<u32>, x: nat, b: u32) {
    && |sel0| == |sel1|
    && forall i :: 0 <= i < |sel0| ==> Minus32(sel0[i], sel1[i]) == if i == x then b else 0
  }

  lemma DotStep(m: int, c: int, d0: int, d1: int, e: int, v: int, s0: u32, s1: u32, hit: bit)
    requires m > 0 && m * c == M32
    requires Cong(d0 - d1, e, m) && Minus32(s0, s1) == hit
    ensures Cong(AddProduct(m, d0, v, s0) - AddProduct(m, d1, v, s1), e + (if hit == 1 then v else 0), m)
  {
    var q := (s0 - s1) / M32;
    assert s0 - s1 == hit + M32 * q;
    hide Cong;
    CongMod(d0 + v * s0, m);
    CongMod(d1 + v * s1, m);
    CongAdd((d0 + v * s0) % m, d0 + v * s0, (d1 + v * s1) % m, d1 + v * s1, m);
    Spread(v, s0, s1, hit, m, c, q);
    CongByMultiple(v * s0 - v * s1, v * hit, m, c * q * v);
    CongAdd(d0 - d1, e, v * s0 - v * s1, v * hit, m);
    CongTrans((d0 + v * s0) % m - (d1 + v * s1) % m, (d0 + v * s0) - (d1 + v * s1), e + v * hit, m);
    assert v * hit == if hit == 1 then v else 0;
  }

  lemma Spread(v: int, s0: int, s1: int, hit: int, m: int, c: int, q: int)
    requires s0 - s1 == hit + (m * c) * q
    ensures v * s0 - v * s1 == v * hit + m * (c * q * v)
  {
    assert v * s0 - v * s1 == v * (s0 - s1) == v * hit + v * ((m * c) * q);
    assert v * ((m * c) * q) == m * (c * q * v);
  }

  /** The two sums differ by data[x], for every modulus that divides 2^32. */
  lemma {:induction false} DotSelects(m: int, c: int, data: seq<int>, sel0: seq<u32>, sel1: seq<u32>, x: nat, k: nat)
    requires m > 0 && m * c == M32
    requires k <= |data| && k <= |sel0| && Selects(sel0, sel1, x, 1)
    ensures Cong(DotMod(m, data, sel0, k) - DotMod(m, data, sel1, k), if x < k then data[x] else 0, m)
    decreases k
  {
    if k == 0 {
      CongByMultiple(0, 0, m, 0);
    } else {
      hide Cong, AddProduct, W32;
      DotSelects(m, c, data, sel0, sel1, x, k - 1);
      assert Minus32(sel0[k - 1], sel1[k - 1]) == if k - 1 == x then 1 else 0;
      DotStep(m, c, DotMod(m, data, sel0, k - 1), DotMod(m, data, sel1, k - 1), if x < k - 1 then data[x] else 0,
              data[k - 1], sel0[k - 1], sel1[k - 1], if k - 1 == x then 1 else 0);
    }
  }

  /** A player's list of key shares, as the ring evaluates them, turned by the offset. */
  function Rotated(prf: Prf, n: nat, key: ServerKeyEq, off: u32, len: u32): (r: seq<u32>)
    requires 2 <= n && |key.tree.cw| == n - 1 && off < len <= Pow2(n)
    ensures |r| == len
  {
    seq(len, i requires 0 <= i < len => RingShare(prf, key, n, Sub(i, off, len)))
  }

  lemma RotatedAt(prf: Prf, n: nat, key: ServerKeyEq, off: u32, len: u32, i: nat)
    requires 2 <= n && |key.tree.cw| == n - 1 && off < len <= Pow2(n) && i < len
    ensures Sub(i, off, len) < len && Rotated(prf, n, key, off, len)[i] == RingShare(prf, key, n, Sub(i, off, len))
  {
    hide RingShare, Pow2;
  }

  /** Lists turned by x less the keys' point are shares of b at position x. */
  lemma RotatedSelects(prf: Prf, n: nat, k0: ServerKeyEq, k1: ServerKeyEq, point: nat, b: u32, x: nat, len: u32)
    requires Eq32Keys(prf, n, point, b, k0, k1) && HeadsDiffer(prf, n, point, k0, k1) && 2 <= n <= 29
    requires x < len && point < len <= Pow2(n)
    ensures Selects(Rotated(prf, n, k0, Diff(x, point, len), len), Rotated(prf, n, k1, Diff(x, point, len), len), x, b)
  {
    hide Eq32Share, RingShare, HeadsDiffer, Low, W32, LevelAt, RootsOk, Correction, NodeAt, Pow2, Sub;
    LowSmall(point, n);
    HeadsDifferIs(prf, n, point, k0, k1);
    var off := Diff(x, point, len);
    forall i | 0 <= i < len
      ensures Minus32(Rotated(prf, n, k0, off, len)[i], Rotated(prf, n, k1, off, len)[i]) == if i == x then b else 0
    {
      SubIs(i, off, len);
      RotatedAt(prf, n, k0, off, len, i);
      RotatedAt(prf, n, k1, off, len, i);
      var j := Sub(i, off, len);
      RingShareIs(prf, k0, n, j);
      RingShareIs(prf, k1, n, j);
      Eq32Correct(prf, n, point, b, k0, k1, j);
    }
  }

  /** Above 2^29 entries there are keys, without a collision, whose lists select nothing. */
  lemma LongListsFail(n: nat, b: u32, x: nat, len: u32) returns (k0: ServerKeyEq, k1: ServerKeyEq, point: nat)
    requires 30 <= n <= 64 && Pow2(n - 1) < len <= Pow2(n) && x < len
    ensures point < len && Eq32Keys(Repeat(), n, point, b, k0, k1) && HeadsDiffer(Repeat(), n, point, k0, k1)
    ensures !Selects(Rotated(Repeat(), n, k0, Diff(x, point, len), len), Rotated(Repeat(), n, k1, Diff(x, point, len), len), x, b)
  {
    hide *;
    k0, k1 := WrongAtPoint(n, b);
    point := Point(n);
    PointHere(n, b, k0, k1);
    NotSelected(n, b, k0, k1, x, len);
  }

  lemma PointHere(n: nat, b: u32, k0: ServerKeyEq, k1: ServerKeyEq)
    requires 2 <= n && Eq32Keys(Repeat(), n, Point(n), b, k0, k1)
    ensures Point(n) == Pow2(n - 1) - 1 && |k0.tree.cw| == |k1.tree.cw| == n - 1
  {
    hide LevelAt, RootsOk, NodeAt, Pow2;
  }

  lemma NotSelected(n: nat, b: u32, k0: ServerKeyEq, k1: ServerKeyEq, x: nat, len: u32)
    requires 2 <= n && |k0.tree.cw| == |k1.tree.cw| == n - 1 && Point(n) < len <= Pow2(n) && x < len
    requires W32(RingShare(Repeat(), k0, n, Point(n)) - RingShare(Repeat(), k1, n, Point(n))) != b
    ensures var off := Diff(x, Point(n), len);
            && 0 <= off < len
            && !Selects(Rotated(Repeat(), n, k0, off, len), Rotated(Repeat(), n, k1, off, len), x, b)
  {
    hide RingShare, W32, Pow2, Repeat, Sub, Point, Rotated;
    var off := Diff(x, Point(n), len);
    SubIs(x, off, len);
    RotatedAt(Repeat(), n, k0, off, len, x);
    RotatedAt(Repeat(), n, k1, off, len, x);
    assert Minus32(Rotated(Repeat(), n, k0, off, len)[x], Rotated(Repeat(), n, k1, off, len)[x]) != b;
  }
}
