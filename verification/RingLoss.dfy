/** Why 30 bits are too many for the ring of seeds: keys that a generator may output, whose shares
    at their own point are wrong. */
module RingLoss {
  import opened Bits
  import opened Words
  import opened Blocks
  import opened FssCommon
  import opened SampleTrees
  import opened KeyHeap
  import opened SeedRing
  import opened FssEq
  import opened FssEq32

  /** A block whose first word is 1. */
  const MARK: Block := 0x1_0000_0000_0000_0000_0000_0000

  /** The numbers of the nodes on the path. */
  predicate OnPath(h: nat) {
    h == 0 || (h > 2 && h % 2 == 1 && OnPath((h - 2) / 2))
  }

  lemma {:induction false} PathNumber(h: nat) returns (j: nat)
    requires OnPath(h)
    ensures h == 3 * Pow2(j) - 3
  {
    Pow2Zero();
    hide Pow2;
    if h == 0 {
      j := 0;
    } else {
      j := PathNumber((h - 2) / 2);
      Pow2Step(j);
      j := j + 1;
    }
  }

  lemma {:induction false} NumberOnPath(j: nat)
    ensures OnPath(3 * Pow2(j) - 3)
  {
    if j != 0 {
      NumberOnPath(j - 1);
      Pow2Step(j - 1);
      assert (3 * Pow2(j) - 3 - 2) / 2 == 3 * Pow2(j - 1) - 3;
    }
  }

  lemma {:induction false} BlankRing(n: nat, h: nat)
    requires 1 <= n && h + 3 <= 2 * Pow2(n)
    ensures RingNode(Repeat(), Blank(n, MARK), n, h) == Node(0, 0)
    decreases h
  {
    hide Holder, Depth, Pow2;
    if h >= 2 {
      var p := (h - 2) / 2;
      DepthOfInner(n, p);
      BlankRing(n, p);
      BlankRing(n, Holder(n, p));
      ChildOfBlank(MARK, h % 2);
    }
  }

  /** Control bits are not kept in the ring: they mark the path to the end. */
  lemma {:induction false} MarkedBits(n: nat, h: nat)
    requires 1 <= n && h + 3 <= 2 * Pow2(n)
    ensures RingNode(Repeat(), Marked(n, MARK), n, h).t == if OnPath(h) then 1 else 0
    decreases h
  {
    hide Holder, Depth, Pow2;
    if h >= 2 {
      var p := (h - 2) / 2;
      DepthOfInner(n, p);
      MarkedBits(n, p);
      ChildOfAny(MARK, RingNode(Repeat(), Marked(n, MARK), n, Holder(n, p)).s, RingNode(Repeat(), Marked(n, MARK), n, p).t, h % 2);
    }
  }

  /** Late entries that may carry the mark: left children of the path, and the two that read one of them. */
  predicate Stray(h: nat) {
    (h >= 2 && h % 2 == 0 && OnPath((h - 2) / 2)) || h == 4 * RING - 6 || h == 4 * RING - 5
  }

  /** A power of two is small beside the ring, half of it, or a multiple of it. */
  lemma PowerSize(j: nat) returns (w: nat)
    ensures Pow2(j) <= RING / 4 || Pow2(j) == RING / 2 || Pow2(j) == RING * w
  {
    RingIsPow2();
    Pow2Step(27);
    Pow2Step(26);
    w := 0;
    if j >= 28 {
      Pow2Add(28, j - 28);
      w := Pow2(j - 28);
    } else if j <= 26 {
      Pow2Monotone(j, 26);
    }
  }

  /** A stray entry takes the place of one early entry only. */
  lemma StrayRead(p: nat, q: nat)
    requires p >= RING - 1 && q == p + RING * ((p + 1) / RING) && Stray(q)
    ensures p == 2 * RING - 4
  {
    var u, r := (p + 1) / RING, (p + 1) % RING;
    assert p + 1 == RING * u + r && q + 1 == 2 * RING * u + r;
    if q != 4 * RING - 6 && q != 4 * RING - 5 {
      hide OnPath, Stray, Pow2;
      var j := PathNumber((q - 2) / 2);
      var w := PowerSize(j);
      StrayIndex(u, r, Pow2(j), w);
    }
  }

  lemma StrayIndex(u: nat, r: nat, x: nat, w: nat)
    requires u >= 1 && r < RING && 2 * RING * u + r + 3 == 6 * x
    requires x <= RING / 4 || x == RING / 2 || x == RING * w
    ensures u == 1 && r == RING - 3
  {
    NoMultiple(3 * w - u, r);
  }

  lemma NoMultiple(k: int, r: nat)
    requires r < RING
    ensures 2 * RING * k != r + 3
  {
  }

  /** In the ring the mark is lost from entry 2^29 - 2 on, but for the strays. */
  lemma {:induction false} MarkLost(n: nat, h: nat)
    requires 30 <= n && h + 3 <= Pow2(n)
    ensures h < 2 * RING - 2 ==> RingNode(Repeat(), Marked(n, MARK), n, h).s == if OnPath(h) then MARK else 0
    ensures h >= 2 * RING - 2 && !Stray(h) ==> RingNode(Repeat(), Marked(n, MARK), n, h).s == 0
    decreases h
  {
    hide *;
    if h < 2 {
      MarkedRoots(n, h);
    } else {
      var p := (h - 2) / 2;
      var q := HolderIs(n, h);
      MarkedBits(n, p);
      MarkLost(n, q);
      MarkedChild(n, h);
      PathStep(h);
      if p >= RING - 1 && p != 2 * RING - 4 && Stray(q) {
        StrayRead(p, q);
      }
      Strays(h);
    }
  }

  lemma MarkedRoots(n: nat, h: nat)
    requires 1 <= n && h < 2 && h + 3 <= Pow2(n)
    ensures RingNode(Repeat(), Marked(n, MARK), n, h).s == if OnPath(h) then MARK else 0
    ensures h < 2 * RING - 2
  {
  }

  /** Where a node's parent is found in the ring. */
  lemma HolderIs(n: nat, h: nat) returns (q: nat)
    requires 1 <= n && 2 <= h && h + 3 <= Pow2(n)
    ensures var p := (h - 2) / 2;
            && p + 3 <= q + 3 <= Pow2(n) && q < h && q == Holder(n, p) == p + RING * ((p + 1) / RING)
            && (p < RING - 1 ==> q == p) && (p >= RING - 1 ==> q >= 2 * RING - 1)
  {
    Pow2Step(n - 1);
    hide Pow2;
    q := Holder(n, (h - 2) / 2);
    assert LastWritten(n, (h - 2) / 2) == 2 * ((h - 2) / 2) + 1;
  }

  lemma PathStep(h: nat)
    requires h >= 2
    ensures OnPath(h) <==> h % 2 == 1 && OnPath((h - 2) / 2)
    ensures !OnPath(RING - 2)
  {
  }

  lemma Strays(h: nat)
    requires h >= 2
    ensures Stray(h) <==> (h % 2 == 0 && OnPath((h - 2) / 2)) || h == 4 * RING - 6 || h == 4 * RING - 5
    ensures RING == 0x1000_0000
  {
  }

  lemma MarkedChild(n: nat, h: nat)
    requires 1 <= n && 2 <= h && h + 3 <= 2 * Pow2(n)
    ensures var p := (h - 2) / 2;
            var s, t := RingNode(Repeat(), Marked(n, MARK), n, Holder(n, p)).s, RingNode(Repeat(), Marked(n, MARK), n, p).t;
            && RingNode(Repeat(), Marked(n, MARK), n, h).s == (if t == 1 && h % 2 == 0 then BlockXor(s, MARK) else s)
    ensures BlockXor(MARK, MARK) == 0
  {
    hide Holder, Depth, Pow2;
    var p := (h - 2) / 2;
    DepthOfInner(n, p);
    XorWithZero(MARK);
    ChildOfAny(MARK, RingNode(Repeat(), Marked(n, MARK), n, Holder(n, p)).s, RingNode(Repeat(), Marked(n, MARK), n, p).t, h % 2);
  }

  /** The leaf of the point itself, in the ring: the control bit is there, the mark is gone. */
  lemma MarkedLeaf(n: nat)
    requires 30 <= n
    ensures 0 <= Pow2(n) - 2 && Pow2(n) - 2 + Point(n) + 3 <= 2 * Pow2(n)
    ensures RingNode(Repeat(), Marked(n, MARK), n, Pow2(n) - 2 + Point(n)) == Node(0, 1)
  {
    hide *;
    var h := LeafHolder(n);
    NumberOnPath(n - 1);
    MarkedBits(n, h);
    MarkLost(n, Pow2(n) - 3);
    PathStep(h);
    MarkedChild(n, h);
  }

  lemma LeafHolder(n: nat) returns (h: nat)
    requires 30 <= n
    ensures 0 <= Pow2(n) - 2 && h == Pow2(n) - 2 + Point(n) == 3 * Pow2(n - 1) - 3 && h >= 2 && h % 2 == 1 && h + 3 <= 2 * Pow2(n)
    ensures (h - 2) / 2 + 3 <= Pow2(n) && Holder(n, (h - 2) / 2) == Pow2(n) - 3
    ensures Pow2(n) - 3 >= 2 * RING - 2 >= 0 && !Stray(Pow2(n) - 3)
  {
    RingIsPow2();
    Pow2Add(28, n - 30);
    Pow2Step(n - 1);
    Pow2Step(n - 2);
    hide Pow2;
    h := Pow2(n) - 2 + Point(n);
    var w := Pow2(n - 30);
    assert Pow2(n) == 4 * (RING * w) && (h - 2) / 2 == 3 * (RING * w) - 3;
    assert LastWritten(n, (h - 2) / 2) == Pow2(n) - 3;
    assert (RING * w) / RING == w;
    Strays(Pow2(n) - 3);
  }

  /** Keys for the point whose leaf words differ, and which give b + 1 instead of b at the point. */
  lemma WrongAtPoint(n: nat, b: u32) returns (k0: ServerKeyEq, k1: ServerKeyEq)
    requires 30 <= n <= 64
    ensures Eq32Keys(Repeat(), n, Point(n), b, k0, k1) && HeadsDiffer(Repeat(), n, Point(n), k0, k1)
    ensures Low(Point(n), n) == Point(n) < Pow2(n)
    ensures W32(RingShare(Repeat(), k0, n, Point(n)) - RingShare(Repeat(), k1, n, Point(n))) == W32(b + 1) != b
  {
    hide *;
    var w := Correction(0, 1, 0, b);
    k0, k1 := ServerKeyEq(Blank(n, MARK), w), ServerKeyEq(Marked(n, MARK), w);
    TreesOk(n, MARK);
    PointPrefix(n, n - 1);
    BlankNode(n, MARK, n - 1, Point(n));
    MarkedNode(n, MARK, n - 1);
    PointKeysOk(n, b, k0, k1);
    MarkedLeaf(n);
    BlankRing(n, Pow2(n) - 2 + Point(n));
    CorrectionWord(0, 1, 0, b);
    WrongWord(b, w);
    RingShareOf(n, k0, Node(0, 0));
    RingShareOf(n, k1, Node(0, 1));
  }

  lemma PointKeysOk(n: nat, b: u32, k0: ServerKeyEq, k1: ServerKeyEq)
    requires 1 <= n <= 64 && k0.tree == Blank(n, MARK) && k1.tree == Marked(n, MARK) && k0.w == k1.w == Correction(0, 1, 0, b)
    requires TreeKeys(Repeat(), n, Point(n), Blank(n, MARK), Marked(n, MARK)) && Low(Point(n), n) == Point(n) == Pow2(n - 1) - 1
    requires NodeAt(Repeat(), Blank(n, MARK), n - 1, Point(n)) == Node(0, 0)
    requires NodeAt(Repeat(), Marked(n, MARK), n - 1, Pow2(n - 1) - 1) == Node(MARK, 1)
    ensures |k0.tree.cw| == |k1.tree.cw| == n - 1
    ensures Eq32Keys(Repeat(), n, Point(n), b, k0, k1) && HeadsDiffer(Repeat(), n, Point(n), k0, k1)
    ensures Point(n) < Pow2(n)
  {
    hide TreeKeys, NodeAt, Low, Repeat, Correction;
  }

  lemma RingShareOf(n: nat, k: ServerKeyEq, nd: Node)
    requires 2 <= n && |k.tree.cw| == n - 1 && Point(n) < Pow2(n) && nd.s == 0
    requires RingNode(Repeat(), k.tree, n, Pow2(n) - 2 + Point(n)) == nd
    ensures RingShare(Repeat(), k, n, Point(n)) == if nd.t == 1 then W32(k.w) else 0
  {
    hide RingNode, Pow2, Repeat;
  }

  lemma WrongWord(b: u32, w: int)
    requires W32(w) == W32(-(b - 0 + 1))
    ensures W32(0 - W32(w)) == W32(b + 1) != b
  {
  }

  /** The keys do what they are for, whatever the PRF and the randomness. */
  ghost predicate RingRight(n: nat)
    requires 2 <= n
  {
    forall prf: Prf, a: nat, b: u32, k0: ServerKeyEq, k1: ServerKeyEq, x: nat ::
      PointKeys(prf, n, a, b, k0, k1) && x < Pow2(n) ==> RightAt(prf, n, a, b, k0, k1, x)
  }

  /** Keys from the generator without a collision of the leaf words. */
  ghost predicate PointKeys(prf: Prf, n: nat, a: nat, b: u32, k0: ServerKeyEq, k1: ServerKeyEq) {
    Eq32Keys(prf, n, a, b, k0, k1) && HeadsDiffer(prf, n, a, k0, k1)
  }

  ghost predicate RightAt(prf: Prf, n: nat, a: nat, b: u32, k0: ServerKeyEq, k1: ServerKeyEq, x: nat)
    requires 2 <= n && PointKeys(prf, n, a, b, k0, k1) && x < Pow2(n)
  {
    W32(RingShare(prf, k0, n, x) - RingShare(prf, k1, n, x)) == if x == Low(a, n) then b else 0
  }

  lemma RingWrong(n: nat)
    requires 30 <= n <= 64
    ensures !RingRight(n)
  {
    var k0, k1 := WrongAtPoint(n, 1);
    hide Eq32Keys, HeadsDiffer, RingShare, W32, Low, Pow2, Repeat, Point;
    assert PointKeys(Repeat(), n, Point(n), 1, k0, k1);
    assert !RightAt(Repeat(), n, Point(n), 1, k0, k1, Point(n));
  }

  /** The full-domain evaluation gives shares of the point function exactly up to 29 bits. */
  lemma RingExact(n: nat)
    requires 2 <= n <= 64
    ensures RingRight(n) <==> n <= 29
  {
    hide RightAt, PointKeys;
    if n <= 29 {
      forall prf: Prf, a: nat, b: u32, k0: ServerKeyEq, k1: ServerKeyEq, x: nat
        | PointKeys(prf, n, a, b, k0, k1) && x < Pow2(n)
        ensures RightAt(prf, n, a, b, k0, k1, x)
      {
        RightUpTo29(prf, n, a, b, k0, k1, x);
      }
    } else {
      RingWrong(n);
    }
  }

  lemma RightUpTo29(prf: Prf, n: nat, a: nat, b: u32, k0: ServerKeyEq, k1: ServerKeyEq, x: nat)
    requires 2 <= n <= 29 && PointKeys(prf, n, a, b, k0, k1) && x < Pow2(n)
    ensures RightAt(prf, n, a, b, k0, k1, x)
  {
    hide RingShare, Eq32Share, Pow2, HeadsDiffer, LevelAt, RootsOk, W32, Correction, Low;
    RingShareIs(prf, k0, n, x);
    RingShareIs(prf, k1, n, x);
    HeadsDifferIs(prf, n, a, k0, k1);
    Eq32Correct(prf, n, a, b, k0, k1, x);
  }
}
