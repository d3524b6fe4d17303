/** The two-party point function with 32-bit output, and its full-domain evaluation over a
    heap-numbered array of seeds. */
module FssEq32 {
  import opened Bits
  import opened Congruence
  import opened Words
  import opened Blocks
  import opened FssCommon
  import opened KeyHeap
  import opened SeedRing
  import opened FssEq

  /** The first four bytes of a block, read big-endian. */
  function Head(s: Block): u32 {
    s / 0x1_0000_0000_0000_0000_0000_0000
  }

  /** The top 32 of a block's 128 bits. */
  lemma HeadIs(s: Block)
    ensures Head(s) * 0x1_0000_0000_0000_0000_0000_0000 <= s < (Head(s) + 1) * 0x1_0000_0000_0000_0000_0000_0000
  {
    DivMod(s, 0x1_0000_0000_0000_0000_0000_0000);
  }

  /** One party's share at index v: the leaf's first word, corrected under control bit 1. */
  function Eq32Share(prf: Prf, k: ServerKeyEq, n: nat, v: nat): u32
    requires 1 <= n && |k.tree.cw| == n - 1
  {
    var nd := NodeAt(prf, k.tree, n - 1, v);
    LeafWord(nd, k.w)
  }

  function LeafWord(nd: Node, w: int): u32 {
    W32(Head(nd.s) + W32(nd.t * W32(w)))
  }

  lemma Eq32ShareIs(prf: Prf, k: ServerKeyEq, n: nat, v: nat)
    requires 1 <= n && |k.tree.cw| == n - 1
    ensures var nd := NodeAt(prf, k.tree, n - 1, v);
            Eq32Share(prf, k, n, v)
            == (nd.s / 0x1_0000_0000_0000_0000_0000_0000 + (if nd.t == 1 then k.w else 0)) % 0x1_0000_0000
  {
    hide NodeAt;
    var nd := NodeAt(prf, k.tree, n - 1, v);
    assert nd.t * W32(k.w) == if nd.t == 1 then W32(k.w) else 0;
    Wrap(Head(nd.s), nd.t * W32(k.w), M32);
    Wrap(Head(nd.s), k.w, M32);
  }

  /** The correction that turns the gap of the two leaf words into b. */
  function Correction(h0: u32, h1: u32, t0: bit, b: u32): u64 {
    if h0 == h1 then 0
    else
      var diff := W64(b - h0 + h1);
      if t0 == 0 then W64(M64 - diff) else diff
  }

  ghost predicate Eq32Keys(prf: Prf, n: nat, a: nat, b: u32, k0: ServerKeyEq, k1: ServerKeyEq) {
    && TreeKeys(prf, n, a, k0.tree, k1.tree)
    && k0.w == k1.w
    && var n0, n1 := NodeAt(prf, k0.tree, n - 1, Low(a, n)), NodeAt(prf, k1.tree, n - 1, Low(a, n));
    k0.w == Correction(Head(n0.s), Head(n1.s), n0.t, b)
  }

  /** The two parties' leaf words on the path of a differ. */
  ghost predicate HeadsDiffer(prf: Prf, n: nat, a: nat, k0: ServerKeyEq, k1: ServerKeyEq)
    requires 1 <= n && |k0.tree.cw| == |k1.tree.cw| == n - 1
  {
    Head(NodeAt(prf, k0.tree, n - 1, Low(a, n)).s) != Head(NodeAt(prf, k1.tree, n - 1, Low(a, n)).s)
  }

  lemma HeadsDifferIs(prf: Prf, n: nat, a: nat, k0: ServerKeyEq, k1: ServerKeyEq)
    requires 1 <= n && |k0.tree.cw| == |k1.tree.cw| == n - 1
    ensures HeadsDiffer(prf, n, a, k0, k1)
        <==> NodeAt(prf, k0.tree, n - 1, Low(a, n)).s / 0x1_0000_0000_0000_0000_0000_0000
             != NodeAt(prf, k1.tree, n - 1, Low(a, n)).s / 0x1_0000_0000_0000_0000_0000_0000
  {
    hide NodeAt, Low;
  }

  lemma CorrectionWorks(h0: u32, h1: u32, t0: bit, t1: bit, b: u32)
    requires t0 != t1
    ensures var w := Correction(h0, h1, t0, b);
            W32(W32(h0 + W32(t0 * W32(w))) - W32(h1 + W32(t1 * W32(w)))) == b <==> h0 != h1 || b == 0
  {
    var w := Correction(h0, h1, t0, b);
    assert 0 * W32(w) == 0 && 1 * W32(w) == W32(w);
    if h0 != h1 {
      CorrectionWord(h0, h1, t0, b);
      if t0 == 1 {
        WordCancels(b, h0, h1);
      } else {
        WordCancels'(b, h0, h1);
      }
    }
  }

  lemma CorrectionWord(h0: u32, h1: u32, t0: bit, b: u32)
    requires h0 != h1
    ensures W32(Correction(h0, h1, t0, b)) == if t0 == 0 then W32(-(b - h0 + h1)) else W32(b - h0 + h1)
  {
    var d: int := b - h0 + h1;
    LowWord(d);
    LowWord(M64 - W64(d));
    assert W32(M64 - W64(d)) == W32(-d) by {
      assert M64 - W64(d) == -d + M32 * (M32 + M32 * (d / M64));
    }
    hide W32, W64;
  }

  lemma WordCancels(b: u32, h0: u32, h1: u32)
    ensures W32(W32(h0 + W32(W32(b - h0 + h1))) - W32(h1 + 0)) == b
  {
    WordIs(b);
    hide W32;
    var d: int := b - h0 + h1;
    WAdd(d, 0);
    WAdd(h0, d);
    WSub(h0 + d, h1 + 0);
  }

  lemma WordCancels'(b: u32, h0: u32, h1: u32)
    ensures W32(W32(h0 + 0) - W32(h1 + W32(W32(-(b - h0 + h1))))) == b
  {
    WordIs(b);
    hide W32;
    var d: int := -(b - h0 + h1);
    WAdd(d, 0);
    WAdd(h1, d);
    WSub(h0 + 0, h1 + d);
  }

  lemma WordIs(b: u32)
    ensures W32(b) == b
  {
  }

  /** At every index the shares differ by b if the index is a and by 0 otherwise, modulo 2^32;
      at a this holds exactly when the two leaves' seeds differ in their top 32 bits, or b is 0. */
  lemma Eq32Correct(prf: Prf, n: nat, a: nat, b: u32, k0: ServerKeyEq, k1: ServerKeyEq, v: nat)
    requires Eq32Keys(prf, n, a, b, k0, k1) && v < Pow2(n)
    ensures W32(Eq32Share(prf, k0, n, v) - Eq32Share(prf, k1, n, v)) == (if v == Low(a, n) then b else 0)
        <==> || v != Low(a, n) || b == 0
             || NodeAt(prf, k0.tree, n - 1, Low(a, n)).s / 0x1_0000_0000_0000_0000_0000_0000
                != NodeAt(prf, k1.tree, n - 1, Low(a, n)).s / 0x1_0000_0000_0000_0000_0000_0000
  {
    hide Low, Head, Correction, LevelAt, RootsOk;
    HeadsDifferIs(prf, n, a, k0, k1);
    EqOffPath(prf, n, a, k0.tree, k1.tree, v);
    LowSmall(v, n);
    var n0, n1 := NodeAt(prf, k0.tree, n - 1, v), NodeAt(prf, k1.tree, n - 1, v);
    if v == Low(a, n) {
      CorrectionWorks(Head(n0.s), Head(n1.s), n0.t, n1.t, b);
      hide W32;
    } else {
      assert Eq32Share(prf, k0, n, v) == Eq32Share(prf, k1, n, v);
    }
  }

  method GenerateTreeEq32(prf: Prf, n: nat, a_i: u64, b_i: u32) returns (k0: ServerKeyEq, k1: ServerKeyEq)
    requires 1 <= n <= 64
    ensures Eq32Keys(prf, n, a_i, b_i, k0, k1)
    ensures forall v: nat :: v < Pow2(n) ==>
              (W32(Eq32Share(prf, k0, n, v) - Eq32Share(prf, k1, n, v)) == (if v == Low(a_i, n) then b_i else 0)
               <==> || v != Low(a_i, n) || b_i == 0
                    || NodeAt(prf, k0.tree, n - 1, Low(a_i, n)).s / 0x1_0000_0000_0000_0000_0000_0000
                       != NodeAt(prf, k1.tree, n - 1, Low(a_i, n)).s / 0x1_0000_0000_0000_0000_0000_0000)
  {
    hide Low, Prefix, Head, LevelAt, RootsOk, W32;
    var t0, t1, key0, key1 := GenerateTree(prf, n, a_i);
    PrefixLast(a_i, n);
    var sInt0, sInt1 := Head(key0.s), Head(key1.s);
    var w := 0;
    if sInt0 != sInt1 {
      w := W64(b_i - sInt0 + sInt1);
      if key0.t == 0 {
        w := W64(M64 - w);
      }
    }
    hide W64;
    k0, k1 := ServerKeyEq(t0, w), ServerKeyEq(t1, w);
    forall v: nat | v < Pow2(n)
      ensures W32(Eq32Share(prf, k0, n, v) - Eq32Share(prf, k1, n, v)) == (if v == Low(a_i, n) then b_i else 0)
              <==> || v != Low(a_i, n) || b_i == 0
                   || NodeAt(prf, k0.tree, n - 1, Low(a_i, n)).s / 0x1_0000_0000_0000_0000_0000_0000
                      != NodeAt(prf, k1.tree, n - 1, Low(a_i, n)).s / 0x1_0000_0000_0000_0000_0000_0000
    {
      Eq32Correct(prf, n, a_i, b_i, k0, k1, v);
    }
  }

  /** One party's share at index x as the breadth-first evaluation over the ring computes it. */
  function RingShare(prf: Prf, k: ServerKeyEq, n: nat, x: nat): u32
    requires 2 <= n && |k.tree.cw| == n - 1 && x < Pow2(n)
  {
    LeafWord(RingNode(prf, k.tree, n, Pow2(n) - 2 + x), k.w)
  }

  /** Up to 29 bits that is the share of the tree. */
  lemma RingShareIs(prf: Prf, k: ServerKeyEq, n: nat, x: nat)
    requires 2 <= n <= 29 && |k.tree.cw| == n - 1 && x < Pow2(n)
    ensures RingShare(prf, k, n, x) == Eq32Share(prf, k, n, x)
  {
    hide LeafWord, RingNode, HeapNode, NodeAt, NothingLost;
    NothingLostIff(n);
    Pow2Step(n);
    RingNodeIs(prf, k.tree, n, Pow2(n) - 2 + x);
    RowOf(prf, k.tree, n - 1, x);
  }

  /** Control bits of the nodes numbered from, from+1, ... wait in the queue. */
  ghost predicate CtrlQueued(prf: Prf, k: TreeKey, n: nat, ctrl: seq<bit>, from: nat) {
    forall q :: 0 <= q < |ctrl| ==> CtrlAt(prf, k, n, ctrl[q], from + q)
  }

  ghost predicate CtrlAt(prf: Prf, k: TreeKey, n: nat, t: bit, h: nat) {
    |k.cw| == n - 1 && h + 3 <= 2 * Pow2(n) && t == RingNode(prf, k, n, h).t
  }

  ghost predicate SeedAt(prf: Prf, k: TreeKey, n: nat, s: Block, h: nat) {
    |k.cw| == n - 1 && h + 3 <= 2 * Pow2(n) && s == RingNode(prf, k, n, h).s
  }

  /** The entries up to last are in the ring, as far as no later one has taken their places. */
  ghost predicate InRing(prf: Prf, k: TreeKey, n: nat, sArray: seq<Block>, last: nat) {
    && last < |sArray|
    && forall q: nat :: q <= last < q + RING ==> SeedAt(prf, k, n, sArray[Slot(q)], q)
  }

  lemma CtrlStep(prf: Prf, k: TreeKey, n: nat, ctrl: seq<bit>, from: nat, t0: bit, t1: bit)
    requires CtrlQueued(prf, k, n, ctrl, from) && |ctrl| == from + 2
    requires CtrlAt(prf, k, n, t0, 2 * from + 2) && CtrlAt(prf, k, n, t1, 2 * from + 3)
    ensures CtrlQueued(prf, k, n, ctrl[1..] + [t0] + [t1], from + 1)
  {
    hide CtrlAt;
    var ctrl' := ctrl[1..] + [t0] + [t1];
    forall q | 0 <= q < |ctrl'|
      ensures CtrlAt(prf, k, n, ctrl'[q], from + 1 + q)
    {
      if q < from + 1 {
        assert CtrlAt(prf, k, n, ctrl[q + 1], from + (q + 1));
      }
    }
  }

  lemma CtrlPop(prf: Prf, k: TreeKey, n: nat, ctrl: seq<bit>, from: nat)
    requires CtrlQueued(prf, k, n, ctrl, from) && |ctrl| > 0
    ensures CtrlQueued(prf, k, n, ctrl[1..], from + 1)
  {
    hide CtrlAt;
    forall q | 0 <= q < |ctrl[1..]|
      ensures CtrlAt(prf, k, n, ctrl[1..][q], from + 1 + q)
    {
      assert CtrlAt(prf, k, n, ctrl[q + 1], from + (q + 1));
    }
  }

  /** Two more entries are written; the two that they displace are a ring behind. */
  lemma RingStep(prf: Prf, k: TreeKey, n: nat, sArray: seq<Block>, last: nat, s0: Block, s1: Block)
    requires InRing(prf, k, n, sArray, last) && last + 2 < |sArray|
    requires SeedAt(prf, k, n, s0, last + 1) && SeedAt(prf, k, n, s1, last + 2)
    ensures InRing(prf, k, n, sArray[Slot(last + 1) := s0][Slot(last + 2) := s1], last + 2)
  {
    hide SeedAt;
    SlotsApart(last + 1, last + 2);
    var sArray' := sArray[Slot(last + 1) := s0][Slot(last + 2) := s1];
    forall q: nat | q <= last + 2 < q + RING
      ensures SeedAt(prf, k, n, sArray'[Slot(q)], q)
    {
      if q <= last {
        SlotsApart(q, last + 1);
        SlotsApart(q, last + 2);
        assert SeedAt(prf, k, n, sArray[Slot(q)], q);
      }
    }
  }

  /** Where the evaluation stands when j nodes of row i-1 have been expanded. */
  ghost predicate RowOn(prf: Prf, n: nat, k: TreeKey, i: nat, j: nat, sArray: seq<Block>, ctrl: seq<bit>) {
    && 1 <= i < n && |k.cw| == n - 1 && j <= Pow2(i) && 2 <= Pow2(i) && Pow2(i + 1) == 2 * Pow2(i) <= Pow2(n)
    && (i < n - 1 ==> 4 * Pow2(i) <= Pow2(n)) && (i == n - 1 ==> 2 * Pow2(i) == Pow2(n))
    && var h := Pow2(i) - 2 + j;
    && CtrlQueued(prf, k, n, ctrl, h) && |sArray| == 2 * Pow2(n)
    && if i < n - 1 then |ctrl| == h + 2 && InRing(prf, k, n, sArray, 2 * h + 1)
       else |ctrl| == Pow2(i) - j && InRing(prf, k, n, sArray, Pow2(n) - 3)
  }

  /** The two children of the node whose turn it is: its seed is the ring's. */
  lemma RowChildren(prf: Prf, n: nat, k: TreeKey, i: nat, j: nat, sArray: seq<Block>, ctrl: seq<bit>)
    requires RowOn(prf, n, k, i, j, sArray, ctrl) && j < Pow2(i)
    ensures |ctrl| > 0 && |k.cw| == n - 1 && 1 <= i < n
    ensures var h := Pow2(i) - 2 + j;
            && 2 * h + 6 <= 2 * Pow2(n) && Slot(h) < |sArray| && (i == n - 1 ==> 2 * h + 2 == Pow2(n) - 2 + 2 * j)
            && var s := sArray[Slot(h)];
            && Child(prf(s), k.cw[i - 1], ctrl[0], 0) == RingNode(prf, k, n, 2 * h + 2)
            && Child(prf(s), k.cw[i - 1], ctrl[0], 1) == RingNode(prf, k, n, 2 * h + 3)
  {
    hide Child, Pow2, CtrlQueued, InRing, Holder, Slot, Depth, RingNode;
    var h := Pow2(i) - 2 + j;
    DepthOf(i - 1, j);
    CtrlFront(prf, k, n, ctrl, h);
    SeedFront(prf, k, n, sArray, h);
    RingParts(prf, k, n, h, 0);
    RingParts(prf, k, n, h, 1);
  }

  /** One node of the last row is done. */
  lemma RowLeaf(prf: Prf, n: nat, k: TreeKey, i: nat, j: nat, sArray: seq<Block>, ctrl: seq<bit>)
    requires RowOn(prf, n, k, i, j, sArray, ctrl) && j < Pow2(i) && i == n - 1
    ensures |ctrl| > 0 && RowOn(prf, n, k, i, j + 1, sArray, ctrl[1..])
  {
    hide Pow2, CtrlQueued, InRing;
    CtrlPop(prf, k, n, ctrl, Pow2(i) - 2 + j);
  }

  /** One node of an inner row is done, and its children are stored. */
  lemma RowInner(prf: Prf, n: nat, k: TreeKey, i: nat, j: nat, sArray: seq<Block>, ctrl: seq<bit>, c0: Node, c1: Node)
    requires RowOn(prf, n, k, i, j, sArray, ctrl) && j < Pow2(i) && i < n - 1
    requires var h := Pow2(i) - 2 + j;
             2 * h + 6 <= 2 * Pow2(n) && c0 == RingNode(prf, k, n, 2 * h + 2) && c1 == RingNode(prf, k, n, 2 * h + 3)
    ensures var h := Pow2(i) - 2 + j;
            && Slot(2 * h + 2) < |sArray| && Slot(2 * h + 3) < |sArray| && |ctrl| > 0
            && RowOn(prf, n, k, i, j + 1, sArray[Slot(2 * h + 2) := c0.s][Slot(2 * h + 3) := c1.s],
                     ctrl[1..] + [c0.t] + [c1.t])
  {
    hide Pow2, CtrlQueued, InRing, RingNode, Slot;
    var h := Pow2(i) - 2 + j;
    RingStep(prf, k, n, sArray, 2 * h + 1, c0.s, c1.s);
    CtrlStep(prf, k, n, ctrl, h, c0.t, c1.t);
  }

  /** The end of an inner row is the start of the next. */
  lemma RowNext(prf: Prf, n: nat, k: TreeKey, i: nat, sArray: seq<Block>, ctrl: seq<bit>)
    requires RowOn(prf, n, k, i, Pow2(i), sArray, ctrl) && i < n - 1
    ensures RowOn(prf, n, k, i + 1, 0, sArray, ctrl) && Pow2(i + 1) == 2 * Pow2(i)
  {
    hide Pow2, CtrlQueued, InRing;
    Pow2Step(i + 1);
    Pow2Monotone(i + 2, n);
    if i + 1 < n - 1 {
      Pow2Step(i + 2);
      Pow2Monotone(i + 3, n);
    }
  }

  lemma CtrlFront(prf: Prf, k: TreeKey, n: nat, ctrl: seq<bit>, from: nat)
    requires CtrlQueued(prf, k, n, ctrl, from) && |ctrl| > 0
    ensures CtrlAt(prf, k, n, ctrl[0], from)
  {
    assert CtrlAt(prf, k, n, ctrl[0], from + 0);
  }

  lemma SeedFront(prf: Prf, k: TreeKey, n: nat, sArray: seq<Block>, h: nat)
    requires h + 3 <= Pow2(n) && InRing(prf, k, n, sArray, LastWritten(n, h))
    ensures Slot(h) < |sArray| && SeedAt(prf, k, n, sArray[Slot(h)], Holder(n, h))
  {
    hide SeedAt, Slot, LastWritten;
    assert SeedAt(prf, k, n, sArray[Slot(Holder(n, h))], Holder(n, h));
  }

  lemma RingParts(prf: Prf, k: TreeKey, n: nat, h: nat, b: bit)
    requires |k.cw| == n - 1 && h + 3 <= Pow2(n)
    ensures Depth(h) < n - 1
    ensures RingNode(prf, k, n, 2 * h + 2 + b)
         == Child(prf(RingNode(prf, k, n, Holder(n, h)).s), k.cw[Depth(h)], RingNode(prf, k, n, h).t, b)
  {
    hide Child, Holder, Depth;
    DepthOfInner(n, h);
    assert (2 * h + 2 + b - 2) / 2 == h && (2 * h + 2 + b) % 2 == b;
  }

  /** The two leaves below one node of the last row, as far as lens allows. */
  method WriteLeaves(prf: Prf, n: nat, k: ServerKeyEq, j: nat, out: PrfOut, t: bit, kww: u32,
                     res: array<u32>, itr: nat, lens: nat) returns (itr': nat)
    requires 2 <= n && |k.tree.cw| == n - 1 && kww == W32(k.w) && 2 * j + 2 <= Pow2(n)
    requires Child(out, k.tree.cw[n - 2], t, 0) == RingNode(prf, k.tree, n, Pow2(n) - 2 + 2 * j)
    requires Child(out, k.tree.cw[n - 2], t, 1) == RingNode(prf, k.tree, n, Pow2(n) - 2 + (2 * j + 1))
    requires itr == 2 * j < lens <= res.Length
    modifies res
    ensures itr' == if itr + 2 <= lens then itr + 2 else lens
    ensures forall x :: itr <= x < itr' ==> res[x] == RingShare(prf, k, n, x)
    ensures forall x :: 0 <= x < itr || itr' <= x < res.Length ==> res[x] == old(res[x])
  {
    hide Child, Head, RingNode, W32, Pow2;
    itr' := itr;
    for ii := 0 to 2
      invariant itr' == itr + ii < lens
      invariant forall x :: itr <= x < itr' ==> res[x] == RingShare(prf, k, n, x)
      invariant forall x :: 0 <= x < itr || itr' <= x < res.Length ==> res[x] == old(res[x])
    {
      var c := Child(out, k.tree.cw[n - 2], t, ii);
      res[itr'] := W32(Head(c.s) + W32(c.t * kww));
      itr' := itr' + 1;
      if itr' >= lens {
        return;
      }
    }
  }

  /** Row i of the evaluation is reached: row n-1 is the last one, if there is one. */
  predicate RowReached(n: nat, i: nat) {
    1 <= i <= n && (1 <= n - 1 ==> i <= n - 1)
  }

  /** Row i reads level i-1 of the correction words, of which there are n-1: with 1 bit there are none. */
  lemma WordsThere(n: nat)
    requires 1 <= n
    ensures (forall i: nat :: RowReached(n, i) ==> i - 1 < n - 1) <==> 2 <= n
  {
    if n == 1 {
      assert RowReached(n, 1);
    }
  }

  /** One row: every node's seed is expanded, and its children are stored, or its two leaves are written. */
  method ExpandRow(prf: Prf, n: nat, k: ServerKeyEq, i: nat, tmpJ: u32, ptr: nat, sArray: array<Block>, ctrl: seq<bit>,
                   kww: u32, res: array<u32>, lens: u32) returns (ctrl': seq<bit>, itr: nat)
    requires RowOn(prf, n, k.tree, i, 0, sArray[..], ctrl) && ptr == Pow2(i) - 2 && tmpJ == Pow2(i) && kww == W32(k.w)
    requires 1 <= lens <= Pow2(n) && i <= n - 1 && (i == n - 1 ==> lens <= res.Length)
    modifies sArray, res
    ensures i < n - 1 ==> itr == 0 && RowOn(prf, n, k.tree, i, Pow2(i), sArray[..], ctrl')
    ensures i == n - 1 ==> itr == lens && forall x :: 0 <= x < itr ==> res[x] == RingShare(prf, k, n, x)
    ensures forall x :: itr <= x < res.Length ==> res[x] == old(res[x])
  {
    hide Child, Pow2, RowOn, RingShare, RingNode, Slot, W32;
    ctrl', itr := ctrl, 0;
    RowSizes(prf, n, k.tree, i, sArray[..], ctrl);
    for j := 0 to tmpJ
      invariant RowOn(prf, n, k.tree, i, j, sArray[..], ctrl')
      invariant if i < n - 1 then itr == 0 else itr == 2 * j < lens
      invariant forall x :: 0 <= x < itr ==> res[x] == RingShare(prf, k, n, x)
      invariant forall x :: itr <= x < res.Length ==> res[x] == old(res[x])
    {
      RowChildren(prf, n, k.tree, i, j, sArray[..], ctrl');
      var t := ctrl'[0];
      var out := prf(sArray[Slot(ptr + j)]);
      if i == n - 1 {
        RowLeaf(prf, n, k.tree, i, j, sArray[..], ctrl');
        ctrl' := ctrl'[1..];
        itr := WriteLeaves(prf, n, k, j, out, t, kww, res, itr, lens);
        if itr >= lens {
          return;
        }
      } else {
        var c0 := Child(out, k.tree.cw[i - 1], t, 0);
        var c1 := Child(out, k.tree.cw[i - 1], t, 1);
        RowInner(prf, n, k.tree, i, j, sArray[..], ctrl', c0, c1);
        StoreChildren(sArray, 2 * (ptr + j) + 2, c0.s, c1.s);
        ctrl' := ctrl'[1..] + [c0.t] + [c1.t];
      }
    }
  }

  lemma RowSizes(prf: Prf, n: nat, k: TreeKey, i: nat, sArray: seq<Block>, ctrl: seq<bit>)
    requires RowOn(prf, n, k, i, 0, sArray, ctrl)
    ensures 2 <= n && |k.cw| == n - 1 && 1 <= i < n && (i == n - 1 ==> 2 * Pow2(i) == Pow2(n))
  {
  }

  method StoreChildren(sArray: array<Block>, h: nat, s0: Block, s1: Block)
    requires Slot(h) < sArray.Length && Slot(h + 1) < sArray.Length
    modifies sArray
    ensures sArray[..] == old(sArray[..])[Slot(h) := s0][Slot(h + 1) := s1]
  {
    hide Slot;
    sArray[Slot(h)] := s0;
    sArray[Slot(h + 1)] := s1;
  }

  /** Writes the shares at 0, ..., lens-1 into res. From 33 bits on the 32-bit level counter is 0
      when the last row's turn comes, and nothing is written. */
  method EvaluateEq32(prf: Prf, n: nat, k: ServerKeyEq, res: array<u32>, lens: u32)
    requires 2 <= n <= 58 && |k.tree.cw| == n - 1
    requires 1 <= lens <= Pow2(n) && (n <= 32 ==> lens <= res.Length)
    modifies res
    ensures forall x :: 0 <= x < lens && x < res.Length ==> res[x] == if n <= 32 then RingShare(prf, k, n, x) else old(res[x])
    ensures forall x :: lens <= x < res.Length ==> res[x] == old(res[x])
  {
    hide Child, Pow2, RowOn, RingShare, RingNode, Slot;
    Pow2Monotone(2, n);
    SmallPowers();
    var sArray := new Block[2 * Pow2(n)];
    sArray[0], sArray[1] := k.tree.s.zero, k.tree.s.one;
    var tTmp: seq<bit> := [k.tree.t.zero, k.tree.t.one];
    RootsRow(prf, n, k.tree, sArray[..]);
    var kww := W32(k.w);
    var tmpJ: u32, itr, ptr := 1, 0, 0;
    for i := 1 to n + 1
      invariant i <= n - 1 || n >= 33
      invariant itr == 0 && tmpJ == if i <= 32 then Pow2(i - 1) else 0
      invariant i <= 31 ==> ptr == Pow2(i) - 2 && RowOn(prf, n, k.tree, i, 0, sArray[..], tTmp)
      invariant forall x :: 0 <= x < res.Length ==> res[x] == old(res[x])
    {
      LevelCount(i, tmpJ);
      tmpJ := W32(tmpJ * 2);
      if tmpJ > 0 {
        tTmp, itr := ExpandRow(prf, n, k, i, tmpJ, ptr, sArray, tTmp, kww, res, lens);
        if i == n - 1 {
          return;
        }
        RowNext(prf, n, k.tree, i, sArray[..], tTmp);
        ptr := ptr + tmpJ;
      }
    }
  }

  lemma SmallPowers()
    ensures Pow2(0) == 1 && Pow2(1) == 2 && Pow2(2) == 4
  {
  }

  lemma RootsRow(prf: Prf, n: nat, k: TreeKey, sArray: seq<Block>)
    requires 2 <= n && |k.cw| == n - 1 && |sArray| == 2 * Pow2(n)
    requires sArray[0] == k.s.zero && 4 <= Pow2(n) && sArray[1] == k.s.one
    ensures Pow2(0) == 1 && Pow2(1) == 2 && Pow2(2) == 4
    ensures RowOn(prf, n, k, 1, 0, sArray, [k.t.zero, k.t.one])
  {
    assert CtrlAt(prf, k, n, k.t.zero, 0) && CtrlAt(prf, k, n, k.t.one, 1);
    assert SeedAt(prf, k, n, sArray[Slot(0)], 0) && SeedAt(prf, k, n, sArray[Slot(1)], 1);
    if n > 2 {
      Pow2Monotone(3, n);
    }
  }
}
