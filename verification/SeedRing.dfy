/** The array of seeds behind the breadth-first evaluation. Byte offsets are 32-bit words, so the
    array is a ring of 2^28 seeds, and a late seed takes the place of an early one. */
module SeedRing {
  import opened Bits
  import opened Congruence
  import opened Words
  import opened FssCommon
  import opened KeyHeap

  const RING: nat := 0x1000_0000

  /** The 16-byte place that the 32-bit byte offset of entry h addresses. */
  function Slot(h: nat): (s: nat)
    ensures s == h % RING && s <= h
  {
    W32(16 * h) / 16
  }

  lemma RingIsPow2()
    ensures Pow2(28) == RING
  {
    assert Pow2(14) == 0x4000;
    Pow2Add(14, 14);
  }

  /** Entries less than a ring apart have places of their own. */
  lemma SlotsApart(q: nat, h: nat)
    requires q < h < q + RING
    ensures Slot(q) != Slot(h)
  {
  }

  /** The last entry written when entry h is expanded: its predecessors' children, or the end of
      the last row, whose nodes have leaves below them. */
  function LastWritten(n: nat, h: nat): (r: nat)
    requires h + 3 <= Pow2(n)
    ensures h <= r <= 2 * h + 1 && r + 3 <= Pow2(n)
  {
    if 2 * h + 4 <= Pow2(n) then 2 * h + 1 else Pow2(n) - 3
  }

  /** The entry whose seed is found at h's place when h is expanded. */
  function Holder(n: nat, h: nat): (q: nat)
    requires h + 3 <= Pow2(n)
    ensures h <= q <= LastWritten(n, h) < q + RING && Slot(q) == Slot(h)
  {
    InSlot(h, LastWritten(n, h));
    h + RING * ((LastWritten(n, h) - h) / RING)
  }

  /** The last number up to `last` that shares h's place. */
  lemma InSlot(h: nat, last: nat)
    requires h <= last
    ensures var q := h + RING * ((last - h) / RING); h <= q <= last < q + RING && q % RING == h % RING
  {
    DivMod(last - h, RING);
    ModEq(h + RING * ((last - h) / RING), h, RING, (last - h) / RING);
  }

  /** Node h as the ring evaluates it: seeds come from the ring, control bits from the queue. */
  function RingNode(prf: Prf, k: TreeKey, n: nat, h: nat): Node
    requires |k.cw| == n - 1 && h + 3 <= 2 * Pow2(n)
  {
    if h < 2 then
      Node(k.s.At(h), k.t.At(h))
    else
      var p := (h - 2) / 2;
      DepthOfInner(n, p);
      Child(prf(RingNode(prf, k, n, Holder(n, p)).s), k.cw[Depth(p)], RingNode(prf, k, n, p).t, h % 2)
  }

  lemma DepthOfInner(n: nat, p: nat)
    requires n >= 1 && p + 3 <= Pow2(n)
    ensures Depth(p) < n - 1
  {
    if n > 1 {
      DepthBound(p, n - 2);
    }
  }

  /** No entry is expanded after another one has taken its place. */
  ghost predicate NothingLost(n: nat) {
    forall h: nat :: h + 3 <= Pow2(n) ==> Holder(n, h) == h
  }

  /** The ring is large enough exactly up to 29 bits. */
  lemma NothingLostIff(n: nat)
    ensures NothingLost(n) <==> n <= 29
  {
    RingIsPow2();
    Pow2Step(28);
    if n <= 29 {
      Pow2Monotone(n, 29);
    } else {
      Pow2Monotone(30, n);
      Pow2Step(29);
      assert Holder(n, RING - 1) == 2 * RING - 1;
    }
  }

  /** Then the ring evaluates the tree. */
  lemma {:induction false} RingNodeIs(prf: Prf, k: TreeKey, n: nat, h: nat)
    requires |k.cw| == n - 1 && h + 3 <= 2 * Pow2(n) && NothingLost(n)
    ensures Depth(h) <= n - 1 && RingNode(prf, k, n, h) == HeapNode(prf, k, h)
    decreases h
  {
    hide Child;
    if h >= 2 {
      var p := (h - 2) / 2;
      DepthOfInner(n, p);
      assert Holder(n, p) == p;
      RingNodeIs(prf, k, n, p);
    }
  }
}
