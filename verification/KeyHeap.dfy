/** Breadth-first numbering of the nodes of a key tree: two roots, then level by level. */
module KeyHeap {
  import opened Bits
  import opened Words
  import opened FssCommon

  /** The depth of the node numbered h. */
  function Depth(h: nat): nat {
    if h < 2 then 0 else 1 + Depth((h - 2) / 2)
  }

  /** The node numbered h; its children are numbered 2h+2 and 2h+3. */
  function HeapNode(prf: Prf, k: TreeKey, h: nat): Node
    requires Depth(h) <= |k.cw|
  {
    if h < 2 then
      Node(k.s.At(h), k.t.At(h))
    else
      var p := HeapNode(prf, k, (h - 2) / 2);
      Child(prf(p.s), k.cw[Depth(h) - 1], p.t, h % 2)
  }

  lemma {:induction false} DepthOf(j: nat, v: nat)
    requires v < Pow2(j + 1)
    ensures Depth(Pow2(j + 1) - 2 + v) == j
    decreases j
  {
    if j == 0 {
      assert Pow2(1) == 2;
    } else {
      DepthOf(j - 1, v / 2);
      var h := Pow2(j + 1) - 2 + v;
      assert Pow2(j + 1) == 2 * Pow2(j);
      assert (h - 2) / 2 == Pow2(j) - 2 + v / 2;
    }
  }

  /** Row j of the numbering is the row of nodes at depth j, in the order of their paths. */
  lemma {:induction false} RowOf(prf: Prf, k: TreeKey, j: nat, v: nat)
    requires v < Pow2(j + 1) && j <= |k.cw|
    ensures Depth(Pow2(j + 1) - 2 + v) == j
    ensures HeapNode(prf, k, Pow2(j + 1) - 2 + v) == NodeAt(prf, k, j, v)
    decreases j
  {
    hide Child;
    DepthOf(j, v);
    assert Pow2(j + 1) == 2 * Pow2(j);
    if j == 0 {
      assert Pow2(0) == 1;
    } else {
      RowOf(prf, k, j - 1, v / 2);
      var h := Pow2(j + 1) - 2 + v;
      assert (h - 2) / 2 == Pow2(j) - 2 + v / 2;
      assert Pow2(j) == 2 * Pow2(j - 1);
      assert h % 2 == v % 2;
    }
  }

  lemma ChildOf(prf: Prf, k: TreeKey, h: nat, b: bit)
    requires Depth(h) < |k.cw|
    ensures Depth(2 * h + 2 + b) == Depth(h) + 1
    ensures HeapNode(prf, k, 2 * h + 2 + b)
         == Child(prf(HeapNode(prf, k, h).s), k.cw[Depth(h)], HeapNode(prf, k, h).t, b)
  {
    hide Child;
    assert (2 * h + 2 + b - 2) / 2 == h;
    assert (2 * h + 2 + b) % 2 == b;
  }

  /** Every number before the end of row j has depth at most j. */
  lemma {:induction false} DepthBound(h: nat, j: nat)
    requires h < Pow2(j + 2) - 2
    ensures Depth(h) <= j
    decreases j
  {
    if h >= 2 {
      assert Pow2(2) == 4;
      assert Pow2(j + 2) == 2 * Pow2(j + 1);
      DepthBound((h - 2) / 2, j - 1);
    }
  }

  /** The level counter is a 32-bit word. */
  lemma LevelCount(i: nat, tmpJ: u32)
    requires 1 <= i && tmpJ == if i <= 32 then Pow2(i - 1) else 0
    ensures W32(tmpJ * 2) == if i <= 31 then Pow2(i) else 0
  {
    hide Pow2;
    Pow2Step(i - 1);
    if i <= 31 {
      Pow2Bound(i);
    } else if i == 32 {
      Pow2Step(31);
      Pow2Of32();
    }
  }
}
