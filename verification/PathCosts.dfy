/** The complete-tree evaluator's path costs: every wrong turn on the way to a leaf costs that node's
    random word. */
module PathCosts {
  import opened Bits
  import opened Words
  import opened Gate
  import opened Operations

  /** In the heap order, node j > 0 hangs below this node, on the left if j is odd. */
  function Parent(j: nat): (i: nat)
    requires j > 0
    ensures i < j && (j == 2 * i + 1 || j == 2 * i + 2) && (j == 2 * i + 1 <==> j % 2 == 1)
  {
    (j - 1) / 2
  }

  /** j's turn at its parent agrees with the decision there: b holds where the left is right. */
  predicate Agrees(b: seq<bool>, j: nat)
    requires 0 < j <= 2 * |b|
  {
    b[Parent(j)] == (j % 2 == 1)
  }

  /** The nodes at which the way to j turns wrong. */
  function Wrong(b: seq<bool>, j: nat): (w: seq<nat>)
    requires j <= 2 * |b|
    ensures forall k :: 0 <= k < |w| ==> w[k] < |b|
    decreases j
  {
    if j == 0 then [] else Wrong(b, Parent(j)) + if Agrees(b, j) then [] else [Parent(j)]
  }

  /** The random words at some nodes, added up. */
  function SumAt(r: seq<u32>, w: seq<nat>): u32
    requires forall k :: 0 <= k < |w| ==> w[k] < |r|
  {
    if w == [] then 0 else Plus32(SumAt(r, w[..|w| - 1]), r[w[|w| - 1]])
  }

  /** One party's costs at the two children of a node: its share of the wrong turn's price. */
  function E0(idex: bit, bs: u32, r: u32): u32 {
    Times32(Minus32(1 - idex, bs), r)
  }

  function E1(bs: u32, r: u32): u32 {
    Times32(bs, r)
  }

  function CostShare(idex: bit, bs: seq<u32>, r: seq<u32>, j: nat): u32
    requires |bs| == |r| && j <= 2 * |bs|
    decreases j
  {
    if j == 0 then 0
    else
      var i := Parent(j);
      Plus32(0, Plus32(CostShare(idex, bs, r, i), if j % 2 == 1 then E0(idex, bs[i], r[i]) else E1(bs[i], r[i])))
  }

  /** One party's pass over the inner nodes, filling in the costs of their children. */
  method FillCosts(idex: bit, bs: seq<u32>, r: seq<u32>) returns (c: array<u32>)
    requires |bs| == |r|
    ensures fresh(c) && c.Length == 2 * |bs| + 1
    ensures forall j :: 0 <= j < c.Length ==> c[j] == CostShare(idex, bs, r, j)
  {
    hide E0, E1, Plus32, CostShare, Parent;
    CostAtRoot(idex, bs, r);
    var n := |bs|;
    c := new u32[2 * n + 1](_ => 0);
    for i := 0 to n
      invariant forall j :: 0 <= j <= 2 * i ==> c[j] == CostShare(idex, bs, r, j)
      invariant forall j :: 2 * i < j < c.Length ==> c[j] == 0
    {
      var e0, e1 := E0(idex, bs[i], r[i]), E1(bs[i], r[i]);
      CostBelow(idex, bs, r, i);
      c[2 * i + 1] := Plus32(c[2 * i + 1], Plus32(c[i], e0));
      c[2 * i + 2] := Plus32(c[2 * i + 2], Plus32(c[i], e1));
    }
  }

  lemma CostAtRoot(idex: bit, bs: seq<u32>, r: seq<u32>)
    requires |bs| == |r|
    ensures CostShare(idex, bs, r, 0) == 0
  {
  }

  lemma CostBelow(idex: bit, bs: seq<u32>, r: seq<u32>, i: nat)
    requires |bs| == |r| && i < |bs|
    ensures CostShare(idex, bs, r, 2 * i + 1) == Plus32(0, Plus32(CostShare(idex, bs, r, i), E0(idex, bs[i], r[i])))
    ensures CostShare(idex, bs, r, 2 * i + 2) == Plus32(0, Plus32(CostShare(idex, bs, r, i), E1(bs[i], r[i])))
  {
    hide E0, E1, Plus32;
    assert Parent(2 * i + 1) == i && Parent(2 * i + 2) == i;
  }

  ghost predicate DecisionShares(b: seq<bool>, bs0: seq<u32>, bs1: seq<u32>) {
    && |bs0| == |bs1| == |b|
    && forall i :: 0 <= i < |b| ==> Plus32(bs0[i], bs1[i]) == Ind(b[i])
  }

  /** The two parties' prices at one node. */
  lemma Prices(b0: u32, b1: u32, r: u32, e: bit)
    requires Plus32(b0, b1) == e
    ensures Plus32(E0(0, b0, r), E0(1, b1, r)) == if e == 1 then 0 else r
    ensures Plus32(E1(b0, r), E1(b1, r)) == if e == 1 then r else 0
  {
    hide W32;
    WMul(1 - b0, r);
    WMul(0 - b1, r);
    WSum((1 - b0) * r, (0 - b1) * r, 0, 0);
    WSum(b0 * r, b1 * r, 0, 0);
    PriceIdentity(b0, b1, r);
    WMul(b0 + b1, r);
    WSub(1, b0 + b1);
    WMul(1 - (b0 + b1), r);
    WMul(1 - e, r);
    WSmall(r);
    WSmall(0);
    if e == 1 {
      assert (1 - e) * r == 0 && e * r == r;
    } else {
      assert (1 - e) * r == r && e * r == 0;
    }
  }

  lemma PriceIdentity(b0: int, b1: int, r: int)
    ensures (1 - b0) * r + (0 - b1) * r == (1 - (b0 + b1)) * r
    ensures b0 * r + b1 * r == (b0 + b1) * r
  {
  }

  /** The two parties' costs add up to the words at the wrong turns, mod 2^32. */
  lemma {:induction false} CostsAdd(b: seq<bool>, bs0: seq<u32>, bs1: seq<u32>, r: seq<u32>, j: nat)
    requires DecisionShares(b, bs0, bs1) && |r| == |b| && j <= 2 * |b|
    ensures Plus32(CostShare(0, bs0, r, j), CostShare(1, bs1, r, j)) == SumAt(r, Wrong(b, j))
    decreases j
  {
    hide W32, E0, E1, Wrong;
    WSmall(0);
    if j == 0 {
      WrongAtRoot(b);
    } else {
      var i := Parent(j);
      CostsAdd(b, bs0, bs1, r, i);
      Prices(bs0[i], bs1[i], r[i], Ind(b[i]));
      var x0, x1 := CostShare(0, bs0, r, i), CostShare(1, bs1, r, i);
      var y0 := if j % 2 == 1 then E0(0, bs0[i], r[i]) else E1(bs0[i], r[i]);
      var y1 := if j % 2 == 1 then E0(1, bs1[i], r[i]) else E1(bs1[i], r[i]);
      FourWords(x0, y0, x1, y1);
      WrongBelow(b, r, j);
    }
  }

  lemma FourWords(x0: u32, y0: u32, x1: u32, y1: u32)
    ensures Plus32(Plus32(0, Plus32(x0, y0)), Plus32(0, Plus32(x1, y1))) == Plus32(Plus32(x0, x1), Plus32(y0, y1))
  {
    hide W32;
    WSmall(Plus32(x0, y0));
    WSmall(Plus32(x1, y1));
    WSum(x0 + y0, x1 + y1, 0, 0);
    WSum(x0 + x1, y0 + y1, 0, 0);
  }

  lemma WrongAtRoot(b: seq<bool>)
    ensures Wrong(b, 0) == []
  {
  }

  lemma WrongBelow(b: seq<bool>, r: seq<u32>, j: nat)
    requires 0 < j <= 2 * |b| && |r| == |b|
    ensures SumAt(r, Wrong(b, j)) == Plus32(SumAt(r, Wrong(b, Parent(j))), if Agrees(b, j) then 0 else r[Parent(j)])
  {
    var w := Wrong(b, Parent(j));
    if Agrees(b, j) {
      assert Wrong(b, j) == w;
      WSmall(SumAt(r, w));
    } else {
      assert Wrong(b, j) == w + [Parent(j)];
      assert (w + [Parent(j)])[..|w|] == w;
    }
    hide W32;
  }

  /** The leaf that the decisions lead to, from node i on. */
  function Reach(b: seq<bool>, i: nat): (j: nat)
    requires i <= 2 * |b|
    ensures |b| <= j <= 2 * |b|
    decreases 2 * |b| - i
  {
    if i >= |b| then i else Reach(b, if b[i] then 2 * i + 1 else 2 * i + 2)
  }

  /** From inner node i the walk goes on to node j. */
  ghost predicate Turns(b: seq<bool>, i: nat, j: nat) {
    i < |b| && j == if b[i] then 2 * i + 1 else 2 * i + 2
  }

  /** To the left child where the decision holds, to the right one where it does not. */
  lemma TurnsIs(b: seq<bool>, i: nat, j: nat)
    ensures Turns(b, i, j) <==> i < |b| && ((b[i] && j == 2 * i + 1) || (!b[i] && j == 2 * i + 2))
  {
  }

  /** The leaf that is reached is where every walk from node i ends. */
  lemma {:induction false} ReachIs(b: seq<bool>, i: nat, walk: seq<nat>)
    requires i <= 2 * |b| && |walk| > 0 && walk[0] == i && walk[|walk| - 1] >= |b|
    requires forall k :: 1 <= k < |walk| ==> Turns(b, walk[k - 1], walk[k])
    ensures Reach(b, i) == walk[|walk| - 1]
    decreases |walk|
  {
    if |walk| > 1 {
      assert Turns(b, walk[1 - 1], walk[1]);
      var rest := walk[1..];
      forall k | 1 <= k < |rest|
        ensures Turns(b, rest[k - 1], rest[k])
      {
        assert Turns(b, walk[k + 1 - 1], walk[k + 1]);
      }
      ReachIs(b, walk[1], rest);
    }
  }

  lemma {:induction false} ReachKeeps(b: seq<bool>, i: nat)
    requires i <= 2 * |b| && Wrong(b, i) == []
    ensures Wrong(b, Reach(b, i)) == []
    decreases 2 * |b| - i
  {
    if i < |b| {
      var j := if b[i] then 2 * i + 1 else 2 * i + 2;
      assert Parent(j) == i && Agrees(b, j);
      ReachKeeps(b, j);
    }
  }

  lemma {:induction false} ReachThrough(b: seq<bool>, j: nat)
    requires j <= 2 * |b| && Wrong(b, j) == []
    ensures Reach(b, j) == Reach(b, 0)
    decreases j
  {
    if j > 0 {
      ReachThrough(b, Parent(j));
    }
  }

  /** Exactly one leaf is reached without a wrong turn: the one that the decisions lead to. */
  lemma OneLeaf(b: seq<bool>, j: nat)
    requires |b| <= j <= 2 * |b|
    ensures Wrong(b, j) == [] <==> j == Reach(b, 0)
  {
    ReachKeeps(b, 0);
    if Wrong(b, j) == [] {
      ReachThrough(b, j);
    }
  }

  /** Player 2 takes the first leaf whose two cost shares cancel: there is one, and it is the leaf
      that the decisions lead to exactly if no leaf before it costs 0 by accident. */
  method PickLeaf(c0: seq<u32>, c1: seq<u32>, ghost b: seq<bool>, ghost bs0: seq<u32>, ghost bs1: seq<u32>, ghost r: seq<u32>)
    returns (i: nat)
    requires DecisionShares(b, bs0, bs1) && |r| == |b| && |c0| == |c1| == |b| + 1
    requires forall k :: 0 <= k <= |b| ==> c0[k] == CostShare(0, bs0, r, |b| + k) && c1[k] == CostShare(1, bs1, r, |b| + k)
    ensures i <= |b|
    ensures |b| + i == Reach(b, 0) <==>
              forall k :: 0 <= k < Reach(b, 0) - |b| ==> !CostsNothing(b, r, k)
  {
    hide Plus32, CostShare, Wrong, SumAt, Reach;
    ghost var goal := Reach(b, 0) - |b|;
    CostsAdd(b, bs0, bs1, r, Reach(b, 0));
    OneLeaf(b, Reach(b, 0));
    NoWrongTurn(r);
    i := 0;
    while i < |c0|
      invariant i <= goal
      invariant forall k :: 0 <= k < i ==> !CostsNothing(b, r, k)
      decreases |c0| - i
    {
      CostsAdd(b, bs0, bs1, r, |b| + i);
      if Plus32(c0[i], c1[i]) == 0 {
        assert CostsNothing(b, r, i);
        break;
      }
      i := i + 1;
    }
  }

  /** Leaf k's wrong turns cost nothing: it has none, or their words cancel. */
  ghost predicate CostsNothing(b: seq<bool>, r: seq<u32>, k: nat)
    requires |r| == |b| && k <= |b|
  {
    SumAt(r, Wrong(b, |b| + k)) == 0
  }

  lemma NoWrongTurn(r: seq<u32>)
    ensures SumAt(r, []) == 0
  {
  }
}
