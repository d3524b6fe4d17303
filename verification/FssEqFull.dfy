/** Full-domain evaluation of a prime-field point key, breadth first over two queues. */
module FssEqFull {
  import opened Bits
  import opened Words
  import opened Blocks
  import opened FssCommon
  import opened KeyHeap
  import opened FssEq

  /** The two queues hold the seeds and control bits of the nodes numbered from, from+1, ... */
  ghost predicate Queued(prf: Prf, k: TreeKey, seeds: seq<Block>, ctrl: seq<bit>, from: nat) {
    && |seeds| == |ctrl|
    && forall q :: 0 <= q < |seeds| ==> NodeQueued(prf, k, seeds[q], ctrl[q], from + q)
  }

  ghost predicate NodeQueued(prf: Prf, k: TreeKey, s: Block, t: bit, h: nat) {
    Depth(h) <= |k.cw| && Node(s, t) == HeapNode(prf, k, h)
  }

  /** One node is taken from the front; its two children go to the back. */
  lemma QueueStep(prf: Prf, k: TreeKey, seeds: seq<Block>, ctrl: seq<bit>, from: nat, c0: Node, c1: Node)
    requires Queued(prf, k, seeds, ctrl, from) && |seeds| == from + 2
    requires Depth(from) < |k.cw|
    requires c0 == Child(prf(seeds[0]), k.cw[Depth(from)], ctrl[0], 0)
    requires c1 == Child(prf(seeds[0]), k.cw[Depth(from)], ctrl[0], 1)
    ensures Queued(prf, k, seeds[1..] + [c0.s] + [c1.s], ctrl[1..] + [c0.t] + [c1.t], from + 1)
  {
    hide Child;
    assert NodeQueued(prf, k, seeds[0], ctrl[0], from + 0);
    ChildOf(prf, k, from, 0);
    ChildOf(prf, k, from, 1);
    var s', t' := seeds[1..] + [c0.s] + [c1.s], ctrl[1..] + [c0.t] + [c1.t];
    forall q | 0 <= q < |s'|
      ensures NodeQueued(prf, k, s'[q], t'[q], from + 1 + q)
    {
      if q < from + 1 {
        assert NodeQueued(prf, k, seeds[q + 1], ctrl[q + 1], from + (q + 1));
      }
    }
  }

  lemma QueuePop(prf: Prf, k: TreeKey, seeds: seq<Block>, ctrl: seq<bit>, from: nat)
    requires Queued(prf, k, seeds, ctrl, from) && |seeds| > 0
    ensures Queued(prf, k, seeds[1..], ctrl[1..], from + 1)
  {
    forall q | 0 <= q < |seeds[1..]|
      ensures NodeQueued(prf, k, seeds[1..][q], ctrl[1..][q], from + 1 + q)
    {
      assert NodeQueued(prf, k, seeds[q + 1], ctrl[q + 1], from + (q + 1));
    }
  }

  /** The queues when j nodes of row i-1 have been taken. */
  ghost predicate RowQueued(prf: Prf, n: nat, k: TreeKey, i: nat, j: nat, seeds: seq<Block>, ctrl: seq<bit>) {
    && 1 <= i <= n && |k.cw| == n - 1 && j <= Pow2(i) && Pow2(i) >= 2
    && var h := Pow2(i) - 2 + j;
    && Queued(prf, k, seeds, ctrl, h)
    && |seeds| == if i < n then h + 2 else Pow2(i) - j
  }

  /** In row i-1 the front of the queues is the node of that row whose turn it is. */
  lemma QueueFront(prf: Prf, n: nat, k: TreeKey, i: nat, j: nat, seeds: seq<Block>, ctrl: seq<bit>)
    requires RowQueued(prf, n, k, i, j, seeds, ctrl) && j < Pow2(i)
    ensures |seeds| == |ctrl| > 0 && i - 1 <= |k.cw| && Node(seeds[0], ctrl[0]) == NodeAt(prf, k, i - 1, j)
    ensures Depth(Pow2(i) - 2 + j) == i - 1
  {
    hide Child, HeapNode, Pow2, NodeAt;
    RowOf(prf, k, i - 1, j);
    assert NodeQueued(prf, k, seeds[0], ctrl[0], Pow2(i) - 2 + j + 0);
  }

  lemma RowTaken(prf: Prf, n: nat, k: TreeKey, i: nat, j: nat, seeds: seq<Block>, ctrl: seq<bit>)
    requires RowQueued(prf, n, k, i, j, seeds, ctrl) && j < Pow2(i) && i == n && |seeds| > 0 && |ctrl| > 0
    ensures RowQueued(prf, n, k, i, j + 1, seeds[1..], ctrl[1..])
  {
    hide Pow2, Queued;
    QueuePop(prf, k, seeds, ctrl, Pow2(i) - 2 + j);
  }

  lemma RowPassed(prf: Prf, n: nat, k: TreeKey, i: nat, j: nat, seeds: seq<Block>, ctrl: seq<bit>, c0: Node, c1: Node)
    requires RowQueued(prf, n, k, i, j, seeds, ctrl) && j < Pow2(i) && i < n && |seeds| > 0 && |ctrl| > 0
    requires c0 == Child(prf(seeds[0]), k.cw[i - 1], ctrl[0], 0) && c1 == Child(prf(seeds[0]), k.cw[i - 1], ctrl[0], 1)
    ensures RowQueued(prf, n, k, i, j + 1, seeds[1..] + [c0.s] + [c1.s], ctrl[1..] + [c0.t] + [c1.t])
  {
    hide Pow2, Queued, Child, NodeAt;
    QueueFront(prf, n, k, i, j, seeds, ctrl);
    QueueStep(prf, k, seeds, ctrl, Pow2(i) - 2 + j, c0, c1);
  }

  lemma RowEnds(prf: Prf, n: nat, k: TreeKey, i: nat, seeds: seq<Block>, ctrl: seq<bit>)
    requires RowQueued(prf, n, k, i, Pow2(i), seeds, ctrl) && i < n
    ensures RowQueued(prf, n, k, i + 1, 0, seeds, ctrl)
  {
    hide Queued;
  }

  /** One row: its nodes leave the queues, and their children or their leaf values come. */
  method ExpandLevel(prf: Prf, p: int, n: nat, k: ServerKeyEq, i: nat, tmpJ: u32, seeds: seq<Block>, ctrl: seq<bit>,
                     res: array<int>, lens: nat) returns (seeds': seq<Block>, ctrl': seq<bit>)
    requires RowQueued(prf, n, k.tree, i, 0, seeds, ctrl) && tmpJ == Pow2(i) && p > 0 && 1 <= lens
    requires i == n ==> (if lens <= Pow2(n) then lens else Pow2(n)) <= res.Length
    modifies res
    ensures i < n ==> RowQueued(prf, n, k.tree, i, Pow2(i), seeds', ctrl') && res[..] == old(res[..])
    ensures i == n ==> Written(prf, p, n, k, res[..], old(res[..]), if lens <= Pow2(n) then lens else Pow2(n))
  {
    hide Child, LeafInt, Rem, Pow2, RowQueued, NodeAt, EqShare;
    seeds', ctrl' := seeds, ctrl;
    RowLevels(prf, n, k.tree, i, seeds, ctrl);
    var itr := 0;
    for j := 0 to tmpJ
      invariant RowQueued(prf, n, k.tree, i, j, seeds', ctrl')
      invariant if i < n then itr == 0 else itr == j < lens
      invariant Written(prf, p, n, k, res[..], old(res[..]), itr)
    {
      QueueFront(prf, n, k.tree, i, j, seeds', ctrl');
      var out := prf(seeds'[0]);
      var t := ctrl'[0];
      if i == n {
        RowTaken(prf, n, k.tree, i, j, seeds', ctrl');
        seeds', ctrl' := seeds'[1..], ctrl'[1..];
        var ans := LeafInt(out) * k.w;
        ans := Rem(ans, p);
        LeafShare(prf, p, n, k, j, out);
        res[itr] := ans;
        itr := itr + 1;
        if itr >= lens {
          break;
        }
      } else {
        var c0 := Child(out, k.tree.cw[i - 1], t, 0);
        var c1 := Child(out, k.tree.cw[i - 1], t, 1);
        RowPassed(prf, n, k.tree, i, j, seeds', ctrl', c0, c1);
        seeds', ctrl' := seeds'[1..] + [c0.s] + [c1.s], ctrl'[1..] + [c0.t] + [c1.t];
      }
    }
  }

  /** The first itr results are the pointwise shares, the others are what they were. */
  ghost predicate Written(prf: Prf, p: int, n: nat, k: ServerKeyEq, now: seq<int>, was: seq<int>, itr: nat)
    requires 1 <= n && |k.tree.cw| == n - 1 && p > 0
  {
    && |now| == |was| >= itr
    && (forall x :: 0 <= x < itr ==> now[x] == EqShare(prf, p, k, n, x))
    && (forall x :: itr <= x < |now| ==> now[x] == was[x])
  }

  lemma RowLevels(prf: Prf, n: nat, k: TreeKey, i: nat, seeds: seq<Block>, ctrl: seq<bit>)
    requires RowQueued(prf, n, k, i, 0, seeds, ctrl)
    ensures 1 <= i <= n && |k.cw| == n - 1
  {
  }

  lemma LeafShare(prf: Prf, p: int, n: nat, k: ServerKeyEq, x: nat, out: PrfOut)
    requires 1 <= n && |k.tree.cw| == n - 1 && p > 0 && out == prf(NodeAt(prf, k.tree, n - 1, x).s)
    ensures Rem(LeafInt(out) * k.w, p) == EqShare(prf, p, k, n, x)
  {
    hide LeafInt, Rem, NodeAt;
  }

  /** Writes the shares at 0, 1, 2, ... into res, at most lens of them. From 32 bits on the 32-bit
      level counter is 0 when the last row's turn comes, and nothing is written. */
  method EvaluateEqFull(prf: Prf, p: int, n: nat, k: ServerKeyEq, res: array<int>, lens: nat)
    requires 1 <= n <= 64 && |k.tree.cw| == n - 1 && p > 0 && 1 <= lens
    requires n <= 31 ==> (if lens <= Pow2(n) then lens else Pow2(n)) <= res.Length
    modifies res
    ensures Written(prf, p, n, k, res[..], old(res[..]), if n >= 32 then 0 else if lens <= Pow2(n) then lens else Pow2(n))
  {
    hide Pow2, RowQueued, Written;
    var sTmp := [k.tree.s.zero, k.tree.s.one];
    var tTmp: seq<bit> := [k.tree.t.zero, k.tree.t.one];
    var tmpJ: u32 := 1;
    RootsQueued(prf, n, k.tree);
    for i := 1 to n + 1
      invariant tmpJ == if i <= 32 then Pow2(i - 1) else 0
      invariant i <= 31 && i <= n ==> RowQueued(prf, n, k.tree, i, 0, sTmp, tTmp)
      invariant if i <= n || n >= 32 then res[..] == old(res[..])
                else Written(prf, p, n, k, res[..], old(res[..]), if lens <= Pow2(n) then lens else Pow2(n))
    {
      LevelCount(i, tmpJ);
      tmpJ := W32(tmpJ * 2);
      hide W32;
      if tmpJ > 0 {
        sTmp, tTmp := ExpandLevel(prf, p, n, k, i, tmpJ, sTmp, tTmp, res, lens);
        if i < n {
          RowEnds(prf, n, k.tree, i, sTmp, tTmp);
        }
      }
    }
    NothingWritten(prf, p, n, k, res[..]);
  }

  lemma NothingWritten(prf: Prf, p: int, n: nat, k: ServerKeyEq, now: seq<int>)
    requires 1 <= n && |k.tree.cw| == n - 1 && p > 0
    ensures Written(prf, p, n, k, now, now, 0)
  {
  }

  lemma RootsQueued(prf: Prf, n: nat, k: TreeKey)
    requires 1 <= n && |k.cw| == n - 1
    ensures Pow2(0) == 1 && RowQueued(prf, n, k, 1, 0, [k.s.zero, k.s.one], [k.t.zero, k.t.one])
  {
    assert NodeQueued(prf, k, k.s.zero, k.t.zero, 0) && NodeQueued(prf, k, k.s.one, k.t.one, 1);
  }
}
