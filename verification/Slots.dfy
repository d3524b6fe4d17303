/** Choosing one of many results with shared selection lists. */
module Slots {
  import opened Bits
  import opened Words
  import opened Players
  import opened Gate
  import opened Selection
  import opened Operations

  const OPT_SIZE: nat := 22

  /** Shares that repeat within the pairs. */
  ghost predicate Repeats(x: Four<u32>) {
    x.p0 == x.p1 && x.p2 == x.p3
  }

  /** The value that repeated shares stand for. */
  function Held(x: Four<u32>): u32 {
    Plus32(x.p0, x.p2)
  }

  /** Players 1 and 3 negate the part of their selection lists that the results use. */
  function Negated(list: seq<u32>, k: nat): (r: seq<u32>)
    requires k <= |list|
    ensures |r| == |list|
  {
    seq(|list|, i requires 0 <= i < |list| => if i < k then Neg32(list[i]) else list[i])
  }

  /** Selection bits for one opcode, held within the pairs. */
  ghost predicate BetasFor(betas: Four<seq<u32>>, op: nat) {
    && |betas.p0| == |betas.p1| == |betas.p2| == |betas.p3| == 32
    && forall k :: 0 <= k < OPT_SIZE ==> BetaAt(betas, k, op)
  }

  ghost predicate BetaAt(betas: Four<seq<u32>>, k: nat, op: nat) {
    && k < |betas.p0| && k < |betas.p1| && k < |betas.p2| && k < |betas.p3|
    && BetaIs(Beta(betas, k), Ind(k == op))
  }

  function Beta(betas: Four<seq<u32>>, k: nat): Four<u32>
    requires k < |betas.p0| && k < |betas.p1| && k < |betas.p2| && k < |betas.p3|
  {
    Four(betas.p0[k], betas.p1[k], betas.p2[k], betas.p3[k])
  }

  lemma BetasFromLists(lists: Four<seq<u32>>, op: nat)
    requires |lists.p0| == |lists.p1| == |lists.p2| == |lists.p3| == 32
    requires Selects(lists.p0, lists.p1, op, 1) && Selects(lists.p2, lists.p3, op, 1)
    ensures BetasFor(Four(lists.p0, Negated(lists.p1, OPT_SIZE), lists.p2, Negated(lists.p3, OPT_SIZE)), op)
  {
    var betas := Four(lists.p0, Negated(lists.p1, OPT_SIZE), lists.p2, Negated(lists.p3, OPT_SIZE));
    hide W32;
    forall k | 0 <= k < OPT_SIZE
      ensures BetaAt(betas, k, op)
    {
      WSmall(lists.p0[k]);
      WSmall(lists.p1[k]);
      WSmall(lists.p2[k]);
      WSmall(lists.p3[k]);
      WordDifference(lists.p0[k], lists.p1[k]);
      WordDifference(lists.p2[k], lists.p3[k]);
      assert Minus32(lists.p0[k], lists.p1[k]) == (if k == op then 1 else 0);
      assert Minus32(lists.p2[k], lists.p3[k]) == (if k == op then 1 else 0);
    }
  }

  /** One player's sum of results times selection bits. */
  method SumSlots(slots: seq<u32>, betas: seq<u32>) returns (now: u32)
    requires |slots| == OPT_SIZE && |betas| == 32
    ensures now == SlotSum(slots, betas, OPT_SIZE)
  {
    hide W32;
    now := 0;
    for i := 0 to OPT_SIZE
      invariant now == SlotSum(slots, betas, i)
    {
      now := Plus32(now, Times32(slots[i], betas[i]));
    }
  }

  function SlotSum(slots: seq<u32>, betas: seq<u32>, k: nat): u32
    requires k <= |slots| && k <= |betas|
  {
    if k == 0 then 0 else Plus32(SlotSum(slots, betas, k - 1), Times32(slots[k - 1], betas[k - 1]))
  }

  /** One player's column of the results. */
  function Mine(slots: seq<Four<u32>>, player: nat): (r: seq<u32>)
    ensures |r| == |slots|
  {
    seq(|slots|, i requires 0 <= i < |slots| =>
      if player == 0 then slots[i].p0 else if player == 1 then slots[i].p1 else if player == 2 then slots[i].p2 else slots[i].p3)
  }

  /** The four players' sums after k results. */
  function SlotSums(slots: seq<Four<u32>>, betas: Four<seq<u32>>, k: nat): Four<u32>
    requires k <= |slots| && k <= |betas.p0| && k <= |betas.p1| && k <= |betas.p2| && k <= |betas.p3|
  {
    Four(SlotSum(Mine(slots, 0), betas.p0, k), SlotSum(Mine(slots, 1), betas.p1, k),
         SlotSum(Mine(slots, 2), betas.p2, k), SlotSum(Mine(slots, 3), betas.p3, k))
  }

  /** What a slot that differs within a pair adds to the sum, whether it is selected or not. */
  function Spill(slot: Four<u32>, beta: Four<u32>): u32 {
    W32((slot.p1 - slot.p0 as int) * beta.p1 + (slot.p3 - slot.p2 as int) * beta.p3)
  }

  /** The first k slots' spills together. */
  function Leak(slots: seq<Four<u32>>, betas: Four<seq<u32>>, k: nat): u32
    requires k <= |slots| && k <= |betas.p0| && k <= |betas.p1| && k <= |betas.p2| && k <= |betas.p3|
  {
    if k == 0 then 0 else Plus32(Leak(slots, betas, k - 1), Spill(slots[k - 1], Beta(betas, k - 1)))
  }

  /** The selected result among the first k: opcodes past them select nothing. */
  function Chosen(slots: seq<Four<u32>>, op: nat, k: nat): u32
    requires k <= |slots|
  {
    if op < k then Held(slots[op]) else 0
  }

  /** All players' sums. */
  method SumAll(slots: seq<Four<u32>>, betas: Four<seq<u32>>, ghost op: nat) returns (now: Four<u32>)
    requires |slots| == OPT_SIZE && BetasFor(betas, op)
    ensures Additive(now, Plus32(Chosen(slots, op, OPT_SIZE), Leak(slots, betas, OPT_SIZE)))
  {
    hide SlotSum, Held, Additive, BetaAt;
    var n0 := SumSlots(Mine(slots, 0), betas.p0);
    var n1 := SumSlots(Mine(slots, 1), betas.p1);
    var n2 := SumSlots(Mine(slots, 2), betas.p2);
    var n3 := SumSlots(Mine(slots, 3), betas.p3);
    now := Four(n0, n1, n2, n3);
    SlotsSelected(slots, betas, op, OPT_SIZE);
  }

  /** The sums over the first k slots add up to the selected result and the spills. */
  lemma {:induction false} SlotsSelected(slots: seq<Four<u32>>, betas: Four<seq<u32>>, op: nat, k: nat)
    requires k <= OPT_SIZE == |slots| && BetasFor(betas, op)
    ensures Additive(SlotSums(slots, betas, k), Plus32(Chosen(slots, op, k), Leak(slots, betas, k)))
  {
    hide W32, BetaIs, Times32, Plus32, Held, Spill, Additive;
    if k == 0 {
      ZeroSum();
    } else {
      SlotsSelected(slots, betas, op, k - 1);
      assert BetaAt(betas, k - 1, op);
      SlotAdds(SlotSums(slots, betas, k - 1), slots[k - 1], Beta(betas, k - 1),
               Chosen(slots, op, k - 1), Leak(slots, betas, k - 1), Ind(k - 1 == op));
    }
  }

  lemma ZeroSum()
    ensures Additive(Four(0, 0, 0, 0), Plus32(0, 0))
  {
  }

  function AddSlot(acc: Four<u32>, slot: Four<u32>, beta: Four<u32>): Four<u32> {
    Four(Plus32(acc.p0, Times32(slot.p0, beta.p0)), Plus32(acc.p1, Times32(slot.p1, beta.p1)),
         Plus32(acc.p2, Times32(slot.p2, beta.p2)), Plus32(acc.p3, Times32(slot.p3, beta.p3)))
  }

  lemma SlotAdds(acc: Four<u32>, slot: Four<u32>, beta: Four<u32>, v: u32, leak: u32, hit: bit)
    requires Additive(acc, Plus32(v, leak)) && BetaIs(beta, hit) && (hit == 1 ==> v == 0)
    ensures Additive(AddSlot(acc, slot, beta), Plus32(if hit == 1 then Held(slot) else v, Plus32(leak, Spill(slot, beta))))
  {
    hide W32;
    var x: int, y: int := slot.p0, slot.p2;
    WAdd(acc.p0, x * beta.p0);
    WAdd(acc.p1, slot.p1 * beta.p1);
    WAdd(acc.p2, y * beta.p2);
    WAdd(acc.p3, slot.p3 * beta.p3);
    WSum(acc.p0 + x * beta.p0, acc.p1 + slot.p1 * beta.p1, acc.p2 + y * beta.p2, acc.p3 + slot.p3 * beta.p3);
    var s: int := acc.p0 + acc.p1 + acc.p2 + acc.p3;
    var p := beta.p0 * x + beta.p1 * x + beta.p2 * y + beta.p3 * y;
    var e := (slot.p1 - slot.p0 as int) * beta.p1 + (slot.p3 - slot.p2 as int) * beta.p3;
    SpillApart(slot, beta);
    HitProducts(beta.p0, beta.p1, beta.p2, beta.p3, x, y, hit);
    WSmall(v);
    SpillSum(s, p, e, v, leak, if hit == 1 then x + y else 0);
  }

  lemma SpillApart(slot: Four<u32>, beta: Four<u32>)
    ensures var x: int, y: int := slot.p0, slot.p2;
            slot.p0 * beta.p0 + slot.p1 * beta.p1 + slot.p2 * beta.p2 + slot.p3 * beta.p3
            == (beta.p0 * x + beta.p1 * x + beta.p2 * y + beta.p3 * y)
               + ((slot.p1 - slot.p0 as int) * beta.p1 + (slot.p3 - slot.p2 as int) * beta.p3)
  {
  }

  lemma SpillSum(s: int, p: int, e: int, v: u32, leak: u32, g: int)
    requires W32(s) == Plus32(v, leak) && W32(p) == W32(g)
    ensures W32(s + (p + e)) == W32(W32(v + g) + W32(leak + W32(e)))
  {
    hide W32;
    WAdd(s, p + e);
    WAdd(v + leak, p + e);
    WAdd(v + leak + e, p);
    WAdd(v + leak + e, g);
    WAdd(leak, e);
    WAdd(v + g, leak + e);
  }

  /** Slots that repeat within the pairs spill nothing, whatever the selection bits. */
  lemma {:induction false} NoLeak(slots: seq<Four<u32>>, betas: Four<seq<u32>>, k: nat)
    requires k <= |slots| && k <= |betas.p0| && k <= |betas.p1| && k <= |betas.p2| && k <= |betas.p3|
    requires forall i :: 0 <= i < k ==> Repeats(slots[i])
    ensures Leak(slots, betas, k) == 0
  {
    hide Spill, Plus32, Repeats;
    PlusZero(0);
    if k != 0 {
      NoLeak(slots, betas, k - 1);
      RepeatedSpill(slots[k - 1], Beta(betas, k - 1));
    }
  }

  lemma RepeatedSpill(slot: Four<u32>, beta: Four<u32>)
    requires Repeats(slot)
    ensures Spill(slot, beta) == 0
  {
    assert (slot.p1 - slot.p0 as int) * beta.p1 == 0 && (slot.p3 - slot.p2 as int) * beta.p3 == 0;
  }

  /** Selection bits for no opcode, shared as 1 and -1 at one slot of one pair. */
  function Probe(k: nat, first: bool): Four<seq<u32>> {
    var one := seq(32, i => if i == k then 1 else 0);
    var minus := seq(32, i => if i == k then 0xFFFF_FFFF else 0);
    var zero := seq(32, i => 0);
    if first then Four(one, minus, zero, zero) else Four(zero, zero, one, minus)
  }

  lemma ProbeIsFor(k: nat, first: bool)
    requires k < OPT_SIZE
    ensures BetasFor(Probe(k, first), 31)
  {
    forall i | 0 <= i < OPT_SIZE
      ensures BetaAt(Probe(k, first), i, 31)
    {
    }
  }

  lemma {:induction false} ProbeLeaks(slots: seq<Four<u32>>, k: nat, first: bool, j: nat)
    requires k < OPT_SIZE == |slots| && j <= OPT_SIZE
    ensures Leak(slots, Probe(k, first), j)
         == if j <= k then 0 else if first then Minus32(slots[k].p0, slots[k].p1) else Minus32(slots[k].p2, slots[k].p3)
  {
    hide Spill, Plus32, Minus32;
    PlusZero(0);
    if j != 0 {
      ProbeLeaks(slots, k, first, j - 1);
      var b := Beta(Probe(k, first), j - 1);
      SpillOf(slots[j - 1], b, first, j - 1 == k);
      PlusZero(Minus32(slots[k].p0, slots[k].p1));
      PlusZero(Minus32(slots[k].p2, slots[k].p3));
    }
  }

  lemma SpillOf(slot: Four<u32>, beta: Four<u32>, first: bool, here: bool)
    requires var b: u32 := if here then 0xFFFF_FFFF else 0;
             if first then beta.p1 == b && beta.p3 == 0 else beta.p1 == 0 && beta.p3 == b
    ensures Spill(slot, beta)
         == if !here then 0 else if first then Minus32(slot.p0, slot.p1) else Minus32(slot.p2, slot.p3)
  {
    var d: int := if first then slot.p1 - slot.p0 as int else slot.p3 - slot.p2 as int;
    assert (slot.p1 - slot.p0 as int) * beta.p1 + (slot.p3 - slot.p2 as int) * beta.p3
        == if here then d * 0xFFFF_FFFF else 0;
    WMultiple(-d, d);
    hide W32;
    assert d * 0xFFFF_FFFF == -d + M32 * d;
  }

  /** The sums select the opcode's result, for all selection bits, exactly if every slot repeats within
      the pairs: results that nobody assigns must do so as well. */
  lemma SelectsExactly(slots: seq<Four<u32>>)
    requires |slots| == OPT_SIZE
    ensures (forall betas, op :: BetasFor(betas, op) ==>
                 Additive(SlotSums(slots, betas, OPT_SIZE), Chosen(slots, op, OPT_SIZE)))
        <==> forall k :: 0 <= k < OPT_SIZE ==> Repeats(slots[k])
  {
    hide Additive, SlotSums, Held, BetaAt, Leak, Probe, Repeats;
    if forall k :: 0 <= k < OPT_SIZE ==> Repeats(slots[k]) {
      forall betas, op | BetasFor(betas, op)
        ensures Additive(SlotSums(slots, betas, OPT_SIZE), Chosen(slots, op, OPT_SIZE))
      {
        SlotsSelected(slots, betas, op, OPT_SIZE);
        NoLeak(slots, betas, OPT_SIZE);
        PlusZero(Chosen(slots, op, OPT_SIZE));
      }
    } else {
      var k :| 0 <= k < OPT_SIZE && !Repeats(slots[k]);
      UnequalSlotLeaks(slots, k);
    }
  }

  lemma PlusZero(v: u32)
    ensures Plus32(v, 0) == v && Plus32(0, v) == v
  {
  }

  /** A slot that differs within a pair spoils the sum for an opcode that selects nothing. */
  lemma UnequalSlotLeaks(slots: seq<Four<u32>>, k: nat)
    requires k < OPT_SIZE == |slots| && !Repeats(slots[k])
    ensures exists betas, op :: BetasFor(betas, op) && !Additive(SlotSums(slots, betas, OPT_SIZE), Chosen(slots, op, OPT_SIZE))
  {
    hide *;
    var first := slots[k].p0 != slots[k].p1;
    ProbeIsFor(k, first);
    SlotsSelected(slots, Probe(k, first), 31, OPT_SIZE);
    ProbeLeaks(slots, k, first, OPT_SIZE);
    Spoilt(slots, Probe(k, first), k);
    assert BetasFor(Probe(k, first), 31);
  }

  lemma Spoilt(slots: seq<Four<u32>>, betas: Four<seq<u32>>, k: nat)
    requires k < OPT_SIZE == |slots| && !Repeats(slots[k]) && BetasFor(betas, 31)
    requires Additive(SlotSums(slots, betas, OPT_SIZE), Plus32(Chosen(slots, 31, OPT_SIZE), Leak(slots, betas, OPT_SIZE)))
    requires Leak(slots, betas, OPT_SIZE)
          == if slots[k].p0 != slots[k].p1 then Minus32(slots[k].p0, slots[k].p1) else Minus32(slots[k].p2, slots[k].p3)
    ensures !Additive(SlotSums(slots, betas, OPT_SIZE), Chosen(slots, 31, OPT_SIZE))
    ensures k < OPT_SIZE
  {
    hide W32, SlotSums, Leak, BetaAt, Additive, Held;
    var leak := Leak(slots, betas, OPT_SIZE);
    PlusZero(leak);
    WordsApart(slots[k].p0, slots[k].p1);
    WordsApart(slots[k].p2, slots[k].p3);
    if Additive(SlotSums(slots, betas, OPT_SIZE), Chosen(slots, 31, OPT_SIZE)) {
      OneValue(SlotSums(slots, betas, OPT_SIZE), 0, leak);
    }
  }

  lemma WordsApart(a: u32, b: u32)
    ensures Minus32(a, b) == 0 <==> a == b
  {
  }

  lemma OneValue(x: Four<u32>, v: u32, w: u32)
    requires Additive(x, v) && Additive(x, w)
    ensures v == w
  {
  }
}
