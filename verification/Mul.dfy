/** The product of two shared words: both are brought to 64 bits, one within the pairs of players
    (0,1), (2,3) and one across them, multiplied crosswise, and split into a low and a high word, with
    a flag for a product that does not fit in 32 bits. */
module Mul {
  import opened Bits
  import opened Congruence
  import opened Words
  import opened Players
  import opened FssCommon
  import opened FssLt
  import opened Gate
  import opened Compare
  import opened DoubleWords

  /** The four players with the middle two exchanged. */
  function Swap<T>(x: Four<T>): Four<T> {
    Four(x.p0, x.p2, x.p1, x.p3)
  }

  /** The flags of a gate, from what the players sent: replicated within the pairs. */
  function OpenedFlags(prf: Prf, L: nat, tr: Four<MsbTuple>, buf: Four<int>): Four<u32>
    requires 1 <= L && TupleDepth(L, tr)
  {
    OpenedNonNegative(buf, Pow2(L));
    ReducedFlags(prf, L, Keys(tr), HelpOf(tr), OpenMod(buf, Pow2(L)))
  }

  /** The flags of a gate whose keys were dealt across the pairs: players 1 and 2 change roles. */
  function DiagFlags(prf: Prf, L: nat, tr: Four<MsbTuple>, buf: Four<int>): Four<u32>
    requires 1 <= L && TupleDepth(L, Swap(tr))
  {
    OpenedNonNegative(buf, Pow2(L));
    Swap(ReducedFlags(prf, L, Keys(Swap(tr)), HelpOf(Swap(tr)), Swap(OpenMod(buf, Pow2(L)))))
  }

  lemma DiagFlagsAre(prf: Prf, L: nat, tr: Four<MsbTuple>, buf: Four<int>)
    requires 1 <= L && TupleDepth(L, Swap(tr))
    ensures DiagFlags(prf, L, tr, buf) == Swap(OpenedFlags(prf, L, Swap(tr), Swap(buf)))
  {
    OpenModTotal(buf, Pow2(L));
    OpenModTotal(Swap(buf), Pow2(L));
    hide OpenMod, Pow2, ReducedFlags, Keys, HelpOf, TupleDepth;
    assert Total(Swap(buf)) == Total(buf);
    assert Swap(OpenMod(buf, Pow2(L))) == OpenMod(Swap(buf), Pow2(L));
  }

  /** Bit 32 of the share sum. */
  lemma Bit32(prf: Prf, tr: Four<MsbTuple>, r: nat, x: Four<int>)
    requires MsbOk(prf, 33, tr, r)
    ensures TupleDepth(33, tr)
    ensures Replicated(OpenedFlags(prf, 33, tr, GateWord(x, tr, Pow2(33), false)), Ind(M32 <= W33(Total(x))))
  {
    hide ReducedFlags, Flags, OpenMod, GateWord, MsbOk, W33, TupleDepth;
    Msb33(prf, tr, r, x, true);
  }

  /** Bit 33 of the share sum. */
  lemma Bit33(prf: Prf, tr: Four<MsbTuple>, r: nat, x: Four<int>)
    requires MsbOk(prf, 34, tr, r)
    ensures TupleDepth(34, tr)
    ensures Replicated(OpenedFlags(prf, 34, tr, GateWord(x, tr, Pow2(34), false)), Ind(M33 <= Total(x) % (2 * M33)))
  {
    Pow2Of33();
    Pow2Step(33);
    hide Pow2, Flags, ReducedFlags, OpenMod, GateWord, GateOk, KeyDepth;
    var y := Total(x) % (2 * M33);
    CongMod(Total(x), 2 * M33);
    assert Pow2(34) == 2 * M33 && 0 <= y < 2 * M33;
    hide Cong;
    GateCorrect(prf, 34, 0, M33, tr, r, x, false, y);
  }

  /** The flags of a gate on a value that the pairs hold replicated. */
  lemma RepGate(prf: Prf, tr: Four<MsbTuple>, r: nat, x: Four<u32>)
    requires MsbOk(prf, 33, tr, r)
    ensures TupleDepth(33, tr)
    ensures Replicated(OpenedFlags(prf, 33, tr, GateWord(Ints(x), tr, Pow2(33), true)), Ind(M32 <= x.p0 + x.p2))
  {
    Pow2Of33();
    CongByMultiple(x.p0 + x.p2, x.p0 + x.p2, M33, 0);
    hide Pow2, Flags, ReducedFlags, OpenMod, GateWord, GateOk, KeyDepth, Cong;
    GateCorrect(prf, 33, 0, M32, tr, r, Ints(x), true, x.p0 + x.p2);
  }

  /** The gate that tells whether a 64-bit value reaches 2^32. */
  lemma WideGate(prf: Prf, tr: Four<MsbTuple>, r: nat, x: Four<u64>, v: u64)
    requires GateOk(prf, 64, 0, M32, tr, r) && Additive64(x, v)
    ensures TupleDepth(64, tr)
    ensures Replicated(OpenedFlags(prf, 64, tr, GateWord(Wide(x), tr, Pow2(64), false)), Ind(M32 <= v))
  {
    Pow2Of64();
    assert Cong(Total(Wide(x)), v, M64) by { W64Small(v); }
    hide Pow2, Flags, ReducedFlags, OpenMod, GateWord, GateOk, KeyDepth, Cong;
    GateCorrect(prf, 64, 0, M32, tr, r, Wide(x), false, v);
  }

  function Wide(x: Four<u64>): Four<int> {
    Four(x.p0, x.p1, x.p2, x.p3)
  }

  /** A factor brought to 64 bits within the pairs. */
  lemma FactorWide(prf: Prf, k33: Four<MsbTuple>, k34: Four<MsbTuple>, r33: nat, r34: nat, x: Four<u32>, v: u32)
    requires MsbOk(prf, 33, k33, r33) && MsbOk(prf, 34, k34, r34) && Additive(x, v)
    ensures TupleDepth(33, k33) && TupleDepth(34, k34)
    ensures Rep64(TakeOffAll(Pairs(x), OpenedFlags(prf, 33, k33, GateWord(Ints(x), k33, Pow2(33), false)),
                             OpenedFlags(prf, 34, k34, GateWord(Ints(x), k34, Pow2(34), false))), v)
  {
    hide OpenedFlags, MsbOk, TupleDepth, GateWord, Rep64, Replicated, Additive, TakeOffAll, Pairs, W33;
    Bit32(prf, k33, r33, Ints(x));
    Bit33(prf, k34, r34, Ints(x));
    TakeOffTotal(x, OpenedFlags(prf, 33, k33, GateWord(Ints(x), k33, Pow2(33), false)),
                 OpenedFlags(prf, 34, k34, GateWord(Ints(x), k34, Pow2(34), false)), v);
  }

  /** 32-bit shares put together across the pairs. */
  function DiagPairs(x: Four<u32>): Four<u64> {
    Four(x.p0 + x.p2, x.p1 + x.p3, x.p2 + x.p0, x.p3 + x.p1)
  }

  /** A factor brought to 64 bits across the pairs. */
  lemma FactorDiag(prf: Prf, k33: Four<MsbTuple>, k34: Four<MsbTuple>, r33: nat, r34: nat, x: Four<u32>, v: u32)
    requires MsbOk(prf, 33, Swap(k33), r33) && MsbOk(prf, 34, Swap(k34), r34) && Additive(x, v)
    ensures TupleDepth(33, Swap(k33)) && TupleDepth(34, Swap(k34))
    ensures Diag64(TakeOffAll(DiagPairs(x), DiagFlags(prf, 33, k33, GateWord(Ints(x), k33, Pow2(33), false)),
                              DiagFlags(prf, 34, k34, GateWord(Ints(x), k34, Pow2(34), false))), v)
  {
    hide OpenedFlags, MsbOk, TupleDepth, TakeOff, DiagFlags, W32, W64, Pow2;
    FactorWide(prf, Swap(k33), Swap(k34), r33, r34, Swap(x), v);
    DiagFlagsAre(prf, 33, k33, GateWord(Ints(x), k33, Pow2(33), false));
    DiagFlagsAre(prf, 34, k34, GateWord(Ints(x), k34, Pow2(34), false));
    SwapWord(x, k33, Pow2(33));
    SwapWord(x, k34, Pow2(34));
  }

  lemma SwapWord(x: Four<u32>, tr: Four<MsbTuple>, N: int)
    requires N > 0
    ensures GateWord(Ints(Swap(x)), Swap(tr), N, false) == Swap(GateWord(Ints(x), tr, N, false))
  {
  }

  class Mul {
    const prf: Prf
    const dataA: Four<u32>
    const dataB: Four<u32>
    var msb33: Four<MsbTuple>
    var msb34: Four<MsbTuple>
    var msb33Diag: Four<MsbTuple>
    var msb34Diag: Four<MsbTuple>
    var msbAns: Four<MsbTuple>
    var gtFp: Four<MsbTuple>
    /** What each gate's players sent each other. */
    var buf33: Four<int>
    var buf34: Four<int>
    var buf33Diag: Four<int>
    var buf34Diag: Four<int>
    var bufAns: Four<int>
    var bufGt: Four<int>
    var totalMul: Four<u64>
    var res: seq<Four<u32>>
    var flag: seq<Four<u32>>
    ghost var masks: seq<nat>
    ghost var totalRep: Four<u64>

    ghost predicate Keyed()
      reads this
    {
      && |masks| == 6
      && MsbOk(prf, 33, msb33, masks[0]) && MsbOk(prf, 34, msb34, masks[1])
      && MsbOk(prf, 33, Swap(msb33Diag), masks[2]) && MsbOk(prf, 34, Swap(msb34Diag), masks[3])
      && MsbOk(prf, 33, msbAns, masks[4]) && GateOk(prf, 64, 0, M32, gtFp, masks[5])
    }

    /** The masked factors are on their way. */
    ghost predicate Sent()
      reads this
    {
      && buf33 == GateWord(Ints(dataA), msb33, Pow2(33), false)
      && buf34 == GateWord(Ints(dataA), msb34, Pow2(34), false)
      && buf33Diag == GateWord(Ints(dataB), msb33Diag, Pow2(33), false)
      && buf34Diag == GateWord(Ints(dataB), msb34Diag, Pow2(34), false)
    }

    /** The product is shared modulo 2^64, and its comparison with 2^32 is on its way. */
    ghost predicate Multiplied(v: u64)
      reads this
    {
      Additive64(totalMul, v) && bufGt == GateWord(Wide(totalMul), gtFp, Pow2(64), false)
    }

    /** The low word and the flag are done; the carry into the high word is on its way. */
    ghost predicate Halved(v: u64)
      reads this
    {
      && |res| == |flag| == 2
      && Rep64(totalRep, v)
      && res[0] == LowWords(totalRep) && res[1] == HighWords(totalRep, Four(0, 0, 0, 0))
      && bufAns == GateWord(Ints(res[0]), msbAns, Pow2(33), true)
      && Replicated(flag[0], Ind(M32 <= v))
    }

    constructor (prf: Prf, dataA: Four<u32>, dataB: Four<u32>, res: seq<Four<u32>>, flag: seq<Four<u32>>)
      requires |res| == |flag| == 2
      ensures this.prf == prf && this.dataA == dataA && this.dataB == dataB && this.res == res && this.flag == flag
    {
      this.prf, this.dataA, this.dataB, this.res, this.flag := prf, dataA, dataB, res, flag;
    }

    /** The helper deals the keys of all six gates. */
    method Offline()
      modifies this
      ensures Keyed() && res == old(res) && flag == old(flag)
    {
      hide MsbOk, GateOk;
      ghost var r0, r1, r2, r3, r4, r5;
      msb33, r0 := DrawMsb(prf, 33);
      msb34, r1 := DrawMsb(prf, 34);
      var d33, d34;
      d33, r2 := DrawMsb(prf, 33);
      d34, r3 := DrawMsb(prf, 34);
      msb33Diag, msb34Diag := Swap(d33), Swap(d34);
      msbAns, r4 := DrawMsb(prf, 33);
      gtFp, r5 := DrawInterval(prf, 0, M32);
      masks := [r0, r1, r2, r3, r4, r5];
    }

    method Round1()
      requires Keyed()
      modifies `buf33, `buf34, `buf33Diag, `buf34Diag
      ensures Keyed() && Sent()
    {
      hide MsbOk, GateOk, GateWord, Pow2;
      buf33 := GateWord(Ints(dataA), msb33, Pow2(33), false);
      buf34 := GateWord(Ints(dataA), msb34, Pow2(34), false);
      buf33Diag := GateWord(Ints(dataB), msb33Diag, Pow2(33), false);
      buf34Diag := GateWord(Ints(dataB), msb34Diag, Pow2(34), false);
    }

    method Round2(ghost x: u32, ghost y: u32)
      requires Keyed() && Sent() && Additive(dataA, x) && Additive(dataB, y)
      modifies `totalMul, `bufGt
      ensures Keyed() && 0 <= x * y < M64 && Multiplied(x * y)
    {
      hide MsbOk, GateOk, GateWord, Pow2, OpenedFlags, DiagFlags, TupleDepth, TakeOffAll, Pairs, DiagPairs, Swap,
           Additive, Rep64, Diag64, Products, Additive64;
      FactorWide(prf, msb33, msb34, masks[0], masks[1], dataA, x);
      FactorDiag(prf, msb33Diag, msb34Diag, masks[2], masks[3], dataB, y);
      var mR33 := OpenedFlags(prf, 33, msb33, buf33);
      var mR34 := OpenedFlags(prf, 34, msb34, buf34);
      var mA33 := DiagFlags(prf, 33, msb33Diag, buf33Diag);
      var mA34 := DiagFlags(prf, 34, msb34Diag, buf34Diag);
      var r64 := TakeOffAll(Pairs(dataA), mR33, mR34);
      var a64 := TakeOffAll(DiagPairs(dataB), mA33, mA34);
      CrossProducts(r64, a64, x, y);
      totalMul := Products(r64, a64);
      bufGt := GateWord(Wide(totalMul), gtFp, Pow2(64), false);
    }

    method Round3(ghost v: u64)
      requires Keyed() && Multiplied(v) && |res| == |flag| == 2
      modifies `res, `flag, `bufAns, `totalRep
      ensures Keyed() && Halved(v) && flag[1] == old(flag[1])
    {
      hide MsbOk, GateOk, GateWord, Pow2, OpenedFlags, TupleDepth, Replicated, Rep64, Additive64, TwoReveal64;
      TwoReveal64Adds(totalMul, v);
      WideGate(prf, gtFp, masks[5], totalMul, v);
      var rep := TwoReveal64(totalMul);
      totalRep := rep;
      flag := flag[0 := OpenedFlags(prf, 64, gtFp, bufGt)];
      res := res[0 := LowWords(rep)][1 := HighWords(rep, Four(0, 0, 0, 0))];
      bufAns := GateWord(Ints(res[0]), msbAns, Pow2(33), true);
    }

    method RoundEnd(ghost v: u64)
      requires Keyed() && Halved(v)
      modifies `res, `flag
      ensures |res| == |flag| == 2
      ensures Replicated(res[0], W32(v)) && Replicated(res[1], v / M32)
      ensures Replicated(flag[0], Ind(M32 <= v)) && flag[1] == flag[0]
    {
      hide MsbOk, GateOk, GateWord, Pow2, OpenedFlags, TupleDepth, Replicated, Rep64, W32, HighWords;
      RepGate(prf, msbAns, masks[4], res[0]);
      var msBit := OpenedFlags(prf, 33, msbAns, bufAns);
      SplitWords(totalRep, msBit, v);
      HighWordsLater(totalRep, msBit);
      res := res[1 := Four(Plus32(res[1].p0, msBit.p0), Plus32(res[1].p1, msBit.p1),
                           Plus32(res[1].p2, msBit.p2), Plus32(res[1].p3, msBit.p3))];
      flag := flag[1 := flag[0]];
    }
  }

  /** The carry may be added to the high words after they were stored. */
  lemma HighWordsLater(t: Four<u64>, b: Four<u32>)
    ensures var h := HighWords(t, Four(0, 0, 0, 0));
            HighWords(t, b) == Four(Plus32(h.p0, b.p0), Plus32(h.p1, b.p1), Plus32(h.p2, b.p2), Plus32(h.p3, b.p3))
  {
    hide W32;
    WAdd(t.p0 / M32, b.p0);
    WAdd(t.p1 / M32, b.p1);
    WAdd(t.p2 / M32, b.p2);
    WAdd(t.p3 / M32, b.p3);
  }

  /** Keys and mask shares that tell whether a 64-bit value lies outside [p, q). */
  method DrawInterval(prf: Prf, p: u64, q: u64) returns (tr: Four<MsbTuple>, ghost mask: nat)
    requires p <= q <= M32
    ensures GateOk(prf, 64, p, q, tr, mask)
  {
    Pow2Of64();
    hide Pow2, LtKeys, W64;
    var rIn := RandomBelow(0x8000_0000);
    var k00, k01 := GenerateTreeLt(prf, 64, rIn + p, 1);
    var k10, k11 := GenerateTreeLt(prf, 64, rIn + q, 1);
    var d1 := RandomBelow(0x8000_0000);
    var d2 := RandomBelow(0x8000_0000);
    var d3 := RandomBelow(0x8000_0000);
    var d0 := W64(W64(W64(rIn - d1) - d2) - d3);
    tr := Four(MsbTuple(k10, d0), MsbTuple(k00, d1), MsbTuple(k11, d2), MsbTuple(k01, d3));
    mask := rIn;
    Shares64(rIn, d1, d2, d3);
  }

  lemma Shares64(r: u64, d1: u64, d2: u64, d3: u64)
    ensures Cong(W64(W64(W64(r - d1) - d2) - d3) + d1 + d2 + d3, r, M64)
  {
    var s := W64(W64(W64(r - d1) - d2) - d3);
    var i := W64Factor(r - d1);
    var j := W64Factor(W64(r - d1) - d2);
    var k := W64Factor(W64(W64(r - d1) - d2) - d3);
    hide W64, Cong;
    CongByMultiple(s + d1 + d2 + d3, r, M64, -i - j - k);
  }

  /** All rounds together: from additive shares of x and y to replicated shares of both words of the
      exact product and of its overflow flag. */
  method Multiply(prf: Prf, dataA: Four<u32>, dataB: Four<u32>, ghost x: u32, ghost y: u32)
    returns (lo: Four<u32>, hi: Four<u32>, overflow: Four<u32>)
    requires Additive(dataA, x) && Additive(dataB, y)
    ensures Replicated(lo, W32(x * y)) && 0 <= x * y < M64 && Replicated(hi, x * y / M32)
    ensures Replicated(overflow, Ind(M32 <= x * y))
  {
    hide Mul.Keyed, Mul.Sent, Mul.Multiplied, Mul.Halved, Replicated, Additive, W32;
    var zero := Four(0, 0, 0, 0);
    var op := new Mul(prf, dataA, dataB, [zero, zero], [zero, zero]);
    op.Offline();
    op.Round1();
    op.Round2(x, y);
    op.Round3(x * y);
    op.RoundEnd(x * y);
    lo, hi, overflow := op.res[0], op.res[1], op.flag[0];
  }
}
