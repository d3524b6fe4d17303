/** The garbled-circuit protocol for any number of parties, from random masks to everybody's output. */
module Bmr {
  import opened Bits
  import opened Words
  import opened Blocks
  import opened BooleanCircuit
  import opened Garbling
  import opened GarbledEvaluation

  /** One party's share of the inputs: the wires from first on. */
  datatype Holding = Holding(owner: nat, first: nat, data: seq<bit>)

  /** What memory holds after data is copied to position first. */
  function Paste<T>(s: seq<T>, first: nat, data: seq<T>): (r: seq<T>)
    requires first + |data| <= |s|
    ensures |r| == |s|
  {
    s[..first] + data + s[first + |data|..]
  }

  ghost predicate Covers(h: Holding, w: nat) {
    h.first <= w < h.first + |h.data|
  }

  ghost predicate Covered(holders: seq<Holding>, m: nat, w: nat)
    requires m <= |holders|
  {
    exists q :: 0 <= q < m && Covers(holders[q], w)
  }

  /** Every input wire is held by a party. */
  ghost predicate HoldersOk(holders: seq<Holding>, n: nat, inSize: nat) {
    && (forall q :: 0 <= q < |holders| ==> holders[q].owner < n && holders[q].first + |holders[q].data| <= inSize)
    && (forall w :: 0 <= w < inSize ==> Covered(holders, |holders|, w))
  }

  /** The circuit's input after m holders: a later holder of a wire wins. */
  ghost function InputOf(holders: seq<Holding>, n: nat, inSize: nat, m: nat): (r: seq<bit>)
    requires m <= |holders| && HoldersOk(holders, n, inSize)
    ensures |r| == inSize
  {
    if m == 0 then seq(inSize, _ => 0)
    else Paste(InputOf(holders, n, inSize, m - 1), holders[m - 1].first, holders[m - 1].data)
  }

  /** Every party has one label per wire from every party. */
  ghost predicate Boards(pickeds: seq<seq<seq<Block>>>, n: nat, numWire: nat) {
    && |pickeds| == n && (forall p :: 0 <= p < n ==> |pickeds[p]| == n)
    && (forall p, j :: 0 <= p < n && 0 <= j < n ==> |pickeds[p][j]| == numWire)
  }

  class Bmr {
    const hash: Hash
    const c: Circuit
    const n: nat
    /** Party p's offset, wire masks, label pairs and own tables. */
    var R: seq<Block>
    var maskbits: seq<seq<bit>>
    var Ks: seq<seq<Block>>
    /** What every party knows after opening. */
    var openedBits: seq<seq<bit>>
    var tabs: seq<seq<Table>>
    /** Party p's masked bits, and the labels of all parties as p knows them. */
    var Lambda: seq<seq<bit>>
    var pickeds: seq<seq<seq<Block>>>

    ghost predicate Shaped()
      reads this
    {
      && n >= 1 && WellFormed(c)
      && |R| == |maskbits| == |Ks| == |openedBits| == |tabs| == |Lambda| == |pickeds| == n
      && SameLength(maskbits, c.numWire) && SameLength(Ks, 2 * c.numWire) && SameLength(openedBits, c.numWire)
      && SameLength(Lambda, c.numWire)
      && Boards(pickeds, n, c.numWire)
      && (forall p, w :: 0 <= p < n && 0 <= w < c.inSize ==> PairOk(Ks[p], R[p], w))
    }

    /** All parties hold the same opened masks and tables, and these fit their labels. */
    ghost predicate Opened()
      reads this
      requires Shaped()
    {
      && (forall p :: 0 <= p < n ==> openedBits[p] == openedBits[0] && tabs[p] == tabs[0])
      && Garbled(c, hash, openedBits[0], R, Ks, tabs[0])
    }

    constructor (hash: Hash, c: Circuit, n: nat)
      requires n >= 1 && WellFormed(c)
      ensures Shaped() && this.hash == hash && this.c == c && this.n == n
    {
      var rs: seq<Block>, masks: seq<seq<bit>>, labels: seq<seq<Block>> := [], [], [];
      for p := 0 to n
        invariant |rs| == |masks| == |labels| == p
        invariant SameLength(masks, c.numWire) && SameLength(labels, 2 * c.numWire)
        invariant forall q, w :: 0 <= q < p && 0 <= w < c.inSize ==> PairOk(labels[q], rs[q], w)
      {
        hide PairOk;
        var r := RandomBlock();
        var bits := RandomBits(c.numWire);
        var K := InputLabels(c.inSize, c.numWire, r);
        rs, masks, labels := rs + [r], masks + [bits], labels + [K];
      }
      this.hash, this.c, this.n := hash, c, n;
      R, maskbits, Ks := rs, masks, labels;
      openedBits, tabs, Lambda := seq(n, _ => seq(c.numWire, _ => 0)), seq(n, _ => []), seq(n, _ => seq(c.numWire, _ => 0));
      pickeds := seq(n, _ => seq(n, _ => seq(c.numWire, _ => 0)));
    }

    /** Masks are completed and opened, labels and tables are made, and the tables are opened. */
    method Offline()
      requires Shaped()
      modifies `maskbits, `openedBits, `Ks, `tabs
      ensures Shaped() && Opened()
    {
      hide PairOk, Garbled, WellFormed, MaskOk, Prepared;
      var masks := AllMasks(c, maskbits);
      var bits := OpenAll(masks, c.numWire);
      var labels, own := GarbleAll(c, hash, n, bits, R, Ks);
      PreparedShape(c, hash, n, bits, R, Ks, labels, own);
      var opening := OpenAllTables(own, |own[0]|);
      SameEverywhere(masks, bits, own, opening, c.numWire, |own[0]|);
      GarbledNow(c, hash, masks, bits[0], R, labels, own, opening[0]);
      maskbits, openedBits, Ks, tabs := masks, bits, labels, opening;
    }

    /** The parties exchange masked inputs and labels; everybody evaluates and reads the output. */
    method Online(holders: seq<Holding>) returns (ok: seq<bool>, outs: seq<seq<bit>>)
      requires Shaped() && Opened() && HoldersOk(holders, n, c.inSize)
      modifies `Lambda, `pickeds
      ensures Shaped() && Opened() && |ok| == |outs| == n
      ensures forall p :: 0 <= p < n ==> PartyDone(c, InputOf(holders, n, c.inSize, |holders|), openedBits[0], R[p], Ks,
                                                   ok[p], Lambda[p], pickeds[p], outs[p])
    {
      hide PairOk, Garbled, WellFormed, HoldersOk, InputOf, PartyDone, InputsIn, WireOk, Values;
      ghost var input := InputOf(holders, n, c.inSize, |holders|);
      WellFormedSizes(c);
      var masked := MaskInputs(holders, n, c.inSize, openedBits, Lambda, c.numWire);
      var labels := ExchangeLabels(n, c.inSize, c.numWire, Ks, masked, pickeds);
      InputsArrive(input, n, c.inSize, c.numWire, openedBits, Ks, masked, labels);
      ok, outs := [], [];
      for p := 0 to n
        invariant |masked| == |labels| == n && SameLength(masked, c.numWire) && |ok| == |outs| == p
        invariant Boards(labels, n, c.numWire)
        invariant forall q :: 0 <= q < p ==>
                    PartyDone(c, input, openedBits[0], R[q], Ks, ok[q], masked[q], labels[q], outs[q])
        invariant forall q :: p <= q < n ==> InputsIn(input, openedBits[0], Ks, masked[q], labels[q], c.numWire)
      {
        InputWires(c, input, openedBits[0], Ks, masked[p], labels[p]);
        var good, bits, picked := Evaluate(c, hash, p, openedBits[p], Ks[p], R[p], tabs[p], masked[p], labels[p], R, Ks, input);
        masked, labels := masked[p := bits], labels[p := picked];
        var out := ReadOutput(c, openedBits[p], bits);
        PartyNow(c, input, openedBits[p], R[p], Ks, good, bits, picked, out);
        ok, outs := ok + [good], outs + [out];
      }
      Lambda, pickeds := masked, labels;
    }
  }

  /** A party finds nothing corrupted and has the right masked bit and labels on every wire, if and only if
      its offset is not zero or every AND gate's masked output is 0; and then it has the circuit's output. */
  ghost predicate PartyDone(c: Circuit, input: seq<bit>, bits: seq<bit>, R: Block, Ks: seq<seq<Block>>, ok: bool,
                            Lambda: seq<bit>, picked: seq<seq<Block>>, out: seq<bit>) {
    && WellFormed(c) && |input| == c.inSize && |bits| == c.numWire
    && var V := Values(c, input);
    && (ok && WiresOk(c, |c.gates|, V, bits, Ks, Lambda, picked) <==> ReadsTo(c, R, V, bits, |c.gates|))
    && (ReadsTo(c, R, V, bits, |c.gates|) ==> out == Output(c, input))
  }

  lemma PartyNow(c: Circuit, input: seq<bit>, bits: seq<bit>, R: Block, Ks: seq<seq<Block>>, ok: bool,
                 Lambda: seq<bit>, picked: seq<seq<Block>>, out: seq<bit>)
    requires WellFormed(c) && |input| == c.inSize && |bits| == |Lambda| == c.numWire && |out| == c.outSize <= c.numWire
    requires ok && WiresOk(c, |c.gates|, Values(c, input), bits, Ks, Lambda, picked)
        <==> ReadsTo(c, R, Values(c, input), bits, |c.gates|)
    requires forall k :: 0 <= k < c.outSize ==>
               out[k] == BitXor(Lambda[c.numWire - c.outSize + k], bits[c.numWire - c.outSize + k])
    ensures PartyDone(c, input, bits, R, Ks, ok, Lambda, picked, out)
  {
    hide WellFormed, WiresOk, ReadsTo, Values, Output;
    if ok && WiresOk(c, |c.gates|, Values(c, input), bits, Ks, Lambda, picked) {
      OutputRight(c, input, bits, Ks, Lambda, picked, out);
    }
  }

  /** The input wires hold what was put there: wire w what the last holder that covers it has for it. */
  ghost predicate Given(holders: seq<Holding>, inSize: nat, input: seq<bit>) {
    && |input| == inSize
    && forall q: nat, w: nat :: q < |holders| && LastCover(holders, q, w) && w < inSize ==>
         input[w] == holders[q].data[w - holders[q].first]
  }

  ghost predicate LastCover(holders: seq<Holding>, q: nat, w: nat)
    requires q < |holders|
  {
    Covers(holders[q], w) && forall r :: q < r < |holders| ==> !Covers(holders[r], w)
  }

  lemma GivenAt(holders: seq<Holding>, inSize: nat, input: seq<bit>, q: nat, w: nat)
    requires Given(holders, inSize, input) && q < |holders| && w < inSize
    requires holders[q].first <= w < holders[q].first + |holders[q].data|
    requires forall r :: q < r < |holders| ==> w < holders[r].first || holders[r].first + |holders[r].data| <= w
    ensures |input| == inSize && input[w] == holders[q].data[w - holders[q].first]
  {
    assert LastCover(holders, q, w);
  }

  lemma {:induction false} InputAt(holders: seq<Holding>, n: nat, inSize: nat, m: nat, q: nat, w: nat)
    requires q < m <= |holders| && HoldersOk(holders, n, inSize) && w < inSize && Covers(holders[q], w)
    requires forall r :: q < r < m ==> !Covers(holders[r], w)
    ensures InputOf(holders, n, inSize, m)[w] == holders[q].data[w - holders[q].first]
  {
    if q < m - 1 {
      assert !Covers(holders[m - 1], w);
      InputAt(holders, n, inSize, m - 1, q, w);
    }
  }

  lemma InputGiven(holders: seq<Holding>, n: nat, inSize: nat)
    requires HoldersOk(holders, n, inSize)
    ensures Given(holders, inSize, InputOf(holders, n, inSize, |holders|))
  {
    forall q: nat, w: nat | q < |holders| && LastCover(holders, q, w) && w < inSize
      ensures InputOf(holders, n, inSize, |holders|)[w] == holders[q].data[w - holders[q].first]
    {
      InputAt(holders, n, inSize, |holders|, q, w);
    }
  }

  /** The whole protocol from random masks on. A party whose offset is not zero finishes with the last wires of
      the one assignment that satisfies the circuit on the given input; another one reads its wires rightly only
      if every AND gate's masked output is 0. */
  method RunProtocol(hash: Hash, c: Circuit, n: nat, holders: seq<Holding>)
    returns (bmr: Bmr, ok: seq<bool>, outs: seq<seq<bit>>, ghost input: seq<bit>, ghost v: seq<bit>)
    requires n >= 1 && WellFormed(c) && HoldersOk(holders, n, c.inSize)
    ensures bmr.Shaped() && bmr.Opened() && bmr.n == |ok| == |outs| == n
    ensures forall p :: 0 <= p < n ==> PartyDone(c, input, bmr.openedBits[0], bmr.R[p],
                                                 bmr.Ks, ok[p], bmr.Lambda[p], bmr.pickeds[p], outs[p])
    ensures Given(holders, c.inSize, input) && Satisfies(c, input, v) && c.outSize <= |v|
    ensures forall p :: 0 <= p < n && bmr.R[p] != 0 ==> ok[p] && outs[p] == v[|v| - c.outSize..]
  {
    hide Bmr.Opened, HoldersOk, InputOf, Output, WellFormed, PartyDone, Satisfies, Given;
    bmr := new Bmr(hash, c, n);
    bmr.Offline();
    ok, outs := bmr.Online(holders);
    input := InputOf(holders, n, c.inSize, |holders|);
    InputGiven(holders, n, c.inSize);
    v := OneAssignment(c, input);
    OutputIs(c, input, v);
    forall p | 0 <= p < n && bmr.R[p] != 0
      ensures ok[p] && outs[p] == v[|v| - c.outSize..]
    {
      OffsetReads(c, input, bmr.openedBits[0], bmr.R[p], bmr.Ks, ok[p], bmr.Lambda[p], bmr.pickeds[p], outs[p]);
    }
  }

  lemma OffsetReads(c: Circuit, input: seq<bit>, bits: seq<bit>, R: Block, Ks: seq<seq<Block>>, ok: bool,
                    Lambda: seq<bit>, picked: seq<seq<Block>>, out: seq<bit>)
    requires PartyDone(c, input, bits, R, Ks, ok, Lambda, picked, out) && R != 0 && WellFormed(c) && |input| == c.inSize
    ensures ok && out == Output(c, input)
  {
    hide WellFormed, WiresOk, Values, Output;
  }

  /** All parties have every party's label for each input wire's masked bit. */
  lemma InputsArrive(input: seq<bit>, n: nat, inSize: nat, numWire: nat, openedBits: seq<seq<bit>>, Ks: seq<seq<Block>>,
                     Lambda: seq<seq<bit>>, pickeds: seq<seq<seq<Block>>>)
    requires |input| == inSize <= numWire && |openedBits| == |Ks| == |Lambda| == |pickeds| == n >= 1
    requires SameLength(openedBits, numWire) && SameLength(Lambda, numWire) && SameLength(Ks, 2 * numWire)
    requires Boards(pickeds, n, numWire)
    requires forall p :: 0 <= p < n ==> openedBits[p] == openedBits[0]
    requires forall p, w :: 0 <= p < n && 0 <= w < inSize ==> Lambda[p][w] == BitXor(input[w], openedBits[p][w])
    requires forall p, j, w :: 0 <= p < n && 0 <= j < n && 0 <= w < inSize ==> pickeds[p][j][w] == Ks[j][2 * w + Lambda[j][w]]
    ensures forall p :: 0 <= p < n ==> InputsIn(input, openedBits[0], Ks, Lambda[p], pickeds[p], numWire)
  {
    forall p | 0 <= p < n
      ensures InputsIn(input, openedBits[0], Ks, Lambda[p], pickeds[p], numWire)
    {
      forall w | 0 <= w < inSize
        ensures Lambda[p][w] == BitXor(input[w], openedBits[0][w])
        ensures |pickeds[p]| == |Ks| && forall j :: 0 <= j < n ==> pickeds[p][j][w] == Ks[j][2 * w + Lambda[p][w]]
      {
        assert openedBits[p] == openedBits[0] && Lambda[p][w] == BitXor(input[w], openedBits[p][w]);
        forall j | 0 <= j < n
          ensures pickeds[p][j][w] == Ks[j][2 * w + Lambda[p][w]]
        {
          assert openedBits[j] == openedBits[0] && Lambda[j][w] == BitXor(input[w], openedBits[j][w]);
          assert pickeds[p][j][w] == Ks[j][2 * w + Lambda[j][w]];
        }
      }
    }
  }

  method RandomBits(len: nat) returns (bits: seq<bit>)
    ensures |bits| == len
  {
    bits := [];
    for i := 0 to len
      invariant |bits| == i
    {
      var r := Random8();
      bits := bits + [r % 2];
    }
  }

  /** Random labels for the inputs, in pairs; the other wires' labels come later. */
  method InputLabels(inSize: nat, numWire: nat, R: Block) returns (K: seq<Block>)
    requires inSize <= numWire
    ensures |K| == 2 * numWire && forall w :: 0 <= w < inSize ==> PairOk(K, R, w)
  {
    hide BlockXor;
    K := seq(2 * numWire, _ => 0);
    for i := 0 to inSize
      invariant |K| == 2 * numWire && forall w :: 0 <= w < i ==> PairOk(K, R, w)
    {
      var r := RandomBlock();
      var r1 := BlockXor(r, R);
      var before := K;
      K := K[2 * i := r][2 * i + 1 := r1];
      assert forall w :: 0 <= w < i ==> PairOk(before, R, w) && PairOk(K, R, w);
    }
  }

  method AllMasks(c: Circuit, bits: seq<seq<bit>>) returns (m: seq<seq<bit>>)
    requires WellFormed(c) && SameLength(bits, c.numWire)
    ensures |m| == |bits| && SameLength(m, c.numWire)
    ensures forall p, i :: 0 <= p < |m| && 0 <= i < |c.gates| ==> MaskOk(c.gates[i], m[p], p == 0)
  {
    hide WellFormed, MaskOk;
    m := [];
    for p := 0 to |bits|
      invariant |m| == p && SameLength(m, c.numWire)
      invariant forall q, i :: 0 <= q < p && 0 <= i < |c.gates| ==> MaskOk(c.gates[i], m[q], q == 0)
    {
      var own := MaskGates(c, bits[p], p == 0);
      m := m + [own];
    }
  }

  method OpenAll(all: seq<seq<bit>>, len: nat) returns (bits: seq<seq<bit>>)
    requires SameLength(all, len)
    ensures |bits| == |all| && SameLength(bits, len)
    ensures forall p, w :: 0 <= p < |all| && 0 <= w < len ==> bits[p][w] == Parity(all, w, |all|)
  {
    bits := [];
    for p := 0 to |all|
      invariant |bits| == p && SameLength(bits, len)
      invariant forall q, w :: 0 <= q < p && 0 <= w < len ==> bits[q][w] == Parity(all, w, |all|)
    {
      var own := OpenBits(all, p, len);
      bits := bits + [own];
    }
  }

  /** Party p has prepared its labels and tables, and has kept its input labels. */
  ghost predicate PartyPrepared(c: Circuit, hash: Hash, n: nat, p: nat, bits: seq<bit>, R: Block, K0: seq<Block>,
                                K: seq<Block>, own: seq<Table>) {
    && Prepared(c, hash, n, p, bits, R, K, own, |c.gates|)
    && 2 * c.inSize <= |K0| == |K| && K[..2 * c.inSize] == K0[..2 * c.inSize]
  }

  method GarbleAll(c: Circuit, hash: Hash, n: nat, bits: seq<seq<bit>>, R: seq<Block>, K0: seq<seq<Block>>)
    returns (Ks: seq<seq<Block>>, own: seq<seq<Table>>)
    requires WellFormed(c) && |bits| == |R| == |K0| == n && SameLength(bits, c.numWire) && SameLength(K0, 2 * c.numWire)
    requires forall p, w :: 0 <= p < n && 0 <= w < c.inSize ==> PairOk(K0[p], R[p], w)
    ensures |Ks| == |own| == n
    ensures forall p :: 0 <= p < n ==> PartyPrepared(c, hash, n, p, bits[p], R[p], K0[p], Ks[p], own[p])
  {
    hide PairOk, Prepared;
    Ks, own := [], [];
    for p := 0 to n
      invariant |Ks| == |own| == p
      invariant forall q :: 0 <= q < p ==> PartyPrepared(c, hash, n, q, bits[q], R[q], K0[q], Ks[q], own[q])
    {
      var K, tabs := Garble(c, hash, n, p, bits[p], R[p], K0[p]);
      PreparedSizes(c, hash, n, p, bits[p], R[p], K, tabs);
      Ks, own := Ks + [K], own + [tabs];
    }
  }

  lemma PreparedSizes(c: Circuit, hash: Hash, n: nat, p: nat, bits: seq<bit>, R: Block, K: seq<Block>, tabs: seq<Table>)
    requires Prepared(c, hash, n, p, bits, R, K, tabs, |c.gates|)
    ensures |K| == 2 * c.numWire && |tabs| == TabPos(c, n, |c.gates|)
    ensures forall w :: 0 <= w < c.inSize && w < c.numWire ==> PairOk(K, R, w)
  {
    hide PairOk;
  }

  lemma PreparedShape(c: Circuit, hash: Hash, n: nat, bits: seq<seq<bit>>, R: seq<Block>, K0: seq<seq<Block>>,
                      Ks: seq<seq<Block>>, own: seq<seq<Table>>)
    requires WellFormed(c) && |bits| == |R| == |K0| == |Ks| == |own| == n
    requires forall p :: 0 <= p < n ==> PartyPrepared(c, hash, n, p, bits[p], R[p], K0[p], Ks[p], own[p])
    ensures SameLength(Ks, 2 * c.numWire)
    ensures forall p :: 0 <= p < n ==> |own[p]| == TabPos(c, n, |c.gates|)
    ensures forall p, w :: 0 <= p < n && 0 <= w < c.inSize ==> PairOk(Ks[p], R[p], w)
  {
    hide Prepared, PairOk;
    WellFormedSizes(c);
    forall p | 0 <= p < n
      ensures |Ks[p]| == 2 * c.numWire && |own[p]| == TabPos(c, n, |c.gates|)
      ensures forall w :: 0 <= w < c.inSize ==> PairOk(Ks[p], R[p], w)
    {
      assert PartyPrepared(c, hash, n, p, bits[p], R[p], K0[p], Ks[p], own[p]);
      PreparedSizes(c, hash, n, p, bits[p], R[p], Ks[p], own[p]);
    }
  }

  lemma WellFormedSizes(c: Circuit)
    requires WellFormed(c)
    ensures c.inSize <= c.numWire && c.outSize <= c.numWire
  {
  }

  ghost predicate TablesOpened(own: seq<seq<Table>>, tabs: seq<Table>, len: nat) {
    && |tabs| == len
    && forall i :: 0 <= i < len ==> TablesReach(own, i) && tabs[i] == TableSum(own, i, |own|)
  }

  method OpenAllTables(own: seq<seq<Table>>, len: nat) returns (tabs: seq<seq<Table>>)
    requires forall p :: 0 <= p < |own| ==> |own[p]| == len
    ensures |tabs| == |own| && forall p :: 0 <= p < |own| ==> TablesOpened(own, tabs[p], len)
  {
    tabs := [];
    for p := 0 to |own|
      invariant |tabs| == p && forall q :: 0 <= q < p ==> TablesOpened(own, tabs[q], len)
    {
      var t := OpenTables(own, p, len);
      tabs := tabs + [t];
    }
  }

  /** All parties open the same masks and tables. */
  lemma SameEverywhere(masks: seq<seq<bit>>, bits: seq<seq<bit>>, own: seq<seq<Table>>, tabs: seq<seq<Table>>, len: nat, size: nat)
    requires |bits| == |masks| && SameLength(masks, len) && SameLength(bits, len) && |tabs| == |own| == |bits| >= 1
    requires forall p, w :: 0 <= p < |masks| && 0 <= w < len ==> bits[p][w] == Parity(masks, w, |masks|)
    requires forall p :: 0 <= p < |own| ==> TablesOpened(own, tabs[p], size)
    ensures forall p :: 0 <= p < |bits| ==> bits[p] == bits[0] && tabs[p] == tabs[0]
  {
    hide Parity, TableSum;
    forall p | 0 <= p < |bits|
      ensures bits[p] == bits[0] && tabs[p] == tabs[0]
    {
      forall w | 0 <= w < len
        ensures bits[p][w] == bits[0][w]
      {
        assert bits[p][w] == Parity(masks, w, |masks|);
        assert bits[0][w] == Parity(masks, w, |masks|);
      }
      assert TablesOpened(own, tabs[p], size) && TablesOpened(own, tabs[0], size);
    }
  }

  /** Opened masks and tables fit everybody's labels. */
  lemma GarbledNow(c: Circuit, hash: Hash, masks: seq<seq<bit>>, bits: seq<bit>, R: seq<Block>, Ks: seq<seq<Block>>,
                   own: seq<seq<Table>>, tabs: seq<Table>)
    requires WellFormed(c) && |masks| == |R| == |Ks| == |own| >= 1 && SameLength(masks, c.numWire) && |bits| == c.numWire
    requires forall p, i :: 0 <= p < |masks| && 0 <= i < |c.gates| ==> MaskOk(c.gates[i], masks[p], p == 0)
    requires forall w :: 0 <= w < c.numWire ==> bits[w] == Parity(masks, w, |masks|)
    requires forall p :: 0 <= p < |R| ==> Prepared(c, hash, |R|, p, bits, R[p], Ks[p], own[p], |c.gates|)
    requires TablesOpened(own, tabs, TabPos(c, |R|, |c.gates|))
    ensures Garbled(c, hash, bits, R, Ks, tabs)
  {
    hide MaskOk, WellFormed, PairOk, LabelsOk, GateTables, GateGarbled, Parity, TabPos, TableSum;
    forall i | 0 <= i < |c.gates|
      ensures GateGarbled(c, hash, bits, R, Ks, tabs, i)
    {
      GateNow(c, hash, masks, bits, R, Ks, own, tabs, i);
    }
  }

  lemma GateNow(c: Circuit, hash: Hash, masks: seq<seq<bit>>, bits: seq<bit>, R: seq<Block>, Ks: seq<seq<Block>>,
                own: seq<seq<Table>>, tabs: seq<Table>, i: nat)
    requires WellFormed(c) && |masks| == |R| == |Ks| == |own| >= 1 && SameLength(masks, c.numWire) && |bits| == c.numWire
    requires i < |c.gates| && forall p :: 0 <= p < |masks| ==> MaskOk(c.gates[i], masks[p], p == 0)
    requires forall w :: 0 <= w < c.numWire ==> bits[w] == Parity(masks, w, |masks|)
    requires forall p :: 0 <= p < |R| ==> Prepared(c, hash, |R|, p, bits, R[p], Ks[p], own[p], |c.gates|)
    requires TablesOpened(own, tabs, TabPos(c, |R|, |c.gates|))
    ensures GateGarbled(c, hash, bits, R, Ks, tabs, i)
  {
    hide WellFormed, MaskOk, PairOk, TableOk, TabPos, TableSum, RowOpened;
    var g, n := c.gates[i], |R|;
    KnownWires(c, i);
    ParityGate(g, masks, c.numWire, n);
    forall j | 0 <= j < n
      ensures LabelsOk(g, Ks[j]) && PairOk(Ks[j], R[j], g.o)
    {
      hide GateTables;
      assert Prepared(c, hash, n, j, bits, R[j], Ks[j], own[j], |c.gates|);
    }
    if g.AndGate? {
      forall j, k | 0 <= j < n && 0 <= k < 4
        ensures RowOpened(hash, bits, Ks, g, i, j, k, tabs, TabPos(c, n, i))
      {
        RowNow(c, hash, bits, R, Ks, own, tabs, i, j, k);
      }
    }
  }

  lemma RowNow(c: Circuit, hash: Hash, bits: seq<bit>, R: seq<Block>, Ks: seq<seq<Block>>, own: seq<seq<Table>>,
               tabs: seq<Table>, i: nat, j: nat, k: nat)
    requires |R| == |Ks| == |own| && |bits| == c.numWire && i < |c.gates| && c.gates[i].AndGate? && j < |R| && k < 4
    requires c.gates[i].Within(c.numWire) && PairOk(Ks[j], R[j], c.gates[i].o)
    requires forall p :: 0 <= p < |R| ==> Prepared(c, hash, |R|, p, bits, R[p], Ks[p], own[p], |c.gates|)
    requires TablesOpened(own, tabs, TabPos(c, |R|, |c.gates|))
    ensures RowOpened(hash, bits, Ks, c.gates[i], i, j, k, tabs, TabPos(c, |R|, i))
  {
    hide Prepared, TabPos, TableOk, PairOk, TableSum, HashSum, Sbit, BlockXor, XorTables;
    var g, n := c.gates[i], |R|;
    var idx := TabPos(c, n, i) + j;
    forall p | 0 <= p < n
      ensures |Ks[p]| == 2 * c.numWire && idx < |own[p]| && TableOk(hash, p, bits, R[p], Ks[p], g, i, j, own[p][idx])
    {
      PartyTable(c, hash, n, p, bits, R[p], Ks[p], own[p], i, j);
    }
    TabPosGrows(c, n, i, |c.gates|);
    RowsAdd(hash, bits, R, Ks, own, idx, g, i, j, k, n);
  }

  /** What one party has prepared for one table of a gate. */
  lemma PartyTable(c: Circuit, hash: Hash, n: nat, p: nat, bits: seq<bit>, R: Block, K: seq<Block>, own: seq<Table>,
                   i: nat, j: nat)
    requires Prepared(c, hash, n, p, bits, R, K, own, |c.gates|) && i < |c.gates| && c.gates[i].AndGate? && j < n
    ensures |K| == 2 * c.numWire && TabPos(c, n, i) + j < |own|
    ensures TableOk(hash, p, bits, R, K, c.gates[i], i, j, own[TabPos(c, n, i) + j])
  {
    hide TabPos, TableOk, PairOk, LabelsOk, Known;
    assert GateTables(c, hash, n, p, bits, R, K, own, i);
    assert TableAt(hash, p, bits, R, K, c.gates[i], i, j, own, TabPos(c, n, i));
  }

  /** The input wires' masked bits and labels have arrived. */
  ghost predicate InputsIn(input: seq<bit>, bits: seq<bit>, Ks: seq<seq<Block>>, Lambda: seq<bit>, picked: seq<seq<Block>>, numWire: nat) {
    && |Lambda| == |bits| == numWire >= |input| && |picked| == |Ks| && SameLength(picked, numWire) && SameLength(Ks, 2 * numWire)
    && forall w :: 0 <= w < |input| ==>
         && Lambda[w] == BitXor(input[w], bits[w])
         && forall j :: 0 <= j < |Ks| ==> picked[j][w] == Ks[j][2 * w + Lambda[w]]
  }

  lemma InputWires(c: Circuit, input: seq<bit>, bits: seq<bit>, Ks: seq<seq<Block>>, Lambda: seq<bit>, picked: seq<seq<Block>>)
    requires WellFormed(c) && |input| == c.inSize && InputsIn(input, bits, Ks, Lambda, picked, c.numWire)
    ensures forall w :: 0 <= w < c.inSize ==> WireOk(Values(c, input), bits, Ks, Lambda, picked, w)
  {
    hide Values;
    WellFormedSizes(c);
    hide WellFormed;
    forall w | 0 <= w < c.inSize
      ensures WireOk(Values(c, input), bits, Ks, Lambda, picked, w)
    {
      InputValue(c, input, w);
    }
  }

  /** Every holder masks its inputs and sends them to all. */
  method MaskInputs(holders: seq<Holding>, n: nat, inSize: nat, openedBits: seq<seq<bit>>, Lambda0: seq<seq<bit>>, numWire: nat)
    returns (Lambda: seq<seq<bit>>)
    requires HoldersOk(holders, n, inSize) && |openedBits| == |Lambda0| == n && inSize <= numWire
    requires SameLength(openedBits, numWire) && SameLength(Lambda0, numWire)
    requires forall p :: 0 <= p < n ==> openedBits[p] == openedBits[0]
    ensures |Lambda| == n && SameLength(Lambda, numWire)
    ensures forall p, w :: 0 <= p < n && 0 <= w < inSize ==>
              Lambda[p][w] == BitXor(InputOf(holders, n, inSize, |holders|)[w], openedBits[p][w])
  {
    Lambda := Lambda0;
    for q := 0 to |holders|
      invariant |Lambda| == n && SameLength(Lambda, numWire)
      invariant forall p, w :: 0 <= p < n && 0 <= w < inSize && Covered(holders, q, w) ==>
                  Lambda[p][w] == BitXor(InputOf(holders, n, inSize, q)[w], openedBits[p][w])
    {
      var h := holders[q];
      var bits := seq(|h.data|, i requires 0 <= i < |h.data| => BitXor(h.data[i], openedBits[h.owner][h.first + i]));
      ghost var before := Lambda;
      Lambda := seq(n, p requires 0 <= p < n => Paste(Lambda[p], h.first, bits));
      forall p, w | 0 <= p < n && 0 <= w < inSize && Covered(holders, q + 1, w)
        ensures Lambda[p][w] == BitXor(InputOf(holders, n, inSize, q + 1)[w], openedBits[p][w])
      {
        MaskedBit(holders, n, inSize, q, openedBits[p], before[p], bits, w);
      }
    }
  }

  /** A wire that the next holder covers is masked anew, any other keeps what it had. */
  lemma MaskedBit(holders: seq<Holding>, n: nat, inSize: nat, q: nat, mask: seq<bit>, before: seq<bit>, bits: seq<bit>, w: nat)
    requires HoldersOk(holders, n, inSize) && q < |holders| && w < inSize <= |mask| == |before|
    requires |bits| == |holders[q].data|
    requires forall i :: 0 <= i < |bits| ==> bits[i] == BitXor(holders[q].data[i], mask[holders[q].first + i])
    requires Covered(holders, q, w) ==> before[w] == BitXor(InputOf(holders, n, inSize, q)[w], mask[w])
    requires Covered(holders, q + 1, w)
    ensures Paste(before, holders[q].first, bits)[w] == BitXor(InputOf(holders, n, inSize, q + 1)[w], mask[w])
  {
    var h := holders[q];
    assert InputOf(holders, n, inSize, q + 1) == Paste(InputOf(holders, n, inSize, q), h.first, h.data);
    if !Covers(h, w) {
      assert Covered(holders, q, w);
    } else {
      var i := w - h.first;
      assert bits[i] == BitXor(h.data[i], mask[h.first + i]);
    }
  }

  /** Every party sends the labels for the masked inputs to all. */
  method ExchangeLabels(n: nat, inSize: nat, numWire: nat, Ks: seq<seq<Block>>, Lambda: seq<seq<bit>>, pickeds0: seq<seq<seq<Block>>>)
    returns (pickeds: seq<seq<seq<Block>>>)
    requires |Ks| == |Lambda| == |pickeds0| == n && inSize <= numWire
    requires SameLength(Ks, 2 * numWire) && SameLength(Lambda, numWire)
    requires Boards(pickeds0, n, numWire)
    ensures Boards(pickeds, n, numWire)
    ensures forall p, j, w :: 0 <= p < n && 0 <= j < n && 0 <= w < inSize ==> pickeds[p][j][w] == Ks[j][2 * w + Lambda[j][w]]
  {
    var sent: seq<seq<Block>> := [];
    for j := 0 to n
      invariant |sent| == j && SameLength(sent, inSize)
      invariant forall q, w :: 0 <= q < j && 0 <= w < inSize ==> sent[q][w] == Ks[q][2 * w + Lambda[q][w]]
    {
      sent := sent + [seq(inSize, w requires 0 <= w < inSize => Ks[j][2 * w + Lambda[j][w]])];
    }
    pickeds := [];
    for p := 0 to n
      invariant |pickeds| == p && (forall q :: 0 <= q < p ==> |pickeds[q]| == n)
      invariant forall q, j :: 0 <= q < p && 0 <= j < n ==> |pickeds[q][j]| == numWire
      invariant forall q, j, w :: 0 <= q < p && 0 <= j < n && 0 <= w < inSize ==> pickeds[q][j][w] == sent[j][w]
    {
      pickeds := pickeds + [seq(n, j requires 0 <= j < n => Paste(pickeds0[p][j], 0, sent[j]))];
    }
  }

  /** The masks are taken off the output wires. */
  method ReadOutput(c: Circuit, bits: seq<bit>, Lambda: seq<bit>) returns (out: seq<bit>)
    requires c.outSize <= c.numWire == |bits| == |Lambda|
    ensures |out| == c.outSize
    ensures forall k :: 0 <= k < c.outSize ==>
              out[k] == BitXor(Lambda[c.numWire - c.outSize + k], bits[c.numWire - c.outSize + k])
  {
    out := [];
    for i := c.numWire - c.outSize to c.numWire
      invariant |out| == i - (c.numWire - c.outSize)
      invariant forall k :: 0 <= k < |out| ==>
                  out[k] == BitXor(Lambda[c.numWire - c.outSize + k], bits[c.numWire - c.outSize + k])
    {
      out := out + [BitXor(Lambda[i], bits[i])];
    }
  }

  lemma OutputRight(c: Circuit, input: seq<bit>, bits: seq<bit>, Ks: seq<seq<Block>>, Lambda: seq<bit>,
                    picked: seq<seq<Block>>, out: seq<bit>)
    requires WellFormed(c) && |input| == c.inSize && |bits| == |Lambda| == c.numWire && |out| == c.outSize
    requires WiresOk(c, |c.gates|, Values(c, input), bits, Ks, Lambda, picked)
    requires c.outSize <= c.numWire
    requires forall k :: 0 <= k < c.outSize ==>
               out[k] == BitXor(Lambda[c.numWire - c.outSize + k], bits[c.numWire - c.outSize + k])
    ensures out == Output(c, input)
  {
    hide Values, Known;
    var V, s := Values(c, input), c.numWire - c.outSize;
    forall k | 0 <= k < c.outSize
      ensures out[k] == V[s + k]
    {
      assert Known(c, |c.gates|, s + k);
      assert WireOk(V, bits, Ks, Lambda, picked, s + k);
    }
    assert out == V[s..];
  }
}
