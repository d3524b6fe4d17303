/** What one party does before the inputs are known: masks for the wires, label pairs, and its
    contribution to the garbled tables. */
module Garbling {
  import opened Bits
  import opened Blocks
  import opened BooleanCircuit

  /** The hash of two labels, the gate's number and the party's number. */
  type Hash = (Block, Block, nat, nat) -> Block

  /** The four rows of a garbled table. */
  type Table = t: seq<Block> | |t| == 4 witness [0, 0, 0, 0]

  lemma BlockXorLaws(x: Block, y: Block, z: Block)
    ensures BlockXor(x, y) == BlockXor(y, x)
    ensures BlockXor(BlockXor(x, y), z) == BlockXor(x, BlockXor(y, z))
    ensures BlockXor(x, x) == 0 && BlockXor(x, 0) == x && BlockXor(0, x) == x
  {
    XorComm(x, y);
    XorAssoc(x, y, z);
    XorSelf(x);
    XorComm(x, 0);
  }

  /** The mask of a gate's output; for an inverter one party flips it. */
  ghost predicate MaskOk(g: Gate, m: seq<bit>, flips: bool) {
    g.Within(|m|) &&
    match g
    case AndGate(_, _, _) => true
    case XorGate(a, b, o) => m[o] == BitXor(m[a], m[b])
    case NotGate(a, o) => m[o] == if flips then BitXor(m[a], 1) else m[a]
  }

  method MaskGates(c: Circuit, bits: seq<bit>, flips: bool) returns (m: seq<bit>)
    requires WellFormed(c) && |bits| == c.numWire
    ensures |m| == c.numWire && forall i :: 0 <= i < |c.gates| ==> MaskOk(c.gates[i], m, flips)
  {
    hide Known, Outs;
    m := bits;
    for i := 0 to |c.gates|
      invariant |m| == c.numWire && forall k :: 0 <= k < i ==> MaskOk(c.gates[k], m, flips)
    {
      var g := c.gates[i];
      assert Ready(c, i);
      OwnOutput(c, i);
      var before := m;
      if g.XorGate? {
        m := m[g.o := BitXor(m[g.a], m[g.b])];
      } else if g.NotGate? {
        m := m[g.o := if flips then BitXor(m[g.a], 1) else m[g.a]];
      }
      forall k | 0 <= k < i
        ensures MaskOk(c.gates[k], m, flips)
      {
        Distinct(c, k, i);
        assert MaskOk(c.gates[k], before, flips);
      }
    }
  }

  /** A gate does not read the wire it drives. */
  lemma OwnOutput(c: Circuit, i: nat)
    requires WellFormed(c) && i < |c.gates|
    ensures c.gates[i].Within(c.numWire) && c.gates[i].a != c.gates[i].o
    ensures !c.gates[i].NotGate? ==> c.gates[i].b != c.gates[i].o
  {
    assert Ready(c, i);
  }

  /** The first m parties' bits of wire w, added up. */
  ghost function Parity(all: seq<seq<bit>>, w: nat, m: nat): bit
    requires m <= |all| && forall p :: 0 <= p < |all| ==> w < |all[p]|
  {
    if m == 0 then 0 else BitXor(Parity(all, w, m - 1), all[m - 1][w])
  }

  /** Every party adds what the others sent to its own bits. */
  method OpenBits(all: seq<seq<bit>>, p: nat, len: nat) returns (openedBits: seq<bit>)
    requires p < |all|
    requires forall q :: 0 <= q < |all| ==> |all[q]| == len
    ensures |openedBits| == len && forall w :: 0 <= w < len ==> openedBits[w] == Parity(all, w, |all|)
  {
    openedBits := all[p];
    for q := 0 to |all|
      invariant |openedBits| == len
      invariant forall w :: 0 <= w < len ==>
                  openedBits[w] == if p < q then Parity(all, w, q) else BitXor(all[p][w], Parity(all, w, q))
    {
      if q != p {
        var ele := all[q];
        openedBits := seq(len, w requires 0 <= w < len => BitXor(openedBits[w], ele[w]));
      }
    }
  }

  /** The public masks of a gate's wires. */
  ghost predicate OpenedOk(g: Gate, openedBits: seq<bit>) {
    g.Within(|openedBits|) &&
    match g
    case AndGate(_, _, _) => true
    case XorGate(a, b, o) => openedBits[o] == BitXor(openedBits[a], openedBits[b])
    case NotGate(a, o) => openedBits[o] == BitXor(openedBits[a], 1)
  }

  /** Exactly one party flips an inverter's mask, so the public mask is flipped. */
  lemma {:induction false} ParityGate(g: Gate, all: seq<seq<bit>>, len: nat, m: nat)
    requires m <= |all| && forall p :: 0 <= p < |all| ==> |all[p]| == len && MaskOk(g, all[p], p == 0)
    requires g.Within(len)
    ensures match g
            case AndGate(_, _, _) => true
            case XorGate(a, b, o) => Parity(all, o, m) == BitXor(Parity(all, a, m), Parity(all, b, m))
            case NotGate(a, o) => Parity(all, o, m) == BitXor(Parity(all, a, m), if m == 0 then 0 else 1)
  {
    if m != 0 {
      ParityGate(g, all, len, m - 1);
      assert MaskOk(g, all[m - 1], m - 1 == 0);
    }
  }

  /** The pair of labels of wire w under the party's offset R. */
  ghost predicate PairOk(K: seq<Block>, R: Block, w: nat) {
    2 * w + 1 < |K| && K[2 * w + 1] == BlockXor(K[2 * w], R)
  }

  /** Labels of xor gates and inverters need no table. */
  ghost predicate LabelsOk(g: Gate, K: seq<Block>) {
    2 * g.a + 1 < |K| && 2 * g.o + 1 < |K| &&
    match g
    case AndGate(_, b, _) => 2 * b + 1 < |K|
    case XorGate(a, b, o) => 2 * b + 1 < |K| && K[2 * o] == BlockXor(K[2 * a], K[2 * b])
    case NotGate(a, o) => K[2 * o] == K[2 * a]
  }

  /** The masked output of an AND gate for masked inputs k % 2 and k / 2. */
  function Sbit(g: Gate, openedBits: seq<bit>, k: nat): bit
    requires g.AndGate? && g.Within(|openedBits|) && k < 4
  {
    BitXor(BitXor(openedBits[g.a], k % 2) * BitXor(openedBits[g.b], k / 2), openedBits[g.o])
  }

  /** Row k of one party's table for gate i and party j; its own table hides its output label. */
  function TableRow(hash: Hash, own: bool, openedBits: seq<bit>, R: Block, K: seq<Block>, g: Gate, i: nat, j: nat, k: nat): Block
    requires g.AndGate? && g.Within(|openedBits|) && |K| == 2 * |openedBits| && k < 4
  {
    var t := hash(K[2 * g.a + k % 2], K[2 * g.b + k / 2], i, j);
    if !own then t
    else if Sbit(g, openedBits, k) == 1 then BlockXor(BlockXor(t, K[2 * g.o]), R)
    else BlockXor(t, K[2 * g.o])
  }

  /** How many tables come before gate i's. */
  ghost function TabPos(c: Circuit, n: nat, i: nat): nat
    requires i <= |c.gates|
  {
    if i == 0 then 0 else TabPos(c, n, i - 1) + if c.gates[i - 1].AndGate? then n else 0
  }

  lemma {:induction false} TabPosGrows(c: Circuit, n: nat, i: nat, j: nat)
    requires i <= j <= |c.gates|
    ensures TabPos(c, n, i) <= TabPos(c, n, j)
    ensures i < j && c.gates[i].AndGate? ==> TabPos(c, n, i) + n <= TabPos(c, n, j)
    decreases j
  {
    if i < j {
      TabPosGrows(c, n, i, j - 1);
    }
  }

  /** Party p's table for gate i and party j. */
  ghost predicate TableOk(hash: Hash, p: nat, openedBits: seq<bit>, R: Block, K: seq<Block>, g: Gate, i: nat, j: nat, t: Table) {
    && g.AndGate? && g.Within(|openedBits|) && |K| == 2 * |openedBits|
    && forall k :: 0 <= k < 4 ==> t[k] == TableRow(hash, p == j, openedBits, R, K, g, i, j, k)
  }

  /** The table for party j stands j places after the gate's first. */
  ghost predicate TableAt(hash: Hash, p: nat, openedBits: seq<bit>, R: Block, K: seq<Block>, g: Gate, i: nat, j: nat,
                          tabs: seq<Table>, first: nat) {
    first + j < |tabs| && TableOk(hash, p, openedBits, R, K, g, i, j, tabs[first + j])
  }

  /** Party p's tables for gate i, one per party. */
  ghost predicate GateTables(c: Circuit, hash: Hash, n: nat, p: nat, openedBits: seq<bit>, R: Block, K: seq<Block>,
                             tabs: seq<Table>, i: nat)
    requires i < |c.gates|
  {
    c.gates[i].AndGate? ==>
      forall j :: 0 <= j < n ==> TableAt(hash, p, openedBits, R, K, c.gates[i], i, j, tabs, TabPos(c, n, i))
  }

  /** Everything party p has prepared for the gates before i. */
  ghost predicate Prepared(c: Circuit, hash: Hash, n: nat, p: nat, openedBits: seq<bit>, R: Block, K: seq<Block>,
                           tabs: seq<Table>, i: nat) {
    && i <= |c.gates| && |openedBits| == c.numWire && |K| == 2 * c.numWire && |tabs| == TabPos(c, n, i)
    && (forall w :: 0 <= w < c.numWire && Known(c, i, w) ==> PairOk(K, R, w))
    && (forall g :: 0 <= g < i ==> LabelsOk(c.gates[g], K))
    && (forall g :: 0 <= g < i ==> GateTables(c, hash, n, p, openedBits, R, K, tabs, g))
  }

  /** The tables of one AND gate, added at the end. */
  method GarbleAnd(hash: Hash, n: nat, p: nat, openedBits: seq<bit>, R: Block, K: seq<Block>, g: Gate, i: nat, tabs: seq<Table>)
    returns (more: seq<Table>)
    requires g.AndGate? && g.Within(|openedBits|) && |K| == 2 * |openedBits|
    ensures tabs <= more && |more| == |tabs| + n
    ensures forall j :: 0 <= j < n ==> TableAt(hash, p, openedBits, R, K, g, i, j, more, |tabs|)
  {
    hide TableRow;
    more := tabs;
    for j := 0 to n
      invariant tabs <= more && |more| == |tabs| + j
      invariant forall q :: 0 <= q < j ==> TableAt(hash, p, openedBits, R, K, g, i, q, more, |tabs|)
    {
      var temp: seq<Block> := [];
      for k := 0 to 4
        invariant |temp| == k
        invariant forall l :: 0 <= l < k ==> temp[l] == TableRow(hash, p == j, openedBits, R, K, g, i, j, l)
      {
        temp := temp + [TableRow(hash, p == j, openedBits, R, K, g, i, j, k)];
      }
      var before := more;
      more := more + [temp];
      forall q | 0 <= q <= j
        ensures TableAt(hash, p, openedBits, R, K, g, i, q, more, |tabs|)
      {
        assert q < j ==> TableAt(hash, p, openedBits, R, K, g, i, q, before, |tabs|);
      }
    }
  }

  /** A gate's labels and tables are not touched when a later gate's output labels are set. */
  lemma EarlierKept(c: Circuit, hash: Hash, n: nat, p: nat, openedBits: seq<bit>, R: Block, K: seq<Block>, K': seq<Block>,
                    tabs: seq<Table>, tabs': seq<Table>, i: nat, g: nat)
    requires WellFormed(c) && g < i < |c.gates| && |K| == |K'| == 2 * c.numWire && tabs <= tabs' && |openedBits| == c.numWire
    requires forall x :: 0 <= x < |K| && x != 2 * c.gates[i].o && x != 2 * c.gates[i].o + 1 ==> K[x] == K'[x]
    requires LabelsOk(c.gates[g], K) && GateTables(c, hash, n, p, openedBits, R, K, tabs, g)
    ensures LabelsOk(c.gates[g], K') && GateTables(c, hash, n, p, openedBits, R, K', tabs', g)
  {
    hide WellFormed, BlockXor, TabPos, Sbit;
    Distinct(c, g, i);
    var gate := c.gates[g];
    assert K[2 * gate.a] == K'[2 * gate.a] && K[2 * gate.a + 1] == K'[2 * gate.a + 1] && K[2 * gate.o] == K'[2 * gate.o];
    assert !gate.NotGate? ==> K[2 * gate.b] == K'[2 * gate.b] && K[2 * gate.b + 1] == K'[2 * gate.b + 1];
    if gate.AndGate? {
      forall j | 0 <= j < n
        ensures TableAt(hash, p, openedBits, R, K', gate, g, j, tabs', TabPos(c, n, g))
      {
        assert TableAt(hash, p, openedBits, R, K, gate, g, j, tabs, TabPos(c, n, g));
        SameRows(hash, p, openedBits, R, K, K', gate, g, j, tabs[TabPos(c, n, g) + j]);
      }
    }
  }

  lemma SameRows(hash: Hash, p: nat, openedBits: seq<bit>, R: Block, K: seq<Block>, K': seq<Block>, g: Gate, i: nat, j: nat, t: Table)
    requires TableOk(hash, p, openedBits, R, K, g, i, j, t) && |K| == |K'|
    requires K[2 * g.a] == K'[2 * g.a] && K[2 * g.a + 1] == K'[2 * g.a + 1] && K[2 * g.o] == K'[2 * g.o]
    requires K[2 * g.b] == K'[2 * g.b] && K[2 * g.b + 1] == K'[2 * g.b + 1]
    ensures TableOk(hash, p, openedBits, R, K', g, i, j, t)
  {
    hide BlockXor, Sbit;
    forall k | 0 <= k < 4
      ensures t[k] == TableRow(hash, p == j, openedBits, R, K', g, i, j, k)
    {
      assert t[k] == TableRow(hash, p == j, openedBits, R, K, g, i, j, k);
      assert k % 2 == 0 || k % 2 == 1;
      assert k / 2 == 0 || k / 2 == 1;
    }
  }

  /** The labels of gate i's output. */
  method OutputLabels(g: Gate, R: Block, K: seq<Block>, len: nat) returns (K': seq<Block>)
    requires g.Within(len) && |K| == 2 * len && g.a != g.o && (!g.NotGate? ==> g.b != g.o)
    requires g.NotGate? ==> PairOk(K, R, g.a)
    ensures |K'| == |K| && LabelsOk(g, K') && PairOk(K', R, g.o)
    ensures forall x :: 0 <= x < |K| && x != 2 * g.o && x != 2 * g.o + 1 ==> K'[x] == K[x]
  {
    hide BlockXor;
    match g
    case AndGate(_, _, o) =>
      var r := RandomBlock();
      K' := K[2 * o := r][2 * o + 1 := BlockXor(r, R)];
    case XorGate(a, b, o) =>
      var k0 := BlockXor(K[2 * a], K[2 * b]);
      K' := K[2 * o := k0][2 * o + 1 := BlockXor(k0, R)];
    case NotGate(a, o) =>
      K' := K[2 * o := K[2 * a]][2 * o + 1 := K[2 * a + 1]];
  }

  /** One party's labels and tables for the whole circuit. */
  method Garble(c: Circuit, hash: Hash, n: nat, p: nat, openedBits: seq<bit>, R: Block, K0: seq<Block>)
    returns (K: seq<Block>, tabs: seq<Table>)
    requires WellFormed(c) && |openedBits| == c.numWire && |K0| == 2 * c.numWire
    requires forall w :: 0 <= w < c.inSize ==> PairOk(K0, R, w)
    ensures Prepared(c, hash, n, p, openedBits, R, K, tabs, |c.gates|)
    ensures K[..2 * c.inSize] == K0[..2 * c.inSize]
  {
    hide GateTables, LabelsOk, PairOk, TableAt, BlockXor;
    K, tabs := K0, [];
    for i := 0 to |c.gates|
      invariant Prepared(c, hash, n, p, openedBits, R, K, tabs, i)
      invariant K[..2 * c.inSize] == K0[..2 * c.inSize]
    {
      var g := c.gates[i];
      assert Ready(c, i);
      OwnOutput(c, i);
      assert g.NotGate? ==> PairOk(K, R, g.a);
      var K' := OutputLabels(g, R, K, c.numWire);
      var tabs' := tabs;
      if g.AndGate? {
        tabs' := GarbleAnd(hash, n, p, openedBits, R, K', g, i, tabs);
      }
      PreparedNext(c, hash, n, p, openedBits, R, K, K', tabs, tabs', i);
      assert K'[..2 * c.inSize] == K[..2 * c.inSize];
      K, tabs := K', tabs';
    }
  }

  lemma PreparedNext(c: Circuit, hash: Hash, n: nat, p: nat, openedBits: seq<bit>, R: Block, K: seq<Block>, K': seq<Block>,
                     tabs: seq<Table>, tabs': seq<Table>, i: nat)
    requires WellFormed(c) && i < |c.gates| && Prepared(c, hash, n, p, openedBits, R, K, tabs, i)
    requires |K'| == |K| && LabelsOk(c.gates[i], K') && PairOk(K', R, c.gates[i].o)
    requires forall x :: 0 <= x < |K| && x != 2 * c.gates[i].o && x != 2 * c.gates[i].o + 1 ==> K'[x] == K[x]
    requires tabs <= tabs' && |tabs'| == TabPos(c, n, i + 1)
    requires c.gates[i].AndGate? ==>
               forall j :: 0 <= j < n ==> TableAt(hash, p, openedBits, R, K', c.gates[i], i, j, tabs', |tabs|)
    ensures Prepared(c, hash, n, p, openedBits, R, K', tabs', i + 1)
  {
    forall w | 0 <= w < c.numWire && Known(c, i + 1, w)
      ensures PairOk(K', R, w)
    {
      if w != c.gates[i].o {
        assert Known(c, i, w);
        assert PairOk(K, R, w);
      }
    }
    forall g | 0 <= g < i + 1
      ensures LabelsOk(c.gates[g], K') && GateTables(c, hash, n, p, openedBits, R, K', tabs', g)
    {
      hide TableAt, LabelsOk, PairOk;
      if g < i {
        hide GateTables;
        EarlierKept(c, hash, n, p, openedBits, R, K, K', tabs, tabs', i, g);
      }
    }
  }
}
