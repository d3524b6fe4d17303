/** The opened tables, and one party's walk through the garbled circuit: the opened row of a gate
    decodes to the output label, and the party reads the masked bit from its own label. */
module GarbledEvaluation {
  import opened Bits
  import opened Blocks
  import opened BooleanCircuit
  import opened Garbling

  function XorTables(s: Table, t: Table): Table {
    seq(4, k requires 0 <= k < 4 => BlockXor(s[k], t[k]))
  }

  lemma XorTablesLaws(x: Table, y: Table, z: Table)
    ensures XorTables(x, y) == XorTables(y, x)
    ensures XorTables(XorTables(x, y), z) == XorTables(x, XorTables(y, z))
    ensures XorTables(x, [0, 0, 0, 0]) == x
  {
    hide BlockXor;
    forall k | 0 <= k < 4
      ensures XorTables(x, y)[k] == XorTables(y, x)[k]
      ensures XorTables(XorTables(x, y), z)[k] == XorTables(x, XorTables(y, z))[k]
      ensures XorTables(x, [0, 0, 0, 0])[k] == x[k]
    {
      BlockXorLaws(x[k], y[k], z[k]);
    }
  }

  /** The first m parties' tables at one place, added up. */
  ghost function TableSum(all: seq<seq<Table>>, idx: nat, m: nat): Table
    requires m <= |all| && TablesReach(all, idx)
  {
    if m == 0 then [0, 0, 0, 0] else XorTables(TableSum(all, idx, m - 1), all[m - 1][idx])
  }

  ghost predicate TablesReach(all: seq<seq<Table>>, idx: nat) {
    forall p :: 0 <= p < |all| ==> idx < |all[p]|
  }

  /** Every party adds the tables that the others sent to its own. */
  method OpenTables(all: seq<seq<Table>>, p: nat, len: nat) returns (tabs: seq<Table>)
    requires p < |all|
    requires forall q :: 0 <= q < |all| ==> |all[q]| == len
    ensures |tabs| == len
    ensures forall i :: 0 <= i < len ==> TablesReach(all, i) && tabs[i] == TableSum(all, i, |all|)
  {
    hide XorTables;
    tabs := all[p];
    forall i | 0 <= i < len
      ensures TablesReach(all, i)
    {
    }
    forall i | 0 <= i < len
      ensures XorTables(all[p][i], [0, 0, 0, 0]) == all[p][i]
    {
      XorTablesLaws(all[p][i], [0, 0, 0, 0], [0, 0, 0, 0]);
    }
    for q := 0 to |all|
      invariant |tabs| == len
      invariant forall i :: 0 <= i < len ==>
                  tabs[i] == if p < q then TableSum(all, i, q) else XorTables(all[p][i], TableSum(all, i, q))
    {
      forall i | 0 <= i < len
        ensures XorTables(XorTables(all[p][i], TableSum(all, i, q)), all[q][i]) == XorTables(all[p][i], TableSum(all, i, q + 1))
        ensures XorTables(all[p][i], TableSum(all, i, p)) == TableSum(all, i, p + 1)
      {
        XorTablesLaws(all[p][i], TableSum(all, i, q), all[q][i]);
        XorTablesLaws(all[p][i], TableSum(all, i, p), all[q][i]);
      }
      if q != p {
        var temp := all[q];
        tabs := seq(len, i requires 0 <= i < len => XorTables(tabs[i], temp[i]));
      }
    }
  }

  /** The first m parties' hashes of their labels for one table row. */
  ghost function HashSum(hash: Hash, ka: seq<Block>, kb: seq<Block>, i: nat, j: nat, m: nat): Block
    requires m <= |ka| && m <= |kb|
  {
    if m == 0 then 0 else BlockXor(HashSum(hash, ka, kb, i, j, m - 1), hash(ka[m - 1], kb[m - 1], i, j))
  }

  /** All parties' labels at one place. */
  function Column(Ks: seq<seq<Block>>, x: nat): (s: seq<Block>)
    requires forall q :: 0 <= q < |Ks| ==> x < |Ks[q]|
    ensures |s| == |Ks|
  {
    seq(|Ks|, q requires 0 <= q < |Ks| => Ks[q][x])
  }

  ghost predicate SameLength<T>(all: seq<seq<T>>, len: nat) {
    forall q :: 0 <= q < |all| ==> |all[q]| == len
  }

  /** The opened row k: the hashes of everybody's labels hide party j's output label. */
  ghost predicate RowOpened(hash: Hash, openedBits: seq<bit>, Ks: seq<seq<Block>>, g: Gate, i: nat, j: nat, k: nat,
                            tabs: seq<Table>, first: nat) {
    && g.AndGate? && g.Within(|openedBits|) && SameLength(Ks, 2 * |openedBits|) && j < |Ks| && k < 4
    && first + j < |tabs|
    && tabs[first + j][k] == BlockXor(HashSum(hash, Column(Ks, 2 * g.a + k % 2), Column(Ks, 2 * g.b + k / 2), i, j, |Ks|),
                        Ks[j][2 * g.o + Sbit(g, openedBits, k)])
  }

  /** Adding up the parties' rows: only the owner's contains an output label. */
  lemma {:induction false} RowsAdd(hash: Hash, openedBits: seq<bit>, R: seq<Block>, Ks: seq<seq<Block>>, all: seq<seq<Table>>,
                                   idx: nat, g: Gate, i: nat, j: nat, k: nat, m: nat)
    requires g.AndGate? && g.Within(|openedBits|) && SameLength(Ks, 2 * |openedBits|) && k < 4
    requires m <= |Ks| == |R| == |all| && j < |Ks| && TablesReach(all, idx) && PairOk(Ks[j], R[j], g.o)
    requires forall p :: 0 <= p < |Ks| ==> TableOk(hash, p, openedBits, R[p], Ks[p], g, i, j, all[p][idx])
    ensures var sum := HashSum(hash, Column(Ks, 2 * g.a + k % 2), Column(Ks, 2 * g.b + k / 2), i, j, m);
            TableSum(all, idx, m)[k] ==
            if j < m then BlockXor(sum, Ks[j][2 * g.o + Sbit(g, openedBits, k)]) else sum
  {
    hide BlockXor, Sbit;
    if m != 0 {
      RowsAdd(hash, openedBits, R, Ks, all, idx, g, i, j, k, m - 1);
      var p := m - 1;
      assert TableOk(hash, p, openedBits, R[p], Ks[p], g, i, j, all[p][idx]);
      var sum := HashSum(hash, Column(Ks, 2 * g.a + k % 2), Column(Ks, 2 * g.b + k / 2), i, j, p);
      var h := hash(Ks[p][2 * g.a + k % 2], Ks[p][2 * g.b + k / 2], i, j);
      assert all[p][idx][k] == TableRow(hash, p == j, openedBits, R[p], Ks[p], g, i, j, k);
      var lbl := Ks[j][2 * g.o + Sbit(g, openedBits, k)];
      BlockXorLaws(sum, h, lbl);
      BlockXorLaws(sum, lbl, h);
      BlockXorLaws(h, lbl, 0);
      BlockXorLaws(h, Ks[j][2 * g.o], R[j]);
    }
  }

  /** What the parties hold when the tables have been opened. */
  ghost predicate Garbled(c: Circuit, hash: Hash, openedBits: seq<bit>, R: seq<Block>, Ks: seq<seq<Block>>, tabs: seq<Table>) {
    && WellFormed(c) && |R| == |Ks| >= 1 && |openedBits| == c.numWire && SameLength(Ks, 2 * c.numWire)
    && |tabs| == TabPos(c, |Ks|, |c.gates|)
    && (forall i :: 0 <= i < |c.gates| ==> GateGarbled(c, hash, openedBits, R, Ks, tabs, i))
    && (forall j, w :: 0 <= j < |Ks| && 0 <= w < c.numWire && Known(c, |c.gates|, w) ==> PairOk(Ks[j], R[j], w))
  }

  ghost predicate GateGarbled(c: Circuit, hash: Hash, openedBits: seq<bit>, R: seq<Block>, Ks: seq<seq<Block>>,
                              tabs: seq<Table>, i: nat)
    requires i < |c.gates|
  {
    var g, n := c.gates[i], |Ks|;
    && OpenedOk(g, openedBits)
    && (forall j :: 0 <= j < n ==> LabelsOk(g, Ks[j]))
    && (g.AndGate? ==>
          forall j, k :: 0 <= j < n && 0 <= k < 4 ==> RowOpened(hash, openedBits, Ks, g, i, j, k, tabs, TabPos(c, n, i)))
  }

  datatype Verdict = Value(bit: bit) | Corrupted

  /** What a party makes of its own label of a wire. */
  function Judge(picked: Block, k0: Block, R: Block): Verdict {
    if picked == k0 then Value(0)
    else if picked == BlockXor(k0, R) then Value(1)
    else Corrupted
  }

  /** A label of the party is never taken for corrupted; its bit is read correctly exactly if the
      party's offset is not zero or the bit is 0. */
  lemma JudgeReads(K: seq<Block>, R: Block, w: nat, l: bit)
    requires PairOk(K, R, w)
    ensures Judge(K[2 * w + l], K[2 * w], R) != Corrupted
    ensures Judge(K[2 * w + l], K[2 * w], R) == Value(l) <==> R != 0 || l == 0
  {
    hide BlockXor;
    var k0 := K[2 * w];
    BlockXorLaws(k0, k0, R);
    BlockXorLaws(k0, R, 0);
    assert BlockXor(k0, R) == k0 ==> BlockXor(BlockXor(k0, k0), R) == BlockXor(k0, k0) == 0;
    BlockXorLaws(R, R, R);
  }

  /** Wire w is evaluated: its masked bit and everybody's label for it are right. */
  ghost predicate WireOk(V: seq<bit>, openedBits: seq<bit>, Ks: seq<seq<Block>>, Lambda: seq<bit>,
                         picked: seq<seq<Block>>, w: nat) {
    && |Lambda| == |openedBits| == |V| && |picked| == |Ks| && SameLength(picked, |V|) && SameLength(Ks, 2 * |V|)
    && w < |V| && Lambda[w] == BitXor(V[w], openedBits[w])
    && forall j :: 0 <= j < |Ks| ==> picked[j][w] == Ks[j][2 * w + Lambda[w]]
  }

  /** The hashes of one party's row, over the labels everybody has revealed. */
  method HashAll(hash: Hash, picked: seq<seq<Block>>, g: Gate, i: nat, j: nat, len: nat) returns (temp: Block)
    requires g.AndGate? && g.Within(len) && SameLength(picked, len)
    ensures temp == HashSum(hash, Column(picked, g.a), Column(picked, g.b), i, j, |picked|)
  {
    hide BlockXor;
    temp := 0;
    for k := 0 to |picked|
      invariant temp == HashSum(hash, Column(picked, g.a), Column(picked, g.b), i, j, k)
    {
      temp := BlockXor(temp, hash(picked[k][g.a], picked[k][g.b], i, j));
    }
  }

  /** Where a table keeps the row for the masked inputs lu and lv. */
  function RowIndex(lu: bit, lv: bit): (k: nat)
    ensures k < 4 && k % 2 == lu && k / 2 == lv
  {
    (lv as int) * 2 + lu
  }

  /** Row Lv*2 + Lu of the opened table, without the hashes, is the label for the masked output. */
  lemma RowDecodes(c: Circuit, hash: Hash, openedBits: seq<bit>, R: seq<Block>, Ks: seq<seq<Block>>, tabs: seq<Table>,
                   V: seq<bit>, Lambda: seq<bit>, picked: seq<seq<Block>>, i: nat, j: nat)
    requires i < |c.gates| && GateGarbled(c, hash, openedBits, R, Ks, tabs, i) && j < |Ks| && |R| == |Ks|
    requires |V| == |openedBits| && c.gates[i].AndGate? && V[c.gates[i].o] == Apply(c.gates[i], V)
    requires WireOk(V, openedBits, Ks, Lambda, picked, c.gates[i].a) && WireOk(V, openedBits, Ks, Lambda, picked, c.gates[i].b)
    ensures TabPos(c, |Ks|, i) + j < |tabs|
    ensures var g := c.gates[i];
            BlockXor(tabs[TabPos(c, |Ks|, i) + j][RowIndex(Lambda[g.a], Lambda[g.b])],
                     HashSum(hash, Column(picked, g.a), Column(picked, g.b), i, j, |Ks|))
            == Ks[j][2 * g.o + BitXor(V[g.o], openedBits[g.o])]
  {
    hide BlockXor, HashSum, TabPos;
    var g, n := c.gates[i], |Ks|;
    var k := RowIndex(Lambda[g.a], Lambda[g.b]);
    assert RowOpened(hash, openedBits, Ks, g, i, j, k, tabs, TabPos(c, n, i));
    assert k % 2 == Lambda[g.a] && k / 2 == Lambda[g.b];
    assert Column(picked, g.a) == Column(Ks, 2 * g.a + k % 2);
    assert Column(picked, g.b) == Column(Ks, 2 * g.b + k / 2);
    var sum := HashSum(hash, Column(picked, g.a), Column(picked, g.b), i, j, n);
    var lbl := Ks[j][2 * g.o + Sbit(g, openedBits, k)];
    assert BitXor(Lambda[g.a], openedBits[g.a]) == V[g.a] && BitXor(Lambda[g.b], openedBits[g.b]) == V[g.b];
    assert Sbit(g, openedBits, k) == BitXor(V[g.o], openedBits[g.o]);
    BlockXorLaws(lbl, sum, sum);
    BlockXorLaws(sum, lbl, 0);
    BlockXorLaws(lbl, 0, 0);
    BlockXorLaws(sum, sum, 0);
  }

  /** The free gates: labels add up, or pass through. */
  lemma FreeGate(c: Circuit, hash: Hash, openedBits: seq<bit>, R: seq<Block>, Ks: seq<seq<Block>>, tabs: seq<Table>,
                 V: seq<bit>, i: nat, j: nat, la: bit, lb: bit)
    requires i < |c.gates| && Garbled(c, hash, openedBits, R, Ks, tabs) && j < |Ks|
    requires |V| == |openedBits| && c.gates[i].Within(|V|) && V[c.gates[i].o] == Apply(c.gates[i], V)
    requires la == BitXor(V[c.gates[i].a], openedBits[c.gates[i].a])
    requires c.gates[i].XorGate? ==> lb == BitXor(V[c.gates[i].b], openedBits[c.gates[i].b])
    ensures var g := c.gates[i];
            match g
            case AndGate(_, _, _) => true
            case XorGate(a, b, o) =>
              && BitXor(V[o], openedBits[o]) == BitXor(la, lb)
              && BlockXor(Ks[j][2 * a + la], Ks[j][2 * b + lb]) == Ks[j][2 * o + BitXor(la, lb)]
            case NotGate(a, o) => BitXor(V[o], openedBits[o]) == la && Ks[j][2 * a + la] == Ks[j][2 * o + la]
  {
    hide BlockXor, RowOpened, WellFormed, TabPos;
    var g, K := c.gates[i], Ks[j];
    assert GateGarbled(c, hash, openedBits, R, Ks, tabs, i);
    assert LabelsOk(g, K);
    KnownWires(c, i);
    assert PairOk(K, R[j], g.a) && PairOk(K, R[j], g.o);
    if g.XorGate? {
      assert PairOk(K, R[j], g.b);
      XorPairs(K[2 * g.a], K[2 * g.b], R[j]);
    }
  }

  lemma XorPairs(x: Block, y: Block, r: Block)
    ensures BlockXor(BlockXor(x, r), y) == BlockXor(BlockXor(x, y), r)
    ensures BlockXor(x, BlockXor(y, r)) == BlockXor(BlockXor(x, y), r)
    ensures BlockXor(BlockXor(x, r), BlockXor(y, r)) == BlockXor(x, y)
  {
    hide BlockXor;
    BlockXorLaws(x, y, r);
    BlockXorLaws(x, r, y);
    BlockXorLaws(r, y, r);
    BlockXorLaws(x, r, BlockXor(y, r));
    BlockXorLaws(r, BlockXor(y, r), r);
    BlockXorLaws(y, r, r);
    BlockXorLaws(r, r, 0);
    BlockXorLaws(y, 0, 0);
  }

  /** A gate's wires are known at the end. */
  lemma KnownWires(c: Circuit, i: nat)
    requires WellFormed(c) && i < |c.gates|
    ensures var g := c.gates[i];
            && g.Within(c.numWire) && Known(c, |c.gates|, g.a) && Known(c, |c.gates|, g.o)
            && (!g.NotGate? ==> Known(c, |c.gates|, g.b))
  {
    assert Ready(c, i);
    KnownLater(c, i, |c.gates|, c.gates[i].a);
    KnownLater(c, i + 1, |c.gates|, c.gates[i].o);
    if !c.gates[i].NotGate? {
      KnownLater(c, i, |c.gates|, c.gates[i].b);
    }
  }

  /** Nothing but wire o has changed. */
  ghost predicate OnlyWire(Lambda: seq<bit>, picked: seq<seq<Block>>, Lambda': seq<bit>, picked': seq<seq<Block>>, o: nat) {
    && |Lambda'| == |Lambda| && |picked'| == |picked| && SameLength(picked, |Lambda|) && SameLength(picked', |Lambda|)
    && (forall w :: 0 <= w < |Lambda| && w != o ==> Lambda'[w] == Lambda[w])
    && (forall j, w :: 0 <= j < |picked| && 0 <= w < |Lambda| && w != o ==> picked'[j][w] == picked[j][w])
  }

  lemma WireKept(V: seq<bit>, openedBits: seq<bit>, Ks: seq<seq<Block>>, Lambda: seq<bit>, picked: seq<seq<Block>>,
                 Lambda': seq<bit>, picked': seq<seq<Block>>, o: nat, w: nat)
    requires OnlyWire(Lambda, picked, Lambda', picked', o) && w != o && WireOk(V, openedBits, Ks, Lambda, picked, w)
    ensures WireOk(V, openedBits, Ks, Lambda', picked', w)
  {
  }

  /** With an offset of 0 both labels are the same, and a party never reads a 1. */
  lemma JudgeZero(picked: Block, k0: Block)
    ensures Judge(picked, k0, 0) != Value(1)
  {
    hide BlockXor;
    BlockXorLaws(k0, 0, 0);
  }

  /** An AND gate: a label for every party, and the masked bit from the own label. */
  method EvaluateAnd(c: Circuit, hash: Hash, p: nat, openedBits: seq<bit>, K: seq<Block>, R: Block, tabs: seq<Table>,
                     i: nat, itrTab: nat, Lambda0: seq<bit>, picked0: seq<seq<Block>>, ghost right: bool,
                     ghost Rs: seq<Block>, ghost Ks: seq<seq<Block>>, ghost V: seq<bit>)
    returns (ok: bool, Lambda: seq<bit>, picked: seq<seq<Block>>)
    requires Garbled(c, hash, openedBits, Rs, Ks, tabs) && i < |c.gates| && c.gates[i].AndGate?
    requires p < |Ks| && K == Ks[p] && R == Rs[p] && itrTab == TabPos(c, |Ks|, i)
    requires c.gates[i].Within(|V|) && |V| == |openedBits| && V[c.gates[i].o] == Apply(c.gates[i], V)
    requires |Lambda0| == |V| && |picked0| == |Ks| && SameLength(picked0, |V|)
    requires right ==> R != 0 || V[c.gates[i].o] == openedBits[c.gates[i].o]
    requires right ==> WireOk(V, openedBits, Ks, Lambda0, picked0, c.gates[i].a)
    requires right ==> WireOk(V, openedBits, Ks, Lambda0, picked0, c.gates[i].b)
    ensures OnlyWire(Lambda0, picked0, Lambda, picked, c.gates[i].o)
    ensures right ==> ok && WireOk(V, openedBits, Ks, Lambda, picked, c.gates[i].o)
    ensures ok && R == 0 ==> Lambda[c.gates[i].o] == 0
  {
    hide BlockXor, HashSum, TabPos, GateGarbled, Judge, WellFormed, Apply;
    var g := c.gates[i];
    OwnOutput(c, i);
    KnownWires(c, i);
    assert GateGarbled(c, hash, openedBits, Rs, Ks, tabs, i);
    assert PairOk(K, R, g.o);
    ghost var lo := BitXor(V[g.o], openedBits[g.o]);
    ok, Lambda, picked := true, Lambda0, picked0;
    for j := 0 to |picked|
      invariant ok && OnlyWire(Lambda0, picked0, Lambda, picked, g.o)
      invariant right ==> forall q :: 0 <= q < j ==> picked[q][g.o] == Ks[q][2 * g.o + lo]
      invariant right && p < j ==> Lambda[g.o] == lo
      invariant R == 0 && p < j ==> Lambda[g.o] == 0
    {
      var temp := HashAll(hash, picked, g, i, j, |openedBits|);
      TablesFollow(c, hash, openedBits, Rs, Ks, tabs, i, j);
      if right {
        WireKept(V, openedBits, Ks, Lambda0, picked0, Lambda, picked, g.o, g.a);
        WireKept(V, openedBits, Ks, Lambda0, picked0, Lambda, picked, g.o, g.b);
        RowDecodes(c, hash, openedBits, Rs, Ks, tabs, V, Lambda, picked, i, j);
      }
      var k := RowIndex(Lambda[g.a], Lambda[g.b]);
      var labels: seq<Block> := picked[j][g.o := BlockXor(tabs[itrTab + j][k], temp)];
      picked := picked[j := labels];
      if p == j {
        JudgeReads(K, R, g.o, lo);
        JudgeZero(picked[j][g.o], K[2 * g.o]);
        match Judge(picked[j][g.o], K[2 * g.o], R)
        case Value(b) => Lambda := Lambda[g.o := b];
        case Corrupted => ok := false; return;
      }
    }
  }

  lemma TablesFollow(c: Circuit, hash: Hash, openedBits: seq<bit>, R: seq<Block>, Ks: seq<seq<Block>>, tabs: seq<Table>, i: nat, j: nat)
    requires i < |c.gates| && c.gates[i].AndGate? && GateGarbled(c, hash, openedBits, R, Ks, tabs, i) && j < |Ks|
    ensures TabPos(c, |Ks|, i) + j < |tabs|
  {
    assert RowOpened(hash, openedBits, Ks, c.gates[i], i, j, 0, tabs, TabPos(c, |Ks|, i));
  }

  /** Gate i, if it is an AND gate, has masked output 0. */
  ghost predicate AndClear(c: Circuit, V: seq<bit>, openedBits: seq<bit>, i: nat)
    requires i < |c.gates| && |V| == |openedBits|
  {
    c.gates[i].AndGate? && c.gates[i].o < |V| ==> V[c.gates[i].o] == openedBits[c.gates[i].o]
  }

  ghost predicate AndsClear(c: Circuit, V: seq<bit>, openedBits: seq<bit>, m: nat)
    requires m <= |c.gates| && |V| == |openedBits|
  {
    forall i :: 0 <= i < m ==> AndClear(c, V, openedBits, i)
  }

  /** A party with this offset reads every gate up to m rightly. */
  ghost predicate ReadsTo(c: Circuit, R: Block, V: seq<bit>, openedBits: seq<bit>, m: nat)
    requires m <= |c.gates| && |V| == |openedBits|
  {
    R != 0 || AndsClear(c, V, openedBits, m)
  }

  ghost predicate WiresOk(c: Circuit, i: nat, V: seq<bit>, openedBits: seq<bit>, Ks: seq<seq<Block>>, Lambda: seq<bit>,
                          picked: seq<seq<Block>>)
    requires i <= |c.gates|
  {
    forall w :: 0 <= w < c.numWire && Known(c, i, w) ==> WireOk(V, openedBits, Ks, Lambda, picked, w)
  }

  /** The outputs of the AND gates before i read 0. */
  ghost predicate AndsZero(c: Circuit, i: nat, Lambda: seq<bit>)
    requires i <= |c.gates|
  {
    forall j :: 0 <= j < i && c.gates[j].AndGate? ==> c.gates[j].o < |Lambda| && Lambda[c.gates[j].o] == 0
  }

  /** One party walks through the whole circuit; ok is false if it finds a label corrupted. It does not, and
      ends with the right masked bit and labels on every wire, if and only if its offset is not zero or
      every AND gate's masked output is 0. */
  method Evaluate(c: Circuit, hash: Hash, p: nat, openedBits: seq<bit>, K: seq<Block>, R: Block, tabs: seq<Table>,
                  Lambda0: seq<bit>, picked0: seq<seq<Block>>,
                  ghost Rs: seq<Block>, ghost Ks: seq<seq<Block>>, ghost input: seq<bit>)
    returns (ok: bool, Lambda: seq<bit>, picked: seq<seq<Block>>)
    requires Garbled(c, hash, openedBits, Rs, Ks, tabs) && |input| == c.inSize
    requires p < |Ks| && K == Ks[p] && R == Rs[p]
    requires |Lambda0| == c.numWire && |picked0| == |Ks| && SameLength(picked0, c.numWire)
    requires forall w :: 0 <= w < c.inSize ==> WireOk(Values(c, input), openedBits, Ks, Lambda0, picked0, w)
    ensures |Lambda| == c.numWire && |picked| == |Ks| && SameLength(picked, c.numWire)
    ensures ok && WiresOk(c, |c.gates|, Values(c, input), openedBits, Ks, Lambda, picked)
       <==> ReadsTo(c, R, Values(c, input), openedBits, |c.gates|)
  {
    hide BlockXor, WireOk, Apply, GateGarbled, Values, AndsZero, AndsClear, WiresOk, Known;
    ghost var V := Values(c, input);
    ok, Lambda, picked := true, Lambda0, picked0;
    var itrTab := 0;
    FirstWires(c, V, openedBits, Ks, Lambda, picked);
    for i := 0 to |c.gates|
      invariant ok && |Lambda| == c.numWire && |picked| == |Ks| && SameLength(picked, c.numWire)
      invariant itrTab == TabPos(c, |Ks|, i)
      invariant ReadsTo(c, R, V, openedBits, i) ==> WiresOk(c, i, V, openedBits, Ks, Lambda, picked)
      invariant R == 0 ==> AndsZero(c, i, Lambda)
    {
      var g := c.gates[i];
      GateWires(c, i);
      GateValue(c, input, i);
      ghost var before, labels, right := Lambda, picked, ReadsTo(c, R, V, openedBits, i + 1);
      if right {
        ClearStep(c, R, V, openedBits, i);
        InputsOk(c, i, V, openedBits, Ks, Lambda, picked);
      }
      if g.AndGate? {
        ok, Lambda, picked := EvaluateAnd(c, hash, p, openedBits, K, R, tabs, i, itrTab, Lambda, picked, right, Rs, Ks, V);
        if !ok {
          ClearLater(c, R, V, openedBits, i + 1);
          return;
        }
        itrTab := itrTab + |picked|;
      } else {
        Lambda, picked := EvaluateFree(c, hash, openedBits, tabs, i, Lambda, picked, right, Rs, Ks, V);
      }
      if right {
        WiresKept(c, i, V, openedBits, Ks, before, labels, Lambda, picked);
      }
      if R == 0 {
        ZerosKept(c, i, before, labels, Lambda, picked);
      }
    }
    if R == 0 && WiresOk(c, |c.gates|, V, openedBits, Ks, Lambda, picked) {
      ZerosClear(c, V, openedBits, Ks, Lambda, picked);
    }
  }

  lemma FirstWires(c: Circuit, V: seq<bit>, openedBits: seq<bit>, Ks: seq<seq<Block>>, Lambda: seq<bit>, picked: seq<seq<Block>>)
    requires forall w :: 0 <= w < c.inSize ==> WireOk(V, openedBits, Ks, Lambda, picked, w)
    ensures WiresOk(c, 0, V, openedBits, Ks, Lambda, picked) && AndsZero(c, 0, Lambda)
  {
    hide WireOk;
  }

  lemma GateWires(c: Circuit, i: nat)
    requires WellFormed(c) && i < |c.gates|
    ensures var g := c.gates[i];
            && g.Within(c.numWire) && g.a != g.o && Known(c, i, g.a)
            && (!g.NotGate? ==> g.b != g.o && Known(c, i, g.b))
  {
    assert Ready(c, i);
  }

  lemma InputsOk(c: Circuit, i: nat, V: seq<bit>, openedBits: seq<bit>, Ks: seq<seq<Block>>, Lambda: seq<bit>,
                 picked: seq<seq<Block>>)
    requires WellFormed(c) && i < |c.gates| && WiresOk(c, i, V, openedBits, Ks, Lambda, picked)
    ensures WireOk(V, openedBits, Ks, Lambda, picked, c.gates[i].a)
    ensures !c.gates[i].NotGate? ==> WireOk(V, openedBits, Ks, Lambda, picked, c.gates[i].b)
  {
    GateWires(c, i);
    hide WireOk, Known;
  }

  lemma ClearStep(c: Circuit, R: Block, V: seq<bit>, openedBits: seq<bit>, i: nat)
    requires i < |c.gates| && |V| == |openedBits| && ReadsTo(c, R, V, openedBits, i + 1)
    ensures ReadsTo(c, R, V, openedBits, i) && (R != 0 || AndClear(c, V, openedBits, i))
  {
    hide AndClear;
  }

  lemma ClearLater(c: Circuit, R: Block, V: seq<bit>, openedBits: seq<bit>, m: nat)
    requires m <= |c.gates| && |V| == |openedBits| && !ReadsTo(c, R, V, openedBits, m)
    ensures !ReadsTo(c, R, V, openedBits, |c.gates|)
  {
    hide AndClear;
  }

  /** AND gates' outputs keep reading 0, as no later gate drives them. */
  lemma ZerosKept(c: Circuit, i: nat, Lambda: seq<bit>, picked: seq<seq<Block>>, Lambda': seq<bit>, picked': seq<seq<Block>>)
    requires WellFormed(c) && i < |c.gates| && OnlyWire(Lambda, picked, Lambda', picked', c.gates[i].o)
    requires |Lambda| == c.numWire && AndsZero(c, i, Lambda)
    requires c.gates[i].AndGate? ==> c.gates[i].o < |Lambda'| && Lambda'[c.gates[i].o] == 0
    ensures AndsZero(c, i + 1, Lambda')
  {
    hide WellFormed;
    forall j | 0 <= j < i && c.gates[j].AndGate?
      ensures c.gates[j].o < |Lambda'| && Lambda'[c.gates[j].o] == 0
    {
      Distinct(c, j, i);
    }
  }

  lemma ZerosClear(c: Circuit, V: seq<bit>, openedBits: seq<bit>, Ks: seq<seq<Block>>, Lambda: seq<bit>, picked: seq<seq<Block>>)
    requires WellFormed(c) && |V| == |openedBits| == c.numWire && AndsZero(c, |c.gates|, Lambda)
    requires WiresOk(c, |c.gates|, V, openedBits, Ks, Lambda, picked)
    ensures AndsClear(c, V, openedBits, |c.gates|)
  {
    hide WellFormed, Known;
    forall i | 0 <= i < |c.gates|
      ensures AndClear(c, V, openedBits, i)
    {
      KnownWires(c, i);
      assert c.gates[i].AndGate? ==> WireOk(V, openedBits, Ks, Lambda, picked, c.gates[i].o);
    }
  }

  lemma WiresKept(c: Circuit, i: nat, V: seq<bit>, openedBits: seq<bit>, Ks: seq<seq<Block>>, Lambda: seq<bit>,
                  picked: seq<seq<Block>>, Lambda': seq<bit>, picked': seq<seq<Block>>)
    requires i < |c.gates| && OnlyWire(Lambda, picked, Lambda', picked', c.gates[i].o)
    requires WiresOk(c, i, V, openedBits, Ks, Lambda, picked)
    requires WireOk(V, openedBits, Ks, Lambda', picked', c.gates[i].o)
    ensures WiresOk(c, i + 1, V, openedBits, Ks, Lambda', picked')
  {
    hide WireOk, OnlyWire;
    forall w | 0 <= w < c.numWire && Known(c, i + 1, w)
      ensures WireOk(V, openedBits, Ks, Lambda', picked', w)
    {
      if w != c.gates[i].o {
        assert Known(c, i, w);
        WireKept(V, openedBits, Ks, Lambda, picked, Lambda', picked', c.gates[i].o, w);
      }
    }
  }

  /** A gate without tables. */
  method EvaluateFree(c: Circuit, ghost hash: Hash, ghost openedBits: seq<bit>, ghost tabs: seq<Table>, i: nat,
                      Lambda0: seq<bit>, picked0: seq<seq<Block>>, ghost right: bool,
                      ghost Rs: seq<Block>, ghost Ks: seq<seq<Block>>, ghost V: seq<bit>)
    returns (Lambda: seq<bit>, picked: seq<seq<Block>>)
    requires Garbled(c, hash, openedBits, Rs, Ks, tabs) && i < |c.gates| && !c.gates[i].AndGate?
    requires c.gates[i].Within(|V|) && |V| == |openedBits| && V[c.gates[i].o] == Apply(c.gates[i], V)
    requires |Lambda0| == |V| && |picked0| == |Ks| && SameLength(picked0, |V|)
    requires right ==> WireOk(V, openedBits, Ks, Lambda0, picked0, c.gates[i].a)
    requires right && c.gates[i].XorGate? ==> WireOk(V, openedBits, Ks, Lambda0, picked0, c.gates[i].b)
    ensures OnlyWire(Lambda0, picked0, Lambda, picked, c.gates[i].o)
    ensures right ==> WireOk(V, openedBits, Ks, Lambda, picked, c.gates[i].o)
  {
    hide BlockXor, GateGarbled, WellFormed, Apply, TabPos, Known;
    var g := c.gates[i];
    OwnOutput(c, i);
    var lb: bit := if g.XorGate? then Lambda0[g.b] else 0;
    Lambda := Lambda0[g.o := if g.XorGate? then BitXor(Lambda0[g.a], lb) else Lambda0[g.a]];
    picked := picked0;
    for j := 0 to |picked0|
      invariant OnlyWire(Lambda0, picked0, Lambda, picked, g.o)
      invariant right ==> forall q :: 0 <= q < j ==> picked[q][g.o] == Ks[q][2 * g.o + Lambda[g.o]]
    {
      if right {
        FreeGate(c, hash, openedBits, Rs, Ks, tabs, V, i, j, Lambda0[g.a], lb);
      }
      var k: Block := if g.XorGate? then BlockXor(picked[j][g.a], picked[j][g.b]) else picked[j][g.a];
      var labels: seq<Block> := picked[j][g.o := k];
      picked := picked[j := labels];
    }
    if right {
      FreeGate(c, hash, openedBits, Rs, Ks, tabs, V, i, 0, Lambda0[g.a], lb);
    }
  }
}
