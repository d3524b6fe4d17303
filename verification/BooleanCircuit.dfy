/** Boolean circuits as lists of gates over numbered wires, and what they compute. */
module BooleanCircuit {
  import opened Bits

  datatype Gate =
    | AndGate(a: nat, b: nat, o: nat)
    | XorGate(a: nat, b: nat, o: nat)
    | NotGate(a: nat, o: nat)
  {
    ghost predicate Within(numWire: nat) {
      a < numWire && o < numWire && (!NotGate? ==> b < numWire)
    }
  }

  /** The first inSize wires are inputs, the last outSize wires are outputs. */
  datatype Circuit = Circuit(numWire: nat, inSize: nat, outSize: nat, gates: seq<Gate>)

  ghost function Outs(c: Circuit, i: nat): set<nat>
    requires i <= |c.gates|
  {
    if i == 0 then {} else Outs(c, i - 1) + {c.gates[i - 1].o}
  }

  /** Wire w carries a value before gate i. */
  ghost predicate Known(c: Circuit, i: nat, w: nat)
    requires i <= |c.gates|
  {
    w < c.inSize || w in Outs(c, i)
  }

  /** Gate i reads known wires and is the first to drive its output. */
  ghost predicate Ready(c: Circuit, i: nat)
    requires i < |c.gates|
  {
    var g := c.gates[i];
    && g.Within(c.numWire)
    && Known(c, i, g.a) && (!g.NotGate? ==> Known(c, i, g.b)) && !Known(c, i, g.o)
  }

  ghost predicate WellFormed(c: Circuit) {
    && c.inSize <= c.numWire && c.outSize <= c.numWire
    && (forall i :: 0 <= i < |c.gates| ==> Ready(c, i))
    && (forall w :: c.numWire - c.outSize <= w < c.numWire ==> Known(c, |c.gates|, w))
  }

  /** The plaintext meaning of a gate. */
  function Apply(g: Gate, v: seq<bit>): bit
    requires g.Within(|v|)
  {
    match g
    case AndGate(a, b, _) => v[a] * v[b]
    case XorGate(a, b, _) => BitXor(v[a], v[b])
    case NotGate(a, _) => 1 - v[a]
  }

  /** The wires' values after i gates; wires not yet driven hold 0. */
  ghost function Run(c: Circuit, input: seq<bit>, i: nat): (v: seq<bit>)
    requires WellFormed(c) && |input| == c.inSize && i <= |c.gates|
    ensures |v| == c.numWire
  {
    if i == 0 then
      input + seq(c.numWire - c.inSize, _ => 0)
    else
      assert Ready(c, i - 1);
      var v := Run(c, input, i - 1);
      v[c.gates[i - 1].o := Apply(c.gates[i - 1], v)]
  }

  ghost function Values(c: Circuit, input: seq<bit>): (v: seq<bit>)
    requires WellFormed(c) && |input| == c.inSize
    ensures |v| == c.numWire
  {
    Run(c, input, |c.gates|)
  }

  /** What the circuit computes. */
  ghost function Output(c: Circuit, input: seq<bit>): seq<bit>
    requires WellFormed(c) && |input| == c.inSize
  {
    Values(c, input)[c.numWire - c.outSize..]
  }

  lemma {:induction false} KnownLater(c: Circuit, i: nat, j: nat, w: nat)
    requires i <= j <= |c.gates| && Known(c, i, w)
    ensures Known(c, j, w)
    decreases j
  {
    if i < j {
      KnownLater(c, i, j - 1, w);
    }
  }

  /** A gate drives none of the wires of the gates before it. */
  lemma Distinct(c: Circuit, g: nat, i: nat)
    requires WellFormed(c) && g < i < |c.gates|
    ensures c.gates[g].a != c.gates[i].o && c.gates[g].o != c.gates[i].o
    ensures !c.gates[g].NotGate? ==> c.gates[g].b != c.gates[i].o
    ensures c.gates[g].Within(c.numWire)
  {
    assert Ready(c, g) && Ready(c, i);
    KnownLater(c, g, i, c.gates[g].a);
    KnownLater(c, g + 1, i, c.gates[g].o);
    if !c.gates[g].NotGate? {
      KnownLater(c, g, i, c.gates[g].b);
    }
  }

  /** A known wire keeps its value. */
  lemma {:induction false} RunStable(c: Circuit, input: seq<bit>, i: nat, j: nat, w: nat)
    requires WellFormed(c) && |input| == c.inSize && i <= j <= |c.gates|
    requires Known(c, i, w) && w < c.numWire
    ensures Run(c, input, j)[w] == Run(c, input, i)[w]
    decreases j
  {
    if i < j {
      RunStable(c, input, i, j - 1, w);
      KnownLater(c, i, j - 1, w);
      assert Ready(c, j - 1);
    }
  }

  /** At the end every gate relates its wires as it should, and the inputs hold the input. */
  lemma GateValue(c: Circuit, input: seq<bit>, i: nat)
    requires WellFormed(c) && |input| == c.inSize && i < |c.gates|
    ensures c.gates[i].Within(c.numWire)
    ensures Values(c, input)[c.gates[i].o] == Apply(c.gates[i], Values(c, input))
  {
    assert Ready(c, i);
    RunStable(c, input, i, |c.gates|, c.gates[i].a);
    RunStable(c, input, i + 1, |c.gates|, c.gates[i].o);
    if !c.gates[i].NotGate? {
      RunStable(c, input, i, |c.gates|, c.gates[i].b);
    }
  }

  lemma InputValue(c: Circuit, input: seq<bit>, w: nat)
    requires WellFormed(c) && |input| == c.inSize && w < c.inSize
    ensures Values(c, input)[w] == input[w]
  {
    RunStable(c, input, 0, |c.gates|, w);
  }

  /** What a gate demands of the values on its wires. */
  ghost predicate Holds(g: Gate, v: seq<bit>) {
    && g.Within(|v|)
    && match g
       case AndGate(a, b, o) => v[o] == 1 <==> v[a] == 1 && v[b] == 1
       case XorGate(a, b, o) => v[o] == 1 <==> v[a] != v[b]
       case NotGate(a, o) => v[o] == 1 <==> v[a] == 0
  }

  /** Gate by gate. */
  lemma HoldsIs(a: nat, b: nat, o: nat, v: seq<bit>)
    requires a < |v| && b < |v| && o < |v|
    ensures Holds(AndGate(a, b, o), v) <==> (v[o] == 1 <==> v[a] == 1 && v[b] == 1)
    ensures Holds(XorGate(a, b, o), v) <==> (v[o] == 1 <==> v[a] != v[b])
    ensures Holds(NotGate(a, o), v) <==> (v[o] == 1 <==> v[a] == 0)
  {
  }

  /** Values of all wires that start with the input and meet every gate's demand. */
  ghost predicate Satisfies(c: Circuit, input: seq<bit>, v: seq<bit>) {
    |v| == c.numWire && input <= v && forall i :: 0 <= i < |c.gates| ==> Holds(c.gates[i], v)
  }

  lemma Satisfied(c: Circuit, input: seq<bit>, v: seq<bit>)
    ensures Satisfies(c, input, v)
            <==> |v| == c.numWire && input <= v && forall i :: 0 <= i < |c.gates| ==> Holds(c.gates[i], v)
  {
  }

  lemma ValuesSatisfy(c: Circuit, input: seq<bit>)
    requires WellFormed(c) && |input| == c.inSize
    ensures Satisfies(c, input, Values(c, input))
  {
    var v := Values(c, input);
    forall w | 0 <= w < |input|
      ensures v[w] == input[w]
    {
      InputValue(c, input, w);
    }
    forall i | 0 <= i < |c.gates|
      ensures Holds(c.gates[i], v)
    {
      GateValue(c, input, i);
    }
  }

  /** Two assignments that satisfy the circuit agree on every wire that is known before gate i. */
  lemma {:induction false} KnownAgree(c: Circuit, input: seq<bit>, u: seq<bit>, v: seq<bit>, i: nat, w: nat)
    requires WellFormed(c) && |input| == c.inSize && Satisfies(c, input, u) && Satisfies(c, input, v)
    requires i <= |c.gates| && w < c.numWire && Known(c, i, w)
    ensures u[w] == v[w]
    decreases i
  {
    if w < c.inSize {
    } else if i > 0 && w == c.gates[i - 1].o {
      var g := c.gates[i - 1];
      assert Ready(c, i - 1) && Holds(g, u) && Holds(g, v);
      KnownAgree(c, input, u, v, i - 1, g.a);
      if !g.NotGate? {
        KnownAgree(c, input, u, v, i - 1, g.b);
      }
    } else if i > 0 {
      KnownAgree(c, input, u, v, i - 1, w);
    }
  }

  lemma {:induction false} DrivenKnown(c: Circuit, i: nat, g: nat)
    requires g < i <= |c.gates|
    ensures Known(c, i, c.gates[g].o)
  {
    if g < i - 1 {
      DrivenKnown(c, i - 1, g);
    }
  }

  /** There is exactly one assignment of the input wires and the driven wires that starts with the input and
      satisfies every gate. */
  lemma OneAssignment(c: Circuit, input: seq<bit>) returns (v: seq<bit>)
    requires WellFormed(c) && |input| == c.inSize
    ensures Satisfies(c, input, v)
    ensures forall u: seq<bit>, g: nat ::
              Satisfies(c, input, u) && g < |c.gates| ==>
                c.gates[g].o < |u| == |v| && u[c.gates[g].o] == v[c.gates[g].o]
  {
    v := Values(c, input);
    ValuesSatisfy(c, input);
    forall u: seq<bit>, g: nat | Satisfies(c, input, u) && g < |c.gates|
      ensures c.gates[g].o < |u| == |v| && u[c.gates[g].o] == v[c.gates[g].o]
    {
      assert Ready(c, g);
      DrivenKnown(c, |c.gates|, g);
      KnownAgree(c, input, u, v, |c.gates|, c.gates[g].o);
    }
  }

  /** What the circuit computes are the last wires of that assignment. */
  lemma OutputIs(c: Circuit, input: seq<bit>, v: seq<bit>)
    requires WellFormed(c) && |input| == c.inSize && Satisfies(c, input, v)
    ensures c.outSize <= |v| && Output(c, input) == v[|v| - c.outSize..]
  {
    ValuesSatisfy(c, input);
    var n := c.numWire - c.outSize;
    forall w | n <= w < c.numWire
      ensures Values(c, input)[w] == v[w]
    {
      assert Known(c, |c.gates|, w);
      KnownAgree(c, input, Values(c, input), v, |c.gates|, w);
    }
    assert Values(c, input)[n..] == v[n..];
  }
}
