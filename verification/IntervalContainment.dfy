/** Two parties learn shares of whether a masked number lies in a public interval [p, q], with one
    pair of comparison keys for both ends, through every way the interval can wrap around. */
module IntervalContainment {
  import opened Bits
  import opened Congruence
  import opened Words
  import opened FssCommon
  import opened FssLt
  import opened Gate
  import opened WordModuli

  /** A comparison key and a share of the wrap-around correction. */
  datatype IcTuple = IcTuple(key: ServerKeyLt, delta: u32)

  /** mod stands for the modulus N, a power of two; zero stands for 2^32. */
  ghost predicate ModOk(mod: u32, N: nat, deep: nat) {
    && 1 <= deep <= 64 && 2 <= N <= Pow2(deep) && N == (if mod == 0 then M32 else mod)
    && WordModulus(N)
  }

  /** A word expression reduced modulo mod, when there is one. */
  function Reduce(x: int, mod: u32): u32 {
    if mod == 0 then W32(x) else W32(x) % mod
  }

  lemma ReduceIs(x: int, mod: u32, N: nat, deep: nat)
    requires ModOk(mod, N, deep)
    ensures Reduce(x, mod) == x % N < N
  {
    if mod != 0 {
      WordCong(x, N);
    }
    CongMod(x, N);
  }

  function Gamma(r: u32, mod: u32): u32 { Reduce(r + mod - 1, mod) }

  /** The correction for the ways in which p, q and q + 1 wrap around when r is added. */
  function Z(p: u32, q: u32, mod: u32, r: u32): int {
    var qPl, alpaP, alpaQ, alpaQpl := Reduce(q + 1, mod), Reduce(p + r, mod), Reduce(q + r, mod), Reduce(q + 1 + r, mod);
    Ind(alpaP > alpaQ) - Ind(alpaP > p) + Ind(alpaQpl > qPl) + Ind(alpaQ == Minus32(mod, 1))
  }

  /** The keys of one query: the successor of the owner holds first, the predecessor second. */
  ghost predicate IcKeys(prf: Prf, deep: nat, p: u32, q: u32, mod: u32, N: nat, r: u32, k: Two<IcTuple>) {
    && N > 0
    && LtKeys(prf, deep, Gamma(r, mod), 1, k.At(0).key, k.At(1).key)
    && Cong(k.At(0).delta + k.At(1).delta, Z(p, q, mod, r), N)
  }

  function SucResult(sP: u32, sQ: u32, delta: u32): u32 {
    W32(-(sP as int) + sQ + delta)
  }

  function PreResult(e: int, sP: u32, sQ: u32, delta: u32): u32 {
    W32(e - Neg32(sP) + Neg32(sQ) + delta)
  }

  /** Where the two ends are looked up, and what the predecessor adds. */
  function XP(R: u32, p: u32, mod: u32): u32 { Reduce(R + mod - 1 - p, mod) }
  function XQ(R: u32, q: u32, mod: u32): u32 { Reduce(R + mod - 1 - Reduce(q + 1, mod), mod) }
  function Over(R: u32, p: u32, q: u32, mod: u32): int { Ind(R > p) - Ind(R > Reduce(q + 1, mod)) }

  function Answers(prf: Prf, deep: nat, p: u32, q: u32, mod: u32, k: Two<IcTuple>, R: u32): Two<u32>
    requires KeyDepth(deep, k.At(0).key) && KeyDepth(deep, k.At(1).key)
  {
    var xP, xQ := XP(R, p, mod), XQ(R, q, mod);
    Two(SucResult(Share32(prf, deep, k.At(0).key, xP), Share32(prf, deep, k.At(0).key, xQ), k.At(0).delta),
        PreResult(Over(R, p, q, mod), Share32(prf, deep, k.At(1).key, xP), Share32(prf, deep, k.At(1).key, xQ),
                  k.At(1).delta))
  }

  /** a + b modulo N, for reduced a and b. */
  function Wrap(a: nat, b: nat, N: nat): int {
    if a + b < N then a + b else a + b - N
  }

  lemma WrapIs(a: nat, b: nat, N: nat)
    requires a < N && b < N
    ensures (a + b) % N == Wrap(a, b, N)
  {
    DivUnique(a + b, N, if a + b < N then 0 else 1, Wrap(a, b, N));
  }

  /** Which side of the interval a number lies on, from two comparisons with the mask. */
  lemma Sides(p: nat, q: nat, r: nat, R: nat, N: nat)
    requires p <= q < N && r < N && R < N && 2 <= N
    ensures var q1, g := Wrap(q, 1, N), Wrap(N - 1, r, N);
            var y := if r <= R then R - r else R - r + N;
            Ind(R > p) - Ind(R > q1) - Ind(Wrap(R, N - 1 - p, N) < g) + Ind(Wrap(R, N - 1 - q1, N) < g)
            + Ind(Wrap(p, r, N) > Wrap(q, r, N)) - Ind(Wrap(p, r, N) > p)
            + Ind(Wrap(q1, r, N) > q1) + Ind(Wrap(q, r, N) == N - 1)
            == Ind(p <= y <= q)
  {
  }

  /** The two answers add up to the membership of R - r in [p, q], for every mask and interval. */
  lemma IcCorrect(prf: Prf, deep: nat, p: u32, q: u32, mod: u32, N: nat, r: u32, k: Two<IcTuple>, R: u32)
    requires ModOk(mod, N, deep) && p <= q < N && R < N
    requires IcKeys(prf, deep, p, q, mod, N, r, k)
    ensures KeyDepth(deep, k.At(0).key) && KeyDepth(deep, k.At(1).key)
    ensures var a := Answers(prf, deep, p, q, mod, k, R);
            Cong((a.zero as int) + a.one, if p <= (R - r) % N <= q then 1 else 0, N)
  {
    hide Z, Over, XP, XQ, Gamma, LtKeys, Cong, Pow2, SucResult, PreResult, ModOk, KeyDepth, Share32;
    var xP, xQ, g := XP(R, p, mod), XQ(R, q, mod), Gamma(r, mod);
    LookupsFit(p, q, mod, N, deep, r, R);
    IcSides(p, q, mod, N, deep, r, R);
    GapsAdd(prf, deep, g, k.At(0), k.At(1), xP, xQ, Over(R, p, q, mod), Z(p, q, mod, r), N, mod);
  }

  /** Two lookups under one pair of keys, and shares of the correction z. */
  lemma GapsAdd(prf: Prf, deep: nat, g: u32, k0: IcTuple, k1: IcTuple, xP: u32, xQ: u32, e: int, z: int, N: nat, mod: u32)
    requires ModOk(mod, N, deep) && LtKeys(prf, deep, g, 1, k0.key, k1.key) && Cong(k0.delta + k1.delta, z, N)
    requires xP < Pow2(deep) && xQ < Pow2(deep) && g < Pow2(deep)
    ensures KeyDepth(deep, k0.key) && KeyDepth(deep, k1.key)
    ensures Cong(SucResult(Share32(prf, deep, k0.key, xP), Share32(prf, deep, k0.key, xQ), k0.delta)
                 + PreResult(e, Share32(prf, deep, k1.key, xP), Share32(prf, deep, k1.key, xQ), k1.delta),
                 e - Ind(xP < g) + Ind(xQ < g) + z, N)
  {
    hide Share32, W32, LtKeys, Cong, Pow2, KeyDepth, SucResult, PreResult, ModOk;
    ShareGap(prf, deep, g, k0.key, k1.key, xP);
    ShareGap(prf, deep, g, k0.key, k1.key, xQ);
    AnswersAdd(Share32(prf, deep, k0.key, xP), Share32(prf, deep, k1.key, xP),
               Share32(prf, deep, k0.key, xQ), Share32(prf, deep, k1.key, xQ),
               e, k0.delta, k1.delta, Ind(xP < g), Ind(xQ < g), z, N, mod, deep);
  }

  lemma LookupsFit(p: u32, q: u32, mod: u32, N: nat, deep: nat, r: u32, R: u32)
    requires ModOk(mod, N, deep)
    ensures XP(R, p, mod) < Pow2(deep) && XQ(R, q, mod) < Pow2(deep) && Gamma(r, mod) < Pow2(deep)
  {
    ReduceIs(R + mod - 1 - p, mod, N, deep);
    ReduceIs(R + mod - 1 - Reduce(q + 1, mod), mod, N, deep);
    ReduceIs(r + mod - 1, mod, N, deep);
  }

  /** All the comparisons together, in reduced words. */
  lemma IcSides(p: u32, q: u32, mod: u32, N: nat, deep: nat, r: u32, R: u32)
    requires ModOk(mod, N, deep) && p <= q < N && R < N
    ensures Over(R, p, q, mod) - Ind(XP(R, p, mod) < Gamma(r, mod)) + Ind(XQ(R, q, mod) < Gamma(r, mod)) + Z(p, q, mod, r)
         == Ind(p <= Distance(R, r, N) <= q)
  {
    hide Reduce, Wrap, Residue, Distance, Ind, XP, XQ, Over, Z, Gamma;
    Lookups(p, q, mod, N, deep, r, R);
    Correction(p, q, mod, N, deep, r);
    Unmasked(R, r, N);
    hide ModOk;
    Sides(p, q, Residue(r, N), R, N);
  }

  lemma Lookups(p: u32, q: u32, mod: u32, N: nat, deep: nat, r: u32, R: u32)
    requires ModOk(mod, N, deep) && p <= q < N && R < N
    ensures var q1 := Wrap(q, 1, N);
            && XP(R, p, mod) == Wrap(R, N - 1 - p, N) && 0 <= q1 < N && XQ(R, q, mod) == Wrap(R, N - 1 - q1, N)
            && Gamma(r, mod) == Wrap(N - 1, Residue(r, N), N) && Over(R, p, q, mod) == Ind(R > p) - Ind(R > q1)
  {
    hide Reduce, Wrap, Residue, Ind;
    var q1 := Wrap(q, 1, N);
    ReduceTo(q + 1, q, 1, mod, N, deep);
    ReduceTo(R + mod - 1 - p, R, N - 1 - p, mod, N, deep);
    ReduceTo(R + mod - 1 - q1, R, N - 1 - q1, mod, N, deep);
    ReduceMasked(mod - 1, N - 1, r, mod, N, deep);
  }

  lemma Correction(p: u32, q: u32, mod: u32, N: nat, deep: nat, r: u32)
    requires ModOk(mod, N, deep) && p <= q < N
    ensures var q1, s := Wrap(q, 1, N), Residue(r, N);
            0 <= q1 && Z(p, q, mod, r) == Ind(Wrap(p, s, N) > Wrap(q, s, N)) - Ind(Wrap(p, s, N) > p)
                                        + Ind(Wrap(q1, s, N) > q1) + Ind(Wrap(q, s, N) == N - 1)
  {
    hide Reduce, Wrap, Residue, Ind;
    var q1 := Wrap(q, 1, N);
    ReduceTo(q + 1, q, 1, mod, N, deep);
    ReduceMasked(p, p, r, mod, N, deep);
    ReduceMasked(q, q, r, mod, N, deep);
    ReduceMasked(q + 1, q1, r, mod, N, deep) by { WrapSteps(q, 1, N); }
    Top(mod, N) by { assert 2 <= N == (if mod == 0 then M32 else mod); }
  }

  function Residue(r: nat, N: nat): (s: nat)
    requires N > 0
    ensures s < N
  {
    CongMod(r, N);
    r % N
  }

  /** How far R lies past the mask, modulo N. */
  function Distance(R: int, r: int, N: nat): int
    requires N > 0
  {
    (R - r) % N
  }

  lemma Top(mod: u32, N: nat)
    requires 2 <= N == (if mod == 0 then M32 else mod)
    ensures Minus32(mod, 1) == N - 1
  {
  }

  lemma WrapSteps(a: nat, b: nat, N: nat)
    ensures Wrap(a, b, N) == a + b || Wrap(a, b, N) == a + b - N
  {
  }

  lemma ReduceTo(x: int, a: nat, b: nat, mod: u32, N: nat, deep: nat)
    requires ModOk(mod, N, deep) && a < N && b < N && (x == a + b || x == a + b - N)
    ensures Reduce(x, mod) == Wrap(a, b, N) && 0 <= Wrap(a, b, N) < N
  {
    ReduceIs(x, mod, N, deep);
    ModEq(x, a + b, N, if x == a + b then 0 else -1);
    WrapIs(a, b, N);
  }

  lemma ReduceMasked(x: int, y: nat, r: nat, mod: u32, N: nat, deep: nat)
    requires ModOk(mod, N, deep) && y < N && (x == y || x == y - N || x == y + N)
    ensures Reduce(x + r, mod) == Wrap(y, Residue(r, N), N) && Reduce(r + x, mod) == Reduce(x + r, mod)
  {
    ReduceIs(x + r, mod, N, deep);
    CongMod(r, N);
    CongByMultiple(x, y, N, if x == y then 0 else if x < y then -1 else 1);
    CongAdd(x, y, r, r % N, N);
    WrapIs(y, r % N, N);
  }

  lemma Unmasked(R: nat, r: nat, N: nat)
    requires R < N
    ensures var s := Residue(r, N); Distance(R, r, N) == if s <= R then R - s else R - s + N
  {
    CongMod(r, N);
    CongByMultiple(R, R, N, 0);
    CongAdd(R, R, r, r % N, N);
    var d := R - r % N;
    DivUnique(d, N, if 0 <= d then 0 else -1, if 0 <= d then d else d + N);
  }

  /** The shares of both lookups and of the correction add up. */
  lemma AnswersAdd(s0P: u32, s1P: u32, s0Q: u32, s1Q: u32, e: int, d0: u32, d1: u32, f: int, g: int, z: int,
                   N: nat, mod: u32, deep: nat)
    requires ModOk(mod, N, deep)
    requires Minus32(s0P, s1P) == f && Minus32(s0Q, s1Q) == g && Cong(d0 + d1, z, N)
    ensures Cong(SucResult(s0P, s0Q, d0) + PreResult(e, s1P, s1Q, d1), e - f + g + z, N)
  {
    hide W32;
    var a := WordFactor(s0P - s1P);
    var b := WordFactor(s0Q - s1Q);
    var c := WordFactor(M32 - s1P);
    var d := WordFactor(M32 - s1Q);
    var i := WordFactor(-(s0P as int) + s0Q + d0);
    var j := WordFactor(e - Neg32(s1P) + Neg32(s1Q) + d1);
    var m := b - a - i - j + c - d;
    assert SucResult(s0P, s0Q, d0) + PreResult(e, s1P, s1Q, d1) == e - f + g + (d0 + d1) + M32 * m;
    CorrectedSum(e - f + g, d0 + d1, z, m, N, mod, deep);
  }

  lemma CorrectedSum(x: int, d: int, z: int, m: int, N: nat, mod: u32, deep: nat)
    requires ModOk(mod, N, deep) && Cong(d, z, N)
    ensures Cong(x + d + M32 * m, x + z, N)
  {
    hide Cong;
    var j := WordMultiple(m, N);
    hide ModOk;
    CongByMultiple(x + d + M32 * m, x + d, N, j);
    CongByMultiple(x, x, N, 0);
    CongAdd(x, x, d, z, N);
    CongTrans(x + d + M32 * m, x + d, x + z, N);
  }

  class IntervalQuery {
    const prf: Prf
    const deep: nat
    /** What the modulus stands for. */
    ghost var N: nat
    var p: u32
    var q: u32
    var mod: u32
    /** The keys of the owner's successor and predecessor. */
    var mks: seq<Two<IcTuple>>
    ghost var masks: seq<u32>

    constructor (prf: Prf, deep: nat)
      ensures this.prf == prf && this.deep == deep && mks == [] && masks == []
    {
      this.prf, this.deep, mks, masks := prf, deep, [], [];
    }

    /** The keys from position i on were made for the interval and modulus in force. */
    ghost predicate Keyed(i: nat)
      reads this
    {
      && i <= |mks| == |masks|
      && forall j :: i <= j < |mks| ==> IcKeys(prf, deep, p, q, mod, N, masks[j], mks[j])
    }

    /** The owner deals keys for len masked queries. */
    method Deal(len: nat, p: u32, q: u32, mod: u32, rIn: seq<u32>, ghost modulus: nat)
      requires |rIn| == len && |mks| == |masks| && ModOk(mod, modulus, deep)
      modifies this
      ensures this.p == p && this.q == q && this.mod == mod && N == modulus
      ensures Keyed(old(|mks|)) && old(mks) <= mks && masks == old(masks) + rIn
    {
      hide IcKeys;
      this.p, this.q, this.mod, N := p, q, mod, modulus;
      for i := 0 to len
        invariant this.p == p && this.q == q && this.mod == mod && N == modulus
        invariant |mks| == |masks| && old(mks) <= mks && masks == old(masks) + rIn[..i]
        invariant Keyed(old(|mks|))
      {
        var k := DealKeys(prf, deep, p, q, mod, rIn[i], modulus);
        mks := mks + [k];
        masks := masks + [rIn[i]];
      }
      assert rIn[..len] == rIn;
    }

    /** Both parties answer the first len queries; the queries are reduced in place. */
    method AnswerAll(R: array<u32>, len: nat) returns (res: seq<Two<u32>>)
      requires len <= R.Length && len <= |mks| && Keyed(0) && ModOk(mod, N, deep) && p <= q < N
      modifies R
      ensures |res| == len
      ensures forall i :: 0 <= i < len ==> R[i] as int == old(R[i]) % N
      ensures R[len..] == old(R[len..])
      ensures forall i :: 0 <= i < len ==>
                Cong((res[i].zero as int) + res[i].one, if p <= (old(R[i]) - masks[i]) % N <= q then 1 else 0, N)
    {
      hide IcKeys, Cong, KeyDepth, Reduce, ModOk, Answers;
      res := [];
      for i := 0 to len
        invariant |res| == i
        invariant forall j :: 0 <= j < i ==> R[j] as int == old(R[j]) % N
        invariant R[i..] == old(R[i..])
        invariant forall j :: 0 <= j < i ==>
                    Cong((res[j].zero as int) + res[j].one, if p <= (old(R[j]) - masks[j]) % N <= q then 1 else 0, N)
      {
        assert IcKeys(prf, deep, p, q, mod, N, masks[i], mks[i]);
        ReduceIs(R[i], mod, N, deep);
        R[i] := Reduce(R[i], mod);
        IcCorrect(prf, deep, p, q, mod, N, masks[i], mks[i], R[i]);
        SameDistance(old(R[i]), masks[i], N);
        res := res + [Answers(prf, deep, p, q, mod, mks[i], R[i])];
      }
    }
  }

  /** Reducing the query does not change its distance from the mask. */
  lemma SameDistance(x: int, r: int, N: nat)
    requires N > 0
    ensures (x % N - r) % N == (x - r) % N
  {
    CongMod(x, N);
    CongByMultiple(r, r, N, 0);
    CongAdd(x % N, x, r, r, N);
  }

  /** One query's keys and correction shares. */
  method DealKeys(prf: Prf, deep: nat, p: u32, q: u32, mod: u32, r: u32, ghost N: nat) returns (k: Two<IcTuple>)
    requires ModOk(mod, N, deep)
    ensures IcKeys(prf, deep, p, q, mod, N, r, k)
  {
    hide Reduce, LtKeys, Pow2, Z;
    var k0, k1 := GenerateTreeLt(prf, deep, Gamma(r, mod), 1);
    var z := W32(Z(p, q, mod, r));
    var x := Random32();
    var z0 := Reduce(x, mod);
    var z1 := Reduce(z + mod - z0, mod);
    k := Two(IcTuple(k0, z0), IcTuple(k1, z1));
    CorrectionShares(Z(p, q, mod, r), x, mod, N, deep);
  }

  lemma CorrectionShares(z: int, x: u32, mod: u32, N: nat, deep: nat)
    requires ModOk(mod, N, deep)
    ensures var z0 := Reduce(x, mod);
            Cong(z0 + Reduce(W32(z) + mod - z0, mod), z, N)
  {
    var z0 := Reduce(x, mod);
    ReduceIs(W32(z) + mod - z0, mod, N, deep);
    CongMod(W32(z) + mod - z0, N);
    var i := WordFactor(z);
    hide W32, Reduce, Cong;
    var e := if mod == 0 then 0 else 1;
    assert mod == N * e by { assert N == (if mod == 0 then M32 else mod); }
    var j := WordMultiple(i, N);
    hide ModOk;
    assert N * (e - j) == N * e - N * j;
    CongByMultiple(W32(z) + mod, z, N, e - j);
    CongByMultiple(z0, z0, N, 0);
    CongAdd(Reduce(W32(z) + mod - z0, mod), W32(z) + mod - z0, z0, z0, N);
    CongTrans(Reduce(W32(z) + mod - z0, mod) + z0, W32(z) + mod, z, N);
  }
}
