/** The masked comparison behind every comparison of shares: four players open y + r modulo 2^L and
    two pairs of comparison keys tell on which side of the interval [p, q) the value y lies. */
module Gate {
  import opened Bits
  import opened Congruence
  import opened Words
  import opened Players
  import opened FssCommon
  import opened FssLt

  datatype MsbTuple = MsbTuple(key: ServerKeyLt, delta: u64)

  /** The four players' sums, each in its own order, reduced at every addition. */
  function OpenMod(x: Four<int>, N: int): Four<int>
    requires N > 0
  {
    Four(Fold(x.p0, x.p1, x.p2, x.p3, N), Fold(x.p1, x.p0, x.p2, x.p3, N),
         Fold(x.p2, x.p0, x.p1, x.p3, N), Fold(x.p3, x.p0, x.p1, x.p2, N))
  }

  function Fold(a: int, b: int, c: int, d: int, N: int): int
    requires N > 0
  {
    (((a + b) % N + c) % N + d) % N
  }

  function Total(x: Four<int>): int {
    x.p0 + x.p1 + x.p2 + x.p3
  }

  lemma FoldMod(a: int, b: int, c: int, d: int, N: int)
    requires N > 0
    ensures Fold(a, b, c, d, N) == (a + b + c + d) % N
  {
    CongMod(a + b, N);
    CongByMultiple(c, c, N, 0);
    CongByMultiple(d, d, N, 0);
    CongAdd((a + b) % N, a + b, c, c, N);
    CongMod((a + b) % N + c, N);
    CongTrans(((a + b) % N + c) % N, (a + b) % N + c, a + b + c, N);
    CongAdd(((a + b) % N + c) % N, a + b + c, d, d, N);
  }

  /** All four players open the same number. */
  lemma OpenModTotal(x: Four<int>, N: int)
    requires N > 0
    ensures OpenMod(x, N) == Four(Total(x) % N, Total(x) % N, Total(x) % N, Total(x) % N)
  {
    hide Fold;
    FoldMod(x.p0, x.p1, x.p2, x.p3, N);
    FoldMod(x.p1, x.p0, x.p2, x.p3, N);
    FoldMod(x.p2, x.p0, x.p1, x.p3, N);
    FoldMod(x.p3, x.p0, x.p1, x.p2, N);
  }

  /** Keys and mask shares of one gate for the interval [p, q) modulo 2^L, under mask r. */
  ghost predicate GateOk(prf: Prf, L: nat, p: nat, q: nat, tr: Four<MsbTuple>, r: nat) {
    && 1 <= L <= 64 && p <= q && r + q < Pow2(L) <= M64
    && LtKeys(prf, L, r + p, 1, tr.p1.key, tr.p3.key)
    && LtKeys(prf, L, r + q, 1, tr.p0.key, tr.p2.key)
    && Cong(tr.p0.delta + tr.p1.delta + tr.p2.delta + tr.p3.delta, r, Pow2(L))
  }

  /** The extra keys that save the conversion round: each player also gets its neighbour's. */
  function HelpOf(tr: Four<MsbTuple>): Four<ServerKeyLt> {
    Four(tr.p1.key, tr.p0.key, tr.p3.key, tr.p2.key)
  }

  ghost predicate KeyDepth(L: nat, k: ServerKeyLt) {
    1 <= L <= 64 && |k.tree.cw| == |k.cv| == L - 1
  }

  ghost predicate KeysDepth(L: nat, k: Four<ServerKeyLt>) {
    KeyDepth(L, k.p0) && KeyDepth(L, k.p1) && KeyDepth(L, k.p2) && KeyDepth(L, k.p3)
  }

  function Keys(tr: Four<MsbTuple>): Four<ServerKeyLt> {
    Four(tr.p0.key, tr.p1.key, tr.p2.key, tr.p3.key)
  }

  /** What the players open: value shares plus mask shares, each reduced; with isRep players 1
      and 3, whose value shares repeat their neighbours', put in the mask alone. */
  function GateWord(x: Four<int>, tr: Four<MsbTuple>, N: int, isRep: bool): Four<int>
    requires N > 0
  {
    Four((x.p0 + tr.p0.delta) % N, (if isRep then tr.p1.delta else x.p1 + tr.p1.delta) % N,
         (x.p2 + tr.p2.delta) % N, (if isRep then tr.p3.delta else x.p3 + tr.p3.delta) % N)
  }

  function Share32(prf: Prf, L: nat, k: ServerKeyLt, v: nat): u32
    requires KeyDepth(L, k)
  {
    W32(LtShare(prf, k, L, v))
  }

  /** Each player's flag from the opened number. */
  function Flags(prf: Prf, L: nat, k: Four<ServerKeyLt>, v: Four<nat>): Four<u32>
    requires KeysDepth(L, k)
  {
    Four(Minus32(1, Share32(prf, L, k.p0, v.p0)), Share32(prf, L, k.p1, v.p1),
         Share32(prf, L, k.p2, v.p2), Neg32(Share32(prf, L, k.p3, v.p3)))
  }

  /** The flags with the extra keys' contributions added. */
  function ReducedFlags(prf: Prf, L: nat, k: Four<ServerKeyLt>, help: Four<ServerKeyLt>, v: Four<nat>): Four<u32>
    requires KeysDepth(L, k) && KeysDepth(L, help)
  {
    var f := Flags(prf, L, k, v);
    Four(Plus32(f.p0, Share32(prf, L, help.p0, v.p0)), Plus32(f.p1, Minus32(1, Share32(prf, L, help.p1, v.p1))),
         Plus32(f.p2, Neg32(Share32(prf, L, help.p2, v.p2))), Plus32(f.p3, Share32(prf, L, help.p3, v.p3)))
  }

  function Ind(b: bool): bit { if b then 1 else 0 }

  /** The two threshold tests on y + r tell whether y lies outside [p, q). */
  lemma Sides(y: nat, r: nat, p: nat, q: nat, N: int)
    requires y < N && p <= q && r + q < N
    ensures var v := (y + r) % N;
            0 <= v < N && Ind(v < r + p) + 1 - Ind(v < r + q) == Ind(y < p || q <= y)
  {
    if y + r < N {
      DivUnique(y + r, N, 0, y + r);
    } else {
      DivUnique(y + r, N, 1, y + r - N);
    }
  }

  /** The word difference of a key pair's shares. */
  lemma ShareGap(prf: Prf, L: nat, t: nat, k0: ServerKeyLt, k1: ServerKeyLt, v: nat)
    requires LtKeys(prf, L, t, 1, k0, k1) && v < Pow2(L) && t < Pow2(L)
    ensures KeyDepth(L, k0) && KeyDepth(L, k1)
    ensures Minus32(Share32(prf, L, k0, v), Share32(prf, L, k1, v)) == Ind(v < t)
  {
    hide Low, W64, LevelAt, LtLevelAt, RootsOk, LtRootsOk, LtShare;
    LtCorrect(prf, L, t, 1, k0, k1, v);
    DivUnique(v, Pow2(L), 0, v);
    DivUnique(t, Pow2(L), 0, t);
    LowDifference(LtShare(prf, k0, L, v), LtShare(prf, k1, L, v), Ind(v < t));
  }

  lemma LowDifference(x: u64, y: u64, e: bit)
    requires W64(x - y) == e
    ensures Minus32(W32(x), W32(y)) == e
  {
    LowWord(x - y);
    WSub(x, y);
  }

  /** The four flags add up to the two tests; the reduced flags are replicated. */
  lemma FlagsAdd(a0: u32, a1: u32, b0: u32, b1: u32, e: bit, f: bit)
    requires Minus32(a0, a1) == e && Minus32(b0, b1) == f && 0 <= e + 1 - f <= 1
    ensures Additive(Four(Minus32(1, b0), a0, b1, Neg32(a1)), e + 1 - f)
    ensures Replicated(Four(Plus32(Minus32(1, b0), a0), Plus32(a0, Minus32(1, b0)),
                            Plus32(b1, Neg32(a1)), Plus32(Neg32(a1), b1)), e + 1 - f)
  {
    hide W32;
    var x: int, y: int := 1 - b0, M32 - a1;
    WAdd(x, a0);
    WAdd(a0, x);
    WAdd(b1, y);
    WAdd(y, b1);
    WAdd(x + a0, b1 + y);
    WAdd(x, a0 + b1 + W32(y));
    WAdd(x + a0 + b1, y);
    WAdd(a0 - a1, 1 - (b0 - b1));
    WSub(1, b0 - b1);
    WAdd(e, 1 - (b0 - b1));
    WSub(1 + e, b0 - b1);
    WMultiple((a0 - a1) + 1 - (b0 - b1), 1);
    WSub(1 + e, f);
    WordOfBit(e + 1 - f);
  }

  lemma WordOfBit(e: bit)
    ensures W32(e) == e
  {
  }

  /** The gate: the players' flags are shares of [y outside [p, q)], where y is the sum of the
      value shares modulo 2^L; with the extra keys they come out replicated. */
  lemma GateCorrect(prf: Prf, L: nat, p: nat, q: nat, tr: Four<MsbTuple>, r: nat,
                    x: Four<int>, isRep: bool, y: nat)
    requires GateOk(prf, L, p, q, tr, r)
    requires y < Pow2(L) && Cong(if isRep then x.p0 + x.p2 else Total(x), y, Pow2(L))
    ensures KeysDepth(L, Keys(tr)) && KeysDepth(L, HelpOf(tr))
    ensures var v := OpenMod(GateWord(x, tr, Pow2(L), isRep), Pow2(L));
            && 0 <= v.p0 && 0 <= v.p1 && 0 <= v.p2 && 0 <= v.p3
            && Additive(Flags(prf, L, Keys(tr), v), Ind(y < p || q <= y))
            && Replicated(ReducedFlags(prf, L, Keys(tr), HelpOf(tr), v), Ind(y < p || q <= y))
  {
    var N := Pow2(L);
    var v := (y + r) % N;
    GateOpens(L, tr, r, x, isRep, y);
    Sides(y, r, p, q, N);
    hide Cong, OpenMod, GateWord, LtPathKeys, Share32, W32;
    ShareGap(prf, L, r + p, tr.p1.key, tr.p3.key, v);
    ShareGap(prf, L, r + q, tr.p0.key, tr.p2.key, v);
    FlagsAdd(Share32(prf, L, tr.p1.key, v), Share32(prf, L, tr.p3.key, v),
             Share32(prf, L, tr.p0.key, v), Share32(prf, L, tr.p2.key, v), Ind(v < r + p), Ind(v < r + q));
  }

  /** All players open (y + r) modulo 2^L. */
  lemma GateOpens(L: nat, tr: Four<MsbTuple>, r: nat, x: Four<int>, isRep: bool, y: nat)
    requires Cong(tr.p0.delta + tr.p1.delta + tr.p2.delta + tr.p3.delta, r, Pow2(L))
    requires Cong(if isRep then x.p0 + x.p2 else Total(x), y, Pow2(L))
    ensures var N := Pow2(L);
            OpenMod(GateWord(x, tr, N, isRep), N) == Four((y + r) % N, (y + r) % N, (y + r) % N, (y + r) % N)
  {
    hide OpenMod, Pow2;
    var N := Pow2(L);
    var z := Four(x.p0, if isRep then 0 else x.p1, x.p2, if isRep then 0 else x.p3);
    var a, b, c, d := z.p0 + tr.p0.delta, z.p1 + tr.p1.delta, z.p2 + tr.p2.delta, z.p3 + tr.p3.delta;
    var w := GateWord(x, tr, N, isRep);
    assert w == Four(a % N, b % N, c % N, d % N);
    OpenModTotal(w, N);
    var deltas := tr.p0.delta + tr.p1.delta + tr.p2.delta + tr.p3.delta;
    hide GateWord;
    SumMods(a, b, c, d, N);
    CongAdd(Total(z), y, deltas, r, N);
    assert a + b + c + d == Total(z) + deltas;
    CongTrans(Total(w), a + b + c + d, y + r, N);
  }

  lemma SumMods(a: int, b: int, c: int, d: int, N: int)
    requires N > 0
    ensures Cong(a % N + b % N + c % N + d % N, a + b + c + d, N)
  {
    CongMod(a, N);
    CongMod(b, N);
    CongMod(c, N);
    CongMod(d, N);
    hide Cong;
    CongAdd(a % N, a, b % N, b, N);
    CongAdd(a % N + b % N, a + b, c % N, c, N);
    CongAdd(a % N + b % N + c % N, a + b + c, d % N, d, N);
  }
}
