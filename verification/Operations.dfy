/** The operations of the secret-shared machine, on four players' shares. */
module Operations {
  import opened Bits
  import opened Congruence
  import opened Words
  import opened WordModuli
  import opened Players
  import opened FssCommon
  import opened FssEq
  import opened Gate
  import opened Convert
  import opened Compare

  /** Products of words may be reduced before or after. */
  lemma WMul(x: int, y: int)
    ensures W32(W32(x) * y) == W32(x * y)
    ensures W32(x * W32(y)) == W32(x * y)
    ensures W32(W32(x) * W32(y)) == W32(x * y)
  {
    var k := WordFactor(x);
    var l := WordFactor(y);
    hide *;
    var a, b := W32(x), W32(y);
    MulExpand(a, k, y);
    WMultiple(a * y, k * y);
    MulExpand(b, l, x);
    WMultiple(x * b, l * x);
    MulExpand(a, k, b);
    WMultiple(a * b, k * b);
  }

  lemma MulExpand(a: int, k: int, y: int)
    ensures (a + M32 * k) * y == a * y + M32 * (k * y) && y * (a + M32 * k) == a * y + M32 * (k * y)
    ensures a * y == y * a
  {
  }

  lemma WSum(a: int, b: int, c: int, d: int)
    ensures W32(W32(a) + W32(b) + W32(c) + W32(d)) == W32(a + b + c + d)
    ensures W32(W32(a) + W32(b)) == W32(a + b)
  {
    hide *;
    var i := WordFactor(a);
    var j := WordFactor(b);
    var k := WordFactor(c);
    var l := WordFactor(d);
    WMultiple(W32(a) + W32(b) + W32(c) + W32(d), i + j + k + l);
    WMultiple(W32(a) + W32(b), i + j);
  }

  /** A sum of two products of words. */
  lemma WDot(a: int, f: int, t: int, r: int)
    ensures W32(W32(a) * f + W32(t) * W32(r)) == W32(a * f + t * r)
    ensures W32(W32(a) * W32(f) + W32(t) * W32(r)) == W32(a * f + t * r)
  {
    hide *;
    WMul(a, f);
    WMul(t, r);
    WSum(W32(a) * f, W32(t) * W32(r), 0, 0);
    WSum(W32(a) * W32(f), W32(t) * W32(r), 0, 0);
    WSum(a * f, t * r, 0, 0);
  }

  /** Shares of one value brought to replicated form under fresh masks. */
  method ConvertOne(x: Four<u32>, ghost v: u32) returns (r: Four<u32>)
    requires Additive(x, v)
    ensures Replicated(r, v)
  {
    hide Additive, Replicated;
    var conv := new Convert();
    conv.FourpcZeroshare(1);
    var data := new Four<u32>[1](_ => x);
    assert data[0] == x;
    conv.FourpcToReplicated(data);
    r := data[0];
  }

  /** The sum or difference, and its carry or borrow. */
  method AddSub(prf: Prf, a: Four<u32>, b: Four<u32>, subtract: bool, ghost x: u32, ghost y: u32)
    returns (res: Four<u32>, flag: Four<u32>)
    requires Additive(a, x) && Additive(b, y)
    ensures Replicated(res, if subtract then Minus32(x, y) else Plus32(x, y))
    ensures Replicated(flag, Carry(x, y, subtract))
  {
    hide Additive, Replicated, Carry, W32, Compare.Valid, Convert.Valid;
    var local := if subtract then Four(Minus32(a.p0, b.p0), Minus32(a.p1, b.p1), Minus32(a.p2, b.p2), Minus32(a.p3, b.p3))
                 else Four(Plus32(a.p0, b.p0), Plus32(a.p1, b.p1), Plus32(a.p2, b.p2), Plus32(a.p3, b.p3));
    AddSubShares(a, b, x, y);
    res := ConvertOne(local, if subtract then Minus32(x, y) else Plus32(x, y));
    flag := CarryFlag(prf, a, b, subtract, x, y);
  }

  lemma AddSubShares(a: Four<u32>, b: Four<u32>, x: u32, y: u32)
    requires Additive(a, x) && Additive(b, y)
    ensures Additive(Four(Minus32(a.p0, b.p0), Minus32(a.p1, b.p1), Minus32(a.p2, b.p2), Minus32(a.p3, b.p3)), Minus32(x, y))
    ensures Additive(Four(Plus32(a.p0, b.p0), Plus32(a.p1, b.p1), Plus32(a.p2, b.p2), Plus32(a.p3, b.p3)), Plus32(x, y))
  {
    hide W32;
    WSum(a.p0 - b.p0, a.p1 - b.p1, a.p2 - b.p2, a.p3 - b.p3);
    WSum(a.p0 + b.p0, a.p1 + b.p1, a.p2 + b.p2, a.p3 + b.p3);
    var s: int, t: int := a.p0 + a.p1 + a.p2 + a.p3, b.p0 + b.p1 + b.p2 + b.p3;
    WSub(s, t);
    WAdd(s, t);
  }

  /** A fresh comparison object's split rounds on one pair of words. */
  method CarryFlag(prf: Prf, a: Four<u32>, b: Four<u32>, subtract: bool, ghost x: u32, ghost y: u32) returns (flag: Four<u32>)
    requires Additive(a, x) && Additive(b, y)
    ensures Replicated(flag, Carry(x, y, subtract))
  {
    hide Additive, Replicated, Carry, MsbOk;
    var overflow := new Compare(prf, 33);
    var conv := new Convert();
    overflow.MsbOff(3, false);
    conv.FourpcZeroshare(1);
    var flags := overflow.OverflowSplit([a], [b], subtract, false, conv);
    flag := flags[0];
  }

  /** Greater or equal: the borrow of the difference, taken from 1. */
  method CompareGe(prf: Prf, a: Four<u32>, b: Four<u32>, ghost x: u32, ghost y: u32) returns (flag: Four<u32>)
    requires Additive(a, x) && Additive(b, y)
    ensures Replicated(flag, Ind(x >= y))
  {
    hide Additive, W32;
    var borrow := CarryFlag(prf, a, b, true, x, y);
    flag := Four(Minus32(1, borrow.p0), Minus32(1, borrow.p1), Neg32(borrow.p2), Neg32(borrow.p3));
    OneMinus(borrow.p0, borrow.p2, Ind(x < y));
  }

  lemma OneMinus(f: u32, g: u32, e: bit)
    requires W32(f + g) == e
    ensures W32(Minus32(1, f) + Neg32(g)) == 1 - e
  {
    hide W32;
    WSum(1 - f, M32 - g, 0, 0);
    WMultiple(1 - (f + g), 1);
    WSub(1, f + g);
    SmallWord(1 - e);
  }

  lemma SmallWord(e: bit)
    ensures W32(e) == e
  {
  }

  /** Keys of one equality test, for players 1 and 3, and shares of their point. */
  datatype EqTuple = EqTuple(k0: ServerKeyEq, k1: ServerKeyEq, r: Four<u32>)

  ghost predicate EqOk(prf: Prf, p: int, tr: EqTuple, point: u32)
    requires p > 0
  {
    EqKeys(prf, p, 32, point, 1, tr.k0, tr.k1) && Additive(tr.r, point)
  }

  /** The keys' leaves differ modulo the prime, and the first party's value at the point is not 0. */
  ghost predicate EqFresh(prf: Prf, p: int, tr: EqTuple, point: u32)
    requires p > 0
  {
    && |tr.k0.tree.cw| == |tr.k1.tree.cw| == 31
    && !Cong(LeafGap(prf, 32, point, tr.k0.tree, tr.k1.tree), 0, p)
    && EqShare(prf, p, tr.k0, 32, Low(point, 32)) != 0
  }

  /** By the two last expansions on the point's path. */
  lemma EqFreshIs(prf: Prf, p: int, tr: EqTuple, point: u32)
    requires p > 0 && |tr.k0.tree.cw| == |tr.k1.tree.cw| == 31 && tr.k0.w >= 0
    ensures EqFresh(prf, p, tr, point) <==>
              var o, o' := prf(NodeAt(prf, tr.k0.tree, 31, Low(point, 32)).s), prf(NodeAt(prf, tr.k1.tree, 31, Low(point, 32)).s);
              && ((o.s.zero - o'.s.zero) * 0x1_0000_0000_0000_0000_0000_0000_0000_0000_0000 + (o.s.one - o'.s.one) * 0x1_0000
                  + (o.ctrl.zero % 2 - o'.ctrl.zero % 2) * 0x100 + (o.ctrl.one % 2 - o'.ctrl.one % 2)) % p != 0
              && LeafInt(o) * tr.k0.w % p != 0
  {
    hide NodeAt, Low, LeafGap, EqShare, Cong, LeafInt;
    LeafGapIs(prf, 32, point, tr.k0.tree, tr.k1.tree);
    ZeroMod(LeafGap(prf, 32, point, tr.k0.tree, tr.k1.tree), p);
    EqShareIs(prf, p, tr.k0, 32, Low(point, 32));
  }

  /** What the players reveal for an equality test: the difference under the mask. */
  function EqWord(a: Four<u32>, b: Four<u32>, r: Four<u32>): Four<u32> {
    Four(W32(a.p0 - b.p0 + r.p0), W32(a.p1 - b.p1 + r.p1), W32(a.p2 - b.p2 + r.p2), W32(a.p3 - b.p3 + r.p3))
  }

  /** Equal or not: players 1 and 3 look the opened word up and hand their halves on. */
  method CompareEq(prf: Prf, p: int, tr: EqTuple, a: Four<u32>, b: Four<u32>, ghost x: u32, ghost y: u32, ghost point: u32)
    returns (flag: Four<u32>)
    requires IsPrime(p) && p > M32 && EqOk(prf, p, tr, point) && EqFresh(prf, p, tr, point)
    requires Additive(a, x) && Additive(b, y)
    ensures Replicated(flag, Ind(x == y))
  {
    hide W32, EqKeys, IsPrime, LeafGap, EqShare, Cong, Low, Additive, EqWord, OpenedWord;
    var word := EqWord(a, b, tr.r);
    var tmp1 := OpenedWord(word.p1, word.p0, word.p2, word.p3);
    var tmp3 := OpenedWord(word.p3, word.p0, word.p1, word.p2);
    EqOpens(a, b, tr.r, x, y, point);
    LookupLifts(prf, p, point, tr, tmp1, Ind(x == y));
    var v0 := EvaluateEq(prf, p, 32, tr.k0, tmp1);
    var v1 := EvaluateEq(prf, p, 32, tr.k1, tmp3);
    var f1 := W32(v0);
    var f3 := Neg32(W32(v1));
    flag := Four(f1, f1, f3, f3);
  }

  function OpenedWord(own: u32, a: u32, b: u32, c: u32): u32 {
    Plus32(Plus32(Plus32(own, a), b), c)
  }

  lemma EqOpens(a: Four<u32>, b: Four<u32>, r: Four<u32>, x: u32, y: u32, point: u32)
    requires Additive(a, x) && Additive(b, y) && Additive(r, point)
    ensures var w := EqWord(a, b, r);
            && OpenedWord(w.p1, w.p0, w.p2, w.p3) == W32(x - y + point)
            && OpenedWord(w.p3, w.p0, w.p1, w.p2) == W32(x - y + point)
    ensures W32(x - y + point) == point <==> x == y
  {
    var w := EqWord(a, b, r);
    SameWord(x, y, point);
    hide W32;
    OpenedSum(w.p1, w.p0, w.p2, w.p3);
    OpenedSum(w.p3, w.p0, w.p1, w.p2);
    WSum(a.p0 - b.p0 + r.p0, a.p1 - b.p1 + r.p1, a.p2 - b.p2 + r.p2, a.p3 - b.p3 + r.p3);
    var s: int, t: int, u: int := a.p0 + a.p1 + a.p2 + a.p3, b.p0 + b.p1 + b.p2 + b.p3, r.p0 + r.p1 + r.p2 + r.p3;
    WSub(s, t);
    WAdd(s - t, u);
    WAdd(W32(s) - W32(t), W32(u));
  }

  lemma SameWord(x: u32, y: u32, point: u32)
    ensures W32(x - y + point) == point <==> x == y
  {
  }

  lemma OpenedSum(own: u32, a: u32, b: u32, c: u32)
    ensures OpenedWord(own, a, b, c) == W32(own + a + b + c)
  {
    hide W32;
    WAdd(own + a, b);
    WAdd(own + a + b, c);
  }

  /** The lookups' low words are shares of the answer. */
  lemma LookupLifts(prf: Prf, p: int, point: u32, tr: EqTuple, z: u32, e: bit)
    requires IsPrime(p) && p > M32 && EqKeys(prf, p, 32, point, 1, tr.k0, tr.k1) && EqFresh(prf, p, tr, point)
    requires e == Ind(z == point)
    ensures |tr.k0.tree.cw| == |tr.k1.tree.cw| == 31
    ensures W32(W32(EqShare(prf, p, tr.k0, 32, Low(z, 32))) + Neg32(W32(EqShare(prf, p, tr.k1, 32, Low(z, 32))))) == e
  {
    Pow2Of32();
    hide Pow2, W32, EqKeys, IsPrime, LeafGap, EqShare, Cong, Low;
    LowSmall(z, 32);
    LowSmall(point, 32);
    LiftCorrect(prf, p, 32, point, tr.k0, tr.k1, z);
  }

  /** The helper draws the keys and point of one equality test. */
  method DrawEq(prf: Prf, p: int) returns (tr: EqTuple, ghost point: u32)
    requires IsPrime(p)
    ensures EqOk(prf, p, tr, point)
  {
    hide EqKeys, W32, Cong, LeafGap, EqShare, Low, IsPrime;
    var r := Random32();
    var k0, k1 := GenerateTreeEq(prf, p, 32, r, 1);
    var r0 := Random32();
    var r1 := Random32();
    var r2 := Random32();
    var rest := W32(W32(W32((r as int) - r0) - r1) - r2);
    tr := EqTuple(k0, k1, Four(rest, r0, r1, r2));
    point := r;
    FourShares(r, r0, r1, r2);
  }

  lemma FourShares(v: u32, a: u32, b: u32, c: u32)
    ensures W32(W32(W32(W32(v - a) - b) - c) + a + b + c) == v
  {
    hide W32;
    WSub(v - a, b);
    WSub(v - a - b, c);
    WAdd(v - a - b - c, a + b + c);
    WSmall(v);
  }

  lemma WSmall(v: u32)
    ensures W32(v) == v
  {
  }

  /** a where f is 1, b where f is 0, as words. */
  function Choose(f: u32, a: u32, b: u32): u32 {
    W32(a * f + (1 - f) * b)
  }

  lemma ChooseBit(f: bit, a: u32, b: u32)
    ensures Choose(f, a, b) == if f == 1 then a else b
  {
  }

  /** Each player's term of a choice, from shares revealed across the pairs. */
  function ChooseShares(f: Four<u32>, a: Four<u32>, b: Four<u32>): Four<u32> {
    var x, y := DiagReveal(a), DiagReveal(b);
    Four(ChooseTerm(Minus32(1, f.p0), f.p0, x.p0, y.p0), ChooseTerm(Minus32(1, f.p1), f.p1, x.p1, y.p1),
         ChooseTerm(Neg32(f.p2), f.p2, x.p2, y.p2), ChooseTerm(Neg32(f.p3), f.p3, x.p3, y.p3))
  }

  function ChooseTerm(notF: u32, f: u32, a: u32, b: u32): u32 {
    W32(a * f + notF * b)
  }

  lemma ChooseAdds(f: Four<u32>, a: Four<u32>, b: Four<u32>, fv: u32, av: u32, bv: u32)
    requires Replicated(f, fv) && Additive(a, av) && Additive(b, bv)
    ensures Additive(ChooseShares(f, a, b), Choose(fv, av, bv))
  {
    hide W32, ChooseTerm, Choose;
    var x: int, y: int, z: int, w: int := a.p0 + a.p2, a.p1 + a.p3, b.p0 + b.p2, b.p1 + b.p3;
    var s: int, t: int := f.p0, f.p2;
    TermIs(1 - s, f.p0, x, z);
    TermIs(1 - s, f.p1, y, w);
    TermIs(M32 - t, f.p2, x, z);
    TermIs(M32 - t, f.p3, y, w);
    TermsAdd(x, y, z, w, s, t, fv, av, bv);
  }

  lemma TermIs(n: int, f: u32, a: int, b: int)
    ensures ChooseTerm(W32(n), f, W32(a), W32(b)) == W32(a * f + n * b)
  {
    hide W32;
    WDot(a, f, n, b);
  }

  lemma TermsAdd(x: int, y: int, z: int, w: int, s: int, t: int, fv: u32, av: u32, bv: u32)
    requires W32(s + t) == fv && W32(x + y) == av && W32(z + w) == bv
    ensures W32(W32(x * s + (1 - s) * z) + W32(y * s + (1 - s) * w) + W32(x * t + (M32 - t) * z) + W32(y * t + (M32 - t) * w))
         == Choose(fv, av, bv)
  {
    hide *;
    WSum(x * s + (1 - s) * z, y * s + (1 - s) * w, x * t + (M32 - t) * z, y * t + (M32 - t) * w);
    ChooseIdentity(x, y, z, w, s, t);
    WMultiple((x + y) * (s + t) + (1 - (s + t)) * (z + w), z + w);
    ChooseWord(s + t, x + y, z + w, fv, av, bv);
  }

  lemma ChooseIdentity(x: int, y: int, z: int, w: int, s: int, t: int)
    ensures (x * s + (1 - s) * z) + (y * s + (1 - s) * w) + (x * t + (M32 - t) * z) + (y * t + (M32 - t) * w)
         == (x + y) * (s + t) + (1 - (s + t)) * (z + w) + M32 * (z + w)
  {
  }

  lemma ChooseWord(f: int, a: int, b: int, fv: u32, av: u32, bv: u32)
    requires W32(f) == fv && W32(a) == av && W32(b) == bv
    ensures W32(a * f + (1 - f) * b) == Choose(fv, av, bv)
  {
    hide W32;
    var g, gv := 1 - f, 1 - fv as int;
    WSub(1, f);
    assert W32(g) == W32(gv);
    WMul(a, f);
    WMul(g, b);
    WMul(gv, bv);
    WMul(gv, b);
    ChooseSums(a * f, g * b, av * fv as int, gv * bv);
  }

  lemma ChooseSums(x: int, y: int, u: int, v: int)
    requires W32(x) == W32(u) && W32(y) == W32(v)
    ensures W32(x + y) == W32(u + v)
  {
    hide W32;
    WAdd(x, y);
    WAdd(u, v);
  }

  /** The pairs' shares of a selection bit: 1 in both pairs, or 0 in both. */
  ghost predicate BetaIs(beta: Four<u32>, hit: bit) {
    W32(beta.p0 + beta.p1) == hit && W32(beta.p2 + beta.p3) == hit
  }

  /** Shares revealed within the pairs, times each player's share of the selection bit. */
  function Scaled(d: Four<u32>, beta: Four<u32>): Four<u32> {
    var t := TwoReveal(d);
    Four(Times32(beta.p0, t.p0), Times32(beta.p1, t.p1), Times32(beta.p2, t.p2), Times32(beta.p3, t.p3))
  }

  lemma ScaledAdds(d: Four<u32>, beta: Four<u32>, v: u32, hit: bit)
    requires Additive(d, v) && BetaIs(beta, hit)
    ensures Additive(Scaled(d, beta), if hit == 1 then v else 0)
  {
    hide W32;
    var x: int, y: int := d.p0 + d.p1, d.p2 + d.p3;
    WMul(beta.p0, x);
    WMul(beta.p1, x);
    WMul(beta.p2, y);
    WMul(beta.p3, y);
    WSum(beta.p0 * x, beta.p1 * x, beta.p2 * y, beta.p3 * y);
    HitProducts(beta.p0, beta.p1, beta.p2, beta.p3, x, y, hit);
    WSmall(v);
    WSmall(0);
  }

  /** Two values, each times a shared bit. */
  lemma HitProducts(b0: int, b1: int, b2: int, b3: int, x: int, y: int, hit: bit)
    requires W32(b0 + b1) == hit && W32(b2 + b3) == hit
    ensures W32(b0 * x + b1 * x + b2 * y + b3 * y) == W32(if hit == 1 then x + y else 0)
  {
    var k := WordFactor(b0 + b1);
    var l := WordFactor(b2 + b3);
    hide W32;
    HitIdentity(b0, b1, x, hit, k);
    HitIdentity(b2, b3, y, hit, l);
    WMultiple(if hit == 1 then x + y else 0, k * x + l * y);
  }

  lemma HitIdentity(b0: int, b1: int, x: int, hit: bit, k: int)
    requires b0 + b1 == hit + M32 * k
    ensures b0 * x + b1 * x == (if hit == 1 then x else 0) + M32 * (k * x)
  {
    assert b0 * x + b1 * x == (hit + M32 * k) * x == hit * x + M32 * (k * x);
  }

  /** An unconditional jump: what the players add to the program counter. */
  function JumpShares(a: Four<u32>, pc: Four<u32>, beta: Four<u32>): Four<u32> {
    Scaled(Differences(a, pc), beta)
  }

  /** A jump on a flag, or with negate on its complement. */
  function JumpIfShares(flag: Four<u32>, a: Four<u32>, pc: Four<u32>, beta: Four<u32>, negate: bool): Four<u32> {
    Scaled(Differences(if negate then ChooseShares(flag, pc, a) else ChooseShares(flag, a, pc), pc), beta)
  }

  function Differences(a: Four<u32>, b: Four<u32>): Four<u32> {
    Four(Minus32(a.p0, b.p0), Minus32(a.p1, b.p1), Minus32(a.p2, b.p2), Minus32(a.p3, b.p3))
  }

  function Sums(a: Four<u32>, b: Four<u32>): Four<u32> {
    Four(Plus32(a.p0, b.p0), Plus32(a.p1, b.p1), Plus32(a.p2, b.p2), Plus32(a.p3, b.p3))
  }

  lemma JumpAdds(a: Four<u32>, pc: Four<u32>, beta: Four<u32>, av: u32, cv: u32, hit: bit)
    requires Additive(a, av) && Additive(pc, cv) && BetaIs(beta, hit)
    ensures Additive(JumpShares(a, pc, beta), if hit == 1 then Minus32(av, cv) else 0)
  {
    hide *;
    DifferencesAdd(a, pc, av, cv);
    ScaledAdds(Differences(a, pc), beta, Minus32(av, cv), hit);
    JumpSharesIs(a, pc, beta);
  }

  lemma JumpSharesIs(a: Four<u32>, pc: Four<u32>, beta: Four<u32>)
    ensures JumpShares(a, pc, beta) == Scaled(Differences(a, pc), beta)
  {
  }

  lemma DifferencesAdd(a: Four<u32>, b: Four<u32>, av: u32, bv: u32)
    requires Additive(a, av) && Additive(b, bv)
    ensures Additive(Differences(a, b), Minus32(av, bv)) && Additive(Sums(a, b), Plus32(av, bv))
  {
    hide W32;
    AddSubShares(a, b, av, bv);
  }

  lemma JumpIfAdds(flag: Four<u32>, a: Four<u32>, pc: Four<u32>, beta: Four<u32>, negate: bool, fv: u32, av: u32, cv: u32, hit: bit)
    requires Replicated(flag, fv) && Additive(a, av) && Additive(pc, cv) && BetaIs(beta, hit)
    ensures Additive(JumpIfShares(flag, a, pc, beta, negate),
                     if hit == 1 then Minus32(if negate then Choose(fv, cv, av) else Choose(fv, av, cv), cv) else 0)
  {
    hide Replicated, Additive, BetaIs, ChooseShares, Choose, Differences, Scaled, W32;
    if negate {
      ChooseAdds(flag, pc, a, fv, cv, av);
      DifferencesAdd(ChooseShares(flag, pc, a), pc, Choose(fv, cv, av), cv);
      ScaledAdds(Differences(ChooseShares(flag, pc, a), pc), beta, Minus32(Choose(fv, cv, av), cv), hit);
    } else {
      ChooseAdds(flag, a, pc, fv, av, cv);
      DifferencesAdd(ChooseShares(flag, a, pc), pc, Choose(fv, av, cv), cv);
      ScaledAdds(Differences(ChooseShares(flag, a, pc), pc), beta, Minus32(Choose(fv, av, cv), cv), hit);
    }
  }

  /** What a store writes: the register where it is selected, else what is there. */
  function StoreTarget(ri: Four<u32>, buffer: Four<u32>, beta: Four<u32>): Four<u32> {
    Four(StoreTerm(ri.p0, Minus32(1, beta.p0), buffer.p0, beta.p0), StoreTerm(ri.p1, Neg32(beta.p1), buffer.p1, beta.p1),
         StoreTerm(ri.p2, Minus32(1, beta.p2), buffer.p2, beta.p2), StoreTerm(ri.p3, Neg32(beta.p3), buffer.p3, beta.p3))
  }

  function StoreTerm(r: u32, notBeta: u32, b: u32, beta: u32): u32 {
    W32(r * beta + notBeta * b)
  }

  lemma StoreAdds(ri: Four<u32>, buffer: Four<u32>, beta: Four<u32>, r: u32, b: u32, hit: bit)
    requires Replicated(ri, r) && Replicated(buffer, b) && BetaIs(beta, hit)
    ensures Additive(StoreTarget(ri, buffer, beta), if hit == 1 then r else b)
  {
    hide W32, StoreTerm;
    var u: int, v: int, x: int, y: int := ri.p0, ri.p2, buffer.p0, buffer.p2;
    StoreTermIs(u, 1 - beta.p0, x, beta.p0);
    StoreTermIs(u, M32 - beta.p1, x, beta.p1);
    StoreTermIs(v, 1 - beta.p2, y, beta.p2);
    StoreTermIs(v, M32 - beta.p3, y, beta.p3);
    StoreTermsAdd(u, v, x, y, beta.p0, beta.p1, beta.p2, beta.p3, hit);
    WSmall(r);
    WSmall(b);
  }

  lemma StoreTermIs(r: u32, n: int, b: u32, beta: u32)
    ensures StoreTerm(r, W32(n), b, beta) == W32(r * beta + n * b)
  {
    hide W32;
    WMul(n, b);
    WSum(r * beta, W32(n) * b, 0, 0);
    WSum(r * beta, n * b, 0, 0);
  }

  lemma StoreTermsAdd(u: int, v: int, x: int, y: int, b0: int, b1: int, b2: int, b3: int, hit: bit)
    requires W32(b0 + b1) == hit && W32(b2 + b3) == hit
    ensures W32(W32(u * b0 + (1 - b0) * x) + W32(u * b1 + (M32 - b1) * x)
                + W32(v * b2 + (1 - b2) * y) + W32(v * b3 + (M32 - b3) * y))
         == W32(if hit == 1 then u + v else x + y)
  {
    hide W32;
    var t0, t1, t2, t3 := u * b0 + (1 - b0) * x, u * b1 + (M32 - b1) * x, v * b2 + (1 - b2) * y, v * b3 + (M32 - b3) * y;
    WSum(t0, t1, t2, t3);
    StoreIdentity(u, x, b0, b1);
    StoreIdentity(v, y, b2, b3);
    HitProducts(b0, b1, b2, b3, u - x, v - y, hit);
    var s := b0 * (u - x) + b1 * (u - x) + b2 * (v - y) + b3 * (v - y);
    WMultiple(s + x + y, x + y);
    WAdd(s, x + y);
    WAdd(if hit == 1 then u - x + (v - y) else 0, x + y);
  }

  lemma StoreIdentity(u: int, x: int, b0: int, b1: int)
    ensures (u * b0 + (1 - b0) * x) + (u * b1 + (M32 - b1) * x) == b0 * (u - x) + b1 * (u - x) + x + M32 * x
  {
  }
}
