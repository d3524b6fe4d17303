/** Additive shares modulo q that carry a commitment to the shared value, and their product. */
module Spdz {
  import opened Congruence
  import opened Words
  import opened FssEq
  import opened ModPower

  /** One party's share of a value and of its randomness, and the commitment (the verifier's is valid). */
  datatype Amaterial = Amaterial(m: nat, r: nat, c: int)

  function SumM(a: seq<Amaterial>, k: nat): nat
    requires k <= |a|
  {
    if k == 0 then 0 else SumM(a, k - 1) + a[k - 1].m
  }

  function SumR(a: seq<Amaterial>, k: nat): nat
    requires k <= |a|
  {
    if k == 0 then 0 else SumR(a, k - 1) + a[k - 1].r
  }

  /** Shares of x and r modulo q, and a commitment of the verifier's whose exponents are x and r themselves. */
  ghost predicate Holds(G: Group, a: seq<Amaterial>, vf: nat, x: nat, r: nat) {
    && Sized(G) && vf < |a|
    && (forall p :: 0 <= p < |a| ==> a[p].m < 2 * G.q && a[p].r < 2 * G.q)
    && Cong(SumM(a, |a|), x, G.q) && Cong(SumR(a, |a|), r, G.q)
    && 0 <= a[vf].c < G.p && Opens(G, a[vf].c, x, r)
  }

  function PowM(b: int, e: nat, p: nat): int
    requires p > 0
  {
    Pow(b, e) % p
  }

  function Commit(G: Group, m: nat, r: nat): int
    requires G.p > 0
  {
    PowM(G.g, m, G.p) * PowM(G.h, r, G.p) % G.p
  }

  predicate Decommit(G: Group, m: nat, r: nat, target: int)
    requires G.p > 0
  {
    target == Commit(G, m, r)
  }

  lemma CommitOpens(G: Group, m: nat, r: nat)
    requires Sized(G)
    ensures 0 <= Commit(G, m, r) < G.p && Opens(G, Commit(G, m, r), m, r)
  {
    CongMod(Pow(G.g, m), G.p);
    CongMod(Pow(G.h, r), G.p);
    CongMod(PowM(G.g, m, G.p) * PowM(G.h, r, G.p), G.p);
    hide Cong, Pow;
    CongProduct(PowM(G.g, m, G.p), Pow(G.g, m), PowM(G.h, r, G.p), Pow(G.h, r), G.p);
    CongTrans(Commit(G, m, r), PowM(G.g, m, G.p) * PowM(G.h, r, G.p), Element(G, m, r), G.p);
  }

  /** The check of a reduced commitment passes exactly if it opens to the values. */
  lemma DecommitIff(G: Group, m: nat, r: nat, c: int)
    requires Sized(G) && 0 <= c < G.p
    ensures Decommit(G, m, r, c) <==> Opens(G, c, m, r)
  {
    CommitOpens(G, m, r);
    hide Commit, Element;
    CongSmall(c, Commit(G, m, r), G.p);
    if Opens(G, c, m, r) {
      CongSym(Commit(G, m, r), Element(G, m, r), G.p);
      CongTrans(c, Element(G, m, r), Commit(G, m, r), G.p);
    }
  }

  function Mod(x: int, q: nat): (r: nat)
    requires q > 0
    ensures r < q
  {
    CongMod(x, q);
    x % q
  }

  function ModSub(a: nat, b: nat, q: nat): nat
    requires q > 0
  {
    CongMod(b, q);
    a + q - b % q
  }

  lemma ModSubIs(a: nat, b: nat, q: nat)
    requires q > 0
    ensures Cong(ModSub(a, b, q), a - b, q) && ModSub(a, b, q) <= a + q
  {
    CongMod(b, q);
    CongByMultiple(a + q, a, q, 1);
    CongAdd(a + q, a, b % q, b, q);
  }

  function Total(s: seq<nat>, k: nat): nat
    requires k <= |s|
  {
    if k == 0 then 0 else Total(s, k - 1) + s[k - 1]
  }

  /** A number as the eight bytes that are sent for it. */
  function Bytes8(x: nat): nat {
    x % M64
  }

  /** Party p adds what it receives to what it sent; with two parties or more the sum is reduced. */
  method OpenSum(s: seq<nat>, p: nat, q: nat) returns (v: nat)
    requires q > 0 && p < |s| && |s| >= 2 && forall k :: 0 <= k < |s| ==> s[k] < M64
    ensures v == Total(s, |s|) % q
  {
    v := s[p];
    CongByMultiple(s[p], s[p], q, 0);
    for k := 0 to |s|
      invariant Cong(v, (if p < k then 0 else s[p]) + Total(s, k), q)
      invariant (k > 0 && p != 0) || k > 1 ==> v < q
    {
      hide Cong;
      if k != p {
        OpenStep(v, (if p < k then 0 else s[p]) + Total(s, k), s[k], q);
        v := (v + Bytes8(s[k])) % q;
      }
    }
    CongMod(Total(s, |s|), q);
    CongTrans(v, Total(s, |s|), Total(s, |s|) % q, q);
    CongSmall(v, Total(s, |s|) % q, q);
  }

  lemma OpenStep(v: nat, t: nat, x: nat, q: nat)
    requires q > 0 && Cong(v, t, q) && x < M64
    ensures Bytes8(x) == x && 0 <= (v + x) % q < q && Cong((v + x) % q, t + x, q)
  {
    CongByMultiple(x, x, q, 0);
    CongAdd(v, t, x, x, q);
    CongMod(v + x, q);
  }

  /** The masked shares of one value: share less triple share. */
  function MaskedM(a: seq<Amaterial>, t: seq<Amaterial>, q: nat): (s: seq<nat>)
    requires |a| == |t| && q > 0
    ensures |s| == |a|
  {
    seq(|a|, p requires 0 <= p < |a| => ModSub(a[p].m, t[p].m, q))
  }

  function MaskedR(a: seq<Amaterial>, t: seq<Amaterial>, q: nat): (s: seq<nat>)
    requires |a| == |t| && q > 0
    ensures |s| == |a|
  {
    seq(|a|, p requires 0 <= p < |a| => ModSub(a[p].r, t[p].r, q))
  }

  lemma {:induction false} MaskedTotals(a: seq<Amaterial>, t: seq<Amaterial>, q: nat, k: nat)
    requires |a| == |t| && q > 0 && k <= |a|
    ensures Cong(Total(MaskedM(a, t, q), k), SumM(a, k) - SumM(t, k), q)
    ensures Cong(Total(MaskedR(a, t, q), k), SumR(a, k) - SumR(t, k), q)
  {
    hide Cong, ModSub;
    if k == 0 {
      CongByMultiple(0, 0, q, 0);
    } else {
      var x, y := a[k - 1], t[k - 1];
      MaskedTotals(a, t, q, k - 1);
      MaskedAdds(Total(MaskedM(a, t, q), k - 1), SumM(a, k - 1), SumM(t, k - 1), x.m, y.m, q);
      MaskedAdds(Total(MaskedR(a, t, q), k - 1), SumR(a, k - 1), SumR(t, k - 1), x.r, y.r, q);
    }
  }

  lemma MaskedAdds(sum: int, a: int, t: int, x: nat, y: nat, q: nat)
    requires q > 0 && Cong(sum, a - t, q)
    ensures Cong(sum + ModSub(x, y, q), (a + x) - (t + y), q)
  {
    ModSubIs(x, y, q);
    hide Cong, ModSub;
    CongAdd(sum, a - t, ModSub(x, y, q), x - y, q);
  }

  /** The check of an opened difference compares exponents x and rx with what the opened values leave of them. */
  ghost predicate OpeningPasses(G: Group, x: nat, rx: nat, u: nat, ru: nat)
    requires Sized(G)
  {
    Cong(Element(G, Mod(x - u, G.q) + u, Mod(rx - ru, G.q) + ru), Element(G, x, rx), G.p)
  }

  /** Opening a masked value: every party learns x - u, and the exact condition for the verifier's check. */
  method OpenMasked(G: Group, vf: nat, a: seq<Amaterial>, t: seq<Amaterial>, ghost x: nat, ghost rx: nat, ghost u: nat, ghost ru: nat)
    returns (d: seq<nat>, ok: bool)
    requires |a| == |t| >= 2 && Holds(G, a, vf, x, rx) && Holds(G, t, vf, u, ru) && 3 * G.q < M64
    ensures |d| == |a| && forall p :: 0 <= p < |a| ==> d[p] == Mod(x - u, G.q)
    ensures Units(G) ==> (ok <==> OpeningPasses(G, x, rx, u, ru))
  {
    hide Pow, Element, Cong, Opens, Decommit, Units, Invertible, OpeningPasses;
    var sent, sentR := MaskedM(a, t, G.q), MaskedR(a, t, G.q);
    forall p | 0 <= p < |a|
      ensures sent[p] < M64 && sentR[p] < M64
    {
      ModSubIs(a[p].m, t[p].m, G.q);
      ModSubIs(a[p].r, t[p].r, G.q);
    }
    MaskedOpens(G, a, t, vf, x, rx, u, ru);
    d := [];
    for p := 0 to |a|
      invariant |d| == p && forall j :: 0 <= j < p ==> d[j] == Mod(x - u, G.q)
    {
      var v := OpenSum(sent, p, G.q);
      d := d + [v];
    }
    var dr := OpenSum(sentR, vf, G.q);
    // the verifier
    var inv := MpzInvert(t[vf].c, G.p);
    ok := Decommit(G, d[vf], dr, a[vf].c * inv % G.p);
    if Units(G) {
      OpensInvertible(G, t[vf].c, u, ru);
      OpeningIff(G, a[vf].c, x, rx, t[vf].c, u, ru, inv);
    }
  }

  lemma MaskedOpens(G: Group, a: seq<Amaterial>, t: seq<Amaterial>, vf: nat, x: nat, rx: nat, u: nat, ru: nat)
    requires |a| == |t| && Holds(G, a, vf, x, rx) && Holds(G, t, vf, u, ru)
    ensures Total(MaskedM(a, t, G.q), |a|) % G.q == Mod(x - u, G.q)
    ensures Total(MaskedR(a, t, G.q), |a|) % G.q == Mod(rx - ru, G.q)
  {
    MaskedTotals(a, t, G.q, |a|);
    hide Opens;
    CongAdd(SumM(a, |a|), x, SumM(t, |a|), u, G.q);
    CongAdd(SumR(a, |a|), rx, SumR(t, |a|), ru, G.q);
  }

  lemma OpensInvertible(G: Group, c: int, x: nat, r: nat)
    requires Units(G) && Opens(G, c, x, r)
    ensures Invertible(c, G.p)
  {
    ElementUnit(G, x, r);
    hide Element;
    InvertibleCong(Element(G, x, r), c, G.p);
  }

  /** The commitment over the triple's commitment opens to the opened differences exactly if the opening passes. */
  lemma OpeningIff(G: Group, c: int, x: nat, rx: nat, t: int, u: nat, ru: nat, inv: int)
    requires Units(G) && Opens(G, c, x, rx) && Opens(G, t, u, ru) && Cong(inv * t, 1, G.p)
    ensures Decommit(G, Mod(x - u, G.q), Mod(rx - ru, G.q), c * inv % G.p) <==> OpeningPasses(G, x, rx, u, ru)
  {
    var d, dr := Mod(x - u, G.q), Mod(rx - ru, G.q);
    CongMod(c * inv, G.p);
    DecommitIff(G, d, dr, c * inv % G.p);
    OpensInvertible(G, t, u, ru);
    Cancel(c * inv, Element(G, d, dr), t, G.p);
    ElementProduct(G, d, dr, u, ru);
    hide Element, Units, Mod;
    CongMul(t, Element(G, u, ru), Element(G, d, dr), G.p);
    CongMul(inv * t, 1, c, G.p);
    MulAssoc(c, inv, t);
  }

  /** The random factors of one product and their product, shared. */
  datatype Triple = Triple(a: seq<Amaterial>, b: seq<Amaterial>, c: seq<Amaterial>)
  /** What a triple's parts hold: values u, v and w, and their randomnesses. */
  datatype Secrets = Secrets(u: nat, v: nat, w: nat, ru: nat, rv: nat, rw: nat)

  ghost predicate TripleOk(G: Group, t: Triple, n: nat, vf: nat, s: Secrets) {
    && |t.a| == |t.b| == |t.c| == n
    && Holds(G, t.a, vf, s.u, s.ru) && Holds(G, t.b, vf, s.v, s.rv) && Holds(G, t.c, vf, s.w, s.rw)
    && Cong(s.w, s.u * s.v, G.q)
  }

  /** b times d plus a times e plus c. */
  function Mix(b: nat, d: nat, a: nat, e: nat, c: nat): nat {
    b * d + a * e + c
  }

  /** Party p's share of a product, from the opened differences; player 1 takes off their product. */
  function ProductM(a: Amaterial, b: Amaterial, c: Amaterial, d: nat, e: nat, q: nat, p: nat): (m: nat)
    requires q > 0
    ensures m < 2 * q
  {
    var m := Mod(Mix(b.m, d, a.m, e, c.m), q);
    ModSubIs(m, d * e, q);
    ModSubBound(m, d * e, q);
    if p == 1 then ModSub(m, d * e, q) else m
  }

  lemma ModSubBound(a: nat, b: nat, q: nat)
    requires q > 0 && a < q
    ensures ModSub(a, b, q) < 2 * q
  {
    CongMod(b, q);
  }

  function ProductR(a: Amaterial, b: Amaterial, c: Amaterial, d: nat, e: nat, q: nat): (r: nat)
    requires q > 0
    ensures r < q
  {
    Mod(Mix(b.r, d, a.r, e, c.r), q)
  }

  /** The commitment to a product, put together from the factors' commitments. */
  function ProductC(G: Group, a: Amaterial, b: Amaterial, c: Amaterial, d: nat, e: nat): int
    requires G.p > 0 && G.q > 0
  {
    (PowM(b.c, d, G.p) * PowM(a.c, e, G.p) % G.p) * (c.c * Commit(G, G.q - Mod(d * e, G.q), 0) % G.p) % G.p
  }

  function ProductShares(G: Group, a: seq<Amaterial>, b: seq<Amaterial>, c: seq<Amaterial>, d: seq<nat>, e: seq<nat>): (s: seq<Amaterial>)
    requires G.p > 0 && G.q > 0 && |a| == |b| == |c| == |d| == |e|
    ensures |s| == |a|
  {
    seq(|a|, p requires 0 <= p < |a| =>
      Amaterial(ProductM(a[p], b[p], c[p], d[p], e[p], G.q, p), ProductR(a[p], b[p], c[p], d[p], e[p], G.q),
                ProductC(G, a[p], b[p], c[p], d[p], e[p])))
  }

  lemma ProductMIs(a: Amaterial, b: Amaterial, c: Amaterial, d: nat, e: nat, q: nat, p: nat)
    requires q > 0
    ensures Cong(ProductM(a, b, c, d, e, q, p), Mix(b.m, d, a.m, e, c.m) - (if p == 1 then d * e else 0), q)
    ensures Cong(ProductR(a, b, c, d, e, q), Mix(b.r, d, a.r, e, c.r), q)
  {
    hide Mix;
    var x, m := Mix(b.m, d, a.m, e, c.m), Mod(Mix(b.m, d, a.m, e, c.m), q);
    CongMod(x, q);
    CongMod(Mix(b.r, d, a.r, e, c.r), q);
    ModSubIs(m, d * e, q);
    CongByMultiple(d * e, d * e, q, 0);
    CongAdd(m, x, d * e, d * e, q);
    CongTrans(ModSub(m, d * e, q), m - d * e, x - d * e, q);
  }

  lemma MixAdd(b: nat, b': nat, d: nat, a: nat, a': nat, e: nat, c: nat, c': nat)
    ensures Mix(b + b', d, a + a', e, c + c') == Mix(b, d, a, e, c) + Mix(b', d, a', e, c')
  {
  }

  /** The product's shares add up. */
  lemma {:induction false} ProductTotals(G: Group, a: seq<Amaterial>, b: seq<Amaterial>, c: seq<Amaterial>,
                                         ds: seq<nat>, es: seq<nat>, d: nat, e: nat, k: nat)
    requires G.p > 0 && G.q > 0 && |a| == |b| == |c| == |ds| == |es| && k <= |a|
    requires forall p :: 0 <= p < |a| ==> ds[p] == d && es[p] == e
    ensures var s := ProductShares(G, a, b, c, ds, es);
            && Cong(SumM(s, k), Mix(SumM(b, k), d, SumM(a, k), e, SumM(c, k)) - (if k > 1 then d * e else 0), G.q)
            && Cong(SumR(s, k), Mix(SumR(b, k), d, SumR(a, k), e, SumR(c, k)), G.q)
  {
    hide Cong, ProductM, ProductR, ProductC, Mod;
    var s := ProductShares(G, a, b, c, ds, es);
    if k == 0 {
      CongByMultiple(0, 0, G.q, 0);
    } else {
      ProductTotals(G, a, b, c, ds, es, d, e, k - 1);
      var p := k - 1;
      ProductMIs(a[p], b[p], c[p], d, e, G.q, p);
      MixAdd(SumM(b, p), b[p].m, d, SumM(a, p), a[p].m, e, SumM(c, p), c[p].m);
      MixAdd(SumR(b, p), b[p].r, d, SumR(a, p), a[p].r, e, SumR(c, p), c[p].r);
      hide Mix;
      CongAdd(SumM(s, p), Mix(SumM(b, p), d, SumM(a, p), e, SumM(c, p)) - (if p > 1 then d * e else 0),
              s[p].m, Mix(b[p].m, d, a[p].m, e, c[p].m) - (if p == 1 then d * e else 0), G.q);
      CongAdd(SumR(s, p), Mix(SumR(b, p), d, SumR(a, p), e, SumR(c, p)), s[p].r, Mix(b[p].r, d, a[p].r, e, c[p].r), G.q);
    }
  }

  lemma MixCong(b: nat, d: nat, a: nat, e: nat, c: nat, y: int, f: int, x: int, g: int, w: int, q: nat)
    requires q > 0 && Cong(b, y, q) && Cong(d, f, q) && Cong(a, x, q) && Cong(e, g, q) && Cong(c, w, q)
    ensures Cong(Mix(b, d, a, e, c), y * f + x * g + w, q)
  {
    hide Cong;
    CongProduct(b, y, d, f, q);
    CongProduct(a, x, e, g, q);
    CongAdd(b * d, y * f, a * e, x * g, q);
    CongAdd(b * d + a * e, y * f + x * g, c, w, q);
  }

  lemma ProductIdentity(x: int, y: int, u: int, v: int)
    ensures y * (x - u) + x * (y - v) + u * v - (x - u) * (y - v) == x * y
  {
  }

  /** The exponents of a product's commitment. */
  function ProductValue(x: nat, y: nat, s: Secrets, q: nat): nat
    requires q > 0
  {
    var d, e := Mod(x - s.u, q), Mod(y - s.v, q);
    Mix(y, d, x, e, s.w) + (q - Mod(d * e, q))
  }

  function ProductRandom(x: nat, rx: nat, y: nat, ry: nat, s: Secrets, q: nat): nat
    requires q > 0
  {
    Mix(ry, Mod(x - s.u, q), rx, Mod(y - s.v, q), s.rw)
  }

  /** Modulo q the first exponent is the product. */
  lemma ProductIs(x: nat, y: nat, s: Secrets, q: nat)
    requires q > 0 && Cong(s.w, s.u * s.v, q)
    ensures Cong(ProductValue(x, y, s, q), x * y, q)
  {
    hide Cong, Mod, Mix;
    var d, e := Mod(x - s.u, q), Mod(y - s.v, q);
    var mix := Mix(y, d, x, e, s.w);
    ModCong(x - s.u, q);
    ModCong(y - s.v, q);
    CongByMultiple(x, x, q, 0);
    CongByMultiple(y, y, q, 0);
    MixCong(y, d, x, e, s.w, y, x - s.u, x, y - s.v, s.u * s.v, q);
    TakenOff(mix, d * e, q);
    ProductSum(mix + (q - Mod(d * e, q)), mix, d, e, x, y, s.u, s.v, q);
  }

  lemma ModCong(x: int, q: nat)
    requires q > 0
    ensures Cong(Mod(x, q), x, q)
  {
    CongMod(x, q);
  }

  lemma TakenOff(mix: int, k: int, q: nat)
    requires q > 0
    ensures Cong(mix + (q - Mod(k, q)), mix - k, q)
  {
    ModCong(k, q);
    CongByMultiple(mix + q, mix, q, 1);
    hide Cong, Mod;
    CongAdd(mix + q, mix, Mod(k, q), k, q);
  }

  /** The product's shares hold the product, its randomness, and a commitment to both. */
  lemma ProductHolds(G: Group, vf: nat, a: seq<Amaterial>, b: seq<Amaterial>, t: Triple, ds: seq<nat>, es: seq<nat>,
                     x: nat, rx: nat, y: nat, ry: nat, s: Secrets)
    requires |a| == |b| == |ds| == |es| >= 2 && Holds(G, a, vf, x, rx) && Holds(G, b, vf, y, ry) && TripleOk(G, t, |a|, vf, s)
    requires forall p :: 0 <= p < |a| ==> ds[p] == Mod(x - s.u, G.q) && es[p] == Mod(y - s.v, G.q)
    ensures Holds(G, ProductShares(G, a, b, t.c, ds, es), vf, ProductValue(x, y, s, G.q), ProductRandom(x, rx, y, ry, s, G.q))
    ensures Cong(ProductValue(x, y, s, G.q), x * y, G.q)
  {
    ProductIs(x, y, s, G.q);
    ProductCommitment(G, a[vf], b[vf], t.c[vf], x, rx, y, ry, s);
    ProductSums(G, vf, a, b, t, ds, es, x, rx, y, ry, s);
    hide Mod, ProductM, ProductR, ProductC, Cong, Opens, ProductValue, ProductRandom;
  }

  lemma ProductSums(G: Group, vf: nat, a: seq<Amaterial>, b: seq<Amaterial>, t: Triple, ds: seq<nat>, es: seq<nat>,
                    x: nat, rx: nat, y: nat, ry: nat, s: Secrets)
    requires |a| == |b| == |ds| == |es| >= 2 && Holds(G, a, vf, x, rx) && Holds(G, b, vf, y, ry) && TripleOk(G, t, |a|, vf, s)
    requires forall p :: 0 <= p < |a| ==> ds[p] == Mod(x - s.u, G.q) && es[p] == Mod(y - s.v, G.q)
    ensures var z, n := ProductShares(G, a, b, t.c, ds, es), |a|;
            Cong(SumM(z, n), ProductValue(x, y, s, G.q), G.q) && Cong(SumR(z, n), ProductRandom(x, rx, y, ry, s, G.q), G.q)
  {
    hide Opens, ProductShares, ProductValue, Mod, Mix, Cong, SumM, SumR;
    var n, d, e := |a|, Mod(x - s.u, G.q), Mod(y - s.v, G.q);
    var z := ProductShares(G, a, b, t.c, ds, es);
    ModCong(x - s.u, G.q);
    ModCong(y - s.v, G.q);
    CongByMultiple(d, d, G.q, 0);
    CongByMultiple(e, e, G.q, 0);
    ProductTotals(G, a, b, t.c, ds, es, d, e, n);
    ProductIs(x, y, s, G.q);
    var mix := Mix(SumM(b, n), d, SumM(a, n), e, SumM(t.c, n));
    CongTrans(SumM(t.c, n), s.w, s.u * s.v, G.q);
    MixCong(SumM(b, n), d, SumM(a, n), e, SumM(t.c, n), y, x - s.u, x, y - s.v, s.u * s.v, G.q);
    MixCong(SumR(b, n), d, SumR(a, n), e, SumR(t.c, n), ry, d, rx, e, s.rw, G.q);
    RandomIs(x, rx, y, ry, s, G.q);
    ProductSum(SumM(z, n), mix, d, e, x, y, s.u, s.v, G.q);
    CongSym(ProductValue(x, y, s, G.q), x * y, G.q);
    CongTrans(SumM(z, n), x * y, ProductValue(x, y, s, G.q), G.q);
    CongTrans(SumR(z, n), Mix(SumR(b, n), d, SumR(a, n), e, SumR(t.c, n)), ProductRandom(x, rx, y, ry, s, G.q), G.q);
  }

  lemma RandomIs(x: nat, rx: nat, y: nat, ry: nat, s: Secrets, q: nat)
    requires q > 0
    ensures ProductRandom(x, rx, y, ry, s, q) == ry * Mod(x - s.u, q) + rx * Mod(y - s.v, q) + s.rw
  {
  }

  lemma ProductSum(sum: int, mix: int, d: nat, e: nat, x: int, y: int, u: int, v: int, q: nat)
    requires q > 0 && Cong(sum, mix - d * e, q) && Cong(mix, y * (x - u) + x * (y - v) + u * v, q)
    requires Cong(d, x - u, q) && Cong(e, y - v, q)
    ensures Cong(sum, x * y, q)
  {
    hide Cong;
    CongProduct(d, x - u, e, y - v, q);
    CongAdd(mix, y * (x - u) + x * (y - v) + u * v, d * e, (x - u) * (y - v), q);
    ProductIdentity(x, y, u, v);
    CongTrans(sum, mix - d * e, x * y, q);
  }

  /** The commitment to a product has the exponents of the product. */
  lemma ProductCommitment(G: Group, a: Amaterial, b: Amaterial, c: Amaterial, x: nat, rx: nat, y: nat, ry: nat, s: Secrets)
    requires Sized(G) && Opens(G, a.c, x, rx) && Opens(G, b.c, y, ry) && Opens(G, c.c, s.w, s.rw)
    ensures var m := ProductC(G, a, b, c, Mod(x - s.u, G.q), Mod(y - s.v, G.q));
            0 <= m < G.p && Opens(G, m, ProductValue(x, y, s, G.q), ProductRandom(x, rx, y, ry, s, G.q))
  {
    hide Opens, Pow, Element, Commit, Mod, PowM, ProductC, ProductValue, ProductRandom;
    var d, e := Mod(x - s.u, G.q), Mod(y - s.v, G.q);
    var f := G.q - Mod(d * e, G.q);
    var left, right := PowM(b.c, d, G.p) * PowM(a.c, e, G.p) % G.p, c.c * Commit(G, f, 0) % G.p;
    ScaledOpens(G, a.c, b.c, d, e, x, rx, y, ry);
    CommitOpens(G, f, 0);
    OpensProduct(G, c.c, s.w, s.rw, Commit(G, f, 0), f, 0);
    OpensReduced(G, c.c * Commit(G, f, 0), s.w + f, s.rw + 0);
    OpensProduct(G, left, y * d + x * e, ry * d + rx * e, right, s.w + f, s.rw + 0);
    OpensReduced(G, left * right, y * d + x * e + (s.w + f), ry * d + rx * e + (s.rw + 0));
    ProductParts(G, a, b, c, x, rx, y, ry, s);
  }

  /** The part of a product's commitment that comes from the factors. */
  lemma ScaledOpens(G: Group, a: int, b: int, d: nat, e: nat, x: nat, rx: nat, y: nat, ry: nat)
    requires Sized(G) && Opens(G, a, x, rx) && Opens(G, b, y, ry)
    ensures var m := PowM(b, d, G.p) * PowM(a, e, G.p) % G.p;
            y * d + x * e >= 0 && ry * d + rx * e >= 0 && 0 <= m < G.p && Opens(G, m, y * d + x * e, ry * d + rx * e)
  {
    hide Opens, Pow, Element;
    OpensPower(G, b, y, ry, d);
    OpensReduced(G, Pow(b, d), y * d, ry * d);
    OpensPower(G, a, x, rx, e);
    OpensReduced(G, Pow(a, e), x * e, rx * e);
    OpensProduct(G, PowM(b, d, G.p), y * d, ry * d, PowM(a, e, G.p), x * e, rx * e);
    OpensReduced(G, PowM(b, d, G.p) * PowM(a, e, G.p), y * d + x * e, ry * d + rx * e);
  }

  lemma ProductParts(G: Group, a: Amaterial, b: Amaterial, c: Amaterial, x: nat, rx: nat, y: nat, ry: nat, s: Secrets)
    requires G.p > 0 && G.q > 0
    ensures var d, e := Mod(x - s.u, G.q), Mod(y - s.v, G.q);
            var f := G.q - Mod(d * e, G.q);
            && f >= 0
            && ProductC(G, a, b, c, d, e)
               == (PowM(b.c, d, G.p) * PowM(a.c, e, G.p) % G.p) * (c.c * Commit(G, f, 0) % G.p) % G.p
            && ProductValue(x, y, s, G.q) == y * d + x * e + (s.w + f)
            && ProductRandom(x, rx, y, ry, s, G.q) == ry * d + rx * e + (s.rw + 0)
  {
    hide Commit, PowM, Mod;
  }

  /** Both openings of a product pass. */
  ghost predicate FactorsPass(G: Group, x: (nat, nat), y: (nat, nat), s: Secrets)
    requires Sized(G)
  {
    OpeningPasses(G, x.0, x.1, s.u, s.ru) && OpeningPasses(G, y.0, y.1, s.v, s.rv)
  }

  /** What the commitment to a product carries. */
  function ProductPair(x: (nat, nat), y: (nat, nat), s: Secrets, q: nat): (nat, nat)
    requires q > 0
  {
    (ProductValue(x.0, y.0, s, q), ProductRandom(x.0, x.1, y.0, y.1, s, q))
  }

  /** One product: the differences are opened and checked, then every party computes its share. */
  method MultOne(G: Group, vf: nat, a: seq<Amaterial>, b: seq<Amaterial>, t: Triple,
                 ghost x: (nat, nat), ghost y: (nat, nat), ghost s: Secrets)
    returns (res: seq<Amaterial>, ok: bool)
    requires |a| == |b| >= 2 && Holds(G, a, vf, x.0, x.1) && Holds(G, b, vf, y.0, y.1) && TripleOk(G, t, |a|, vf, s)
    requires 3 * G.q < M64
    ensures |res| == |a| && Holds(G, res, vf, ProductPair(x, y, s, G.q).0, ProductPair(x, y, s, G.q).1)
    ensures Cong(ProductPair(x, y, s, G.q).0, x.0 * y.0, G.q)
    ensures Units(G) ==> (ok <==> FactorsPass(G, x, y, s))
  {
    hide Opens, Cong, Mod, Pow, Units, OpeningPasses, ProductValue, ProductRandom;
    var ds, ok0 := OpenMasked(G, vf, a, t.a, x.0, x.1, s.u, s.ru);
    var es, ok1 := OpenMasked(G, vf, b, t.b, y.0, y.1, s.v, s.rv);
    ok := ok0 && ok1;
    res := ProductShares(G, a, b, t.c, ds, es);
    ProductHolds(G, vf, a, b, t, ds, es, x.0, x.1, y.0, y.1, s);
  }

  /** Every opening passes when the orders divide q. */
  lemma OpeningOk(G: Group, x: nat, rx: nat, u: nat, ru: nat)
    requires OrdersDivide(G)
    ensures OpeningPasses(G, x, rx, u, ru)
  {
    CongMod(x - u, G.q);
    CongMod(rx - ru, G.q);
    CongByMultiple(u, u, G.q, 0);
    CongByMultiple(ru, ru, G.q, 0);
    CongAdd(Mod(x - u, G.q), x - u, u, u, G.q);
    CongAdd(Mod(rx - ru, G.q), rx - ru, ru, ru, G.q);
    hide Element, Cong, Mod;
    ElementReduces(G, Mod(x - u, G.q) + u, Mod(rx - ru, G.q) + ru, x, rx);
  }

  lemma FactorsOk(G: Group, x: (nat, nat), y: (nat, nat), s: Secrets)
    requires OrdersDivide(G)
    ensures FactorsPass(G, x, y, s)
  {
    hide OpeningPasses, OrdersDivide;
    OpeningOk(G, x.0, x.1, s.u, s.ru);
    OpeningOk(G, y.0, y.1, s.v, s.rv);
  }

  /** A shared vector: for every place the exponents of its commitment. */
  ghost predicate HoldsAll(G: Group, a: seq<seq<Amaterial>>, n: nat, vf: nat, x: seq<(nat, nat)>) {
    |a| == |x| && forall i :: 0 <= i < |a| ==> |a[i]| == n && Holds(G, a[i], vf, x[i].0, x[i].1)
  }

  ghost predicate IsProduct(z: (nat, nat), x: (nat, nat), y: (nat, nat), s: Secrets, q: nat)
    requires q > 0
  {
    z == ProductPair(x, y, s, q) && Cong(z.0, x.0 * y.0, q)
  }

  /** z is what the products of x and y carry: modulo q the products of the values. */
  ghost predicate Products(z: seq<(nat, nat)>, x: seq<(nat, nat)>, y: seq<(nat, nat)>, s: seq<Secrets>, q: nat) {
    q > 0 && |z| <= |x| && |z| <= |y| && |z| <= |s|
    && forall i :: 0 <= i < |z| ==> IsProduct(z[i], x[i], y[i], s[i], q)
  }

  /** The first n products' openings pass. */
  ghost predicate OpeningsPass(G: Group, x: seq<(nat, nat)>, y: seq<(nat, nat)>, s: seq<Secrets>, n: nat) {
    Sized(G) && n <= |x| && n <= |y| && n <= |s| && forall i :: 0 <= i < n ==> FactorsPass(G, x[i], y[i], s[i])
  }

  /** The check of every place passes. */
  ghost predicate RevealsPass(G: Group, x: seq<(nat, nat)>, n: nat) {
    Sized(G) && n <= |x| && forall i :: 0 <= i < n ==> RevealPasses(G, x[i].0, x[i].1)
  }

  class SPDZ {
    const G: Group
    const parties: nat
    const verifier: nat
    var triples: seq<Triple>
    ghost var secrets: seq<Secrets>

    ghost predicate Valid()
      reads this
    {
      && Sized(G) && 3 * G.q < M64 && 2 <= parties && verifier < parties && |triples| == |secrets|
      && forall i :: 0 <= i < |triples| ==> TripleOk(G, triples[i], parties, verifier, secrets[i])
    }

    constructor (G: Group, parties: nat, verifier: nat)
      requires Sized(G) && 3 * G.q < M64 && 2 <= parties && verifier < parties
      ensures Valid() && triples == [] && this.G == G && this.parties == parties && this.verifier == verifier
    {
      this.G, this.parties, this.verifier := G, parties, verifier;
      triples, secrets := [], [];
    }

    /** The verifier shares lens triples of ones; their randomness is random. */
    method Prepare(lens: nat)
      requires Valid()
      modifies this`triples, this`secrets
      ensures Valid() && |triples| == old(|triples|) + lens && old(triples) <= triples && old(secrets) <= secrets
      ensures forall i :: old(|triples|) <= i < |triples| ==> Dealt(secrets[i], G.q)
    {
      hide TripleOk, Dealt;
      for i := 0 to lens
        invariant Valid() && |triples| == old(|triples|) + i && old(triples) <= triples && old(secrets) <= secrets
        invariant forall j :: old(|triples|) <= j < |triples| ==> Dealt(secrets[j], G.q)
      {
        var t, s := DrawTriple(G, parties, verifier);
        triples, secrets := triples + [t], secrets + [s];
      }
    }

    /** Products of two vectors, place by place, and the exact condition for the verifier's check. */
    method Mult(a: seq<seq<Amaterial>>, b: seq<seq<Amaterial>>, ghost x: seq<(nat, nat)>, ghost y: seq<(nat, nat)>)
      returns (res: seq<seq<Amaterial>>, ok: bool, ghost z: seq<(nat, nat)>)
      requires Valid() && |a| == |b| <= |triples|
      requires HoldsAll(G, a, parties, verifier, x) && HoldsAll(G, b, parties, verifier, y)
      ensures HoldsAll(G, res, parties, verifier, z) && |z| == |a|
      ensures Products(z, x, y, secrets, G.q)
      ensures Units(G) ==> (ok <==> OpeningsPass(G, x, y, secrets, |a|))
      ensures OrdersDivide(G) ==> ok
    {
      hide Holds, Units, FactorsPass, ProductPair, Cong, OrdersDivide;
      res, ok, z := [], true, [];
      for i := 0 to |a|
        invariant |res| == i && HoldsAll(G, res, parties, verifier, z)
        invariant Products(z, x, y, secrets, G.q)
        invariant Units(G) ==> (ok <==> OpeningsPass(G, x, y, secrets, i))
      {
        assert TripleOk(G, triples[i], parties, verifier, secrets[i]);
        var r, good := MultOne(G, verifier, a[i], b[i], triples[i], x[i], y[i], secrets[i]);
        res, ok := res + [r], ok && good;
        z := z + [ProductPair(x[i], y[i], secrets[i], G.q)];
      }
      if OrdersDivide(G) {
        OrdersUnits(G);
        forall i | 0 <= i < |a|
          ensures FactorsPass(G, x[i], y[i], secrets[i])
        {
          FactorsOk(G, x[i], y[i], secrets[i]);
        }
      }
    }

    /** A vector is opened to one party, which checks it if it has the commitments. */
    method Reveal(a: seq<seq<Amaterial>>, owner: nat, ghost vf: nat, ghost x: seq<(nat, nat)>) returns (values: seq<nat>, ok: bool)
      requires Valid() && owner < parties && HoldsAll(G, a, parties, vf, x)
      ensures |values| == |a| && forall i :: 0 <= i < |a| ==> values[i] == Mod(x[i].0, G.q)
      ensures owner == vf ==> (ok <==> RevealsPass(G, x, |a|))
    {
      hide Holds, RevealPasses, Mod;
      values, ok := [], true;
      for i := 0 to |a|
        invariant |values| == i && forall j :: 0 <= j < i ==> values[j] == Mod(x[j].0, G.q)
        invariant owner == vf ==> (ok <==> RevealsPass(G, x, i))
      {
        var v, good := RevealOne(G, a[i], owner, vf, x[i].0, x[i].1);
        values, ok := values + [v], ok && good;
      }
    }

    /** Sums of two vectors: shares add, commitments multiply. */
    method Add(a: seq<seq<Amaterial>>, b: seq<seq<Amaterial>>, ghost x: seq<(nat, nat)>, ghost y: seq<(nat, nat)>)
      returns (res: seq<seq<Amaterial>>)
      requires Valid() && |a| == |b|
      requires HoldsAll(G, a, parties, verifier, x) && HoldsAll(G, b, parties, verifier, y)
      ensures HoldsAll(G, res, parties, verifier, PairSums(x, y))
    {
      hide Holds;
      res := [];
      for i := 0 to |a|
        invariant HoldsAll(G, res, parties, verifier, PairSums(x, y)[..i])
      {
        SumHolds(G, a[i], b[i], verifier, x[i].0, x[i].1, y[i].0, y[i].1);
        res := res + [SumShares(G, a[i], b[i])];
      }
    }

    /** A party shares values under given randomness and keeps their commitments to itself. When the generators
        are invertible the verifier holds commitments to the values if and only if it is the owner. */
    method Share(data: seq<nat>, r: seq<nat>, owner: nat) returns (shared: seq<seq<Amaterial>>)
      requires Valid() && owner < parties && |data| == |r|
      ensures HoldsAll(G, shared, parties, owner, Pairs(data, r))
      ensures Units(G) && |data| > 0 ==> (HoldsAll(G, shared, parties, verifier, Pairs(data, r)) <==> owner == verifier)
    {
      hide Holds, Units;
      shared := [];
      for i := 0 to |data|
        invariant HoldsAll(G, shared, parties, owner, Pairs(data, r)[..i])
        invariant owner != verifier ==> forall k :: 0 <= k < i ==> shared[k][verifier].c == 0
      {
        var s := ShareOne(G, parties, owner, data[i], r[i]);
        shared := shared + [s];
      }
      if Units(G) && |data| > 0 && owner != verifier {
        BlankHoldsNothing(G, shared[0], verifier, data[0], r[0]);
      }
    }
  }

  /** A blank commitment opens to nothing. */
  lemma BlankHoldsNothing(G: Group, s: seq<Amaterial>, vf: nat, x: nat, r: nat)
    requires Units(G) && vf < |s| && s[vf].c == 0
    ensures !Holds(G, s, vf, x, r)
  {
    if Holds(G, s, vf, x, r) {
      OpensInvertible(G, 0, x, r);
      var i :| 0 <= i < G.p && Cong(i * 0, 1, G.p);
      assert i * 0 == 0;
      CongSmall(0, 1, G.p);
    }
  }

  ghost function Pairs(data: seq<nat>, r: seq<nat>): seq<(nat, nat)>
    requires |data| == |r|
  {
    seq(|data|, i requires 0 <= i < |data| => (data[i], r[i]))
  }

  ghost function PairSums(x: seq<(nat, nat)>, y: seq<(nat, nat)>): seq<(nat, nat)>
    requires |x| == |y|
  {
    seq(|x|, i requires 0 <= i < |x| => (x[i].0 + y[i].0, x[i].1 + y[i].1))
  }

  function SumShares(G: Group, a: seq<Amaterial>, b: seq<Amaterial>): (s: seq<Amaterial>)
    requires G.p > 0 && G.q > 0 && |a| == |b|
    ensures |s| == |a|
  {
    seq(|a|, p requires 0 <= p < |a| => Amaterial(Mod(a[p].m + b[p].m, G.q), Mod(a[p].r + b[p].r, G.q), a[p].c * b[p].c % G.p))
  }

  lemma {:induction false} SumTotals(G: Group, a: seq<Amaterial>, b: seq<Amaterial>, k: nat)
    requires G.p > 0 && G.q > 0 && |a| == |b| && k <= |a|
    ensures Cong(SumM(SumShares(G, a, b), k), SumM(a, k) + SumM(b, k), G.q)
    ensures Cong(SumR(SumShares(G, a, b), k), SumR(a, k) + SumR(b, k), G.q)
  {
    if k == 0 {
      CongByMultiple(0, 0, G.q, 0);
    } else {
      hide Cong, Mod;
      SumTotals(G, a, b, k - 1);
      var s := SumShares(G, a, b);
      ModCong(a[k - 1].m + b[k - 1].m, G.q);
      ModCong(a[k - 1].r + b[k - 1].r, G.q);
      CongAdd(SumM(s, k - 1), SumM(a, k - 1) + SumM(b, k - 1), s[k - 1].m, a[k - 1].m + b[k - 1].m, G.q);
      CongAdd(SumR(s, k - 1), SumR(a, k - 1) + SumR(b, k - 1), s[k - 1].r, a[k - 1].r + b[k - 1].r, G.q);
    }
  }

  lemma SumHolds(G: Group, a: seq<Amaterial>, b: seq<Amaterial>, vf: nat, x: nat, rx: nat, y: nat, ry: nat)
    requires |a| == |b| && Holds(G, a, vf, x, rx) && Holds(G, b, vf, y, ry)
    ensures Holds(G, SumShares(G, a, b), vf, x + y, rx + ry)
  {
    hide Pow, Element, Cong, Opens;
    var s, n := SumShares(G, a, b), |a|;
    SumTotals(G, a, b, n);
    OpensProduct(G, a[vf].c, x, rx, b[vf].c, y, ry);
    OpensReduced(G, a[vf].c * b[vf].c, x + y, rx + ry);
    CongAdd(SumM(a, n), x, SumM(b, n), y, G.q);
    CongAdd(SumR(a, n), rx, SumR(b, n), ry, G.q);
    CongTrans(SumM(s, n), SumM(a, n) + SumM(b, n), x + y, G.q);
    CongTrans(SumR(s, n), SumR(a, n) + SumR(b, n), rx + ry, G.q);
  }

  /** The shares of one value, and of one randomness. */
  function Ms(a: seq<Amaterial>): (s: seq<nat>)
    ensures |s| == |a|
  {
    seq(|a|, p requires 0 <= p < |a| => a[p].m)
  }

  function Rs(a: seq<Amaterial>): (s: seq<nat>)
    ensures |s| == |a|
  {
    seq(|a|, p requires 0 <= p < |a| => a[p].r)
  }

  lemma {:induction false} ShareTotals(a: seq<Amaterial>, k: nat)
    requires k <= |a|
    ensures Total(Ms(a), k) == SumM(a, k) && Total(Rs(a), k) == SumR(a, k)
  {
    if k != 0 {
      ShareTotals(a, k - 1);
    }
  }

  /** The check of an opened value compares the exponents with their remainders. */
  ghost predicate RevealPasses(G: Group, x: nat, r: nat)
    requires Sized(G)
  {
    Cong(Element(G, x, r), Element(G, Mod(x, G.q), Mod(r, G.q)), G.p)
  }

  /** One value is opened and checked against the owner's commitment. */
  method RevealOne(G: Group, a: seq<Amaterial>, owner: nat, ghost vf: nat, ghost x: nat, ghost r: nat) returns (v: nat, ok: bool)
    requires |a| >= 2 && owner < |a| && Holds(G, a, vf, x, r) && 3 * G.q < M64
    ensures v == Mod(x, G.q)
    ensures owner == vf ==> (ok <==> RevealPasses(G, x, r))
  {
    hide Element, Decommit;
    ShareTotals(a, |a|);
    v := OpenSum(Ms(a), owner, G.q);
    var w := OpenSum(Rs(a), owner, G.q);
    ok := Decommit(G, v, w, a[owner].c);
    if owner == vf {
      DecommitIff(G, v, w, a[vf].c);
    }
  }

  /** The owner keeps the data less every other party's random share. */
  method ShareOne(G: Group, n: nat, owner: nat, data: nat, r: nat) returns (s: seq<Amaterial>)
    requires Sized(G) && owner < n && 2 <= n
    ensures |s| == n && Holds(G, s, owner, data, r)
    ensures forall k :: 0 <= k < n && k != owner ==> s[k].c == 0
  {
    CommitOpens(G, data, r);
    CongByMultiple(data, data, G.q, 0);
    CongByMultiple(r, r, G.q, 0);
    hide Cong, Pow, Element, Opens, Commit, Mod, SumM, SumR, Holds;
    SumsOfNone();
    var c := Commit(G, data, r);
    var m: nat, rr: nat := data, r;
    s := [];
    for p := 0 to n
      invariant |s| == p && ((p > 0 && owner != 0) || p > 1 ==> m < G.q && rr < G.q)
      invariant forall k :: 0 <= k < p ==> s[k].m < G.q && s[k].r < G.q && (k != owner ==> s[k].c == 0)
      invariant owner < p ==> s[owner] == Amaterial(0, 0, c)
      invariant Cong(m + SumM(s, p), data, G.q) && Cong(rr + SumR(s, p), r, G.q)
    {
      if p == owner {
        SumsAppend(s, Amaterial(0, 0, c));
        s := s + [Amaterial(0, 0, c)];
      } else {
        var seed := RandomResidue(G.q);
        var seedR := RandomResidue(G.q);
        TakeOffShare(m, SumM(s, p), seed, data, G.q);
        TakeOffShare(rr, SumR(s, p), seedR, r, G.q);
        m := Mod(m + G.q - seed, G.q);
        rr := Mod(rr + G.q - seedR, G.q);
        SumsAppend(s, Amaterial(seed, seedR, 0));
        s := s + [Amaterial(seed, seedR, 0)];
      }
    }
    OwnShare(s, owner, m, rr, n);
    s := s[owner := Amaterial(m, rr, c)];
    SharesHold(G, s, owner, data, r);
  }

  lemma SharesHold(G: Group, s: seq<Amaterial>, owner: nat, x: nat, r: nat)
    requires Sized(G) && owner < |s| && forall k :: 0 <= k < |s| ==> s[k].m < G.q && s[k].r < G.q
    requires Cong(SumM(s, |s|), x, G.q) && Cong(SumR(s, |s|), r, G.q) && s[owner].c == Commit(G, x, r)
    ensures Holds(G, s, owner, x, r)
  {
    CommitOpens(G, x, r);
  }

  lemma SumsOfNone()
    ensures SumM([], 0) == SumR([], 0) == 0
  {
  }

  lemma SumsAppend(s: seq<Amaterial>, x: Amaterial)
    ensures var t := s + [x];
            SumM(t, |s| + 1) == SumM(s, |s|) + x.m && SumR(t, |s| + 1) == SumR(s, |s|) + x.r
  {
    SumsPrefix(s, s + [x], |s|);
  }

  method RandomResidue(q: nat) returns (x: nat)
    requires q > 0
    ensures x < q
  {
    var r := Random64();
    x := Mod(r, q);
  }

  lemma TakeOffShare(m: nat, sum: nat, seed: nat, data: nat, q: nat)
    requires q > 0 && seed < q && Cong(m + sum, data, q)
    ensures Cong(Mod(m + q - seed, q) + (sum + seed), data, q)
  {
    CongMod(m + q - seed, q);
    CongByMultiple(m + q - seed, m - seed, q, 1);
    CongTrans(Mod(m + q - seed, q), m + q - seed, m - seed, q);
    CongByMultiple(sum + seed, sum + seed, q, 0);
    CongAdd(Mod(m + q - seed, q), m - seed, sum + seed, sum + seed, q);
    CongTrans(Mod(m + q - seed, q) + (sum + seed), m + sum, data, q);
  }

  lemma {:induction false} SumsPrefix(a: seq<Amaterial>, b: seq<Amaterial>, k: nat)
    requires k <= |a| && a <= b
    ensures SumM(a, k) == SumM(b, k) && SumR(a, k) == SumR(b, k)
  {
    if k != 0 {
      SumsPrefix(a, b, k - 1);
    }
  }

  lemma {:induction false} OwnShare(s: seq<Amaterial>, owner: nat, m: nat, r: nat, k: nat)
    requires owner < |s| && k <= |s| && s[owner].m == 0 && s[owner].r == 0
    ensures var t := s[owner := Amaterial(m, r, s[owner].c)];
            && SumM(t, k) == SumM(s, k) + (if owner < k then m else 0)
            && SumR(t, k) == SumR(s, k) + (if owner < k then r else 0)
  {
    if k != 0 {
      OwnShare(s, owner, m, r, k - 1);
    }
  }

  /** The triples that are dealt: ones, under reduced randomness. */
  predicate Dealt(s: Secrets, q: nat) {
    s.u == s.v == s.w == 1 && s.ru < q && s.rv < q && s.rw < q
  }

  /** The verifier's triple: factors 1 and 1, product 1, and random randomness. */
  method DrawTriple(G: Group, n: nat, vf: nat) returns (t: Triple, ghost s: Secrets)
    requires Sized(G) && vf < n && 2 <= n
    ensures TripleOk(G, t, n, vf, s) && Dealt(s, G.q)
  {
    hide Holds, Pow;
    var r0 := RandomResidue(G.q);
    var r1 := RandomResidue(G.q);
    var r2 := RandomResidue(G.q);
    var c := Mod(1 * 1, G.q);
    DivUnique(1, G.q, 0, 1);
    CongByMultiple(1, 1, G.q, 0);
    var ta := ShareOne(G, n, vf, 1, r0);
    var tb := ShareOne(G, n, vf, 1, r1);
    var tc := ShareOne(G, n, vf, c, r2);
    t := Triple(ta, tb, tc);
    s := Secrets(1, 1, 1, r0, r1, r2);
  }
}
