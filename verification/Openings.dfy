/** For which generators the checks of openings and of products pass. */
module Openings {
  import opened Congruence
  import opened ModPower
  import opened Spdz
  import opened Words

  /** For reduced values the check of an opening sees the q-th powers that the differences borrow. */
  lemma OpeningExactly(G: Group, x: nat, rx: nat, u: nat, ru: nat)
    requires Units(G) && x < G.q && rx < G.q && u < G.q && ru < G.q
    ensures OpeningPasses(G, x, rx, u, ru)
            <==> Cong(Element(G, if x < u then G.q else 0, if rx < ru then G.q else 0), 1, G.p)
  {
    hide Element, Units;
    Borrow(x, u, G.q);
    Borrow(rx, ru, G.q);
    ElementShift(G, x, rx, if x < u then G.q else 0, if rx < ru then G.q else 0);
  }

  lemma Borrow(x: nat, u: nat, q: nat)
    requires x < q && u < q
    ensures Mod(x - u, q) + u == x + (if x < u then q else 0)
  {
    if x < u {
      DivUnique(x - u, q, -1, x - u + q);
    } else {
      DivUnique(x - u, q, 0, x - u);
    }
  }

  /** The check of an opened value sees the q-th powers that its commitment has gathered. */
  lemma RevealExactly(G: Group, x: nat, r: nat)
    requires Units(G)
    ensures x / G.q >= 0 && r / G.q >= 0
    ensures RevealPasses(G, x, r) <==> Cong(Element(G, G.q * (x / G.q), G.q * (r / G.q)), 1, G.p)
  {
    Quotient(x, G.q);
    Quotient(r, G.q);
    hide Element, Mod;
    ElementShift(G, Mod(x, G.q), Mod(r, G.q), G.q * (x / G.q), G.q * (r / G.q));
  }

  lemma Quotient(x: nat, q: nat)
    requires q > 0
    ensures x / q >= 0 && q * (x / q) >= 0 && x == Mod(x, q) + q * (x / q)
  {
    DivMod(x, q);
    if x / q < 0 {
      MulLe(q, x / q, -1);
    }
    MulLe(q, 0, x / q);
  }

  lemma RevealOk(G: Group, x: nat, r: nat)
    requires OrdersDivide(G)
    ensures RevealPasses(G, x, r)
  {
    CongMod(x, G.q);
    CongMod(r, G.q);
    hide Element, Cong;
    ElementReduces(G, x, r, Mod(x, G.q), Mod(r, G.q));
  }

  /** Every reduced value opens against every dealt triple. */
  ghost predicate AllOpeningsPass(G: Group) {
    Sized(G) && forall x: nat, rx: nat, ru: nat :: x < G.q && rx < G.q && ru < G.q ==> OpeningPasses(G, x, rx, 1, ru)
  }

  /** That is so exactly if the orders of both generators divide q. */
  lemma OpeningsExactly(G: Group)
    requires Units(G)
    ensures AllOpeningsPass(G) <==> OrdersDivide(G)
  {
    hide OpeningPasses, Units;
    if AllOpeningsPass(G) {
      assert OpeningPasses(G, 0, 0, 1, 0) && OpeningPasses(G, 1, 0, 1, 1);
      OpeningExactly(G, 0, 0, 1, 0);
      OpeningExactly(G, 1, 0, 1, 1);
      PowersOfOne(G);
    }
    if OrdersDivide(G) {
      forall x: nat, rx: nat, ru: nat | x < G.q && rx < G.q && ru < G.q
        ensures OpeningPasses(G, x, rx, 1, ru)
      {
        OpeningOk(G, x, rx, 1, ru);
      }
    }
  }

  lemma PowersOfOne(G: Group)
    ensures Element(G, G.q, 0) == Pow(G.g, G.q) && Element(G, 0, G.q) == Pow(G.h, G.q)
  {
  }

  /** Every product of reduced values with a dealt triple opens. */
  ghost predicate AllProductsOpen(G: Group) {
    && Sized(G)
    && forall x: (nat, nat), y: (nat, nat), s: Secrets ::
         Reduced(x, G.q) && Reduced(y, G.q) && Dealt(s, G.q) ==> ProductOpens(G, x, y, s)
  }

  predicate Reduced(x: (nat, nat), q: nat) {
    x.0 < q && x.1 < q
  }

  ghost predicate ProductOpens(G: Group, x: (nat, nat), y: (nat, nat), s: Secrets)
    requires Sized(G)
  {
    var z := ProductPair(x, y, s, G.q);
    RevealPasses(G, z.0, z.1)
  }

  /** The same condition decides about the commitments to products. */
  lemma ProductsExactly(G: Group)
    requires Units(G)
    ensures AllProductsOpen(G) <==> OrdersDivide(G)
  {
    hide ProductPair, RevealPasses, Units;
    if AllProductsOpen(G) {
      assert ProductOpens(G, (1, 0), (1, 0), Secrets(1, 1, 1, 0, 0, 0));
      assert ProductOpens(G, (0, 0), (1, 1), Secrets(1, 1, 1, 0, 0, 1));
      OneByOne(G);
      ZeroByOne(G);
    }
    if OrdersDivide(G) {
      forall x: (nat, nat), y: (nat, nat), s: Secrets | Reduced(x, G.q) && Reduced(y, G.q) && Dealt(s, G.q)
        ensures ProductOpens(G, x, y, s)
      {
        RevealOk(G, ProductPair(x, y, s, G.q).0, ProductPair(x, y, s, G.q).1);
      }
    }
  }

  /** The commitment to 1 times 1 carries q + 1, so that it opens only if the q-th power of g is 1. */
  lemma OneByOne(G: Group)
    requires Units(G)
    ensures ProductPair((1, 0), (1, 0), Secrets(1, 1, 1, 0, 0, 0), G.q) == (G.q + 1, 0)
    ensures ProductOpens(G, (1, 0), (1, 0), Secrets(1, 1, 1, 0, 0, 0)) <==> Cong(Pow(G.g, G.q), 1, G.p)
  {
    hide ProductPair, ProductOpens, Element, Pow, Invertible;
    OneByOnePair(G.q);
    PowersOfOne(G);
    DivUnique(0, G.q, 0, 0);
    DivUnique(G.q, G.q, 1, 0);
    OpensExactly(G, (1, 0), (1, 0), Secrets(1, 1, 1, 0, 0, 0), G.q, 1, 0, 0);
  }

  /** A product whose exponents are k and l, multiples of q, over what is left. */
  lemma OpensExactly(G: Group, x: (nat, nat), y: (nat, nat), s: Secrets, k: nat, a: nat, l: nat, b: nat)
    requires Units(G) && ProductPair(x, y, s, G.q) == (k + a, l + b) && a < G.q && b < G.q
    requires k % G.q == l % G.q == 0
    ensures ProductOpens(G, x, y, s) <==> Cong(Element(G, k, l), 1, G.p)
  {
    hide Units, ProductPair, RevealPasses, Element;
    DivMod(k, G.q);
    DivMod(l, G.q);
    DivUnique(k + a, G.q, k / G.q, a);
    DivUnique(l + b, G.q, l / G.q, b);
    RevealExactly(G, k + a, l + b);
  }

  lemma OneByOnePair(q: nat)
    requires q > 1
    ensures ProductPair((1, 0), (1, 0), Secrets(1, 1, 1, 0, 0, 0), q) == (q + 1, 0)
  {
    NoRemainder(q);
    hide Mod;
    assert 0 * 0 == 0 && 1 - 1 == 0;
  }

  lemma NoRemainder(q: nat)
    requires q > 1
    ensures Mod(0, q) == 0
  {
    DivUnique(0, q, 0, 0);
  }

  lemma OneFails(G: Group)
    requires Units(G) && !Cong(Pow(G.g, G.q), 1, G.p)
    ensures !OpeningPasses(G, 0, 0, 1, 0)
    ensures !ProductOpens(G, (1, 0), (1, 0), Secrets(1, 1, 1, 0, 0, 0))
  {
    hide Pow, Cong, OpeningPasses, ProductOpens, Element;
    OpeningExactly(G, 0, 0, 1, 0);
    PowersOfOne(G);
    OneByOne(G);
  }

  /** The commitment to 0 times 1 under these randomnesses carries 2q and q. */
  lemma ZeroByOne(G: Group)
    requires Units(G) && Cong(Pow(G.g, G.q), 1, G.p)
    ensures ProductOpens(G, (0, 0), (1, 1), Secrets(1, 1, 1, 0, 0, 1)) <==> Cong(Pow(G.h, G.q), 1, G.p)
  {
    DivUnique(0, G.q, 0, 0);
    DivUnique(-1, G.q, -1, G.q - 1);
    assert ProductPair((0, 0), (1, 1), Secrets(1, 1, 1, 0, 0, 1), G.q) == (2 * G.q, G.q);
    hide Units, ProductPair, RevealPasses, Pow;
    DivUnique(2 * G.q, G.q, 2, 0);
    DivUnique(G.q, G.q, 1, 0);
    OpensExactly(G, (0, 0), (1, 1), Secrets(1, 1, 1, 0, 0, 1), 2 * G.q, 0, G.q, 0);
    PowStretch(G.g, G.q, G.p, 0, 2);
    PowZero(G.g);
    Cancel(Pow(G.g, 2 * G.q), 1, Pow(G.h, G.q), G.p) by {
      PowInvertible(G.h, G.q, G.p);
    }
  }

  lemma PowZero(b: int)
    ensures Pow(b, 0) == 1
  {
  }

  /** The whole protocol: both vectors are shared by the verifier, multiplied, and opened to the verifier. The
      opened values are the products for all generators. What the two checks print depends on the generators. */
  method MultiplyVectors(G: Group, parties: nat, verifier: nat, x: seq<nat>, rx: seq<nat>, y: seq<nat>, ry: seq<nat>)
    returns (values: seq<nat>, ok: bool, good: bool, ghost s: seq<Secrets>, ghost z: seq<(nat, nat)>)
    requires Sized(G) && 3 * G.q < M64 && 2 <= parties && verifier < parties && |x| == |rx| == |y| == |ry|
    ensures |values| == |x| && forall i :: 0 <= i < |x| ==> values[i] == (x[i] * y[i]) % G.q
    ensures |s| == |x| && forall i :: 0 <= i < |x| ==> Dealt(s[i], G.q)
    ensures |z| == |x| && Products(z, Pairs(x, rx), Pairs(y, ry), s, G.q)
    ensures Units(G) ==> (ok <==> OpeningsPass(G, Pairs(x, rx), Pairs(y, ry), s, |x|))
    ensures good <==> RevealsPass(G, z, |x|)
    ensures OrdersDivide(G) ==> ok && good
  {
    hide Units, OrdersDivide, OpeningsPass, RevealPasses, ProductPair, Dealt, Holds;
    var spdz := new SPDZ(G, parties, verifier);
    var a := spdz.Share(x, rx, verifier);
    var b := spdz.Share(y, ry, verifier);
    spdz.Prepare(|x|);
    s := spdz.secrets;
    var c;
    c, ok, z := spdz.Mult(a, b, Pairs(x, rx), Pairs(y, ry));
    values, good := spdz.Reveal(c, verifier, verifier, z);
    if OrdersDivide(G) {
      forall i | 0 <= i < |z|
        ensures RevealPasses(G, z[i].0, z[i].1)
      {
        RevealOk(G, z[i].0, z[i].1);
      }
    }
  }
}
