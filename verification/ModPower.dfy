/** Powers modulo a number, and commitments to a value under a randomness. */
module ModPower {
  import opened Congruence

  function Pow(b: int, e: nat): int {
    if e == 0 then 1 else b * Pow(b, e - 1)
  }

  lemma {:induction false} PowAdd(b: int, m: nat, n: nat)
    ensures Pow(b, m + n) == Pow(b, m) * Pow(b, n)
  {
    if m != 0 {
      PowAdd(b, m - 1, n);
      MulAssoc(b, Pow(b, m - 1), Pow(b, n));
      assert Pow(b, m + n) == b * Pow(b, m + n - 1);
    }
  }

  lemma {:induction false} PowPow(b: int, m: nat, n: nat)
    ensures m * n >= 0 && Pow(Pow(b, m), n) == Pow(b, m * n)
  {
    if n == 0 {
      assert m * n == 0;
    } else {
      PowPow(b, m, n - 1);
      assert m * n == m + m * (n - 1);
      PowAdd(b, m, m * (n - 1));
    }
  }

  lemma {:induction false} PowOfOne(n: nat)
    ensures Pow(1, n) == 1
  {
    if n != 0 {
      PowOfOne(n - 1);
    }
  }

  lemma {:induction false} PowOfProduct(a: int, b: int, n: nat)
    ensures Pow(a * b, n) == Pow(a, n) * Pow(b, n)
  {
    if n != 0 {
      PowOfProduct(a, b, n - 1);
      Shuffle(a, b, Pow(a, n - 1), Pow(b, n - 1));
    }
  }

  lemma {:induction false} CongPow(a: int, b: int, n: nat, m: int)
    requires m > 0 && Cong(a, b, m)
    ensures Cong(Pow(a, n), Pow(b, n), m)
  {
    if n == 0 {
      CongByMultiple(1, 1, m, 0);
    } else {
      CongPow(a, b, n - 1, m);
      hide Cong;
      CongProduct(a, b, Pow(a, n - 1), Pow(b, n - 1), m);
    }
  }

  /** Exponents count modulo the order. */
  lemma PowReduces(g: int, q: nat, m: int, e: nat, f: nat)
    requires m > 0 && q > 0 && Cong(Pow(g, q), 1, m) && Cong(e, f, q)
    ensures Cong(Pow(g, e), Pow(g, f), m)
  {
    var k := CongFactor(e, f, q);
    hide Cong;
    if k >= 0 {
      PowStretch(g, q, m, f, k);
    } else {
      assert q * (-k) == -(q * k);
      PowStretch(g, q, m, e, -k);
      CongSym(Pow(g, f), Pow(g, e), m);
    }
  }

  lemma PowStretch(g: int, q: nat, m: int, f: nat, k: nat)
    requires m > 0 && Cong(Pow(g, q), 1, m)
    ensures q * k >= 0 && Cong(Pow(g, f + q * k), Pow(g, f), m)
  {
    PowPow(g, q, k);
    PowAdd(g, f, q * k);
    CongPow(Pow(g, q), 1, k, m);
    PowOfOne(k);
    CongByMultiple(Pow(g, f), Pow(g, f), m, 0);
    hide Cong;
    CongProduct(Pow(g, f), Pow(g, f), Pow(g, q * k), 1, m);
  }

  lemma {:induction false} PowInvertible(b: int, n: nat, p: int)
    requires p > 0 && Invertible(b, p)
    ensures Invertible(Pow(b, n), p)
  {
    if n == 0 {
      CongByMultiple(1, 1, p, 0);
      InvertibleBy(1, 1, p);
    } else {
      PowInvertible(b, n - 1, p);
      InvertibleProduct(b, Pow(b, n - 1), p);
    }
  }

  /** Two generators modulo p, for values that are counted modulo q. */
  datatype Group = Group(g: int, h: int, q: nat, p: nat)

  predicate Sized(G: Group) {
    G.p > 1 && G.q > 1
  }

  /** The generators are invertible, so that the commitments are. */
  ghost predicate Units(G: Group) {
    Sized(G) && Invertible(G.g, G.p) && Invertible(G.h, G.p)
  }

  /** The orders of both generators divide q. */
  ghost predicate OrdersDivide(G: Group) {
    Sized(G) && Cong(Pow(G.g, G.q), 1, G.p) && Cong(Pow(G.h, G.q), 1, G.p)
  }

  lemma OrdersUnits(G: Group)
    requires OrdersDivide(G)
    ensures Units(G)
  {
    assert Pow(G.g, G.q) == Pow(G.g, G.q - 1) * G.g;
    assert Pow(G.h, G.q) == Pow(G.h, G.q - 1) * G.h;
    hide Cong;
    InvertibleBy(G.g, Pow(G.g, G.q - 1), G.p);
    InvertibleBy(G.h, Pow(G.h, G.q - 1), G.p);
  }

  /** g to the x times h to the r. */
  function Element(G: Group, x: nat, r: nat): int {
    Pow(G.g, x) * Pow(G.h, r)
  }

  /** c is a commitment to x under randomness r. */
  ghost predicate Opens(G: Group, c: int, x: nat, r: nat)
    requires Sized(G)
  {
    Cong(c, Element(G, x, r), G.p)
  }

  lemma ElementProduct(G: Group, x: nat, r: nat, y: nat, s: nat)
    ensures Element(G, x, r) * Element(G, y, s) == Element(G, x + y, r + s)
  {
    PowAdd(G.g, x, y);
    PowAdd(G.h, r, s);
    hide Pow;
    Shuffle(Pow(G.g, x), Pow(G.h, r), Pow(G.g, y), Pow(G.h, s));
  }

  lemma ElementUnit(G: Group, x: nat, r: nat)
    requires Units(G)
    ensures Invertible(Element(G, x, r), G.p)
  {
    PowInvertible(G.g, x, G.p);
    PowInvertible(G.h, r, G.p);
    hide Invertible, Pow;
    InvertibleProduct(Pow(G.g, x), Pow(G.h, r), G.p);
  }

  /** When the orders divide q, only the exponents modulo q matter. */
  lemma ElementReduces(G: Group, x: nat, r: nat, y: nat, s: nat)
    requires OrdersDivide(G) && Cong(x, y, G.q) && Cong(r, s, G.q)
    ensures Cong(Element(G, x, r), Element(G, y, s), G.p)
  {
    hide Pow, Cong;
    PowReduces(G.g, G.q, G.p, x, y);
    PowReduces(G.h, G.q, G.p, r, s);
    CongProduct(Pow(G.g, x), Pow(G.g, y), Pow(G.h, r), Pow(G.h, s), G.p);
  }

  /** What a multiplied element adds to the exponents may be compared by itself. */
  lemma ElementShift(G: Group, x: nat, r: nat, k: nat, l: nat)
    requires Units(G)
    ensures Cong(Element(G, x + k, r + l), Element(G, x, r), G.p) <==> Cong(Element(G, k, l), 1, G.p)
  {
    ElementUnit(G, x, r);
    ElementProduct(G, k, l, x, r);
    hide Element;
    Cancel(Element(G, k, l), 1, Element(G, x, r), G.p);
  }

  lemma OpensReduced(G: Group, c: int, x: nat, r: nat)
    requires Sized(G) && Opens(G, c, x, r)
    ensures 0 <= c % G.p < G.p && Opens(G, c % G.p, x, r)
  {
    hide Element;
    CongMod(c, G.p);
    CongTrans(c % G.p, c, Element(G, x, r), G.p);
  }

  /** Commitments multiply as their contents add. */
  lemma OpensProduct(G: Group, c: int, x: nat, r: nat, d: int, y: nat, s: nat)
    requires Sized(G) && Opens(G, c, x, r) && Opens(G, d, y, s)
    ensures Opens(G, c * d, x + y, r + s)
  {
    hide Element, Cong;
    ElementProduct(G, x, r, y, s);
    CongProduct(c, Element(G, x, r), d, Element(G, y, s), G.p);
  }

  /** A commitment raised to e holds e times as much. */
  lemma {:induction false} OpensPower(G: Group, c: int, x: nat, r: nat, e: nat)
    requires Sized(G) && Opens(G, c, x, r)
    ensures x * e >= 0 && r * e >= 0 && Opens(G, Pow(c, e), x * e, r * e)
  {
    if e == 0 {
      OpensOne(G);
      assert x * e == 0 && r * e == 0;
    } else {
      OpensPower(G, c, x, r, e - 1);
      assert x * e == x + x * (e - 1) && r * e == r + r * (e - 1);
      hide Opens;
      OpensProduct(G, c, x, r, Pow(c, e - 1), x * (e - 1), r * (e - 1));
    }
  }

  lemma OpensOne(G: Group)
    requires Sized(G)
    ensures Opens(G, 1, 0, 0)
  {
    CongByMultiple(1, 1, G.p, 0);
  }
}
