/** The modulus that the program sets up is 2q + 1, which is no prime: no generator but 1 has an order that divides q. */
module GroupOrder {
  import opened Congruence
  import opened FssEq
  import opened ModPower
  import opened Spdz
  import opened Openings

  function Product(s: seq<int>): int {
    if s == [] then 1 else Product(s[..|s| - 1]) * s[|s| - 1]
  }

  function Factorial(n: nat): int {
    if n == 0 then 1 else Factorial(n - 1) * n
  }

  /** Different numbers from 1 to m. */
  predicate Different(s: seq<int>, m: nat) {
    && (forall i :: 0 <= i < |s| ==> 1 <= s[i] <= m)
    && (forall i, j :: 0 <= i < j < |s| ==> s[i] != s[j])
  }

  function Without(s: seq<int>, k: nat): (t: seq<int>)
    requires k < |s|
    ensures |t| == |s| - 1
  {
    s[..k] + s[k + 1..]
  }

  lemma {:induction false} ProductWithout(s: seq<int>, k: nat)
    requires k < |s|
    ensures Product(s) == Product(Without(s, k)) * s[k]
  {
    var last := |s| - 1;
    if k == last {
      assert Without(s, k) == s[..last];
    } else {
      ProductWithout(s[..last], k);
      var t := Without(s, k);
      assert t[..|t| - 1] == Without(s[..last], k);
      MulAssoc(Product(Without(s[..last], k)), s[k], s[last]);
      MulAssoc(Product(Without(s[..last], k)), s[last], s[k]);
    }
  }

  /** No more than m numbers are different, and m of them are all of them. */
  lemma {:induction false} DifferentAll(s: seq<int>, m: nat)
    requires Different(s, m)
    ensures |s| <= m && (|s| == m ==> Product(s) == Factorial(m))
    decreases m
  {
    if s == [] {
    } else if k :| 0 <= k < |s| && s[k] == m {
      DifferentAll(Without(s, k), m - 1);
      ProductWithout(s, k);
    } else {
      assert 1 <= s[0] <= m;
      DifferentAll(s, m - 1);
    }
  }

  /** The first n multiples of a, reduced. */
  function Multiples(a: int, n: nat, p: int): (s: seq<int>)
    requires p > 0
    ensures |s| == n
  {
    seq(n, i requires 0 <= i < n => (a * (i + 1)) % p)
  }

  lemma {:induction false} MultiplesProduct(a: int, n: nat, p: int)
    requires p > 0
    ensures Cong(Product(Multiples(a, n, p)), Pow(a, n) * Factorial(n), p)
  {
    if n == 0 {
      CongByMultiple(1, 1, p, 0);
    } else {
      MultiplesProduct(a, n - 1, p);
      var s := Multiples(a, n, p);
      assert s[..n - 1] == Multiples(a, n - 1, p);
      CongMod(a * n, p);
      hide Cong, Multiples;
      CongProduct(Product(s[..n - 1]), Pow(a, n - 1) * Factorial(n - 1), s[n - 1], a * n, p);
      Shuffle(Pow(a, n - 1), Factorial(n - 1), a, n);
      assert Pow(a, n) == Pow(a, n - 1) * a;
    }
  }

  lemma {:induction false} FactorialInvertible(n: nat, p: int)
    requires IsPrime(p) && n < p
    ensures Invertible(Factorial(n), p)
  {
    if n == 0 {
      CongByMultiple(1, 1, p, 0);
      InvertibleBy(1, 1, p);
    } else {
      FactorialInvertible(n - 1, p);
      SmallInvertible(n, p);
      InvertibleProduct(Factorial(n - 1), n, p);
    }
  }

  lemma MultiplesDifferent(a: int, p: int)
    requires IsPrime(p) && Invertible(a, p)
    ensures Different(Multiples(a, p - 1, p), p - 1)
  {
    var s := Multiples(a, p - 1, p);
    hide IsPrime, Invertible;
    forall i | 0 <= i < |s|
      ensures 1 <= s[i] <= p - 1
    {
      MultipleNot(a, i + 1, 0, p);
    }
    forall i, j | 0 <= i < j < |s|
      ensures s[i] != s[j]
    {
      MultipleNot(a, j + 1, i + 1, p);
    }
  }

  lemma MultipleNot(a: int, i: nat, j: nat, p: int)
    requires p > 0 && Invertible(a, p) && i < p && j < p && i != j
    ensures 0 <= (a * i) % p < p && (a * i) % p != (a * j) % p && (j == 0 ==> (a * j) % p == 0)
  {
    CongMod(a * i, p);
    DivUnique(0, p, 0, 0);
    CongSmall(i, j, p);
    hide Invertible;
    assert a * i == i * a && a * j == j * a;
    Cancel(i, j, a, p);
  }

  /** Fermat's little theorem. */
  lemma Fermat(a: int, p: int)
    requires IsPrime(p) && Invertible(a, p)
    ensures Cong(Pow(a, p - 1), 1, p)
  {
    var f := Factorial(p - 1);
    MultiplesDifferent(a, p);
    DifferentAll(Multiples(a, p - 1, p), p - 1);
    MultiplesProduct(a, p - 1, p);
    FactorialInvertible(p - 1, p);
    hide Cong, Pow, Factorial, Product, Multiples, Invertible, IsPrime;
    CongSym(f, Pow(a, p - 1) * f, p);
    Cancel(Pow(a, p - 1), 1, f, p);
  }

  /** An order that divides both q and p - 1 is 1 when these have no common factor. */
  lemma OnlyOne(a: int, p: int, q: nat, s: nat, t: nat)
    requires IsPrime(p) && q > 0 && Cong(Pow(a, q), 1, p) && q * s == 1 + (p - 1) * t
    ensures Cong(a, 1, p)
  {
    assert Pow(a, q) == Pow(a, q - 1) * a;
    InvertibleBy(a, Pow(a, q - 1), p);
    Fermat(a, p);
    PowStretch(a, q, p, 0, s);
    PowStretch(a, p - 1, p, 1, t);
    PowOne(a);
    hide Pow, IsPrime, Invertible;
    CongSym(Pow(a, q * s), a, p);
    CongTrans(a, Pow(a, q * s), 1, p);
  }

  lemma PowOne(a: int)
    ensures Pow(a, 0) == 1 && Pow(a, 1) == a
  {
    assert Pow(a, 1) == a * Pow(a, 0);
  }

  lemma CongDivides(a: int, b: int, m: int, d: int, k: int)
    requires m > 0 && d > 0 && m == d * k && Cong(a, b, m)
    ensures Cong(a, b, d)
  {
    var f := CongFactor(a, b, m);
    MulAssoc(d, k, f);
    CongByMultiple(a, b, d, k * f);
  }

  lemma SmallPrimes()
    ensures IsPrime(53) && IsPrime(163)
  {
  }

  lemma Prime1381()
    ensures IsPrime(1381)
  {
  }

  lemma Twice(b: int, e: nat, x: int, y: int, k: int, n: nat)
    requires n > 0 && Cong(Pow(b, e), x, n) && x * x == y + n * k
    ensures Cong(Pow(b, 2 * e), y, n)
  {
    PowAdd(b, e, e);
    CongByMultiple(x * x, y, n, k);
    hide Cong, Pow;
    CongProduct(Pow(b, e), x, Pow(b, e), x, n);
    CongTrans(Pow(b, 2 * e), x * x, y, n);
  }

  lemma TwiceMore(b: int, e: nat, x: int, y: int, k: int, n: nat)
    requires n > 0 && Cong(Pow(b, e), x, n) && x * x * b == y + n * k
    ensures Cong(Pow(b, 2 * e + 1), y, n)
  {
    CongByMultiple(x * x, x * x, n, 0);
    Twice(b, e, x, x * x, 0, n);
    PowAdd(b, 2 * e, 1);
    PowOne(b);
    CongByMultiple(x * x * b, y, n, k);
    hide Cong, Pow;
    CongMul(Pow(b, 2 * e), x * x, b, n);
    CongTrans(Pow(b, 2 * e + 1), x * x * b, y, n);
  }

  lemma Power53(n: nat)
    requires n == 2073361
    ensures Cong(Pow(62299, 53), 1, n)
  {
    hide Pow, Cong;
    PowOne(62299);
    CongByMultiple(62299, 62299, n, 0);
    TwiceMore(62299, 1, 62299, 812091, 116618728, n);
    Twice(62299, 3, 812091, 1272123, 318078, n);
    TwiceMore(62299, 6, 1272123, 1382802, 48625531329, n);
    Twice(62299, 13, 1382802, 775842, 922242, n);
    TwiceMore(62299, 26, 775842, 1, 18086424635, n);
  }

  lemma Power163(n: nat)
    requires n == 2073361
    ensures Cong(Pow(8441, 163), 1, n)
  {
    hide Pow, Cong;
    PowOne(8441);
    CongByMultiple(8441, 8441, n, 0);
    Twice(8441, 1, 8441, 756207, 34, n);
    TwiceMore(8441, 2, 756207, 754014, 2328093195, n);
    Twice(8441, 5, 754014, 792386, 274210, n);
    Twice(8441, 10, 792386, 1734727, 302829, n);
    Twice(8441, 20, 1734727, 1609129, 1451400, n);
    TwiceMore(8441, 40, 1609129, 1466613, 10541458388, n);
    TwiceMore(8441, 81, 1466613, 1, 8756892848, n);
  }

  /** A number whose powers return to 1 after a prime number of steps has that prime in p - 1. */
  lemma OrderDivides(b: int, r: nat, p: nat)
    requires IsPrime(r) && IsPrime(p) && Cong(Pow(b, r), 1, p) && !Cong(b, 1, p)
    ensures (p - 1) % r == 0
  {
    if (p - 1) % r != 0 {
      CongMod(p - 1, r);
      CongSmall((p - 1) % r, 0, r);
      InvertibleIff(p - 1, r);
      var i :| 0 <= i < r && Cong(i * (p - 1), 1, r);
      var k := CongFactor(i * (p - 1), 1, r);
      Exponents(i, p - 1, r, k);
      OnlyOne(b, p, r, p - 1 - k, r - i);
    }
  }

  lemma Exponents(i: nat, m: nat, r: nat, k: int)
    requires i < r && m >= 1 && i * m == 1 + r * k
    ensures m - k >= 0 && r * (m - k) == 1 + m * (r - i)
  {
    assert r * (m - k) == r * m - r * k;
    assert m * (r - i) == r * m - i * m;
    if m < k {
      MulLe(r, m - k, -1);
      MulLe(m, 0, r - i);
    }
  }

  /** Every number from 2 on has a prime factor. */
  lemma {:induction false} PrimeFactor(n: nat) returns (p: nat)
    requires n >= 2
    ensures IsPrime(p) && p <= n && n % p == 0
  {
    if d: nat :| 2 <= d < n && n % d == 0 {
      p := PrimeFactor(d);
      DivMod(n, d);
      DivMod(d, p);
      MulAssoc(p, d / p, n / d);
      DivUnique(n, p, (d / p) * (n / d), 0);
    } else {
      p := n;
      DivUnique(n, n, 1, 0);
    }
  }

  /** Every prime factor of n is 1 modulo 53 and modulo 163, so that it is more than the square root. */
  lemma FactorLarge(n: nat, p: nat)
    requires n == 2073361 && IsPrime(p) && n % p == 0
    ensures p >= 8640
  {
    hide Pow, Cong;
    Order53(n, p);
    Order163(n, p);
    Both(p - 1);
  }

  lemma Order53(n: nat, p: nat)
    requires n == 2073361 && IsPrime(p) && n % p == 0
    ensures (p - 1) % 53 == 0
  {
    assert p >= 2;
    hide IsPrime, Pow, Cong;
    DivMod(n, p);
    Power53(n);
    SmallPrimes();
    FactorOrder(62299, 53, 1811337, 54425, n, p);
  }

  lemma Order163(n: nat, p: nat)
    requires n == 2073361 && IsPrime(p) && n % p == 0
    ensures (p - 1) % 163 == 0
  {
    assert p >= 2;
    hide IsPrime, Pow, Cong;
    DivMod(n, p);
    Power163(n);
    SmallPrimes();
    FactorOrder(8441, 163, 736731, 2999, n, p);
  }

  lemma FactorOrder(b: int, r: nat, i: int, k: int, n: nat, p: nat)
    requires IsPrime(r) && IsPrime(p) && n > 0 && n == p * (n / p) && Cong(Pow(b, r), 1, n) && i * (b - 1) == 1 + n * k
    ensures (p - 1) % r == 0 && p - 1 >= 1
  {
    CongDivides(Pow(b, r), 1, n, p, n / p);
    CongByMultiple(i * (b - 1), 1, n, k);
    CongDivides(i * (b - 1), 1, n, p, n / p);
    if Cong(b, 1, p) {
      CongByMultiple(1, 1, p, 0);
      CongAdd(b, 1, 1, 1, p);
      CongMul(b - 1, 0, i, p);
      CongTrans(0, i * (b - 1), 1, p);
      CongSmall(0, 1, p);
    }
    OrderDivides(b, r, p);
  }

  lemma Both(m: nat)
    requires m >= 1 && m % 53 == 0 && m % 163 == 0
    ensures m >= 8639
  {
    DivMod(m, 53);
    DivMod(m, 163);
  }

  lemma Prime2073361(n: nat)
    requires n == 2073361
    ensures IsPrime(n)
  {
    var d: nat := PrimeFactor(n);
    FactorLarge(n, d);
    DivMod(n, d);
    if n / d >= 2 {
      var e := PrimeFactor(n / d);
      DivMod(n / d, e);
      MulAssoc(e, (n / d) / e, d);
      DivUnique(n, e, ((n / d) / e) * d, 0);
      FactorLarge(n, e);
      MulLe(d, 240, n / d);
    }
  }

  lemma OnlyOneIn3(g: int, q: nat, p: int)
    requires q == 4294967311 && p == 3 && Cong(Pow(g, q), 1, p)
    ensures Cong(g, 1, p)
  {
    hide Pow, Cong;
    OnlyOne(g, p, q, 1, 2147483655);
  }

  lemma OnlyOneIn1381(g: int, q: nat, p: int)
    requires q == 4294967311 && p == 1381 && Cong(Pow(g, q), 1, p)
    ensures Cong(g, 1, p)
  {
    hide Pow, Cong, IsPrime;
    Prime1381();
    OnlyOne(g, p, q, 811, 2524071369);
  }

  lemma OnlyOneIn2073361(g: int, q: nat, p: nat)
    requires q == 4294967311 && p == 2073361 && Cong(Pow(g, q), 1, p)
    ensures Cong(g, 1, p)
  {
    hide Pow, Cong, IsPrime;
    Prime2073361(p);
    OnlyOne(g, p, q, 993631, 2058307609);
  }

  /** What is 1 modulo each of the three primes is 1 modulo their product. */
  lemma OneInAll(g: int, p: int)
    requires p == 8589934623 && Cong(g, 1, 3) && Cong(g, 1, 1381) && Cong(g, 1, 2073361)
    ensures Cong(g, 1, p)
  {
    var a := CongFactor(g, 1, 3);
    var b := CongFactor(g, 1, 1381);
    var c := CongFactor(g, 1, 2073361);
    assert b == 3 * (a - 460 * b);
    var u := a - 460 * b;
    var w := 3277 * u - 1639972 * c;
    assert c == 4143 * w;
    CongByMultiple(g, 1, p, w);
  }

  /** The sizes that the program sets up: q is the next prime after 2 to the 32, and p is 2q + 1. */
  predicate Shipped(G: Group) {
    G.q == 4294967311 && G.p == 8589934623
  }

  lemma ShippedFactors(G: Group)
    requires Shipped(G)
    ensures G.p == 2 * G.q + 1 && G.p == 3 * 1381 * 2073361
  {
  }

  lemma ShippedOne(G: Group, g: int)
    requires Shipped(G) && Cong(Pow(g, G.q), 1, G.p)
    ensures Cong(g, 1, G.p)
  {
    hide Pow, Cong;
    CongDivides(Pow(g, G.q), 1, G.p, 3, 2863311541);
    CongDivides(Pow(g, G.q), 1, G.p, 1381, 6220083);
    CongDivides(Pow(g, G.q), 1, G.p, 2073361, 4143);
    OnlyOneIn3(g, G.q, 3);
    OnlyOneIn1381(g, G.q, 1381);
    OnlyOneIn2073361(g, G.q, 2073361);
    OneInAll(g, G.p);
  }

  /** With these sizes the orders divide q only for two generators that are 1. */
  lemma ShippedOrders(G: Group)
    requires Shipped(G)
    ensures OrdersDivide(G) <==> Cong(G.g, 1, G.p) && Cong(G.h, 1, G.p)
  {
    if OrdersDivide(G) {
      hide Pow;
      ShippedOne(G, G.g);
      ShippedOne(G, G.h);
    }
    if Cong(G.g, 1, G.p) && Cong(G.h, 1, G.p) {
      CongPow(G.g, 1, G.q, G.p);
      CongPow(G.h, 1, G.q, G.p);
      PowOfOne(G.q);
    }
  }

  /** A failing opening, of 0 against a dealt triple, and a failing commitment, to 1 times 1, for every other g. */
  lemma ShippedFails(G: Group)
    requires Shipped(G) && Units(G) && !Cong(G.g, 1, G.p)
    ensures !OpeningPasses(G, 0, 0, 1, 0)
    ensures !ProductOpens(G, (1, 0), (1, 0), Secrets(1, 1, 1, 0, 0, 0))
  {
    hide Pow, Cong, Invertible, OpeningPasses, ProductOpens;
    if Cong(Pow(G.g, G.q), 1, G.p) {
      ShippedOne(G, G.g);
    }
    OneFails(G);
  }

  lemma SampleUnits(G: Group)
    requires Shipped(G) && G.g == 2 && G.h == 4
    ensures Units(G) && !Cong(G.g, 1, G.p)
  {
    CongByMultiple(4294967312 * 2, 1, G.p, 1);
    InvertibleBy(2, 4294967312, G.p);
    InvertibleProduct(2, 2, G.p);
    CongSmall(2, 1, G.p);
  }
}
