/** How many rows, columns and words the keys of the scheme for p parties have, and which points
    have their row among them. */
module PartyCounts {
  import opened Bits
  import opened Congruence

  /** The low half of the input selects the word, the high half the row. */
  function Delta(n: nat, x: nat): nat { Low(x, n / 2) }
  function Gamma(n: nat, x: nat): nat { Low(Shr(x, n / 2), (n + 1) / 2) }

  lemma HalvesAre(n: nat, x: nat)
    ensures Delta(n, x) == x % Pow2(n / 2) && Gamma(n, x) == x / Pow2(n / 2) % Pow2((n + 1) / 2)
  {
    LowIsMod(x, n / 2);
    ShrIsDiv(x, n / 2);
    LowIsMod(Shr(x, n / 2), (n + 1) / 2);
  }

  lemma {:induction false} HalvesDecide(x: nat, y: nat, h: nat, m: nat)
    ensures Low(x, h + m) == Low(y, h + m) <==> Low(x, h) == Low(y, h) && Low(Shr(x, h), m) == Low(Shr(y, h), m)
    decreases h
  {
    if h != 0 {
      HalvesDecide(x / 2, y / 2, h - 1, m);
    }
  }

  /** The two halves decide a point. */
  lemma PointByHalves(n: nat, x: nat, y: nat)
    ensures Low(x, n) == Low(y, n) <==> Delta(n, x) == Delta(n, y) && Gamma(n, x) == Gamma(n, y)
  {
    hide Low, Shr;
    HalvesDecide(x, y, n / 2, (n + 1) / 2);
    assert n / 2 + (n + 1) / 2 == n;
  }

  /** mu is the number of words a column has: the smallest number whose square reaches 2^(n+p-1). Both
      factors of the square root are rounded doubles; when both are irrational their product may exceed
      the power of two that it should be, and the next number is taken. */
  ghost predicate IsWordCount(n: nat, p: nat, mu: nat)
    requires p >= 1
  {
    var half := Pow2(n + p - 1);
    || (mu >= 1 && (mu - 1) * (mu - 1) < half <= mu * mu)
    || (n % 2 == 1 && p % 2 == 0 && mu >= 2 && (mu - 1) * (mu - 1) == half)
  }

  /** The number of rows: 2^n divided by mu, rounded up. */
  function Rows(n: nat, mu: nat): (v: nat)
    requires mu >= 1
  {
    (Pow2(n) + mu - 1) / mu
  }

  function Columns(p: nat): nat
    requires p >= 1
  {
    Pow2(p - 1)
  }

  /** 2^(p-1) columns, and as few rows as hold 2^n words. */
  lemma SizesAre(n: nat, p: nat, mu: nat)
    requires p >= 1 && mu >= 1
    ensures Columns(p) * 2 == Pow2(p)
    ensures Rows(n, mu) * mu >= Pow2(n) && (Rows(n, mu) - 1) * mu < Pow2(n)
  {
    var v := Rows(n, mu);
    DivMod(Pow2(n) + mu - 1, mu);
    assert v * mu == mu * v && (v - 1) * mu == mu * v - mu;
  }

  /** The row of x is there exactly if the rows before it do not hold all 2^n words. */
  lemma RowThere(n: nat, mu: nat, g: nat)
    requires mu >= 1
    ensures g < Rows(n, mu) <==> g * mu < Pow2(n)
  {
    var v, x := Rows(n, mu), Pow2(n);
    DivMod(x + mu - 1, mu);
    if g < v {
      MulLe(mu, g + 1, v);
    } else {
      MulLe(mu, v, g);
    }
    assert g * mu == mu * g && mu * (g + 1) == mu * g + mu;
  }

  lemma PowHalves(n: nat)
    ensures Pow2(n / 2) * Pow2((n + 1) / 2) == Pow2(n)
    ensures Pow2((n + 1) / 2) == if n % 2 == 0 then Pow2(n / 2) else 2 * Pow2(n / 2)
  {
    Pow2Add(n / 2, (n + 1) / 2);
    assert n / 2 + (n + 1) / 2 == n;
  }

  /** The largest row number of all is reached by some point. */
  lemma LastRow(n: nat) returns (x: nat)
    ensures Gamma(n, x) == Pow2((n + 1) / 2) - 1
  {
    x := Pow2(n / 2) * (Pow2((n + 1) / 2) - 1);
    ShrScaled(Pow2((n + 1) / 2) - 1, n / 2);
    LowSmall(Pow2((n + 1) / 2) - 1, (n + 1) / 2);
  }

  lemma {:induction false} ShrScaled(y: nat, k: nat)
    ensures Shr(Pow2(k) * y, k) == y
  {
    if k != 0 {
      assert Pow2(k) * y == 2 * (Pow2(k - 1) * y);
      ShrScaled(y, k - 1);
    }
  }

  lemma SquareLess(x: nat, y: nat)
    requires x < y
    ensures x * x < y * y
  {
    Product(x, x, y, y - 1);
    assert y * (y - 1) == y * y - y;
  }

  /** A square root from below. */
  lemma RootAtLeast(r: nat, mu: nat)
    requires r * r <= mu * mu
    ensures r <= mu
  {
    if mu < r {
      SquareLess(mu, r);
    }
  }

  lemma Product(x: nat, y: nat, u: nat, v: nat)
    requires x <= u && y <= v
    ensures x * y <= u * v
  {
    MulLe(x, y, v);
    MulLe(v, x, u);
    assert v * x == x * v && v * u == u * v;
  }

  /** A product from below, by its square. */
  lemma ProductAtLeast(g: nat, mu: nat, x: nat, y: nat)
    requires mu * mu >= x && g * g * x >= y * y
    ensures g * mu >= y
  {
    MulLe(g * g, x, mu * mu);
    assert (g * mu) * (g * mu) == (g * g) * (mu * mu);
    RootAtLeast(y, g * mu);
  }

  /** With a = 2^(n/2) and q = 2^(p-1), the last of an even number of bits' rows. */
  lemma LastRowEven(a: nat, q: nat, mu: nat)
    requires (a == 2 || a >= 4) && (q == 1 || q == 2 || q >= 4) && mu >= 1
    requires (mu - 1) * (mu - 1) < a * a * q <= mu * mu
    ensures (a - 1) * mu < a * a <==> q == 1 || (q == 2 && a == 2)
  {
    if q == 1 {
      RootIs(a, mu);
      MulLe(a, a - 1, a - 1);
    } else if q >= 4 {
      MulLe(a * a, 4, q);
      EvenMany(a, mu);
    } else if a >= 4 {
      EvenTwo(a, mu);
    } else {
      RootOf8(mu);
    }
  }

  lemma RootIs(a: nat, mu: nat)
    requires mu >= 1 && (mu - 1) * (mu - 1) < a * a <= mu * mu
    ensures mu == a && (a - 1) * a == a * a - a
  {
    RootAtLeast(a, mu);
    if mu > a {
      Product(a, a, mu - 1, mu - 1);
    }
  }

  lemma RootOf8(mu: nat)
    requires mu >= 1 && (mu - 1) * (mu - 1) < 8 <= mu * mu
    ensures mu == 3
  {
    if mu >= 4 {
      Product(3, 3, mu - 1, mu - 1);
    } else if mu <= 2 {
      Product(mu, mu, 2, 2);
    }
  }

  lemma EvenMany(a: nat, mu: nat)
    requires a >= 2 && mu * mu >= a * a * 4
    ensures (a - 1) * mu >= a * a
  {
    Doubled(a);
    RootAtLeast(2 * a, mu);
    MulLe(a - 1, 2 * a, mu);
  }

  lemma Doubled(a: nat)
    requires a >= 2
    ensures (2 * a) * (2 * a) == a * a * 4 && (a - 1) * (2 * a) >= a * a
  {
    MulLe(a, 2, a);
  }

  lemma EvenTwo(a: nat, mu: nat)
    requires a >= 4 && mu * mu >= a * a * 2
    ensures (a - 1) * mu >= a * a
  {
    var g, s := a - 1, a * a;
    assert 2 * (g * g) == s + (a * (a - 4) + 2);
    TwiceFits(g * g, s);
    ProductAtLeast(g, mu, s * 2, s);
  }

  lemma TwiceFits(x: nat, s: nat)
    requires 2 * x >= s
    ensures x * (s * 2) >= s * s
  {
    MulLe(s, s, 2 * x);
    assert x * (s * 2) == s * (2 * x);
  }

  /** And of an odd number of bits' rows. */
  lemma LastRowOdd(a: nat, q: nat, mu: nat)
    requires a >= 1 && q >= 1 && (q == 1 || q >= 2) && mu * mu >= 2 * (a * a) * q
    ensures (2 * a - 1) * mu >= 2 * (a * a)
  {
    if q >= 2 {
      MulLe(2 * (a * a), 2, q);
      OddMany(a, mu);
    } else if a >= 2 {
      OddOne(a, mu);
    } else {
      assert mu * mu >= 2;
      RootAtLeast2(mu);
    }
  }

  lemma RootAtLeast2(mu: nat)
    requires mu * mu >= 2
    ensures mu >= 2
  {
    if mu < 2 {
      Product(mu, mu, 1, 1);
    }
  }

  lemma OddMany(a: nat, mu: nat)
    requires a >= 1 && mu * mu >= 2 * (a * a) * 2
    ensures (2 * a - 1) * mu >= 2 * (a * a)
  {
    assert (2 * a) * (2 * a) == 2 * (a * a) * 2;
    RootAtLeast(2 * a, mu);
    MulLe(2 * a - 1, 2 * a, mu);
    assert (2 * a - 1) * (2 * a) == 2 * (a * a) + 2 * (a * (a - 1));
  }

  lemma OddOne(a: nat, mu: nat)
    requires a >= 2 && mu * mu >= 2 * (a * a)
    ensures (2 * a - 1) * mu >= 2 * (a * a)
  {
    var g, s := 2 * a - 1, 2 * (a * a);
    assert g * g == s + (2 * (a * (a - 2)) + 1);
    MulLe(s, s, g * g);
    assert g * g * s == s * (g * g);
    ProductAtLeast(g, mu, s, s);
  }

  /** Whether the last row of all is there. */
  lemma LastRowThere(n: nat, p: nat, mu: nat)
    requires n >= 1 && p >= 1 && IsWordCount(n, p, mu)
    ensures mu >= 1
    ensures (Pow2((n + 1) / 2) - 1) * mu < Pow2(n) <==> (p == 1 && n % 2 == 0) || (n == 2 && p == 2)
  {
    var a, q := Pow2(n / 2), Pow2(p - 1);
    PowHalves(n);
    Pow2Add(n, p - 1);
    assert n + p - 1 == n + (p - 1);
    SmallPowers(p - 1);
    SmallPowers(n / 2);
    var c := Pow2((n + 1) / 2);
    CountReaches(n, p, mu);
    hide *;
    if n % 2 == 0 {
      LastRowEven(a, q, mu);
    } else {
      OddSquare(a, c, q);
      LastRowOdd(a, q, mu);
    }
  }

  lemma OddSquare(a: nat, c: nat, q: nat)
    requires c == 2 * a
    ensures a * c == 2 * (a * a) && a * c * q == 2 * (a * a) * q
  {
  }

  lemma CountReaches(n: nat, p: nat, mu: nat)
    requires p >= 1 && IsWordCount(n, p, mu)
    ensures mu >= 1 && Pow2(n + p - 1) <= mu * mu
    ensures n % 2 == 0 ==> (mu - 1) * (mu - 1) < Pow2(n + p - 1)
  {
    hide Pow2;
    assert (mu - 1) * (mu - 1) == mu * mu - 2 * mu + 1;
  }

  lemma SmallPowers(k: nat)
    ensures (k == 0 <==> Pow2(k) == 1) && (k == 1 <==> Pow2(k) == 2) && (k >= 2 <==> Pow2(k) >= 4)
  {
    if k >= 2 {
      Pow2Monotone(2, k);
    }
    assert Pow2(2) == 4;
  }

  /** Every point has its row only for one party and an even number of bits, and for two parties and 2 bits. */
  lemma AllRowsIff(n: nat, p: nat, mu: nat)
    requires n >= 1 && p >= 1 && IsWordCount(n, p, mu)
    ensures (forall x: nat :: Gamma(n, x) < Rows(n, mu)) <==> (p == 1 && n % 2 == 0) || (n == 2 && p == 2)
  {
    var g := Pow2((n + 1) / 2) - 1;
    LastRowThere(n, p, mu);
    var x := LastRow(n);
    RowThere(n, mu, g);
    if g * mu < Pow2(n) {
      forall x: nat
        ensures Gamma(n, x) < Rows(n, mu)
      {
        LowBound(Shr(x, n / 2), (n + 1) / 2);
        MulLe(mu, Gamma(n, x), g);
        assert mu * Gamma(n, x) == Gamma(n, x) * mu && mu * g == g * mu;
        RowThere(n, mu, Gamma(n, x));
      }
    }
  }

  /** The word of every point is there. */
  lemma WordThere(n: nat, p: nat, mu: nat, x: nat)
    requires p >= 1 && IsWordCount(n, p, mu)
    ensures Delta(n, x) < Pow2(n / 2) <= mu
  {
    var a := Pow2(n / 2);
    LowBound(x, n / 2);
    PowHalves(n);
    Pow2Add(n, p - 1);
    assert n + p - 1 == n + (p - 1);
    CountReaches(n, p, mu);
    hide Pow2;
    MulLe(Pow2(n), 1, Pow2(p - 1));
    MulLe(a, a, Pow2((n + 1) / 2));
    RootAtLeast(a, mu);
  }

  /** An expansion of mu words is written in whole blocks of four; the words of the last, partial block are not. */
  function Written(mu: nat): nat { 4 * (mu / 4) }

  /** Every point's word is written, unless a column has fewer than four words. */
  lemma WordsWritten(n: nat, p: nat, mu: nat)
    requires p >= 1 && IsWordCount(n, p, mu)
    ensures (forall x: nat :: Delta(n, x) < Written(mu)) <==> mu >= 4
    ensures mu >= 4 <==> n + p >= 5
  {
    FourWords(n, p, mu);
    if mu >= 4 {
      forall x: nat
        ensures Delta(n, x) < Written(mu)
      {
        WordThere(n, p, mu, x);
        PowerFits(n / 2, mu);
      }
    } else {
      assert Delta(n, 0) >= 0 && Written(mu) == 0;
    }
  }

  lemma PowerFits(k: nat, mu: nat)
    requires Pow2(k) <= mu && mu >= 4
    ensures Pow2(k) <= Written(mu)
  {
    if k >= 2 {
      Pow2Add(2, k - 2);
      SmallPowers(2);
      FourPower(Pow2(k - 2), mu) by {
        Pow2Of2();
      }
    } else {
      SmallPowers(k);
      FourPower(1, mu);
    }
  }

  lemma Pow2Of2()
    ensures Pow2(2) == 4
  {
  }

  lemma FourPower(q: nat, mu: nat)
    requires 4 * q <= mu
    ensures 4 * q <= Written(mu)
  {
    DivMod(mu, 4);
  }

  lemma FourWords(n: nat, p: nat, mu: nat)
    requires p >= 1 && IsWordCount(n, p, mu)
    ensures mu >= 4 <==> n + p >= 5
  {
    var k := n + p - 1;
    if k >= 4 {
      Pow2Monotone(4, k);
      assert Pow2(4) == 16;
      CountReaches(n, p, mu);
      RootAtLeast(4, mu);
    } else {
      assert Pow2(0) == 1 && Pow2(1) == 2 && Pow2(2) == 4 && Pow2(3) == 8;
      if mu >= 4 {
        Product(3, 3, mu - 1, mu - 1);
      }
    }
  }

  /** Every point has its row and its word only for one party and an even number of bits from 4 on. */
  lemma AllServedIff(n: nat, p: nat, mu: nat)
    requires n >= 1 && p >= 1 && IsWordCount(n, p, mu)
    ensures mu >= 1
    ensures (forall x: nat :: Gamma(n, x) < Rows(n, mu) && Delta(n, x) < Written(mu)) <==> p == 1 && n % 2 == 0 && n >= 4
  {
    CountReaches(n, p, mu);
    AllRowsIff(n, p, mu);
    WordsWritten(n, p, mu);
  }

  /** 4 bits and two parties: 6 words a column, so 3 rows, but the point 12 belongs to a fourth. */
  lemma MissingRow()
    ensures IsWordCount(4, 2, 6) && Rows(4, 6) == 3 && Gamma(4, 12) == 3
  {
    assert Pow2(4) == 16 && Pow2(5) == 32;
  }
}
