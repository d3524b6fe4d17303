/** Division with remainder and congruence for arbitrary moduli. */
module Congruence {

  lemma DivMod(x: int, d: int)
    requires d > 0
    ensures x == d * (x / d) + x % d
    ensures 0 <= x % d < d
  {
  }

  lemma MulLe(d: nat, a: int, b: int)
    requires a <= b
    ensures d * a <= d * b
  {
    assert d * (b - a) >= 0;
  }

  /** Division with remainder is unique. */
  lemma DivUnique(x: int, d: int, q: int, r: int)
    requires d > 0 && x == d * q + r && 0 <= r < d
    ensures x / d == q && x % d == r
  {
    DivMod(x, d);
    var p := x / d;
    assert d * (q - p) == x % d - r;
    if q > p {
      MulLe(d, 1, q - p);
    } else if q < p {
      MulLe(d, q - p, -1);
    }
  }

  /** Numbers that differ by a multiple of m leave the same remainder. */
  lemma ModEq(a: int, b: int, m: int, k: int)
    requires m > 0 && a == b + m * k
    ensures a % m == b % m
  {
    DivMod(b, m);
    assert a == m * (b / m + k) + b % m;
    DivUnique(a, m, b / m + k, b % m);
  }

  /** Numbers may be reduced before or after adding and subtracting. */
  lemma Wrap(x: int, y: int, m: int)
    requires m > 0
    ensures (x % m + y % m) % m == (x % m + y) % m == (x + y % m) % m == (x + y) % m
    ensures (x % m - y % m) % m == (x % m - y) % m == (x - y % m) % m == (x - y) % m
  {
    DivMod(x, m);
    DivMod(y, m);
    WrapParts(x % m, y % m, m, x / m, y / m);
  }

  lemma WrapParts(a: int, b: int, m: int, c: int, d: int)
    requires m > 0
    ensures var x, y := m * c + a, m * d + b;
            && (a + b) % m == (a + y) % m == (x + b) % m == (x + y) % m
            && (a - b) % m == (a - y) % m == (x - b) % m == (x - y) % m
  {
    var x, y := m * c + a, m * d + b;
    Distributes(m, c, d);
    ModEq(x + y, a + b, m, c + d);
    ModEq(x + y, a + y, m, c);
    ModEq(x + y, x + b, m, d);
    ModEq(x - y, a - b, m, c - d);
    ModEq(x - y, a - y, m, c);
    ModEq(x - y, x - b, m, -d);
  }

  lemma Distributes(m: int, c: int, d: int)
    ensures m * (c + d) == m * c + m * d && m * (c - d) == m * c - m * d && m * (-d) == -(m * d)
  {
  }

  /** a and b are the same number modulo m. */
  ghost predicate Cong(a: int, b: int, m: int)
    requires m > 0
  {
    a % m == b % m
  }

  lemma CongMod(a: int, m: int)
    requires m > 0
    ensures 0 <= a % m < m
    ensures Cong(a % m, a, m) && Cong(a, a % m, m)
  {
    DivMod(a, m);
    DivUnique(a % m, m, 0, a % m);
  }

  lemma CongByMultiple(a: int, b: int, m: int, k: int)
    requires m > 0 && a == b + m * k
    ensures Cong(a, b, m) && Cong(b, a, m)
  {
    ModEq(a, b, m, k);
  }

  lemma CongTrans(a: int, b: int, c: int, m: int)
    requires m > 0 && Cong(a, b, m) && Cong(b, c, m)
    ensures Cong(a, c, m) && Cong(c, a, m)
  {
  }

  /** The witness of a congruence. */
  lemma CongFactor(a: int, b: int, m: int) returns (k: int)
    requires m > 0 && Cong(a, b, m)
    ensures a == b + m * k
  {
    DivMod(a, m);
    DivMod(b, m);
    k := a / m - b / m;
    assert m * k == m * (a / m) - m * (b / m);
  }

  lemma CongAdd(a: int, b: int, c: int, d: int, m: int)
    requires m > 0 && Cong(a, b, m) && Cong(c, d, m)
    ensures Cong(a + c, b + d, m) && Cong(a - c, b - d, m)
  {
    var s := CongFactor(a, b, m);
    var t := CongFactor(c, d, m);
    assert m * (s + t) == m * s + m * t && m * (s - t) == m * s - m * t;
    ModEq(a + c, b + d, m, s + t);
    ModEq(a - c, b - d, m, s - t);
  }

  lemma CongMul(a: int, b: int, c: int, m: int)
    requires m > 0 && Cong(a, b, m)
    ensures Cong(a * c, b * c, m) && Cong(c * a, c * b, m)
  {
    var s := CongFactor(a, b, m);
    assert a * c == b * c + m * (s * c) by {
      assert m * (s * c) == (m * s) * c == (a - b) * c;
    }
    ModEq(a * c, b * c, m, s * c);
    assert a * c == c * a && b * c == c * b;
  }

  /** Numbers below m that are the same modulo m are equal. */
  lemma CongSmall(a: int, b: int, m: int)
    requires m > 0 && 0 <= a < m && 0 <= b < m
    ensures Cong(a, b, m) <==> a == b
  {
    DivUnique(a, m, 0, a);
    DivUnique(b, m, 0, b);
  }

  lemma CongSym(a: int, b: int, m: int)
    requires m > 0 && Cong(a, b, m)
    ensures Cong(b, a, m)
  {
  }

  lemma CongProduct(a: int, b: int, c: int, d: int, m: int)
    requires m > 0 && Cong(a, b, m) && Cong(c, d, m)
    ensures Cong(a * c, b * d, m)
  {
    hide Cong;
    CongMul(a, b, c, m);
    CongMul(c, d, b, m);
    CongTrans(a * c, b * c, b * d, m);
  }

  lemma MulAssoc(a: int, b: int, c: int)
    ensures (a * b) * c == a * (b * c)
  {
  }

  lemma Shuffle(a: int, b: int, c: int, d: int)
    ensures (a * b) * (c * d) == (a * c) * (b * d)
  {
    MulAssoc(a, b, c * d);
    MulAssoc(b, c, d);
    MulAssoc(c, b, d);
    MulAssoc(a, c, b * d);
  }

  ghost predicate Invertible(d: int, p: int)
    requires p > 0
  {
    exists i :: 0 <= i < p && Cong(i * d, 1, p)
  }

  /** Any inverse will do, reduced or not. */
  lemma InvertibleBy(d: int, i: int, p: int)
    requires p > 0 && Cong(i * d, 1, p)
    ensures Invertible(d, p)
  {
    CongMod(i, p);
    CongMul(i % p, i, d, p);
    CongTrans((i % p) * d, i * d, 1, p);
    assert Cong((i % p) * d, 1, p);
  }

  lemma InvertibleProduct(c: int, d: int, p: int)
    requires p > 0 && Invertible(c, p) && Invertible(d, p)
    ensures Invertible(c * d, p)
  {
    var i :| 0 <= i < p && Cong(i * c, 1, p);
    var j :| 0 <= j < p && Cong(j * d, 1, p);
    hide Cong;
    CongProduct(i * c, 1, j * d, 1, p);
    Shuffle(i, j, c, d);
    InvertibleBy(c * d, i * j, p);
  }

  lemma InvertibleCong(c: int, d: int, p: int)
    requires p > 0 && Invertible(c, p) && Cong(c, d, p)
    ensures Invertible(d, p)
  {
    var i :| 0 <= i < p && Cong(i * c, 1, p);
    CongMul(d, c, i, p);
    CongTrans(i * d, i * c, 1, p);
    assert Cong(i * d, 1, p);
  }

  /** An invertible factor cancels. */
  lemma Cancel(a: int, b: int, t: int, p: int)
    requires p > 0 && Invertible(t, p)
    ensures Cong(a * t, b * t, p) <==> Cong(a, b, p)
  {
    var i :| 0 <= i < p && Cong(i * t, 1, p);
    if Cong(a * t, b * t, p) {
      CancelBy(a, b, t, i, p);
    }
    if Cong(a, b, p) {
      CongMul(a, b, t, p);
    }
  }

  lemma Regroup(i: int, a: int, t: int)
    ensures i * (a * t) == (i * t) * a
  {
    MulAssoc(i, t, a);
  }

  lemma CancelBy(a: int, b: int, t: int, i: int, p: int)
    requires p > 0 && Cong(i * t, 1, p) && Cong(a * t, b * t, p)
    ensures Cong(a, b, p)
  {
    hide Cong;
    CongMul(a * t, b * t, i, p);
    CongMul(i * t, 1, a, p);
    CongMul(i * t, 1, b, p);
    Regroup(i, a, t);
    Regroup(i, b, t);
    CongSym((i * t) * a, a, p);
    CongTrans(a, (i * t) * a, (i * t) * b, p);
    CongTrans(a, (i * t) * b, b, p);
  }
}
