/** Arithmetic modulo 2^64, and how 32-bit shares are brought to 64 bits and split again. */
module DoubleWords {
  import opened Congruence
  import opened Words
  import opened WordModuli
  import opened Players
  import opened Gate
  import opened Compare

  /** A value mod 2^64 held by the pairs (0,1) and (2,3). */
  ghost predicate Rep64(x: Four<u64>, v: u64) {
    x.p0 == x.p1 && x.p2 == x.p3 && W64(x.p0 + x.p2) == v
  }

  /** The same, held by the pairs (0,2) and (1,3). */
  ghost predicate Diag64(x: Four<u64>, v: u64) {
    x.p0 == x.p2 && x.p1 == x.p3 && W64(x.p0 + x.p1) == v
  }

  /** Double words may be reduced before or after adding, subtracting and multiplying. */
  lemma W64Add(x: int, y: int)
    ensures W64(W64(x) + W64(y)) == W64(W64(x) + y) == W64(x + W64(y)) == W64(x + y)
  {
    Wrap(x, y, M64);
  }

  lemma W64Sub(x: int, y: int)
    ensures W64(W64(x) - W64(y)) == W64(W64(x) - y) == W64(x - W64(y)) == W64(x - y)
  {
    Wrap(x, y, M64);
  }

  lemma W64Multiple(x: int, k: int)
    ensures W64(x + M64 * k) == W64(x)
  {
    ModEq(x + M64 * k, x, M64, k);
  }

  lemma W64Factor(x: int) returns (k: int)
    ensures x == W64(x) + M64 * k
  {
    k := x / M64;
  }

  lemma W64Small(x: u64)
    ensures W64(x) == x
  {
  }

  lemma W64Mul(x: int, y: int)
    ensures W64(W64(x) * W64(y)) == W64(x * y)
  {
    var c := W64Factor(x);
    var d := W64Factor(y);
    hide W64;
    Expand(W64(x), W64(y), c, d);
    W64Multiple(W64(x) * W64(y), W64(x) * d + c * W64(y) + M64 * (c * d));
  }

  lemma Expand(a: int, b: int, c: int, d: int)
    ensures (a + M64 * c) * (b + M64 * d) == a * b + M64 * (a * d + c * b + M64 * (c * d))
  {
    var e, f := M64 * c, M64 * d;
    assert (a + e) * (b + f) == a * b + a * f + e * b + e * f;
    assert a * f == M64 * (a * d) && e * b == M64 * (c * b);
    assert e * f == M64 * (M64 * (c * d));
  }

  /** Two carry bits taken off a pair's sum. */
  function TakeOff(x: u64, bit32: u32, bit33: u32): u64 {
    W64(W64(x - W64(bit32 * M32)) - W64(bit33 * M33))
  }

  function TakeOffAll(x: Four<u64>, b: Four<u32>, c: Four<u32>): Four<u64> {
    Four(TakeOff(x.p0, b.p0, c.p0), TakeOff(x.p1, b.p1, c.p1), TakeOff(x.p2, b.p2, c.p2), TakeOff(x.p3, b.p3, c.p3))
  }

  lemma TakeOffIs(x: u64, b: u32, c: u32)
    ensures TakeOff(x, b, c) == W64(x - b * M32 - c * M33)
  {
    hide W64;
    W64Sub(x, b * M32);
    W64Sub(x - b * M32, c * M33);
    W64Sub(W64(x - b * M32), c * M33);
    assert W64(x - W64(b * M32)) == W64(x - b * M32);
    W64Sub(W64(x - W64(b * M32)), c * M33);
  }

  /** Bits 32 and 33 of the sum of four words say by how much it exceeds the shared word. */
  lemma TwoCarries(s: nat, v: u32)
    requires s < 4 * M32 && W32(s) == v
    ensures s == v + M32 * Ind(M32 <= W33(s)) + M33 * Ind(M33 <= s % (2 * M33))
  {
  }

  /** With replicated shares of both carry bits, pair sums become 64-bit shares of the same word. */
  lemma TakeOffPair(x0: u64, x1: u64, b0: u32, b1: u32, c0: u32, c1: u32, v: u32, b: u32, c: u32)
    requires x0 + x1 == v + M32 * b + M33 * c
    requires W32(b0 + b1) == b && W32(c0 + c1) == c
    ensures W64(TakeOff(x0, b0, c0) + TakeOff(x1, b1, c1)) == v
  {
    hide W32, W64;
    TakeOffIs(x0, b0, c0);
    TakeOffIs(x1, b1, c1);
    hide TakeOff;
    var k := WordFactor(b0 + b1);
    var l := WordFactor(c0 + c1);
    var y0, y1 := x0 - b0 * M32 - c0 * M33, x1 - b1 * M32 - c1 * M33;
    assert y0 + y1 == v + M64 * (-k - 2 * l);
    W64Add(y0, y1);
    W64Multiple(v, -k - 2 * l);
    W64Small(v);
  }

  /** 32-bit shares put together within the pairs, without wrap-around. */
  function Pairs(r: Four<u32>): Four<u64> {
    Four(r.p0 + r.p1, r.p1 + r.p0, r.p2 + r.p3, r.p3 + r.p2)
  }

  /** A shared word brought to 64 bits: the pair sums without the share sum's bits 32 and 33. */
  lemma TakeOffTotal(x: Four<u32>, b: Four<u32>, c: Four<u32>, v: u32)
    requires Additive(x, v)
    requires Replicated(b, Ind(M32 <= W33(Total(Ints(x)))))
    requires Replicated(c, Ind(M33 <= Total(Ints(x)) % (2 * M33)))
    ensures Rep64(TakeOffAll(Pairs(x), b, c), v)
  {
    TwoCarries(Total(Ints(x)), v);
    hide Replicated, Rep64, TakeOffAll, Pairs;
    TakeOffBits(x, b, c, v, Ind(M32 <= W33(Total(Ints(x)))), Ind(M33 <= Total(Ints(x)) % (2 * M33)));
  }

  lemma TakeOffBits(x: Four<u32>, b: Four<u32>, c: Four<u32>, v: u32, e: u32, f: u32)
    requires Total(Ints(x)) == v + M32 * e + M33 * f
    requires Replicated(b, e) && Replicated(c, f)
    ensures Rep64(TakeOffAll(Pairs(x), b, c), v)
  {
    hide W64, TakeOff, W32;
    TakeOffPair(x.p0 + x.p1, x.p2 + x.p3, b.p0, b.p2, c.p0, c.p2, v, e, f);
  }

  /** Each player multiplies its two shares. */
  function Products(x: Four<u64>, y: Four<u64>): Four<u64> {
    Four(W64(x.p0 * y.p0), W64(x.p1 * y.p1), W64(x.p2 * y.p2), W64(x.p3 * y.p3))
  }

  ghost predicate Additive64(x: Four<u64>, v: u64) {
    W64(x.p0 + x.p1 + x.p2 + x.p3) == v
  }

  /** Two pairings of the players that cross: the players' products add up to the product. */
  lemma CrossProducts(x: Four<u64>, y: Four<u64>, v: u32, w: u32)
    requires Rep64(x, v) && Diag64(y, w)
    ensures 0 <= v * w < M64 && Additive64(Products(x, y), v * w)
  {
    hide W64;
    ProductFits(v, w);
    CrossWords(x.p0, x.p2, y.p0, y.p1, v, w);
  }

  lemma CrossWords(a: u64, b: u64, c: u64, d: u64, v: u32, w: u32)
    requires W64(a + b) == v && W64(c + d) == w && 0 <= v * w < M64
    ensures W64(W64(a * c) + W64(a * d) + W64(b * c) + W64(b * d)) == v * w
  {
    W64Small(v * w);
    hide W64;
    Sum64(a * c, a * d, b * c, b * d);
    W64Mul(a + b, c + d);
    FourProducts(a, b, c, d);
  }

  lemma Sum64(a: int, b: int, c: int, d: int)
    ensures W64(W64(a) + W64(b) + W64(c) + W64(d)) == W64(a + b + c + d)
  {
    var i := W64Factor(a);
    var j := W64Factor(b);
    var k := W64Factor(c);
    var l := W64Factor(d);
    hide W64;
    W64Multiple(W64(a) + W64(b) + W64(c) + W64(d), i + j + k + l);
  }

  lemma FourProducts(a: int, b: int, c: int, d: int)
    ensures a * c + a * d + b * c + b * d == (a + b) * (c + d)
  {
  }

  /** Additive shares revealed within the pairs. */
  function TwoReveal64(x: Four<u64>): Four<u64> {
    Four(W64(x.p0 + x.p1), W64(x.p1 + x.p0), W64(x.p2 + x.p3), W64(x.p3 + x.p2))
  }

  lemma TwoReveal64Adds(x: Four<u64>, v: u64)
    requires Additive64(x, v)
    ensures Rep64(TwoReveal64(x), v)
  {
    hide W64;
    W64Add(x.p0 + x.p1, x.p2 + x.p3);
  }

  lemma ProductFits(v: u32, w: u32)
    ensures 0 <= v * w < M64
  {
    MulLe(v, w, M32 - 1);
    MulLe(M32 - 1, v, M32 - 1);
  }

  /** The halves of two shares of p: the low halves carry into the high ones. */
  lemma HalvesAdd(t0: u64, t1: u64, p: u64)
    requires W64(t0 + t1) == p
    ensures W32(W32(t0) + W32(t1)) == W32(p)
    ensures W32(t0 / M32 + t1 / M32 + Ind(M32 <= W32(t0) + W32(t1))) == p / M32
  {
    var a, b := W32(t0), W32(t1);
    assert t0 == a + M32 * (t0 / M32) && t1 == b + M32 * (t1 / M32);
    HalvesCarry(a, t0 / M32, b, t1 / M32, p);
  }

  lemma HalvesCarry(a: u32, c: u32, b: u32, d: u32, p: u64)
    requires W64(a + M32 * c + (b + M32 * d)) == p
    ensures W32(a + b) == W32(p)
    ensures W32(c + d + Ind(M32 <= a + b)) == p / M32
  {
    var e := Ind(M32 <= a + b);
    var lo, h := a + b - M32 * e, c + d + e;
    var k := Ind(M32 <= h);
    W64Multiple(lo + M32 * (h - M32 * k), k);
    W64Small(lo + M32 * (h - M32 * k));
    hide W64;
    DivUnique(p, M32, h - M32 * k, lo);
    WMultiple(lo, e);
    WMultiple(h - M32 * k, k);
  }

  /** The high word of a share, and the carry bit. */
  function HighPlus(t: u64, bit: u32): u32 {
    Plus32(t / M32, bit)
  }

  function LowWords(t: Four<u64>): Four<u32> {
    Four(W32(t.p0), W32(t.p1), W32(t.p2), W32(t.p3))
  }

  function HighWords(t: Four<u64>, b: Four<u32>): Four<u32> {
    Four(HighPlus(t.p0, b.p0), HighPlus(t.p1, b.p1), HighPlus(t.p2, b.p2), HighPlus(t.p3, b.p3))
  }

  lemma HighSum(t0: u64, t1: u64, b0: u32, b1: u32, e: u32)
    requires W32(b0 + b1) == e
    ensures W32(HighPlus(t0, b0) + HighPlus(t1, b1)) == W32(t0 / M32 + t1 / M32 + e)
  {
    hide W32;
    var h, g := t0 / M32, t1 / M32;
    WAdd(h + b0, g + b1);
    WAdd(h + g, b0 + b1);
  }

  /** Replicated shares of a double word split into replicated shares of its words. */
  lemma SplitWords(t: Four<u64>, b: Four<u32>, p: u64)
    requires Rep64(t, p)
    requires Replicated(b, Ind(M32 <= W32(t.p0) + W32(t.p2)))
    ensures Replicated(LowWords(t), W32(p)) && Replicated(HighWords(t, b), p / M32)
  {
    HalvesAdd(t.p0, t.p2, p);
    hide W32, W64, HighPlus;
    HighSum(t.p0, t.p2, b.p0, b.p2, Ind(M32 <= W32(t.p0) + W32(t.p2)));
  }
}
