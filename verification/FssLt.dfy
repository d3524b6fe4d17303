/** The two-party comparison function: f(x) = b when x < a on the low n bits, else 0. */
module FssLt {
  import opened Bits
  import opened Congruence
  import opened Words
  import opened FssCommon

  /** cv[i].At(t).At(c) is added at level i+1 under control bit t when the path goes to c. */
  datatype ServerKeyLt = ServerKeyLt(tree: TreeKey, v: Two<u64>, cv: seq<Two<Two<u64>>>)

  /** What a party adds to its value when it goes down to c. */
  function AddLevel(v: u64, out: PrfOut, cv: Two<Two<u64>>, t: bit, c: bit): u64 {
    W64(W64(v + out.v.At(c)) + cv.At(t).At(c))
  }

  function ValueAt(prf: Prf, k: ServerKeyLt, j: nat, v: nat): u64
    requires j <= |k.tree.cw| && j <= |k.cv|
    decreases j
  {
    if j == 0 then
      k.v.At(v % 2)
    else
      var p := NodeAt(prf, k.tree, j - 1, v / 2);
      AddLevel(ValueAt(prf, k, j - 1, v / 2), prf(p.s), k.cv[j - 1], p.t, v % 2)
  }

  /** What a level adds, modulo 2^64. */
  lemma AddLevelIs(v: u64, out: PrfOut, cv: Two<Two<u64>>, t: bit, c: bit)
    ensures var w := if t == 0 then cv.zero else cv.one;
            AddLevel(v, out, cv, t, c)
            == ((v as int) + (if c == 0 then out.v.zero else out.v.one) + (if c == 0 then w.zero else w.one)) % 0x1_0000_0000_0000_0000
  {
    Wrap((v as int) + out.v.At(c), cv.At(t).At(c), M64);
  }

  /** The value at depth j is where a walk along the bits of v, the highest first, ends. */
  lemma {:induction false} ValueWalk(prf: Prf, k: ServerKeyLt, j: nat, v: nat, walk: seq<u64>)
    requires j <= |k.tree.cw| && j <= |k.cv| && |walk| == j + 1
    requires walk[0] == if Shr(v, j) % 2 == 0 then k.v.zero else k.v.one
    requires forall i {:trigger walk[i]} :: 1 <= i <= j ==>
               var nd := NodeAt(prf, k.tree, i - 1, Shr(v, j - (i - 1)));
               walk[i] == AddLevel(walk[i - 1], prf(nd.s), k.cv[i - 1], nd.t, Shr(v, j - i) % 2)
    ensures ValueAt(prf, k, j, v) == walk[j]
    decreases j
  {
    hide AddLevel, NodeAt;
    if j != 0 {
      ValueWalk(prf, k, j - 1, v / 2, walk[..j]);
      assert Shr(v, 0) == v && Shr(v, 1) == v / 2;
    }
  }

  /** One party's share of f(x). */
  function LtShare(prf: Prf, k: ServerKeyLt, n: nat, x: nat): u64
    requires 1 <= n && n - 1 <= |k.tree.cw| && n - 1 <= |k.cv|
  {
    ValueAt(prf, k, n - 1, Prefix(x, n, n - 1))
  }

  ghost predicate LtRootsOk(a: bit, b: u64, v0: Two<u64>, v1: Two<u64>) {
    && v0.At(a) == v1.At(a)
    && W64(v0.At(Not(a)) - v1.At(Not(a))) == (if a == 1 then b else 0)
  }

  /** What one level adds to the difference of the two values when the path goes to c. */
  function Gap(o0: PrfOut, o1: PrfOut, t0: bit, t1: bit, cv: Two<Two<u64>>, c: bit): u64 {
    W64((o0.v.At(c) + cv.At(t0).At(c)) - (o1.v.At(c) + cv.At(t1).At(c)))
  }

  ghost predicate LtLevelOk(a: bit, b: u64, o0: PrfOut, o1: PrfOut, t0: bit, t1: bit, cv: Two<Two<u64>>) {
    && Gap(o0, o1, t0, t1, cv, a) == 0
    && Gap(o0, o1, t0, t1, cv, Not(a)) == (if a == 1 then b else 0)
  }

  ghost predicate LtLevelAt(prf: Prf, n: nat, a: nat, b: u64, k0: ServerKeyLt, k1: ServerKeyLt, i: nat)
    requires 1 <= n <= 64 && k0.tree.cw == k1.tree.cw && i < |k0.cv| == |k0.tree.cw| <= n - 1
  {
    var n0 := NodeAt(prf, k0.tree, i, Prefix(a, n, i));
    var n1 := NodeAt(prf, k1.tree, i, Prefix(a, n, i));
    LtLevelOk(GetBit(a, 64 - n + i + 2), b, prf(n0.s), prf(n1.s), n0.t, n1.t, k0.cv[i])
  }

  ghost predicate LtPathKeys(prf: Prf, n: nat, a: nat, b: u64, k0: ServerKeyLt, k1: ServerKeyLt)
    requires 1 <= n <= 64
  {
    && k0.tree.cw == k1.tree.cw && k0.cv == k1.cv && |k0.cv| == |k0.tree.cw| <= n - 1
    && PathKeys(prf, n, a, k0.tree, k1.tree)
    && LtRootsOk(GetBit(a, 64 - n + 1), b, k0.v, k1.v)
    && forall i :: 0 <= i < |k0.cv| ==> LtLevelAt(prf, n, a, b, k0, k1, i)
  }

  /** A pair of comparison keys for threshold a and value b. */
  ghost predicate LtKeys(prf: Prf, n: nat, a: nat, b: u64, k0: ServerKeyLt, k1: ServerKeyLt) {
    && 1 <= n <= 64
    && |k0.tree.cw| == n - 1
    && LtPathKeys(prf, n, a, b, k0, k1)
  }

  lemma {:induction false} ValueAtExtends(prf: Prf, k: ServerKeyLt, k': ServerKeyLt, j: nat, v: nat)
    requires k.tree.s == k'.tree.s && k.tree.t == k'.tree.t && k.tree.cw <= k'.tree.cw
    requires k.v == k'.v && k.cv <= k'.cv
    requires j <= |k.tree.cw| && j <= |k.cv|
    ensures ValueAt(prf, k, j, v) == ValueAt(prf, k', j, v)
    decreases j
  {
    hide W64;
    hide Child;
    if j != 0 {
      ValueAtExtends(prf, k, k', j - 1, v / 2);
      NodeAtExtends(prf, k.tree, k'.tree, j - 1, v / 2);
    }
  }

  lemma GapAdds(x0: int, x1: int, y0: int, y1: int, d: u64, e: u64)
    requires W64(x0 - x1) == d && W64(y0 - y1) == e
    ensures W64(W64(x0 + y0) - W64(x1 + y1)) == W64(d + e)
  {
  }

  /** At every depth the two values differ by b exactly at the nodes left of the path of a. */
  lemma {:induction false} LtInvariant(prf: Prf, n: nat, a: nat, b: u64, k0: ServerKeyLt, k1: ServerKeyLt, j: nat, v: nat)
    requires 1 <= n <= 64
    requires LtPathKeys(prf, n, a, b, k0, k1)
    requires j <= |k0.cv| && v < Pow2(j + 1)
    ensures W64(ValueAt(prf, k0, j, v) - ValueAt(prf, k1, j, v)) == if v < Prefix(a, n, j) then b else 0
    decreases j
  {
    hide Child, GetBit, Prefix, W64, LtLevelOk, LevelAt, AddLevel, Related;
    if j == 0 {
      W64Id(0);
      PrefixFirst(a, n);
    } else {
      hide RootsOk, LtRootsOk, Gap;
      var u, c := v / 2, v % 2;
      LtInvariant(prf, n, a, b, k0, k1, j - 1, u);
      TreeInvariant(prf, n, a, k0.tree, k1.tree, j - 1, u);
      PrefixStep(a, n, j - 1);
      assert LtLevelAt(prf, n, a, b, k0, k1, j - 1);
      var n0, n1 := NodeAt(prf, k0.tree, j - 1, u), NodeAt(prf, k1.tree, j - 1, u);
      LtStep(GetBit(a, 64 - n + j + 1), b, n0, n1, prf(n0.s), prf(n1.s), k0.cv[j - 1], c,
             ValueAt(prf, k0, j - 1, u), ValueAt(prf, k1, j - 1, u), u, Prefix(a, n, j - 1));
    }
  }

  lemma WrapTwice(x: int, y: int, z: int)
    ensures W64(W64(x + y) + z) == W64(x + (y + z))
  {
  }

  lemma LtStep(a: bit, b: u64, n0: Node, n1: Node, o0: PrfOut, o1: PrfOut, cv: Two<Two<u64>>, c: bit,
               x0: u64, x1: u64, u: nat, pa: nat)
    requires Related(n0, n1, u == pa) && (n0 == n1 ==> o0 == o1)
    requires u == pa ==> LtLevelOk(a, b, o0, o1, n0.t, n1.t, cv)
    requires W64(x0 - x1) == if u < pa then b else 0
    ensures W64(AddLevel(x0, o0, cv, n0.t, c) - AddLevel(x1, o1, cv, n1.t, c))
         == if 2 * u + c < 2 * pa + a then b else 0
  {
    hide W64;
    GapAdds(x0, x1, o0.v.At(c) + cv.At(n0.t).At(c), o1.v.At(c) + cv.At(n1.t).At(c),
            if u < pa then b else 0, Gap(o0, o1, n0.t, n1.t, cv, c));
    WrapTwice(x0, o0.v.At(c), cv.At(n0.t).At(c));
    WrapTwice(x1, o1.v.At(c), cv.At(n1.t).At(c));
    W64Id(0);
    W64Id(b);
  }

  lemma W64Id(x: u64)
    ensures W64(x) == x
  {
  }

  /** The shares differ by b exactly when x < a on the low n bits. */
  lemma LtCorrect(prf: Prf, n: nat, a: nat, b: u64, k0: ServerKeyLt, k1: ServerKeyLt, x: nat)
    requires LtKeys(prf, n, a, b, k0, k1)
    ensures W64(LtShare(prf, k0, n, x) - LtShare(prf, k1, n, x)) == if x % Pow2(n) < a % Pow2(n) then b else 0
  {
    hide Low, Prefix, W64, Pow2, ValueAt, NodeAt;
    LowIsMod(x, n);
    LowIsMod(a, n);
    PrefixBound(x, n, n - 1);
    PrefixLast(x, n);
    PrefixLast(a, n);
    LtInvariant(prf, n, a, b, k0, k1, n - 1, Prefix(x, n, n - 1));
  }

  method GenerateTreeLt(prf: Prf, n: nat, a_i: u64, b_i: u64) returns (k0: ServerKeyLt, k1: ServerKeyLt)
    requires 1 <= n <= 64
    ensures LtKeys(prf, n, a_i, b_i, k0, k1)
    ensures forall x: u64 :: W64(LtShare(prf, k0, n, x) - LtShare(prf, k1, n, x))
                          == if x % Pow2(n) < a_i % Pow2(n) then b_i else 0
  {
    hide Child, GetBit, Prefix, Low, W64, Pow2, LevelOk, LtLevelOk;
    var a := GetBit(a_i, 64 - n + 1);
    var s0, s1, t0, t1 := DrawRoots(a);
    var v0, v1 := DrawRootValues(a, b_i);
    k0 := ServerKeyLt(TreeKey(s0, t0, []), v0, []);
    k1 := ServerKeyLt(TreeKey(s1, t1, []), v1, []);
    var key0, key1 := Node(s0.At(a), t0.At(a)), Node(s1.At(a), t1.At(a));
    PrefixFirst(a_i, n);

    for i := 0 to n - 1
      invariant LtPathKeys(prf, n, a_i, b_i, k0, k1) && |k0.cv| == i
      invariant key0 == NodeAt(prf, k0.tree, i, Prefix(a_i, n, i))
      invariant key1 == NodeAt(prf, k1.tree, i, Prefix(a_i, n, i))
      invariant key0.t != key1.t
    {
      hide LtPathKeys, RootsOk, LtRootsOk, NodeAt;
      var out0, out1 := prf(key0.s), prf(key1.s);
      a := GetBit(a_i, 64 - n + i + 2);
      var words := DrawWords(a, out0, out1);
      var values := DrawValues(a, b_i, out0, out1, key0.t, key1.t);
      LtPathExtends(prf, n, a_i, b_i, k0, k1, words, values);
      k0, k1 := Extend(k0, words, values), Extend(k1, words, values);
      key0, key1 := Child(out0, words, key0.t, a), Child(out1, words, key1.t, a);
    }
    forall x: u64
      ensures W64(LtShare(prf, k0, n, x) - LtShare(prf, k1, n, x)) == if x % Pow2(n) < a_i % Pow2(n) then b_i else 0
    {
      LtCorrect(prf, n, a_i, b_i, k0, k1, x);
    }
  }

  /** A key with one more level of words copied into it. */
  function Extend(k: ServerKeyLt, words: Two<CW>, values: Two<Two<u64>>): ServerKeyLt {
    ServerKeyLt(ExtendTree(k.tree, words), k.v, k.cv + [values])
  }

  method DrawRootValues(a: bit, b: u64) returns (v0: Two<u64>, v1: Two<u64>)
    ensures LtRootsOk(a, b, v0, v1)
  {
    var v0a := Random64();
    var v0na := Random64();
    var v1na := W64(v0na - b * a);
    assert b * a == if a == 1 then b else 0;
    v0 := if a == 0 then Two(v0a, v0na) else Two(v0na, v0a);
    v1 := if a == 0 then Two(v0a, v1na) else Two(v1na, v0a);
  }

  lemma WrapCancels(x: u64, y: u64, c: u64, d: u64)
    ensures W64((x + c) - (y + W64(c + x - y - d))) == d
  {
  }

  method DrawValues(a: bit, b: u64, o0: PrfOut, o1: PrfOut, t0: bit, t1: bit) returns (cv: Two<Two<u64>>)
    requires t0 != t1
    ensures LtLevelOk(a, b, o0, o1, t0, t1, cv)
  {
    var na := Not(a);
    var c0a := Random64();
    var c0na := Random64();
    var c1a := W64(c0a + o0.v.At(a) - o1.v.At(a));
    var c1na := W64(c0na + o0.v.At(na) - o1.v.At(na) - b * a);
    assert b * a == if a == 1 then b else 0;
    WrapCancels(o0.v.At(a), o1.v.At(a), c0a, 0);
    WrapCancels(o0.v.At(na), o1.v.At(na), c0na, if a == 1 then b else 0);
    hide W64;
    var w0 := if a == 0 then Two(c0a, c0na) else Two(c0na, c0a);
    var w1 := if a == 0 then Two(c1a, c1na) else Two(c1na, c1a);
    cv := if t0 == 0 then Two(w0, w1) else Two(w1, w0);
  }

  /** Appending a level that fits the path keeps what holds of the levels before it. */
  lemma LtPathExtends(prf: Prf, n: nat, a: nat, b: u64, k0: ServerKeyLt, k1: ServerKeyLt,
                      words: Two<CW>, values: Two<Two<u64>>)
    requires 1 <= n <= 64 && LtPathKeys(prf, n, a, b, k0, k1) && |k0.cv| < n - 1
    requires var i := |k0.cv|;
             var m0, m1 := NodeAt(prf, k0.tree, i, Prefix(a, n, i)), NodeAt(prf, k1.tree, i, Prefix(a, n, i));
             var c := GetBit(a, 64 - n + i + 2);
             && m0.t != m1.t
             && LevelOk(c, prf(m0.s), prf(m1.s), words)
             && LtLevelOk(c, b, prf(m0.s), prf(m1.s), m0.t, m1.t, values)
    ensures LtPathKeys(prf, n, a, b, Extend(k0, words, values), Extend(k1, words, values))
    ensures var i := |k0.cv|;
            var m0, m1 := NodeAt(prf, k0.tree, i, Prefix(a, n, i)), NodeAt(prf, k1.tree, i, Prefix(a, n, i));
            var c := GetBit(a, 64 - n + i + 2);
            var c0, c1 := Child(prf(m0.s), words, m0.t, c), Child(prf(m1.s), words, m1.t, c);
            && c0 == NodeAt(prf, Extend(k0, words, values).tree, i + 1, Prefix(a, n, i + 1))
            && c1 == NodeAt(prf, Extend(k1, words, values).tree, i + 1, Prefix(a, n, i + 1))
            && c0.t != c1.t
  {
    hide W64, GetBit, Prefix, Child;
    var k0', k1' := Extend(k0, words, values), Extend(k1, words, values);
    PathExtends(prf, n, a, k0.tree, k1.tree, words);
    forall h | 0 <= h < |k0'.cv|
      ensures LtLevelAt(prf, n, a, b, k0', k1', h)
    {
      if h < |k0.cv| {
        assert LtLevelAt(prf, n, a, b, k0, k1, h);
      }
    }
  }

  method EvaluateLt(prf: Prf, n: nat, k: ServerKeyLt, x: u64) returns (v: u64)
    requires 1 <= n <= 64 && |k.tree.cw| == |k.cv| == n - 1
    ensures v == LtShare(prf, k, n, x)
  {
    hide GetBit, Prefix, Child, AddLevel;
    var xi := GetBit(x, 64 - n + 1);
    var nd := Node(k.tree.s.At(xi), k.tree.t.At(xi));
    v := k.v.At(xi);
    PrefixFirst(x, n);
    for i := 1 to n
      invariant nd == NodeAt(prf, k.tree, i - 1, Prefix(x, n, i - 1))
      invariant v == ValueAt(prf, k, i - 1, Prefix(x, n, i - 1))
    {
      PrefixStep(x, n, i - 1);
      xi := GetBit(x, 64 - n + i + 1);
      var out := prf(nd.s);
      v := AddLevel(v, out, k.cv[i - 1], nd.t, xi);
      nd := Child(out, k.tree.cw[i - 1], nd.t, xi);
    }
  }
}
