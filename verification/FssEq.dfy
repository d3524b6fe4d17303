/** The two-party point function with prime-field output: f(x) = b when x = a on the low n bits. */
module FssEq {
  import opened Bits
  import opened Congruence
  import opened Words
  import opened FssCommon

  datatype ServerKeyEq = ServerKeyEq(tree: TreeKey, w: int)

  /** The 34 bytes of a last expansion (two seeds, then two bytes holding the control bits)
      read as one big-endian number. */
  function LeafInt(out: PrfOut): nat {
    (out.s.zero * 0x1_0000_0000_0000_0000_0000_0000_0000_0000 + out.s.one) * 0x1_0000 + out.T(0) * 0x100 + out.T(1)
  }

  /** Where the parts of an expansion stand in it. */
  lemma LeafIntIs(out: PrfOut)
    ensures LeafInt(out) / 0x1_0000_0000_0000_0000_0000_0000_0000_0000_0000 == out.s.zero
    ensures LeafInt(out) / 0x1_0000 % 0x1_0000_0000_0000_0000_0000_0000_0000_0000 == out.s.one
    ensures LeafInt(out) / 0x100 % 0x100 == out.ctrl.zero % 2
    ensures LeafInt(out) % 0x100 == out.ctrl.one % 2
  {
    var x, t0, t1 := LeafInt(out), out.ctrl.zero % 2, out.ctrl.one % 2;
    var b := 0x1_0000_0000_0000_0000_0000_0000_0000_0000;
    DivUnique(x, 0x1_0000 * b, out.s.zero, out.s.one * 0x1_0000 + t0 * 0x100 + t1);
    DivUnique(x, 0x1_0000, out.s.zero * b + out.s.one, t0 * 0x100 + t1);
    DivUnique(out.s.zero * b + out.s.one, b, out.s.zero, out.s.one);
    var y := (out.s.zero * b + out.s.one) * 0x100;
    DivUnique(x, 0x100, y + t0, t1);
    DivUnique(y + t0, 0x100, out.s.zero * b + out.s.one, t0);
  }

  /** Different seeds or control bits give different numbers. */
  lemma LeafIntInjective(o: PrfOut, o': PrfOut)
    ensures LeafInt(o) == LeafInt(o')
        <==> o.s == o'.s && o.ctrl.zero % 2 == o'.ctrl.zero % 2 && o.ctrl.one % 2 == o'.ctrl.one % 2
  {
    LeafIntIs(o);
    LeafIntIs(o');
    hide LeafInt;
    if o.s == o'.s && o.ctrl.zero % 2 == o'.ctrl.zero % 2 && o.ctrl.one % 2 == o'.ctrl.one % 2 {
      LeafIntSame(o, o');
    }
  }

  lemma LeafIntSame(o: PrfOut, o': PrfOut)
    requires o.s == o'.s && o.ctrl.zero % 2 == o'.ctrl.zero % 2 && o.ctrl.one % 2 == o'.ctrl.one % 2
    ensures LeafInt(o) == LeafInt(o')
  {
  }

  /** Remainder that takes the sign of the dividend. */
  function Rem(x: int, p: int): int
    requires p > 0
  {
    if x >= 0 then x % p else -((-x) % p)
  }

  /** The leaf number of index v. */
  function Leaf(prf: Prf, k: TreeKey, n: nat, v: nat): nat
    requires 1 <= n && |k.cw| == n - 1
  {
    LeafInt(prf(NodeAt(prf, k, n - 1, v).s))
  }

  /** One party's share of f at index v. */
  function EqShare(prf: Prf, p: int, k: ServerKeyEq, n: nat, v: nat): int
    requires p > 0 && 1 <= n && |k.tree.cw| == n - 1
  {
    Rem(Leaf(prf, k.tree, n, v) * k.w, p)
  }

  lemma EqShareIs(prf: Prf, p: int, k: ServerKeyEq, n: nat, v: nat)
    requires p > 0 && 1 <= n && |k.tree.cw| == n - 1 && k.w >= 0
    ensures EqShare(prf, p, k, n, v) == LeafInt(prf(NodeAt(prf, k.tree, n - 1, v).s)) * k.w % p
  {
    hide LeafInt, NodeAt;
    MulNonNegative(LeafInt(prf(NodeAt(prf, k.tree, n - 1, v).s)), k.w);
  }

  ghost predicate IsPrime(p: int) {
    p >= 2 && forall d :: 2 <= d < p ==> p % d != 0
  }

  lemma RemCongruent(x: int, p: int)
    requires p > 0
    ensures Cong(Rem(x, p), x, p)
    ensures x >= 0 ==> 0 <= Rem(x, p) < p
  {
    CongMod(x, p);
    CongMod(-x, p);
    CongAdd(0, 0, (-x) % p, -x, p);
  }

  /** Modulo a prime every non-zero residue has an inverse. */
  lemma {:induction false} SmallInvertible(d: int, p: int)
    requires IsPrime(p) && 1 <= d < p
    ensures Invertible(d, p)
    decreases d
  {
    if d == 1 {
      assert Cong(1 * d, 1, p);
    } else {
      SmallInvertible(p % d, p);
      var i :| 0 <= i < p && Cong(i * (p % d), 1, p);
      InverseStep(p, d, i);
      CongMod(-((p / d) * i), p);
      assert Cong(((-((p / d) * i)) % p) * d, 1, p);
    }
  }

  lemma InverseStep(p: int, d: int, i: int)
    requires p > 1 && d > 0 && Cong(i * (p % d), 1, p)
    ensures Cong(((-((p / d) * i)) % p) * d, 1, p)
  {
    hide Cong;
    DivMod(p, d);
    var m := -((p / d) * i);
    CongMod(m, p);
    CongMul(m % p, m, d, p);
    NegatedQuotient(p, d, p / d, p % d, i);
    CongByMultiple(m * d, i * (p % d), p, -i);
    CongTrans((m % p) * d, m * d, i * (p % d), p);
    CongTrans((m % p) * d, i * (p % d), 1, p);
  }

  lemma NegatedQuotient(p: int, d: int, q: int, r: int, i: int)
    requires p == d * q + r
    ensures (-(q * i)) * d == i * r + p * (-i)
  {
    assert p * (-i) == -(d * q * i) - r * i;
  }

  /** Modulo a prime the invertible numbers are those that the prime does not divide. */
  lemma InvertibleIff(d: int, p: int)
    requires IsPrime(p)
    ensures Invertible(d, p) <==> !Cong(d, 0, p)
  {
    CongMod(d, p);
    CongSmall(d % p, 0, p);
    CongSmall(1, 0, p);
    if !Cong(d, 0, p) {
      assert d % p != 0;
      SmallInvertible(d % p, p);
      var i :| 0 <= i < p && Cong(i * (d % p), 1, p);
      CongMul(d, d % p, i, p);
      CongTrans(i * d, i * (d % p), 1, p);
      assert Cong(i * d, 1, p);
    } else if Invertible(d, p) {
      var i :| 0 <= i < p && Cong(i * d, 1, p);
      CongMul(d, 0, i, p);
      hide Cong;
      CongTrans(1, i * d, 0, p) by {
        CongTrans(i * d, 1, 1, p) by { CongByMultiple(1, 1, p, 0); }
      }
    }
  }

  /** The difference of the two parties' leaf numbers on the path of a. */
  function LeafGap(prf: Prf, n: nat, a: nat, k0: TreeKey, k1: TreeKey): int
    requires 1 <= n && |k0.cw| == |k1.cw| == n - 1
  {
    Leaf(prf, k0, n, Low(a, n)) - Leaf(prf, k1, n, Low(a, n))
  }

  /** The gap, part by part of the two last expansions. */
  lemma LeafGapIs(prf: Prf, n: nat, a: nat, k0: TreeKey, k1: TreeKey)
    requires 1 <= n && |k0.cw| == |k1.cw| == n - 1
    ensures var o, o' := prf(NodeAt(prf, k0, n - 1, Low(a, n)).s), prf(NodeAt(prf, k1, n - 1, Low(a, n)).s);
            LeafGap(prf, n, a, k0, k1)
            == (o.s.zero - o'.s.zero) * 0x1_0000_0000_0000_0000_0000_0000_0000_0000_0000 + (o.s.one - o'.s.one) * 0x1_0000
               + (o.ctrl.zero % 2 - o'.ctrl.zero % 2) * 0x100 + (o.ctrl.one % 2 - o'.ctrl.one % 2)
  {
    hide NodeAt, Low;
  }

  /** A pair of point keys for a and b: the last word undoes the leaf gap whenever p does not divide it. */
  ghost predicate EqKeys(prf: Prf, p: int, n: nat, a: nat, b: nat, k0: ServerKeyEq, k1: ServerKeyEq)
    requires p > 0
  {
    && TreeKeys(prf, n, a, k0.tree, k1.tree)
    && k0.w == k1.w
    && LastWordOk(LeafGap(prf, n, a, k0.tree, k1.tree), k0.w, b, p)
  }

  ghost predicate LastWordOk(d: int, w: int, b: nat, p: int)
    requires p > 0
  {
    (d == 0 ==> w == 0) && (!Cong(d, 0, p) ==> 0 <= w < p && Cong(d * w, b, p))
  }

  lemma ShareDifference(l0: int, l1: int, w: int, p: int)
    requires p > 0
    ensures Cong(Rem(l0 * w, p) - Rem(l1 * w, p), (l0 - l1) * w, p)
  {
    RemCongruent(l0 * w, p);
    RemCongruent(l1 * w, p);
    CongAdd(Rem(l0 * w, p), l0 * w, Rem(l1 * w, p), l1 * w, p);
    assert l0 * w - l1 * w == (l0 - l1) * w;
  }

  /** Off the path of a the two leaves are the same node. */
  lemma EqOffPath(prf: Prf, n: nat, a: nat, k0: TreeKey, k1: TreeKey, x: nat)
    requires TreeKeys(prf, n, a, k0, k1)
    ensures Low(x, n) < Pow2(n)
    ensures Related(NodeAt(prf, k0, n - 1, Low(x, n)), NodeAt(prf, k1, n - 1, Low(x, n)), Low(x, n) == Low(a, n))
  {
    hide Child, LevelAt, RootsOk;
    PrefixBound(x, n, n - 1);
    PrefixLast(x, n);
    PrefixLast(a, n);
    TreeInvariant(prf, n, a, k0, k1, n - 1, Low(x, n));
  }

  /** The shares differ by b at x = a and by 0 elsewhere, modulo p; at x = a this holds exactly when p does
      not divide the difference of the two last expansions read as 34-byte numbers, or b is 0 modulo p. */
  lemma EqCorrect(prf: Prf, p: int, n: nat, a: nat, b: nat, k0: ServerKeyEq, k1: ServerKeyEq, x: nat)
    requires p > 0 && EqKeys(prf, p, n, a, b, k0, k1)
    ensures Cong(EqShare(prf, p, k0, n, Low(x, n)) - EqShare(prf, p, k1, n, Low(x, n)),
                 if Low(x, n) == Low(a, n) then b else 0, p)
        <==> || Low(x, n) != Low(a, n) || b % p == 0
             || var o, o' := prf(NodeAt(prf, k0.tree, n - 1, Low(a, n)).s), prf(NodeAt(prf, k1.tree, n - 1, Low(a, n)).s);
                ((o.s.zero - o'.s.zero) * 0x1_0000_0000_0000_0000_0000_0000_0000_0000_0000 + (o.s.one - o'.s.one) * 0x1_0000
                 + (o.ctrl.zero % 2 - o'.ctrl.zero % 2) * 0x100 + (o.ctrl.one % 2 - o'.ctrl.one % 2)) % p != 0
  {
    hide LeafGap, EqShare, NodeAt, Low, PathKeys, LastWordOk, Cong;
    EqByGap(prf, p, n, a, b, k0, k1, x);
    LeafGapIs(prf, n, a, k0.tree, k1.tree);
    ZeroMod(LeafGap(prf, n, a, k0.tree, k1.tree), p);
    ZeroMod(b, p);
  }

  lemma ZeroMod(x: int, p: int)
    requires p > 0
    ensures Cong(x, 0, p) <==> x % p == 0
  {
    DivUnique(0, p, 0, 0);
  }

  lemma EqByGap(prf: Prf, p: int, n: nat, a: nat, b: nat, k0: ServerKeyEq, k1: ServerKeyEq, x: nat)
    requires p > 0 && EqKeys(prf, p, n, a, b, k0, k1)
    ensures Cong(EqShare(prf, p, k0, n, Low(x, n)) - EqShare(prf, p, k1, n, Low(x, n)),
                 if Low(x, n) == Low(a, n) then b else 0, p)
        <==> Low(x, n) != Low(a, n) || !Cong(LeafGap(prf, n, a, k0.tree, k1.tree), 0, p) || Cong(b, 0, p)
  {
    hide LeafInt, Low, Rem, LevelAt, RootsOk;
    EqOffPath(prf, n, a, k0.tree, k1.tree, x);
    var l0, l1 := Leaf(prf, k0.tree, n, Low(x, n)), Leaf(prf, k1.tree, n, Low(x, n));
    if Low(x, n) == Low(a, n) {
      OnPathDifference(l0, l1, k0.w, b, p);
      hide Cong;
    } else {
      assert l0 == l1;
    }
  }

  lemma OnPathDifference(l0: int, l1: int, w: int, b: nat, p: int)
    requires p > 0 && LastWordOk(l0 - l1, w, b, p)
    ensures Cong(Rem(l0 * w, p) - Rem(l1 * w, p), b, p) <==> !Cong(l0 - l1, 0, p) || Cong(b, 0, p)
  {
    hide Rem, Cong;
    var d, e := l0 - l1, Rem(l0 * w, p) - Rem(l1 * w, p);
    ShareDifference(l0, l1, w, p);
    if !Cong(d, 0, p) {
      CongTrans(e, d * w, b, p);
    } else {
      CongMul(d, 0, w, p);
      CongTrans(e, d * w, 0, p);
      if Cong(e, b, p) {
        CongTrans(b, e, 0, p) by { CongTrans(e, b, b, p) by { CongByMultiple(b, b, p, 0); } }
      }
      if Cong(b, 0, p) {
        CongTrans(e, 0, b, p) by { CongTrans(b, 0, 0, p) by { CongByMultiple(0, 0, p, 0); } }
      }
    }
  }

  /** With b = 1, party 1's share as a word and party 3's share negated as a word add up to the
      indicator of x = a; at x = a exactly when the first share is not zero. */
  lemma LiftCorrect(prf: Prf, p: int, n: nat, a: nat, k0: ServerKeyEq, k1: ServerKeyEq, x: nat)
    requires IsPrime(p) && p > M32 && EqKeys(prf, p, n, a, 1, k0, k1)
    requires !Cong(LeafGap(prf, n, a, k0.tree, k1.tree), 0, p)
    ensures var v0, v1 := EqShare(prf, p, k0, n, Low(x, n)), EqShare(prf, p, k1, n, Low(x, n));
            && 0 <= v0 < p && 0 <= v1 < p
            && (W32(W32(v0) + Neg32(W32(v1))) == (if Low(x, n) == Low(a, n) then 1 else 0)
                <==> Low(x, n) != Low(a, n) || v0 != 0)
  {
    hide EqShare, LeafGap, Low, TreeKeys, LastWordOk, IsPrime, Cong, W32;
    PrimePositive(p);
    KeyDepths(prf, n, a, k0.tree, k1.tree);
    var v0, v1 := EqShare(prf, p, k0, n, Low(x, n)), EqShare(prf, p, k1, n, Low(x, n));
    EqByGap(prf, p, n, a, 1, k0, k1, x);
    WordInRange(LeafGap(prf, n, a, k0.tree, k1.tree), k0.w, 1, p);
    ShareInRange(prf, p, k0, n, Low(x, n));
    ShareInRange(prf, p, k1, n, Low(x, n));
    LiftWords(v0, v1, p, if Low(x, n) == Low(a, n) then 1 else 0);
  }

  lemma PrimePositive(p: int)
    requires IsPrime(p)
    ensures p > 0
  {
  }

  lemma KeyDepths(prf: Prf, n: nat, a: nat, k0: TreeKey, k1: TreeKey)
    requires TreeKeys(prf, n, a, k0, k1)
    ensures 1 <= n && |k0.cw| == |k1.cw| == n - 1
  {
    hide PathKeys;
  }

  lemma WordInRange(d: int, w: int, b: nat, p: int)
    requires p > 0 && LastWordOk(d, w, b, p) && !Cong(d, 0, p)
    ensures 0 <= w < p
  {
  }

  lemma ShareInRange(prf: Prf, p: int, k: ServerKeyEq, n: nat, v: nat)
    requires p > 0 && 1 <= n && |k.tree.cw| == n - 1 && k.w >= 0
    ensures 0 <= EqShare(prf, p, k, n, v) < p
  {
    hide Leaf, Cong;
    MulNonNegative(Leaf(prf, k.tree, n, v), k.w);
    RemCongruent(Leaf(prf, k.tree, n, v) * k.w, p);
  }

  lemma MulNonNegative(x: nat, y: nat)
    ensures x * y >= 0
  {
  }

  lemma LiftWords(v0: int, v1: int, p: int, e: bit)
    requires IsPrime(p) && p > M32 && 0 <= v0 < p && 0 <= v1 < p
    requires Cong(v0 - v1, e, p)
    ensures W32(W32(v0) + Neg32(W32(v1))) == e <==> e == 0 || v0 != 0
  {
    assert p % 2 != 0;
    var d: int := v0 - v1;
    if d >= 0 {
      CongSmall(d, e, p);
    } else {
      CongByMultiple(d + p, d, p, 1);
      hide Cong;
      CongTrans(d + p, d, e, p);
      CongSmall(d + p, e, p);
    }
    LiftWordsSmall(v0, v1, p, e);
  }

  lemma LiftWordsSmall(v0: int, v1: int, p: int, e: bit)
    requires p % 2 != 0 && p > M32 && 0 <= v0 < p && 0 <= v1 < p
    requires v0 - v1 == e || v0 - v1 == e - p
    ensures W32(W32(v0) + Neg32(W32(v1))) == e <==> e == 0 || v0 != 0
  {
    WordDifference(v0, v1);
    OddNotWrapped(p);
  }

  lemma OddNotWrapped(p: int)
    requires p % 2 != 0
    ensures W32(1 - p) != 1
  {
  }

  /** Inversion modulo p; without an inverse the result is left undefined. */
  method MpzInvert(d: int, p: int) returns (inv: int)
    requires p > 0
    ensures Invertible(d, p) ==> 0 <= inv < p && Cong(inv * d, 1, p)
  {
    if i :| 0 <= i < p && (i * d) % p == 1 % p {
      inv := i;
    } else {
      assert forall i :: 0 <= i < p ==> (i * d) % p != 1 % p;
      inv := *;
    }
  }

  /** The last word of the keys: b over the leaf gap. */
  method LastWord(d: int, b: u64, p: int) returns (w: int)
    requires IsPrime(p)
    ensures LastWordOk(d, w, b, p)
  {
    hide Rem;
    if d != 0 {
      var inv := MpzInvert(d, p);
      w := Rem(inv * b, p);
      InvertibleIff(d, p);
      hide Cong;
      if !Cong(d, 0, p) {
        WordUndoesGap(d, inv, b, p);
      }
    } else {
      w := 0;
    }
  }

  lemma WordUndoesGap(d: int, inv: int, b: nat, p: int)
    requires p > 0 && 0 <= inv && Cong(inv * d, 1, p)
    ensures 0 <= Rem(inv * b, p) < p && Cong(d * Rem(inv * b, p), b, p)
  {
    hide Cong, Rem;
    MulNonNegative(inv, b);
    RemCongruent(inv * b, p);
    CongMul(Rem(inv * b, p), inv * b, d, p);
    CongMul(inv * d, 1, b, p);
    assert d * (inv * b) == inv * d * b;
    CongTrans(d * Rem(inv * b, p), inv * d * b, 1 * b, p);
  }

  method GenerateTreeEq(prf: Prf, p: int, n: nat, a_i: u64, b_i: u64) returns (k0: ServerKeyEq, k1: ServerKeyEq)
    requires 1 <= n <= 64 && IsPrime(p)
    ensures EqKeys(prf, p, n, a_i, b_i, k0, k1)
    ensures forall x: u64 ::
              Cong(EqShare(prf, p, k0, n, Low(x, n)) - EqShare(prf, p, k1, n, Low(x, n)),
                   if Low(x, n) == Low(a_i, n) then b_i else 0, p)
              <==> || Low(x, n) != Low(a_i, n) || b_i % p == 0
                   || var o, o' := prf(NodeAt(prf, k0.tree, n - 1, Low(a_i, n)).s), prf(NodeAt(prf, k1.tree, n - 1, Low(a_i, n)).s);
                      ((o.s.zero - o'.s.zero) * 0x1_0000_0000_0000_0000_0000_0000_0000_0000_0000 + (o.s.one - o'.s.one) * 0x1_0000
                       + (o.ctrl.zero % 2 - o'.ctrl.zero % 2) * 0x100 + (o.ctrl.one % 2 - o'.ctrl.one % 2)) % p != 0
  {
    hide Low, LeafInt, Prefix, Cong, Rem, LastWordOk, PathKeys, NodeAt;
    var t0, t1, key0, key1 := GenerateTree(prf, n, a_i);
    PrefixLast(a_i, n);
    var d: int := LeafInt(prf(key0.s)) - LeafInt(prf(key1.s));
    var w := LastWord(d, b_i, p);
    k0, k1 := ServerKeyEq(t0, w), ServerKeyEq(t1, w);
    forall x: u64
      ensures Cong(EqShare(prf, p, k0, n, Low(x, n)) - EqShare(prf, p, k1, n, Low(x, n)),
                   if Low(x, n) == Low(a_i, n) then b_i else 0, p)
              <==> || Low(x, n) != Low(a_i, n) || b_i % p == 0
                   || var o, o' := prf(NodeAt(prf, k0.tree, n - 1, Low(a_i, n)).s), prf(NodeAt(prf, k1.tree, n - 1, Low(a_i, n)).s);
                      ((o.s.zero - o'.s.zero) * 0x1_0000_0000_0000_0000_0000_0000_0000_0000_0000 + (o.s.one - o'.s.one) * 0x1_0000
                       + (o.ctrl.zero % 2 - o'.ctrl.zero % 2) * 0x100 + (o.ctrl.one % 2 - o'.ctrl.one % 2)) % p != 0
    {
      EqCorrect(prf, p, n, a_i, b_i, k0, k1, x);
    }
  }

  /** Pointwise evaluation. */
  method EvaluateEq(prf: Prf, p: int, n: nat, k: ServerKeyEq, x: u64) returns (ans: int)
    requires 1 <= n <= 64 && |k.tree.cw| == n - 1 && p > 0
    ensures ans == EqShare(prf, p, k, n, Low(x, n))
  {
    hide GetBit, Prefix, Child, LeafInt, Rem;
    var xi := GetBit(x, 64 - n + 1);
    var nd := Node(k.tree.s.At(xi), k.tree.t.At(xi));
    PrefixFirst(x, n);
    var out := prf(nd.s);
    for i := 1 to n
      invariant nd == NodeAt(prf, k.tree, i - 1, Prefix(x, n, i - 1))
      invariant out == prf(nd.s)
    {
      PrefixStep(x, n, i - 1);
      xi := GetBit(x, 64 - n + i + 1);
      nd := Child(out, k.tree.cw[i - 1], nd.t, xi);
      out := prf(nd.s);
    }
    PrefixLast(x, n);
    ans := LeafInt(out) * k.w;
    ans := Rem(ans, p);
  }
}
