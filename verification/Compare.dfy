/** The four-party comparisons of shares: most significant bit, and the carry or borrow of an addition
    or subtraction of 32-bit shares. */
module Compare {
  import opened Bits
  import opened Congruence
  import opened Words
  import opened Players
  import opened FssCommon
  import opened FssLt
  import opened Gate
  import opened Convert

  const M33: int := 0x2_0000_0000

  function W33(x: int): int { x % M33 }

  /** Words may be reduced modulo 2^33 before or after adding and subtracting. */
  lemma W33Add(x: int, y: int)
    ensures W33(W33(x) + W33(y)) == W33(W33(x) + y) == W33(x + W33(y)) == W33(x + y)
  {
    Wrap(x, y, M33);
  }

  lemma W33Sub(x: int, y: int)
    ensures W33(W33(x) - W33(y)) == W33(W33(x) - y) == W33(x - W33(y)) == W33(x - y)
  {
    Wrap(x, y, M33);
  }

  lemma W33Multiple(x: int, k: int)
    ensures W33(x + M33 * k) == W33(x)
  {
    ModEq(x + M33 * k, x, M33, k);
  }

  lemma Pow2Of33()
    ensures Pow2(33) == M33 && Pow2(32) == M32
  {
    Pow2Of32();
    Pow2Step(32);
  }

  /** A 32-bit share brought to 33 bits: the player's share of the carry is taken off. */
  function Widen(r: u32, beta: u32): int {
    W33(r + M33 - W33(beta * M32))
  }

  function WidenAll(x: Four<u32>, beta: Four<u32>): Four<int> {
    Four(Widen(x.p0, beta.p0), Widen(x.p1, beta.p1), Widen(x.p2, beta.p2), Widen(x.p3, beta.p3))
  }

  lemma WidenIs(r: u32, beta: u32)
    ensures W33(Widen(r, beta)) == Widen(r, beta) == W33(r - M32 * beta)
  {
    W33Sub(r + M33, beta * M32);
    W33Multiple(r - beta * M32, 1);
    W33Add(r - beta * M32, 0);
  }

  /** With additive shares of bit 32 of the share sum, the extended shares add up to the same value
      modulo 2^33 that the 32-bit shares add up to modulo 2^32. */
  lemma WidenAllCorrect(x: Four<u32>, beta: Four<u32>, v: u32)
    requires Additive(x, v)
    requires Additive(beta, Ind(M32 <= W33(Total(x))))
    ensures W33(Total(WidenAll(x, beta))) == v
  {
    var s, t := Total(x), Total(beta);
    WidenSum(x, beta);
    CarryParity(s, t);
    assert W32(s) == v;
  }

  lemma CarryParity(s: int, t: int)
    requires W32(t) == Ind(M32 <= W33(s))
    ensures W33(s - M32 * t) == W32(s)
  {
    var c, k := s / M33, t / M32;
    assert s == W33(s) + M33 * c && t == W32(t) + M32 * k;
    LowOf33(s);
    hide W32, W33;
    assert s - M32 * t == W33(s) - M32 * W32(t) + M33 * (c - (M32 / 2) * k);
    W33Multiple(W33(s) - M32 * W32(t), c - (M32 / 2) * k);
  }

  lemma LowOf33(s: int)
    ensures W32(s) == if M32 <= W33(s) then W33(s) - M32 else W33(s)
    ensures W33(W32(s)) == W32(s)
  {
    assert s == M33 * (s / M33) + W33(s);
  }

  lemma WidenSum(x: Four<u32>, beta: Four<u32>)
    ensures W33(Total(WidenAll(x, beta))) == W33(Total(x) - M32 * Total(beta))
  {
    WidenIs(x.p0, beta.p0);
    WidenIs(x.p1, beta.p1);
    WidenIs(x.p2, beta.p2);
    WidenIs(x.p3, beta.p3);
    var a, b, c, d := x.p0 - M32 * beta.p0, x.p1 - M32 * beta.p1, x.p2 - M32 * beta.p2, x.p3 - M32 * beta.p3;
    hide W33, Widen;
    Sum33(a, b, c, d);
    assert a + b + c + d == Total(x) - M32 * Total(beta);
  }

  lemma Sum33(a: int, b: int, c: int, d: int)
    ensures W33(W33(a) + W33(b) + W33(c) + W33(d)) == W33(a + b + c + d)
  {
    hide W33;
    W33Add(W33(a) + W33(b) + W33(c), d);
    W33Add(W33(a) + W33(b), c);
    W33Add(W33(a), b);
    W33Add(W33(a) + W33(b) + c, d);
    W33Add(a, b);
    W33Add(W33(a) + W33(b) + W33(c), W33(d));
    W33Add(W33(a) + W33(b) + W33(c) + d, 0);
    Shift33(W33(a) + W33(b) + W33(c), W33(a) + W33(b) + c, d);
    Shift33(W33(a) + W33(b), a + b, c + d);
  }

  lemma Shift33(x: int, y: int, z: int)
    requires W33(x) == W33(y)
    ensures W33(x + z) == W33(y + z)
  {
    W33Add(x, z);
    W33Add(y, z);
  }

  /** The share callbacks of an addition and of a subtraction. */
  function Combine(r: int, a: int, subtract: bool): int {
    if subtract then W33(r + M33 - a) else W33(r + a)
  }

  function CombineAll(r: Four<int>, a: Four<int>, subtract: bool): Four<int> {
    Four(Combine(r.p0, a.p0, subtract), Combine(r.p1, a.p1, subtract),
         Combine(r.p2, a.p2, subtract), Combine(r.p3, a.p3, subtract))
  }

  lemma CombineSum(r: Four<int>, a: Four<int>, subtract: bool)
    ensures W33(Total(CombineAll(r, a, subtract))) == W33(if subtract then Total(r) - Total(a) else Total(r) + Total(a))
  {
    hide W33;
    if subtract {
      Sum33(r.p0 + M33 - a.p0, r.p1 + M33 - a.p1, r.p2 + M33 - a.p2, r.p3 + M33 - a.p3);
      W33Multiple(Total(r) - Total(a), 4);
    } else {
      Sum33(r.p0 + a.p0, r.p1 + a.p1, r.p2 + a.p2, r.p3 + a.p3);
    }
  }

  /** Bit 32 of the combined shares is the carry of the sum or the borrow of the difference. */
  lemma CombinedBit(r: Four<int>, a: Four<int>, subtract: bool, x: u32, y: u32)
    requires W33(Total(r)) == x && W33(Total(a)) == y
    ensures var z := W33(Total(CombineAll(r, a, subtract)));
            M32 <= z <==> if subtract then x < y else x + y >= M32
  {
    CombineSum(r, a, subtract);
    W33Add(Total(r), Total(a));
    W33Sub(Total(r), Total(a));
  }

  /** Value shares of one number per element, as the gate takes them. */
  function Ints(x: Four<u32>): Four<int> {
    Four(x.p0, x.p1, x.p2, x.p3)
  }

  /** One gate per element: the players' opened numbers and flags. */
  function Opened(L: nat, tr: Four<MsbTuple>, x: Four<int>, isRep: bool): Four<nat>
    requires 1 <= L
  {
    OpenedNonNegative(GateWord(x, tr, Pow2(L), isRep), Pow2(L));
    OpenMod(GateWord(x, tr, Pow2(L), isRep), Pow2(L))
  }

  lemma OpenedNonNegative(x: Four<int>, N: int)
    requires N > 0
    ensures var v := OpenMod(x, N); 0 <= v.p0 && 0 <= v.p1 && 0 <= v.p2 && 0 <= v.p3
  {
    OpenModTotal(x, N);
    CongMod(Total(x), N);
  }

  /** Keys dealt for the most significant bit are a gate for [0, 2^(L-1)). */
  ghost predicate MsbOk(prf: Prf, L: nat, tr: Four<MsbTuple>, r: nat) {
    1 <= L && GateOk(prf, L, 0, Pow2(L - 1), tr, r)
  }

  ghost predicate TupleDepth(L: nat, tr: Four<MsbTuple>) {
    KeysDepth(L, Keys(tr)) && KeysDepth(L, HelpOf(tr))
  }

  /** One gate on one element: opened number, then flags. */
  function MsbFlags(prf: Prf, L: nat, tr: Four<MsbTuple>, x: Four<int>, reduced: bool): Four<u32>
    requires TupleDepth(L, tr) && 1 <= L
  {
    var v := Opened(L, tr, x, false);
    if reduced then ReducedFlags(prf, L, Keys(tr), HelpOf(tr), v) else Flags(prf, L, Keys(tr), v)
  }

  ghost predicate FlagIs(prf: Prf, L: nat, tr: Four<MsbTuple>, x: Four<int>, reduced: bool, flags: Four<u32>) {
    1 <= L && TupleDepth(L, tr) && flags == MsbFlags(prf, L, tr, x, reduced)
  }

  ghost predicate Holds(flags: Four<u32>, e: u32, reduced: bool) {
    if reduced then Replicated(flags, e) else Additive(flags, e)
  }

  lemma Msb33(prf: Prf, tr: Four<MsbTuple>, r: nat, x: Four<int>, reduced: bool)
    requires MsbOk(prf, 33, tr, r)
    ensures TupleDepth(33, tr)
    ensures Holds(MsbFlags(prf, 33, tr, x, reduced), Ind(M32 <= W33(Total(x))), reduced)
  {
    Pow2Of33();
    hide Pow2, Flags, ReducedFlags, OpenMod, GateWord, GateOk;
    CongMod(Total(x), M33);
    GateCorrect(prf, 33, 0, Pow2(32), tr, r, x, false, W33(Total(x)));
  }

  /** Add or subtract with carry: the whole computation on one element. */
  function CarryFlags(prf: Prf, k0: Four<MsbTuple>, k1: Four<MsbTuple>, k2: Four<MsbTuple>,
                      r: Four<u32>, a: Four<u32>, subtract: bool, reduced: bool): Four<u32>
    requires TupleDepth(33, k0) && TupleDepth(33, k1) && TupleDepth(33, k2)
  {
    var betaR := MsbFlags(prf, 33, k0, Ints(r), false);
    var betaA := MsbFlags(prf, 33, k1, Ints(a), false);
    MsbFlags(prf, 33, k2, CombineAll(WidenAll(r, betaR), WidenAll(a, betaA), subtract), reduced)
  }

  /** The carry of x + y, or the borrow of x - y. */
  function Carry(x: u32, y: u32, subtract: bool): bit {
    Ind(if subtract then x < y else x + y >= M32)
  }

  /** In terms of the words. */
  lemma CarryMeans(x: u32, y: u32)
    ensures Carry(x, y, false) == if x + y >= 0x1_0000_0000 then 1 else 0
    ensures Carry(x, y, true) == if x < y then 1 else 0
  {
  }

  /** The flags are shares of the carry or borrow of the shared words. */
  lemma CarryCorrect(prf: Prf, k0: Four<MsbTuple>, k1: Four<MsbTuple>, k2: Four<MsbTuple>, r0: nat, r1: nat, r2: nat,
                     r: Four<u32>, a: Four<u32>, subtract: bool, reduced: bool, x: u32, y: u32)
    requires MsbOk(prf, 33, k0, r0) && MsbOk(prf, 33, k1, r1) && MsbOk(prf, 33, k2, r2)
    requires Additive(r, x) && Additive(a, y)
    ensures TupleDepth(33, k0) && TupleDepth(33, k1) && TupleDepth(33, k2)
    ensures Holds(CarryFlags(prf, k0, k1, k2, r, a, subtract, reduced), Carry(x, y, subtract), reduced)
  {
    hide MsbFlags, TupleDepth, MsbOk, W33, Additive, Replicated;
    Msb33(prf, k0, r0, Ints(r), false);
    Msb33(prf, k1, r1, Ints(a), false);
    var betaR := MsbFlags(prf, 33, k0, Ints(r), false);
    var betaA := MsbFlags(prf, 33, k1, Ints(a), false);
    WidenAllCorrect(r, betaR, x);
    WidenAllCorrect(a, betaA, y);
    hide WidenAll, CombineAll;
    Msb33(prf, k2, r2, CombineAll(WidenAll(r, betaR), WidenAll(a, betaA), subtract), reduced);
    CombinedBit(WidenAll(r, betaR), WidenAll(a, betaA), subtract, x, y);
  }

  class Compare {
    const prf: Prf
    /** The bit length the comparison keys were made for. */
    const bits: nat
    var mks: seq<Four<MsbTuple>>
    var mhelp: seq<Four<ServerKeyLt>>
    /** What the split rounds carry over: the opened words of each round. */
    var tmp0: seq<Four<int>>
    var tmp1: seq<Four<int>>
    ghost var masks: seq<nat>

    ghost predicate Valid()
      reads this
    {
      && 33 <= bits <= 63 && |masks| == |mks|
      && forall i :: 0 <= i < |mks| ==> MsbOk(prf, bits, mks[i], masks[i])
    }

    constructor (prf: Prf, msbLen: nat)
      requires 33 <= msbLen <= 63
      ensures Valid() && mks == [] && mhelp == [] && bits == msbLen && this.prf == prf
    {
      this.prf, bits := prf, msbLen;
      mks, mhelp, tmp0, tmp1, masks := [], [], [], [], [];
    }

    /** The extra keys stand beside the keys they repeat, or were not dealt at all. */
    ghost predicate Aligned(ifReduce: bool)
      reads this
    {
      if ifReduce then |mhelp| == |mks| && forall i :: 0 <= i < |mks| ==> mhelp[i] == HelpOf(mks[i])
      else mhelp == []
    }

    /** The helper deals keys and mask shares for len most significant bits; with ifReduce the
        extra keys too. */
    method MsbOff(len: nat, ifReduce: bool)
      requires Valid() && Aligned(ifReduce)
      modifies this`mks, this`mhelp, this`masks
      ensures Valid() && Aligned(ifReduce) && old(mks) <= mks && |mks| == old(|mks|) + len
    {
      hide MsbOk, HelpOf;
      for i := 0 to len
        invariant Valid() && Aligned(ifReduce) && old(mks) <= mks && |mks| == old(|mks|) + i
      {
        var tr, r := DrawMsb(prf, bits);
        mks, masks := mks + [tr], masks + [r];
        if ifReduce {
          mhelp := mhelp + [HelpOf(tr)];
        }
      }
    }

    /** First round: each element's masked words, under the keys from position bias on. */
    method Msb1(x: seq<Four<int>>, bias: nat) returns (tmp: seq<Four<int>>)
      requires Valid() && bias + |x| <= |mks|
      ensures |tmp| == |x|
      ensures forall i :: 0 <= i < |x| ==> tmp[i] == GateWord(x[i], mks[bias + i], Pow2(bits), false)
    {
      hide GateWord, MsbOk, Pow2;
      tmp := [];
      for i := 0 to |x|
        invariant |tmp| == i
        invariant forall j :: 0 <= j < i ==> tmp[j] == GateWord(x[j], mks[bias + j], Pow2(bits), false)
      {
        tmp := tmp + [GateWord(x[i], mks[bias + i], Pow2(bits), false)];
      }
    }

    /** Second round: the words are opened and every player evaluates its keys. */
    method Msb2(tmp: seq<Four<int>>, bias: nat, ifReduce: bool, ghost x: seq<Four<int>>) returns (flags: seq<Four<u32>>)
      requires Valid() && (ifReduce ==> Aligned(true)) && bias + |tmp| <= |mks| && |x| == |tmp|
      requires forall i :: 0 <= i < |x| ==> tmp[i] == GateWord(x[i], mks[bias + i], Pow2(bits), false)
      ensures |flags| == |x|
      ensures forall i :: 0 <= i < |x| ==>
                FlagIs(prf, bits, mks[bias + i], x[i], ifReduce, flags[i])
    {
      hide GateWord, Pow2, OpenMod, LtPathKeys, Flags, ReducedFlags, GateOk, HelpOf;
      flags := [];
      for i := 0 to |tmp|
        invariant |flags| == i
        invariant forall j :: 0 <= j < i ==>
                    FlagIs(prf, bits, mks[bias + j], x[j], ifReduce, flags[j])
      {
        assert MsbOk(prf, bits, mks[bias + i], masks[bias + i]);
        MsbDepth(prf, bits, mks[bias + i], masks[bias + i]);
        var v := OpenMod(tmp[i], Pow2(bits));
        OpenedNonNegative(tmp[i], Pow2(bits));
        var f := if ifReduce then ReducedFlags(prf, bits, Keys(mks[bias + i]), mhelp[bias + i], v)
                 else Flags(prf, bits, Keys(mks[bias + i]), v);
        flags := flags + [f];
      }
    }

    /** Both rounds at once; the keys that were used are dropped. */
    method Msb(x: seq<Four<int>>) returns (flags: seq<Four<u32>>)
      requires Valid() && Aligned(false) && |x| <= |mks|
      modifies this`mks, this`masks
      ensures Valid() && mks == old(mks)[|x|..] && |flags| == |x|
      ensures forall i :: 0 <= i < |x| ==>
                FlagIs(prf, bits, old(mks)[i], x[i], false, flags[i])
    {
      hide FlagIs, MsbOk, GateWord;
      var tmp := Msb1(x, 0);
      flags := Msb2(tmp, 0, false, x);
      mks, masks := mks[|x|..], masks[|x|..];
    }

    /** Carry or borrow of len pairs of words, with a third of the keys for each of the three gates. */
    method OverflowFlags(r: seq<Four<u32>>, a: seq<Four<u32>>, subtract: bool) returns (flags: seq<Four<u32>>)
      requires Valid() && Aligned(false) && bits == 33 && |r| == |a| && 3 * |r| <= |mks|
      modifies this`mks, this`masks
      ensures Valid() && mks == old(mks)[3 * |r|..] && |flags| == |r|
      ensures forall i :: 0 <= i < |r| ==>
                CarryIs(prf, old(mks)[i], old(mks)[|r| + i], old(mks)[2 * |r| + i], r[i], a[i], subtract, false, flags[i])
    {
      hide FlagIs, CarryIs, MsbOk, Widen;
      var len := |r|;
      var rInts := AllInts(r);
      var aInts := AllInts(a);
      var betar := Msb(rInts);
      var betaa := Msb(aInts);
      var aHat := CombineElements(r, a, betar, betaa, subtract);
      flags := Msb(aHat);
      forall i | 0 <= i < len
        ensures CarryIs(prf, old(mks)[i], old(mks)[len + i], old(mks)[2 * len + i], r[i], a[i], subtract, false, flags[i])
      {
        CarryFromFlags(prf, old(mks)[i], old(mks)[len + i], old(mks)[2 * len + i], r[i], a[i], subtract, false,
                       betar[i], betaa[i], flags[i]);
      }
    }

    /** Carries or borrows in replicated form. */
    method Overflow(r: seq<Four<u32>>, a: seq<Four<u32>>, subtract: bool, conv: Convert) returns (flags: array<Four<u32>>)
      requires Valid() && Aligned(false) && bits == 33 && |r| == |a| && 3 * |r| <= |mks|
      requires conv.Valid() && conv.zeroFlag && conv.ptr + |r| <= |conv.zeroShare|
      modifies this`mks, this`masks, conv`ptr
      ensures Valid() && conv.Valid() && fresh(flags) && flags.Length == |r|
      ensures mks == old(mks)[3 * |r|..] && conv.ptr == old(conv.ptr) + |r|
      ensures forall i, x, y :: 0 <= i < |r| && Additive(r[i], x) && Additive(a[i], y) ==>
                Replicated(flags[i], Carry(x, y, subtract))
    {
      hide MsbOk, CarryIs, Additive, Replicated, Carry;
      ghost var ks, ms := mks, masks;
      var list := OverflowFlags(r, a, subtract);
      flags := ToReplicated(list, conv);
      forall i, x, y | 0 <= i < |r| && Additive(r[i], x) && Additive(a[i], y)
        ensures Replicated(flags[i], Carry(x, y, subtract))
      {
        CarryHolds(prf, ks[i], ks[|r| + i], ks[2 * |r| + i], ms[i], ms[|r| + i], ms[2 * |r| + i], r[i], a[i],
                   subtract, false, x, y, list[i]);
      }
    }

    /** The split rounds give shares of the same carries or borrows. */
    method OverflowSplit(r: seq<Four<u32>>, a: seq<Four<u32>>, subtract: bool, ifReduce: bool, conv: Convert)
      returns (flags: array<Four<u32>>)
      requires Valid() && (ifReduce ==> Aligned(true)) && bits == 33 && |r| == |a| && 3 * |r| <= |mks|
      requires conv.Valid() && conv.zeroFlag && conv.ptr + |r| <= |conv.zeroShare|
      modifies this`tmp0, this`tmp1, conv`ptr
      ensures Valid() && conv.Valid() && fresh(flags) && flags.Length == |r|
      ensures conv.ptr == old(conv.ptr) + if ifReduce then 0 else |r|
      ensures forall i, x, y :: 0 <= i < |r| && Additive(r[i], x) && Additive(a[i], y) ==>
                Replicated(flags[i], Carry(x, y, subtract))
    {
      hide MsbOk, CarryIs, Additive, Replicated, Carry, GateWord, FlagIs, WidenAll, CombineAll;
      OverflowRound1(r, a);
      ghost var br, ba := OverflowRound2(r, a, subtract);
      var list := OverflowRound3(r, a, subtract, ifReduce, br, ba);
      if ifReduce {
        flags := new Four<u32>[|list|](i requires 0 <= i < |list| => list[i]);
      } else {
        flags := ToReplicated(list, conv);
      }
      forall i, x, y | 0 <= i < |r| && Additive(r[i], x) && Additive(a[i], y)
        ensures Replicated(flags[i], Carry(x, y, subtract))
      {
        CarryHolds(prf, mks[0 + i], mks[|r| + i], mks[2 * |r| + i], masks[0 + i], masks[|r| + i], masks[2 * |r| + i],
                   r[i], a[i], subtract, ifReduce, x, y, list[i]);
      }
    }

    /** The same in split rounds: keys are addressed by position and stay in place. */
    method OverflowRound1(r: seq<Four<u32>>, a: seq<Four<u32>>)
      requires Valid() && bits == 33 && |r| == |a| && 3 * |r| <= |mks|
      modifies this`tmp0, this`tmp1
      ensures Valid() && |tmp0| == |tmp1| == |r|
      ensures WordsMasked(tmp0, r, mks, 0, bits) && WordsMasked(tmp1, a, mks, |r|, bits)
    {
      hide GateWord, MsbOk, Pow2;
      var rInts := AllInts(r);
      var aInts := AllInts(a);
      tmp0 := Msb1(rInts, 0);
      tmp1 := Msb1(aInts, |r|);
    }

    method OverflowRound2(r: seq<Four<u32>>, a: seq<Four<u32>>, subtract: bool)
      returns (ghost betar: seq<Four<u32>>, ghost betaa: seq<Four<u32>>)
      requires Valid() && bits == 33 && |r| == |a| && 3 * |r| <= |mks| && |tmp0| == |tmp1| == |r|
      requires WordsMasked(tmp0, r, mks, 0, bits) && WordsMasked(tmp1, a, mks, |r|, bits)
      modifies this`tmp0, this`tmp1
      ensures Valid() && |tmp0| == |tmp1| == |betar| == |betaa| == |r|
      ensures FlagsAre(prf, bits, mks, 0, r, betar) && FlagsAre(prf, bits, mks, |r|, a, betaa)
      ensures Combined(tmp1, r, a, betar, betaa, subtract) && SumsMasked(tmp0, tmp1, mks, 2 * |r|, bits)
    {
      hide GateWord, MsbOk, Pow2, FlagIs, Widen;
      var rInts := AllInts(r);
      var aInts := AllInts(a);
      var br := Msb2(tmp0, 0, false, rInts);
      var ba := Msb2(tmp1, |r|, false, aInts);
      tmp1 := CombineElements(r, a, br, ba, subtract);
      tmp0 := Msb1(tmp1, 2 * |r|);
      betar, betaa := br, ba;
    }

    method OverflowRound3(r: seq<Four<u32>>, a: seq<Four<u32>>, subtract: bool, ifReduce: bool,
                          ghost betar: seq<Four<u32>>, ghost betaa: seq<Four<u32>>) returns (flags: seq<Four<u32>>)
      requires Valid() && (ifReduce ==> Aligned(true)) && bits == 33 && |r| == |a| && 3 * |r| <= |mks|
      requires |tmp0| == |tmp1| == |betar| == |betaa| == |r|
      requires FlagsAre(prf, bits, mks, 0, r, betar) && FlagsAre(prf, bits, mks, |r|, a, betaa)
      requires Combined(tmp1, r, a, betar, betaa, subtract) && SumsMasked(tmp0, tmp1, mks, 2 * |r|, bits)
      ensures |flags| == |r|
      ensures forall i :: 0 <= i < |r| ==>
                CarryIs(prf, mks[0 + i], mks[|r| + i], mks[2 * |r| + i], r[i], a[i], subtract, ifReduce, flags[i])
    {
      hide GateWord, MsbOk, Pow2, FlagIs, CarryIs, Widen, HelpOf;
      flags := Msb2(tmp0, 2 * |r|, ifReduce, tmp1);
      forall i | 0 <= i < |r|
        ensures CarryIs(prf, mks[0 + i], mks[|r| + i], mks[2 * |r| + i], r[i], a[i], subtract, ifReduce, flags[i])
      {
        CarryFromFlags(prf, mks[0 + i], mks[|r| + i], mks[2 * |r| + i], r[i], a[i], subtract, ifReduce,
                       betar[i], betaa[i], flags[i]);
      }
    }
  }

  /** Every element's masked word under its key. */
  ghost predicate WordsMasked(tmp: seq<Four<int>>, r: seq<Four<u32>>, ks: seq<Four<MsbTuple>>, off: nat, bits: nat) {
    |tmp| == |r| && off + |r| <= |ks| && forall i :: 0 <= i < |r| ==> tmp[i] == GateWord(Ints(r[i]), ks[off + i], Pow2(bits), false)
  }

  ghost predicate SumsMasked(tmp: seq<Four<int>>, sums: seq<Four<int>>, ks: seq<Four<MsbTuple>>, off: nat, bits: nat) {
    && |tmp| == |sums| && off + |sums| <= |ks|
    && forall i :: 0 <= i < |sums| ==> tmp[i] == GateWord(sums[i], ks[off + i], Pow2(bits), false)
  }

  ghost predicate FlagsAre(prf: Prf, bits: nat, ks: seq<Four<MsbTuple>>, off: nat, r: seq<Four<u32>>, flags: seq<Four<u32>>) {
    && |flags| == |r| && off + |r| <= |ks|
    && forall i :: 0 <= i < |r| ==> FlagIs(prf, bits, ks[off + i], Ints(r[i]), false, flags[i])
  }

  ghost predicate Combined(sums: seq<Four<int>>, r: seq<Four<u32>>, a: seq<Four<u32>>, br: seq<Four<u32>>, ba: seq<Four<u32>>,
                           subtract: bool) {
    && |sums| == |r| == |a| == |br| == |ba|
    && forall i :: 0 <= i < |r| ==> sums[i] == CombineAll(WidenAll(r[i], br[i]), WidenAll(a[i], ba[i]), subtract)
  }

  method ToReplicated(list: seq<Four<u32>>, conv: Convert) returns (flags: array<Four<u32>>)
    requires conv.Valid() && conv.zeroFlag && conv.ptr + |list| <= |conv.zeroShare|
    modifies conv`ptr
    ensures conv.Valid() && fresh(flags) && flags.Length == |list| && conv.ptr == old(conv.ptr) + |list|
    ensures forall i, v :: 0 <= i < |list| && Additive(list[i], v) ==> Replicated(flags[i], v)
  {
    hide Additive, Replicated;
    flags := new Four<u32>[|list|](i requires 0 <= i < |list| => list[i]);
    label before:
    assert forall i :: 0 <= i < |list| ==> flags[i] == list[i];
    conv.FourpcToReplicated(flags);
    forall i, v | 0 <= i < |list| && Additive(list[i], v)
      ensures Replicated(flags[i], v)
    {
      assert old@before(flags[i]) == list[i];
    }
  }

  lemma CarryHolds(prf: Prf, k0: Four<MsbTuple>, k1: Four<MsbTuple>, k2: Four<MsbTuple>, r0: nat, r1: nat, r2: nat,
                   r: Four<u32>, a: Four<u32>, subtract: bool, reduced: bool, x: u32, y: u32, flags: Four<u32>)
    requires MsbOk(prf, 33, k0, r0) && MsbOk(prf, 33, k1, r1) && MsbOk(prf, 33, k2, r2)
    requires Additive(r, x) && Additive(a, y) && CarryIs(prf, k0, k1, k2, r, a, subtract, reduced, flags)
    ensures Holds(flags, Carry(x, y, subtract), reduced)
  {
    hide MsbOk, Additive, Replicated, Carry, TupleDepth, CarryFlags;
    CarryCorrect(prf, k0, k1, k2, r0, r1, r2, r, a, subtract, reduced, x, y);
  }

  method AllInts(x: seq<Four<u32>>) returns (y: seq<Four<int>>)
    ensures |y| == |x| && forall i :: 0 <= i < |x| ==> y[i] == Ints(x[i])
  {
    y := seq(|x|, i requires 0 <= i < |x| => Ints(x[i]));
  }

  /** Every element's shares extended to 33 bits and added or subtracted. */
  method CombineElements(r: seq<Four<u32>>, a: seq<Four<u32>>, betar: seq<Four<u32>>, betaa: seq<Four<u32>>, subtract: bool)
    returns (sum: seq<Four<int>>)
    requires |r| == |a| == |betar| == |betaa|
    ensures |sum| == |r|
    ensures forall i :: 0 <= i < |r| ==> sum[i] == CombineAll(WidenAll(r[i], betar[i]), WidenAll(a[i], betaa[i]), subtract)
  {
    hide WidenAll, CombineAll;
    sum := [];
    for i := 0 to |r|
      invariant |sum| == i
      invariant forall j :: 0 <= j < i ==> sum[j] == CombineAll(WidenAll(r[j], betar[j]), WidenAll(a[j], betaa[j]), subtract)
    {
      sum := sum + [CombineAll(WidenAll(r[i], betar[i]), WidenAll(a[i], betaa[i]), subtract)];
    }
  }

  ghost predicate CarryIs(prf: Prf, k0: Four<MsbTuple>, k1: Four<MsbTuple>, k2: Four<MsbTuple>,
                          r: Four<u32>, a: Four<u32>, subtract: bool, reduced: bool, flags: Four<u32>) {
    && TupleDepth(33, k0) && TupleDepth(33, k1) && TupleDepth(33, k2)
    && flags == CarryFlags(prf, k0, k1, k2, r, a, subtract, reduced)
  }

  lemma CarryFromFlags(prf: Prf, k0: Four<MsbTuple>, k1: Four<MsbTuple>, k2: Four<MsbTuple>, r: Four<u32>, a: Four<u32>,
                       subtract: bool, reduced: bool, betaR: Four<u32>, betaA: Four<u32>, flags: Four<u32>)
    requires FlagIs(prf, 33, k0, Ints(r), false, betaR) && FlagIs(prf, 33, k1, Ints(a), false, betaA)
    requires FlagIs(prf, 33, k2, CombineAll(WidenAll(r, betaR), WidenAll(a, betaA), subtract), reduced, flags)
    ensures CarryIs(prf, k0, k1, k2, r, a, subtract, reduced, flags)
  {
    hide WidenAll, CombineAll, MsbFlags, TupleDepth;
  }

  lemma MsbDepth(prf: Prf, L: nat, tr: Four<MsbTuple>, r: nat)
    requires MsbOk(prf, L, tr, r)
    ensures TupleDepth(L, tr)
  {
    hide PathKeys, LtRootsOk, LtLevelAt;
  }

  /** Keys and mask shares of one most significant bit; the mask is a 31-bit random number. */
  method DrawMsb(prf: Prf, bits: nat) returns (tr: Four<MsbTuple>, ghost mask: nat)
    requires 33 <= bits <= 63
    ensures MsbOk(prf, bits, tr, mask)
  {
    hide Pow2, LtKeys, Low;
    MsbSizes(bits);
    var N := Pow2(bits);
    var r := RandomBelow(0x8000_0000);
    var k00, k01 := GenerateTreeLt(prf, bits, r, 1);
    var k10, k11 := GenerateTreeLt(prf, bits, r + Pow2(bits - 1), 1);
    var d1 := RandomBelow(0x8000_0000);
    var d2 := RandomBelow(0x8000_0000);
    var d3 := RandomBelow(0x8000_0000);
    var d0 := ShareOff(ShareOff(ShareOff(r, d1, N), d2, N), d3, N);
    ShareOffSums(r, d1, d2, d3, N);
    tr := Four(MsbTuple(k10, d0), MsbTuple(k00, d1), MsbTuple(k11, d2), MsbTuple(k01, d3));
    mask := r;
  }

  lemma MsbSizes(bits: nat)
    requires 33 <= bits <= 63
    ensures Pow2(bits) == 2 * Pow2(bits - 1) && M33 <= Pow2(bits) && 2 * Pow2(bits) <= M64
  {
    Pow2Of33();
    Pow2Of64();
    Pow2Step(bits - 1);
    Pow2Monotone(33, bits);
    Pow2Monotone(bits, 63);
    Pow2Step(63);
  }

  /** A share taken off modulo N. */
  function ShareOff(a: nat, b: nat, N: nat): (c: nat)
    requires b < N
    ensures c < N
  {
    CongMod(a + N - b, N);
    (a + N - b) % N
  }

  lemma ShareOffSums(r: nat, d1: nat, d2: nat, d3: nat, N: nat)
    requires d1 < N && d2 < N && d3 < N
    ensures Cong(ShareOff(ShareOff(ShareOff(r, d1, N), d2, N), d3, N) + d1 + d2 + d3, r, N)
  {
    var a := ShareOff(r, d1, N);
    var b := ShareOff(a, d2, N);
    var c := ShareOff(b, d3, N);
    ShareOffIs(r, d1, N);
    ShareOffIs(a, d2, N);
    ShareOffIs(b, d3, N);
    hide Cong, ShareOff;
    CongByMultiple(d3, d3, N, 0);
    CongByMultiple(d2 + d3, d2 + d3, N, 0);
    CongByMultiple(d1 + d2 + d3, d1 + d2 + d3, N, 0);
    CongAdd(c, b - d3, d1 + d2 + d3, d1 + d2 + d3, N);
    CongAdd(b, a - d2, d2 + d3 - d3 + d1, d2 + d1, N) by { CongByMultiple(d2 + d3 - d3 + d1, d2 + d1, N, 0); }
    CongAdd(a, r - d1, d1, d1, N) by { CongByMultiple(d1, d1, N, 0); }
    CongTrans(c + (d1 + d2 + d3), b + (d2 + d1), a + d1, N);
    CongTrans(c + (d1 + d2 + d3), a + d1, r, N);
  }

  lemma ShareOffIs(a: nat, b: nat, N: nat)
    requires b < N
    ensures Cong(ShareOff(a, b, N), a - b, N)
  {
    CongMod(a + N - b, N);
    CongByMultiple(a + N - b, a - b, N, 1);
    CongTrans(ShareOff(a, b, N), a + N - b, a - b, N);
  }
}
