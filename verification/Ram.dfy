/** A secret-shared array: players 0 and 1 hold one summand of every entry, players 2 and 3 the other. */
module Ram {
  import opened Bits
  import opened Words
  import opened Players
  import opened FssCommon
  import opened FssEq
  import opened FssEq32
  import opened SeedRing
  import opened RamOffset
  import opened Selection

  datatype ReadTriple = ReadTriple(key: ServerKeyEq, delta: u32)
  datatype WriteTuple = WriteTuple(keyV: ServerKeyEq, keyD: ServerKeyEq, delta0: u32, delta1: u32, v: u32)

  /** Two shares of a rotation modulo len. */
  ghost predicate DeltaShared(d0: u32, d1: u32, delta: nat, len: u32) {
    d0 < len && d1 < len && delta < len && (d0 + d1 == delta || d0 + d1 == delta + len)
  }

  ghost predicate ReadOk(prf: Prf, n: nat, len: u32, tr: Four<ReadTriple>, delta0: nat, delta1: nat) {
    && Eq32Keys(prf, n, delta0, 1, tr.p0.key, tr.p1.key)
    && Eq32Keys(prf, n, delta1, 1, tr.p2.key, tr.p3.key)
    && DeltaShared(tr.p0.delta, tr.p1.delta, delta0, len)
    && DeltaShared(tr.p2.delta, tr.p3.delta, delta1, len)
  }

  ghost predicate WriteOk(prf: Prf, n: nat, len: u32, tr: Four<WriteTuple>, r1: nat, r2: nat, v: u32) {
    && tr.p0 == tr.p1 && tr.p2 == tr.p3
    && Eq32Keys(prf, n, r1, v, tr.p0.keyV, tr.p2.keyV)
    && Eq32Keys(prf, n, r2, 1, tr.p0.keyD, tr.p2.keyD)
    && DeltaShared(tr.p0.delta0, tr.p2.delta0, r1, len)
    && DeltaShared(tr.p0.delta1, tr.p2.delta1, r2, len)
    && W32(tr.p0.v + tr.p2.v) == v
  }

  /** How the four players hold a value: the pairs (0,1) and (2,3) each, or all four, add up to it. */
  ghost predicate IndexShared(idx: Four<u32>, isRep: bool, x: nat, len: nat) {
    if isRep then StandsFor(idx.p0 + idx.p1, x, len) && StandsFor(idx.p2 + idx.p3, x, len)
    else StandsFor(idx.p0 + idx.p1 + idx.p2 + idx.p3, x, len)
  }

  /** The entrywise sum of two share arrays. */
  function AddSeqs(a: seq<u32>, b: seq<u32>): (s: seq<u32>)
    requires |a| == |b|
    ensures |s| == |a|
  {
    seq(|a|, i requires 0 <= i < |a| => Plus32(a[i], b[i]))
  }

  /** The words that the players reveal for a read: index shares, less the rotation shares. */
  function ReadWord(idx: Four<u32>, tr: Four<ReadTriple>, len: u32, isRep: bool): Four<u32> {
    var s0, s1 := Sub(idx.p0, tr.p0.delta, len), Sub(idx.p1, tr.p1.delta, len);
    var s2, s3 := Sub(idx.p2, tr.p2.delta, len), Sub(idx.p3, tr.p3.delta, len);
    if isRep then
      TwoReveal(Four(s0, s1, s2, s3))
    else
      var first, second := W32(s0 + s1 + idx.p2 + idx.p3), W32(idx.p0 + idx.p1 + s2 + s3);
      Four(first, first, second, second)
  }

  /** A player's list of key shares turned by the offset, and its sum against the player's data. */
  method LocalRead(prf: Prf, n: nat, key: ServerKeyEq, off: u32, len: u32, data: seq<u32>) returns (res: u32)
    requires 2 <= n <= 29 && |key.tree.cw| == n - 1
    requires 1 <= len <= Pow2(n) && off < len && |data| == len
    ensures res == DotMod(M32, data, Rotated(prf, n, key, off, len), len)
  {
    hide RingShare, Pow2, W32, Sub, AddProduct;
    var ansList := new u32[len](_ => 0);
    EvaluateEq32(prf, n, key, ansList, len);
    ghost var sel := Rotated(prf, n, key, off, len);
    res := 0;
    for i := 0 to len
      invariant forall x :: 0 <= x < len ==> ansList[x] == RingShare(prf, key, n, x)
      invariant res == DotMod(M32, data, sel, i)
    {
      SubIs(i, off, len);
      var tmp := ansList[Sub(i, off, len)];
      RotatedAt(prf, n, key, off, len, i);
      var tmpRes := Times32(data[i], tmp);
      ProductWord(res, data[i], tmp);
      res := if i == 0 then tmpRes else Plus32(res, tmpRes);
    }
  }

  lemma ProductWord(acc: u32, v: u32, s: u32)
    ensures Plus32(acc, Times32(v, s)) == AddProduct(M32, acc, v, s)
    ensures Times32(v, s) == AddProduct(M32, 0, v, s)
  {
    WrapSum(acc, v * s);
  }

  lemma WrapSum(x: int, y: int)
    ensures W32(x + W32(y)) == W32(x + y)
  {
  }

  /** The smallest exponent whose power of two reaches x. */
  method LogN(x: u32) returns (i: nat)
    ensures i <= 32 && x <= Pow2(i) && (i > 0 ==> Pow2(i - 1) < x)
  {
    Pow2Of32();
    hide Pow2;
    i := 0;
    while i < 32
      invariant i <= 32 && (i > 0 ==> Pow2(i - 1) < x)
      decreases 32 - i
    {
      if Pow2(i) >= x {
        return;
      }
      i := i + 1;
    }
  }

  /** 2 to 29 bits number the entries of an array of 3 to 2^29 entries. */
  lemma BitsOf(len: nat, n: nat)
    requires 3 <= len <= 0x2000_0000 && len <= Pow2(n) && (n > 0 ==> Pow2(n - 1) < len)
    ensures 2 <= n <= 29
  {
    assert Pow2(1) == 2;
    RingIsPow2();
    Pow2Step(28);
    hide Pow2;
    if n < 2 {
      Pow2Monotone(n, 1);
    } else if n > 29 {
      Pow2Monotone(29, n - 1);
    }
  }

  /** Two random shares of a rotation. */
  method ShareDelta(delta: nat, len: u32) returns (d0: u32, d1: u32)
    requires delta < len
    ensures DeltaShared(d0, d1, delta, len)
  {
    d0 := RandomBelow(len);
    d1 := if delta >= d0 then delta - d0 else delta + len - d0;
  }

  /** The offset of a read is the index less the keys' point, for both pairs of players and
      both ways of sharing the index. */
  method OpenRead(idx: Four<u32>, tr: Four<ReadTriple>, len: u32, isRep: bool, ghost x: nat, ghost delta0: nat, ghost delta1: nat)
    returns (off: Four<u32>)
    requires 1 <= len && 3 * len < HALF && x < len
    requires IndexShared(idx, isRep, x, len)
    requires DeltaShared(tr.p0.delta, tr.p1.delta, delta0, len) && DeltaShared(tr.p2.delta, tr.p3.delta, delta1, len)
    ensures off.p0 == off.p1 == Diff(x, delta0, len) && off.p2 == off.p3 == Diff(x, delta1, len)
  {
    hide Opens, Sub, StandsFor, W32;
    var word := ReadWord(idx, tr, len, isRep);
    ghost var e0, e1: int;
    if isRep {
      e0 := SharesOpen(idx.p0, idx.p1, 0, tr.p0.delta, tr.p1.delta, x, delta0, len);
      e1 := SharesOpen(idx.p2, idx.p3, 0, tr.p2.delta, tr.p3.delta, x, delta1, len);
      Commute(Sub(idx.p0, tr.p0.delta, len), Sub(idx.p1, tr.p1.delta, len));
      Commute(Sub(idx.p2, tr.p2.delta, len), Sub(idx.p3, tr.p3.delta, len));
    } else {
      e0 := SharesOpen(idx.p0, idx.p1, idx.p2 + idx.p3, tr.p0.delta, tr.p1.delta, x, delta0, len);
      e1 := SharesOpen(idx.p2, idx.p3, idx.p0 + idx.p1, tr.p2.delta, tr.p3.delta, x, delta1, len);
    }
    var r0 := Rewind(word.p0, len, e0, x, delta0);
    var r1 := Rewind(word.p1, len, e0, x, delta0);
    var r2 := Rewind(word.p2, len, e1, x, delta1);
    var r3 := Rewind(word.p3, len, e1, x, delta1);
    off := Four(r0, r1, r2, r3);
  }

  lemma Commute(a: int, b: int)
    ensures W32(a + b) == W32(b + a) == W32(a + b + 0)
  {
  }

  ghost predicate PairFresh(prf: Prf, n: nat, point: nat, k0: ServerKeyEq, k1: ServerKeyEq) {
    1 <= n && |k0.tree.cw| == |k1.tree.cw| == n - 1 && HeadsDiffer(prf, n, point, k0, k1)
  }

  /** The leaf words of a read's two key pairs differ on their paths. */
  ghost predicate ReadFresh(prf: Prf, n: nat, tr: Four<ReadTriple>, at: (nat, nat)) {
    PairFresh(prf, n, at.0, tr.p0.key, tr.p1.key) && PairFresh(prf, n, at.1, tr.p2.key, tr.p3.key)
  }

  /** The leaves' seeds differ in their top 32 bits. */
  lemma PairFreshIs(prf: Prf, n: nat, point: nat, k0: ServerKeyEq, k1: ServerKeyEq)
    requires 1 <= n && |k0.tree.cw| == |k1.tree.cw| == n - 1
    ensures PairFresh(prf, n, point, k0, k1)
        <==> NodeAt(prf, k0.tree, n - 1, Low(point, n)).s / 0x1_0000_0000_0000_0000_0000_0000
             != NodeAt(prf, k1.tree, n - 1, Low(point, n)).s / 0x1_0000_0000_0000_0000_0000_0000
  {
    HeadsDifferIs(prf, n, point, k0, k1);
    hide NodeAt, Low, HeadsDiffer;
  }

  lemma FreshIs(prf: Prf, n: nat, tr: Four<ReadTriple>, at: (nat, nat), tw: Four<WriteTuple>, points: (nat, nat, u32))
    ensures ReadFresh(prf, n, tr, at)
        <==> PairFresh(prf, n, at.0, tr.p0.key, tr.p1.key) && PairFresh(prf, n, at.1, tr.p2.key, tr.p3.key)
    ensures WriteFresh(prf, n, tw, points)
        <==> PairFresh(prf, n, points.0, tw.p0.keyV, tw.p2.keyV) && PairFresh(prf, n, points.1, tw.p0.keyD, tw.p2.keyD)
  {
    hide PairFresh;
  }

  /** Plain sums of shares are enough for an index. */
  lemma IndexSharedBy(idx: Four<u32>, x: nat, len: nat)
    ensures (idx.p0 + idx.p1 + idx.p2 + idx.p3) % 0x1_0000_0000 == x ==> IndexShared(idx, false, x, len) && DiagShared(idx, false, x, len)
    ensures (idx.p0 + idx.p1) % 0x1_0000_0000 == x && (idx.p2 + idx.p3) % 0x1_0000_0000 == x ==> IndexShared(idx, true, x, len)
    ensures (idx.p0 + idx.p2) % 0x1_0000_0000 == x && (idx.p1 + idx.p3) % 0x1_0000_0000 == x ==> DiagShared(idx, true, x, len)
  {
  }

  /** The leaf words of a write's two key pairs differ on their paths. */
  ghost predicate WriteFresh(prf: Prf, n: nat, tr: Four<WriteTuple>, at: (nat, nat, u32)) {
    PairFresh(prf, n, at.0, tr.p0.keyV, tr.p2.keyV) && PairFresh(prf, n, at.1, tr.p0.keyD, tr.p2.keyD)
  }

  class Ram {
    const prf: Prf
    const n: nat
    const len: u32
    const ptr: Four<array<u32>>
    var readTriples: seq<Four<ReadTriple>>
    var writeTriples: seq<Four<WriteTuple>>
    var readTimes: nat
    var writeTimes: nat
    ghost var readPoints: seq<(nat, nat)>
    ghost var writePoints: seq<(nat, nat, u32)>

    ghost predicate Arrays()
      reads ptr.p0, ptr.p1, ptr.p2, ptr.p3
    {
      && ptr.p0 != ptr.p1 && ptr.p0 != ptr.p2 && ptr.p0 != ptr.p3
      && ptr.p1 != ptr.p2 && ptr.p1 != ptr.p3 && ptr.p2 != ptr.p3
      && ptr.p0.Length == len && ptr.p1.Length == len && ptr.p2.Length == len && ptr.p3.Length == len
      && ptr.p0[..] == ptr.p1[..] && ptr.p2[..] == ptr.p3[..]
    }

    ghost predicate Prepared()
      reads this
    {
      && readTimes <= |readTriples| == |readPoints| && writeTimes <= |writeTriples| == |writePoints|
      && (forall r :: 0 <= r < |readTriples| ==> ReadOk(prf, n, len, readTriples[r], readPoints[r].0, readPoints[r].1))
      && (forall w :: 0 <= w < |writeTriples| ==>
            WriteOk(prf, n, len, writeTriples[w], writePoints[w].0, writePoints[w].1, writePoints[w].2))
    }

    ghost predicate Valid()
      reads this, ptr.p0, ptr.p1, ptr.p2, ptr.p3
    {
      2 <= n <= 29 && 1 <= len <= Pow2(n) && 3 * len < HALF && Arrays() && Prepared()
    }

    /** The plain array. */
    ghost function Contents(): (s: seq<u32>)
      requires Arrays()
      reads ptr.p0, ptr.p1, ptr.p2, ptr.p3
      ensures |s| == len
    {
      AddSeqs(ptr.p0[..], ptr.p2[..])
    }

    lemma ContentsAre(x: nat)
      requires Arrays() && x < len
      ensures ptr.p0.Length == ptr.p2.Length == len && Contents()[x] == ((ptr.p0[x] as int) + ptr.p2[x]) % 0x1_0000_0000
    {
    }

    constructor (prf: Prf, data: Four<array<u32>>, lens: u32)
      requires 3 <= lens <= 0x2000_0000
      requires data.p0 != data.p1 && data.p0 != data.p2 && data.p0 != data.p3
      requires data.p1 != data.p2 && data.p1 != data.p3 && data.p2 != data.p3
      requires data.p0.Length == lens && data.p1.Length == lens && data.p2.Length == lens && data.p3.Length == lens
      requires data.p0[..] == data.p1[..] && data.p2[..] == data.p3[..]
      ensures Valid() && ptr == data && len == lens && this.prf == prf
      ensures readTriples == [] && writeTriples == []
    {
      var bits := LogN(lens);
      BitsOf(lens, bits);
      this.prf, this.n, this.len, this.ptr := prf, bits, lens, data;
      readTriples, writeTriples, readTimes, writeTimes := [], [], 0, 0;
      readPoints, writePoints := [], [];
    }

    /** The helper draws two rotations and two key pairs for each read. */
    method PrepareRead(ntimes: nat)
      requires Valid()
      modifies this`readTriples, this`readPoints
      ensures Valid() && |readTriples| == old(|readTriples|) + ntimes && old(readTriples) <= readTriples && old(readPoints) <= readPoints
    {
      for i := 0 to ntimes
        invariant Valid() && |readTriples| == old(|readTriples|) + i && old(readTriples) <= readTriples && old(readPoints) <= readPoints
      {
        var tr, delta0, delta1 := DrawRead(prf, n, len);
        readTriples := readTriples + [tr];
        readPoints := readPoints + [(delta0, delta1)];
      }
    }

    method PrepareWrite(ntimes: nat)
      requires Valid()
      modifies this`writeTriples, this`writePoints
      ensures Valid() && |writeTriples| == old(|writeTriples|) + ntimes && old(writeTriples) <= writeTriples && old(writePoints) <= writePoints
    {
      for i := 0 to ntimes
        invariant Valid() && |writeTriples| == old(|writeTriples|) + i && old(writeTriples) <= writeTriples && old(writePoints) <= writePoints
      {
        var tr, r1, r2, v := DrawWrite(prf, n, len);
        writeTriples := writeTriples + [tr];
        writePoints := writePoints + [(r1, r2, v)];
      }
    }

    /** A read at a shared index: the four results, with alternating signs, add up to the entry. */
    method Read(idx: Four<u32>, isRep: bool, ghost x: nat) returns (res: Four<u32>)
      requires Valid() && readTimes < |readTriples| && ReadFresh(prf, n, readTriples[readTimes], readPoints[readTimes])
      requires x < len && IndexShared(idx, isRep, x, len)
      modifies this`readTimes
      ensures Valid() && readTimes == old(readTimes) + 1
      ensures Minus32(res.p0, res.p1) == ptr.p0[x] && Minus32(res.p2, res.p3) == ptr.p2[x]
      ensures W32(res.p0 - res.p1 + res.p2 - res.p3) == Contents()[x]
    {
      hide HeadsDiffer, Rotated, IndexShared, DotMod, Pow2, W32, LevelAt, RootsOk, Correction, NodeAt;
      var tr := readTriples[readTimes];
      ghost var at := readPoints[readTimes];
      assert ReadOk(prf, n, len, tr, at.0, at.1);
      var off := OpenRead(idx, tr, len, isRep, x, at.0, at.1);
      var r0 := LocalRead(prf, n, tr.p0.key, off.p0, len, ptr.p0[..]);
      var r1 := LocalRead(prf, n, tr.p1.key, off.p1, len, ptr.p1[..]);
      var r2 := LocalRead(prf, n, tr.p2.key, off.p2, len, ptr.p2[..]);
      var r3 := LocalRead(prf, n, tr.p3.key, off.p3, len, ptr.p3[..]);
      res := Four(r0, r1, r2, r3);
      PairSelects(prf, n, tr.p0.key, tr.p1.key, at.0, x, len, ptr.p0[..]);
      PairSelects(prf, n, tr.p2.key, tr.p3.key, at.1, x, len, ptr.p2[..]);
      PairsAdd(res, ptr.p0[x], ptr.p2[x]);
      readTimes := readTimes + 1;
    }

    /** The lists that a read would use: for each pair of players, shares of 1 at the index and
        of 0 elsewhere. */
    method RecoverList(idx: Four<u32>, isRep: bool, ghost x: nat) returns (lists: Four<seq<u32>>)
      requires Valid() && readTimes < |readTriples| && ReadFresh(prf, n, readTriples[readTimes], readPoints[readTimes])
      requires x < len && IndexShared(idx, isRep, x, len)
      modifies this`readTimes
      ensures Valid() && readTimes == old(readTimes) + 1
      ensures |lists.p0| == |lists.p2| == len
      ensures Selects(lists.p0, lists.p1, x, 1) && Selects(lists.p2, lists.p3, x, 1)
    {
      hide HeadsDiffer, Rotated, IndexShared, Pow2, W32, LevelAt, RootsOk, Correction, NodeAt, Selects;
      var tr := readTriples[readTimes];
      ghost var at := readPoints[readTimes];
      assert ReadOk(prf, n, len, tr, at.0, at.1);
      lists := RecoverLists(prf, n, len, tr, idx, isRep, x, at);
      readTimes := readTimes + 1;
    }

    /** A write at a shared index adds target less org to that entry and touches no other; org is
        replicated, target replicated or, with addTarget, shared among all four players. */
    method Write(idx: Four<u32>, target: Four<u32>, org: Four<u32>, isRep: bool, addTarget: bool,
                 ghost x: nat, ghost t: u32, ghost o: u32)
      requires Valid() && writeTimes < |writeTriples| && WriteFresh(prf, n, writeTriples[writeTimes], writePoints[writeTimes])
      requires x < len && DiagShared(idx, isRep, x, len)
      requires Replicated(org, o) && TargetShared(target, addTarget, t)
      modifies this`writeTimes, ptr.p0, ptr.p1, ptr.p2, ptr.p3
      ensures Valid() && writeTimes == old(writeTimes) + 1
      ensures Contents() == old(Contents())[x := W32(old(Contents())[x] + t - o)]
      ensures o == old(Contents())[x] ==> Contents() == old(Contents())[x := t]
    {
      hide HeadsDiffer, Rotated, DiagShared, Pow2, W32, LevelAt, RootsOk, Correction, NodeAt, Additive;
      var tr := writeTriples[writeTimes];
      ghost var at := writePoints[writeTimes];
      assert WriteOk(prf, n, len, tr, at.0, at.1, at.2);
      var dv := DeltaV(target, org, Four(tr.p0.v, tr.p1.v, tr.p2.v, tr.p3.v), addTarget);
      DeltaVOk(target, org, Four(tr.p0.v, tr.p1.v, tr.p2.v, tr.p3.v), addTarget, t, o, at.2);
      var off0 := OpenWrite(idx, Four(tr.p0.delta0, tr.p1.delta0, tr.p2.delta0, tr.p3.delta0), len, isRep, x, at.0);
      var off1 := OpenWrite(idx, Four(tr.p0.delta1, tr.p1.delta1, tr.p2.delta1, tr.p3.delta1), len, isRep, x, at.1);
      ghost var a, b := ptr.p0[..], ptr.p2[..];
      LocalWrite(prf, n, ptr.p0, tr.p0, off0.p0, off1.p0, len, dv.p0, true);
      LocalWrite(prf, n, ptr.p1, tr.p1, off0.p1, off1.p1, len, dv.p1, true);
      LocalWrite(prf, n, ptr.p2, tr.p2, off0.p2, off1.p2, len, dv.p2, false);
      LocalWrite(prf, n, ptr.p3, tr.p3, off0.p3, off1.p3, len, dv.p3, false);
      WriteAdds(prf, n, len, tr, at, a, b, off0.p0, off1.p0, dv.p0, x, t, o);
      writeTimes := writeTimes + 1;
    }
  }

  /** The two sides' updates of a write together. */
  lemma WriteAdds(prf: Prf, n: nat, len: u32, tr: Four<WriteTuple>, at: (nat, nat, u32), a: seq<u32>, b: seq<u32>,
                  off0: u32, off1: u32, dv: u32, x: nat, t: u32, o: u32)
    requires WriteOk(prf, n, len, tr, at.0, at.1, at.2) && WriteFresh(prf, n, tr, at)
    requires 2 <= n <= 29 && x < len <= Pow2(n) && |a| == |b| == len
    requires off0 == Diff(x, at.0, len) && off1 == Diff(x, at.1, len) && off0 < len && off1 < len && dv == W32(t - o - at.2)
    ensures |tr.p0.keyV.tree.cw| == |tr.p2.keyV.tree.cw| == |tr.p0.keyD.tree.cw| == |tr.p2.keyD.tree.cw| == n - 1
    ensures var now := AddSeqs(Updated(true, a, Rotated(prf, n, tr.p0.keyV, off0, len), Rotated(prf, n, tr.p0.keyD, off1, len), dv),
                               Updated(false, b, Rotated(prf, n, tr.p2.keyV, off0, len), Rotated(prf, n, tr.p2.keyD, off1, len), dv));
            && now == AddSeqs(a, b)[x := W32(AddSeqs(a, b)[x] + t - o)]
            && (o == AddSeqs(a, b)[x] ==> now == AddSeqs(a, b)[x := t])
  {
    hide HeadsDiffer, Rotated, Updated, Selects, AddSeqs, Pow2, W32, LevelAt, RootsOk, Correction, NodeAt;
    RotatedSelects(prf, n, tr.p0.keyV, tr.p2.keyV, at.0, at.2, x, len);
    RotatedSelects(prf, n, tr.p0.keyD, tr.p2.keyD, at.1, 1, x, len);
    UpdatedAdds(a, b, Rotated(prf, n, tr.p0.keyV, off0, len), Rotated(prf, n, tr.p2.keyV, off0, len),
                Rotated(prf, n, tr.p0.keyD, off1, len), Rotated(prf, n, tr.p2.keyD, off1, len), dv, at.2, x, t, o);
    ReplacesEntry(AddSeqs(a, b)[x], t, o);
  }

  /** An access with the players' shares: fetch entry x; fetch it and put t in its place; or add t less o to
      it. Each index and each new value comes in either of its forms. */
  datatype Op =
    | Fetch(x: nat, idx: Four<u32>, isRep: bool)
    | Put(x: nat, idx: Four<u32>, isRep: bool, at: Four<u32>, atRep: bool, t: u32, target: Four<u32>, addTarget: bool)
    | Adjust(x: nat, at: Four<u32>, atRep: bool, t: u32, target: Four<u32>, addTarget: bool, o: u32, org: Four<u32>)

  /** The shares are those of the access. */
  ghost predicate OpShared(op: Op, len: nat) {
    && op.x < len
    && (!op.Adjust? ==> IndexShared(op.idx, op.isRep, op.x, len))
    && (!op.Fetch? ==> DiagShared(op.at, op.atRep, op.x, len) && TargetShared(op.target, op.addTarget, op.t))
    && (op.Adjust? ==> Replicated(op.org, op.o))
  }

  ghost predicate TargetShared(target: Four<u32>, addTarget: bool, t: u32) {
    if addTarget then Additive(target, t) else Replicated(target, t)
  }

  /** What the access does to a plain array. */
  function Apply(mem: seq<u32>, op: Op): seq<u32>
    requires op.x < |mem|
  {
    match op
    case Fetch(_, _, _) => mem
    case Put(x, _, _, _, _, t, _, _) => mem[x := t]
    case Adjust(x, _, _, t, _, _, o, _) => mem[x := W32(mem[x] + t - o)]
  }

  lemma ApplyIs(mem: seq<u32>, op: Op)
    requires op.x < |mem|
    ensures op.Fetch? ==> Apply(mem, op) == mem
    ensures op.Put? ==> Apply(mem, op) == mem[op.x := op.t]
    ensures op.Adjust? ==> Apply(mem, op) == mem[op.x := ((mem[op.x] as int) + op.t - op.o) % 0x1_0000_0000]
  {
  }

  ghost predicate AllShared(ops: seq<Op>, len: nat) {
    forall i :: 0 <= i < |ops| ==> OpShared(ops[i], len)
  }

  /** The plain array after the first k accesses. */
  ghost function After(mem: seq<u32>, ops: seq<Op>, k: nat): (r: seq<u32>)
    requires k <= |ops| && AllShared(ops, |mem|)
    ensures |r| == |mem|
  {
    if k == 0 then mem else assert OpShared(ops[k - 1], |mem|); Apply(After(mem, ops, k - 1), ops[k - 1])
  }

  lemma AfterIs(mem: seq<u32>, ops: seq<Op>, k: nat)
    requires k < |ops| && AllShared(ops, |mem|)
    ensures After(mem, ops, 0) == mem && ops[k].x < |mem|
    ensures After(mem, ops, k + 1) == Apply(After(mem, ops, k), ops[k])
  {
    assert OpShared(ops[k], |mem|);
  }

  /** One access; a put first fetches the entry, whose shares, brought to replicated form, say what is to
      be replaced. */
  method Access(ram: Ram, op: Op) returns (out: u32)
    requires ram.Valid() && OpShared(op, ram.len)
    requires ram.readTimes < |ram.readTriples| && ram.writeTimes < |ram.writeTriples|
    requires ReadFresh(ram.prf, ram.n, ram.readTriples[ram.readTimes], ram.readPoints[ram.readTimes])
    requires WriteFresh(ram.prf, ram.n, ram.writeTriples[ram.writeTimes], ram.writePoints[ram.writeTimes])
    modifies ram`readTimes, ram`writeTimes, ram.ptr.p0, ram.ptr.p1, ram.ptr.p2, ram.ptr.p3
    ensures ram.Valid()
    ensures ram.readTimes == old(ram.readTimes) + if op.Adjust? then 0 else 1
    ensures ram.writeTimes == old(ram.writeTimes) + if op.Fetch? then 0 else 1
    ensures !op.Adjust? ==> out == old(ram.Contents())[op.x]
    ensures ram.Contents() == Apply(old(ram.Contents()), op)
    ensures op.Fetch? ==> ram.Contents() == old(ram.Contents())
    ensures op.Put? ==> ram.Contents() == old(ram.Contents())[op.x := op.t]
    ensures op.Adjust? ==> ram.Contents() == old(ram.Contents())[op.x := ((old(ram.Contents())[op.x] as int) + op.t - op.o) % 0x1_0000_0000]
  {
    hide ReadFresh, WriteFresh, ReadOk, WriteOk, Additive, IndexShared, DiagShared, W32, AddSeqs, Ram.Arrays, Ram.Prepared, Pow2;
    ApplyIs(ram.Contents(), op);
    out := 0;
    match op
    case Fetch(x, idx, isRep) =>
      var res := ram.Read(idx, isRep, x);
      out := W32((res.p0 as int) - res.p1 + res.p2 - res.p3);
    case Put(x, idx, isRep, at, atRep, t, target, addTarget) =>
      var res := ram.Read(idx, isRep, x);
      out := W32((res.p0 as int) - res.p1 + res.p2 - res.p3);
      var c0, c1 := Minus32(res.p0, res.p1), Minus32(res.p2, res.p3);
      PairsAdd(res, c0, c1);
      ram.Write(at, target, Four(c0, c0, c1, c1), atRep, addTarget, x, t, out);
    case Adjust(x, at, atRep, t, target, addTarget, o, org) =>
      ram.Write(at, target, org, atRep, addTarget, x, t, o);
  }

  /** Every run of accesses, whatever forms their indices and values come in, returns what the plain array
      returns and leaves the shares of what the plain array becomes. */
  method Run(ram: Ram, ops: seq<Op>) returns (outs: seq<u32>)
    requires ram.Valid() && AllShared(ops, ram.len)
    requires ram.readTimes + |ops| <= |ram.readTriples| && ram.writeTimes + |ops| <= |ram.writeTriples|
    requires forall r :: ram.readTimes <= r < |ram.readTriples| ==> ReadFresh(ram.prf, ram.n, ram.readTriples[r], ram.readPoints[r])
    requires forall w :: ram.writeTimes <= w < |ram.writeTriples| ==> WriteFresh(ram.prf, ram.n, ram.writeTriples[w], ram.writePoints[w])
    modifies ram`readTimes, ram`writeTimes, ram.ptr.p0, ram.ptr.p1, ram.ptr.p2, ram.ptr.p3
    ensures ram.Valid()
    ensures |outs| == |ops|
    ensures forall i :: 0 <= i < |ops| && !ops[i].Adjust? ==> outs[i] == After(old(ram.Contents()), ops, i)[ops[i].x]
    ensures ram.Contents() == After(old(ram.Contents()), ops, |ops|)
  {
    hide ReadFresh, WriteFresh, AddSeqs, Ram.Arrays, Ram.Prepared, Pow2, Apply, IndexShared, DiagShared, TargetShared;
    outs := [];
    ghost var mem := ram.Contents();
    for i := 0 to |ops|
      invariant ram.Valid() && |outs| == i
      invariant old(ram.readTimes) <= ram.readTimes <= old(ram.readTimes) + i
      invariant old(ram.writeTimes) <= ram.writeTimes <= old(ram.writeTimes) + i
      invariant ram.Contents() == After(mem, ops, i)
      invariant forall j :: 0 <= j < i && !ops[j].Adjust? ==> outs[j] == After(mem, ops, j)[ops[j].x]
    {
      assert OpShared(ops[i], ram.len);
      var out := Access(ram, ops[i]);
      outs := outs + [out];
    }
  }

  /** Indices as a write takes them: the pairs (0,2) and (1,3) each, or all four, add up to it. */
  ghost predicate DiagShared(idx: Four<u32>, isRep: bool, x: nat, len: nat) {
    if isRep then StandsFor(idx.p0 + idx.p2, x, len) && StandsFor(idx.p1 + idx.p3, x, len)
    else StandsFor(idx.p0 + idx.p1 + idx.p2 + idx.p3, x, len)
  }

  /** The words that the players reveal for one rotation of a write. */
  function WriteWord(idx: Four<u32>, d: Four<u32>, len: u32, isRep: bool): Four<u32> {
    var s0, s1, s2, s3 := Sub(idx.p0, d.p0, len), Sub(idx.p1, d.p1, len), Sub(idx.p2, d.p2, len), Sub(idx.p3, d.p3, len);
    if isRep then
      DiagReveal(Four(s0, s1, s2, s3))
    else
      var even, odd := W32(s0 + idx.p1 + s2 + idx.p3), W32(idx.p0 + s1 + idx.p2 + s3);
      Four(even, odd, even, odd)
  }

  method OpenWrite(idx: Four<u32>, d: Four<u32>, len: u32, isRep: bool, ghost x: nat, ghost r: nat) returns (off: Four<u32>)
    requires 1 <= len && 3 * len < HALF && x < len
    requires DiagShared(idx, isRep, x, len)
    requires d.p0 == d.p1 && d.p2 == d.p3 && DeltaShared(d.p0, d.p2, r, len)
    ensures off.p0 == off.p1 == off.p2 == off.p3 == Diff(x, r, len)
  {
    hide Opens, Sub, StandsFor, W32;
    var word := WriteWord(idx, d, len, isRep);
    ghost var e0, e1: int;
    if isRep {
      e0 := SharesOpen(idx.p0, idx.p2, 0, d.p0, d.p2, x, r, len);
      e1 := SharesOpen(idx.p1, idx.p3, 0, d.p1, d.p3, x, r, len);
      Commute(Sub(idx.p0, d.p0, len), Sub(idx.p2, d.p2, len));
      Commute(Sub(idx.p1, d.p1, len), Sub(idx.p3, d.p3, len));
    } else {
      e0 := SharesOpen(idx.p0, idx.p2, idx.p1 + idx.p3, d.p0, d.p2, x, r, len);
      e1 := SharesOpen(idx.p1, idx.p3, idx.p0 + idx.p2, d.p1, d.p3, x, r, len);
    }
    var r0 := Rewind(word.p0, len, e0, x, r);
    var r1 := Rewind(word.p1, len, e1, x, r);
    var r2 := Rewind(word.p2, len, e0, x, r);
    var r3 := Rewind(word.p3, len, e1, x, r);
    off := Four(r0, r1, r2, r3);
  }

  /** The opened difference: target less org less the random value; with addTarget the targets of
      the two players off the diagonal come in over two more reveals. */
  function DeltaV(target: Four<u32>, org: Four<u32>, v: Four<u32>, addTarget: bool): Four<u32> {
    var plus := Four(W32(target.p0 - org.p0 - v.p0), W32(target.p1 - org.p1 - v.p1),
                     W32(target.p2 - org.p2 - v.p2), W32(target.p3 - org.p3 - v.p3));
    var diag := DiagReveal(plus);
    if addTarget then
      LattReveal(Four(Plus32(diag.p0, target.p1), Plus32(diag.p1, target.p0),
                      Plus32(diag.p2, target.p3), Plus32(diag.p3, target.p2)), target)
    else
      diag
  }

  lemma DeltaVOk(target: Four<u32>, org: Four<u32>, v: Four<u32>, addTarget: bool, t: u32, o: u32, w: u32)
    requires Replicated(org, o) && Replicated(v, w) && TargetShared(target, addTarget, t)
    ensures var dv := DeltaV(target, org, v, addTarget);
            dv.p0 == dv.p1 == dv.p2 == dv.p3 == W32(t - o - w)
  {
    hide W32;
    if addTarget {
      assert target.p0 + target.p2 + target.p1 + target.p3 == target.p0 + target.p1 + target.p2 + target.p3;
      assert target.p1 + target.p3 + target.p0 + target.p2 == target.p0 + target.p1 + target.p2 + target.p3;
      DeltaVSum(target.p0, target.p2, target.p1, target.p3, org, v, t, o, w);
      DeltaVSum(target.p1, target.p3, target.p0, target.p2, org, v, t, o, w);
    } else {
      DeltaVPair(target.p0, target.p2, org, v, t, o, w);
    }
  }

  method DrawRead(prf: Prf, n: nat, len: u32) returns (tr: Four<ReadTriple>, ghost delta0: nat, ghost delta1: nat)
    requires 1 <= n <= 64 && 1 <= len <= Pow2(n)
    ensures ReadOk(prf, n, len, tr, delta0, delta1)
  {
    hide Eq32Keys, HeadsDiffer, Eq32Share;
    var d0 := RandomBelow(len);
    var d1 := RandomBelow(len);
    var k0, k1 := GenerateTreeEq32(prf, n, d0, 1);
    var k2, k3 := GenerateTreeEq32(prf, n, d1, 1);
    var s0, s1 := ShareDelta(d0, len);
    var s2, s3 := ShareDelta(d1, len);
    tr := Four(ReadTriple(k0, s0), ReadTriple(k1, s1), ReadTriple(k2, s2), ReadTriple(k3, s3));
    delta0, delta1 := d0, d1;
  }

  method DrawWrite(prf: Prf, n: nat, len: u32) returns (tr: Four<WriteTuple>, ghost at1: nat, ghost at2: nat, ghost w: u32)
    requires 1 <= n <= 64 && 1 <= len <= Pow2(n)
    ensures WriteOk(prf, n, len, tr, at1, at2, w)
  {
    hide Eq32Keys, HeadsDiffer, Eq32Share, Pow2;
    var r1 := RandomBelow(len);
    var r2 := RandomBelow(len);
    var v := RandomBelow(0x100);
    var k0, k1 := GenerateTreeEq32(prf, n, r1, v);
    var k2, k3 := GenerateTreeEq32(prf, n, r2, 1);
    var s0, s1 := ShareDelta(r1, len);
    var s2, s3 := ShareDelta(r2, len);
    var v0 := Random32();
    var v1 := Minus32(v, v0);
    WAdd(v0, (v as int) - v0);
    var even, odd := WriteTuple(k0, k2, s0, s2, v0), WriteTuple(k1, k3, s1, s3, v1);
    tr := Four(even, even, odd, odd);
    at1, at2, w := r1, r2, v;
  }

  /** The two sums of one pair of players differ by the entry at the index. */
  lemma PairSelects(prf: Prf, n: nat, k0: ServerKeyEq, k1: ServerKeyEq, point: nat, x: nat, len: u32, data: seq<u32>)
    requires Eq32Keys(prf, n, point, 1, k0, k1) && HeadsDiffer(prf, n, point, k0, k1)
    requires x < len && point < len <= Pow2(n) && |data| == len && 2 <= n <= 29
    ensures var off := Diff(x, point, len);
            Minus32(DotMod(M32, data, Rotated(prf, n, k0, off, len), len), DotMod(M32, data, Rotated(prf, n, k1, off, len), len))
            == data[x]
  {
    hide Rotated, Selects, HeadsDiffer, DotMod, Pow2;
    var off := Diff(x, point, len);
    var sel0, sel1 := Rotated(prf, n, k0, off, len), Rotated(prf, n, k1, off, len);
    RotatedSelects(prf, n, k0, k1, point, 1, x, len);
    DotSelects(M32, 1, data, sel0, sel1, x, len);
    hide Eq32Keys;
    assert W32(data[x]) == data[x];
  }

  /** One player's part of a write, in place. */
  method LocalWrite(prf: Prf, n: nat, data: array<u32>, tr: WriteTuple, off0: u32, off1: u32, len: u32, deltaV: u32, plus: bool)
    requires 2 <= n <= 29 && |tr.keyV.tree.cw| == n - 1 && |tr.keyD.tree.cw| == n - 1
    requires 1 <= len <= Pow2(n) && off0 < len && off1 < len && data.Length == len
    modifies data
    ensures data[..] == Updated(plus, old(data[..]), Rotated(prf, n, tr.keyV, off0, len), Rotated(prf, n, tr.keyD, off1, len), deltaV)
  {
    hide RingShare, Pow2, W32, Sub, Step;
    var firstList := new u32[len](_ => 0);
    EvaluateEq32(prf, n, tr.keyV, firstList, len);
    var secondList := new u32[len](_ => 0);
    EvaluateEq32(prf, n, tr.keyD, secondList, len);
    ghost var sel0, sel1 := Rotated(prf, n, tr.keyV, off0, len), Rotated(prf, n, tr.keyD, off1, len);
    ghost var orig := data[..];
    for i := 0 to len
      invariant forall x :: 0 <= x < len ==> firstList[x] == RingShare(prf, tr.keyV, n, x)
      invariant forall x :: 0 <= x < len ==> secondList[x] == RingShare(prf, tr.keyD, n, x)
      invariant forall x :: 0 <= x < i ==> data[x] == Step(plus, orig[x], sel0[x], sel1[x], deltaV)
      invariant forall x :: i <= x < len ==> data[x] == orig[x]
    {
      SubIs(i, off0, len);
      SubIs(i, off1, len);
      RotatedAt(prf, n, tr.keyV, off0, len, i);
      RotatedAt(prf, n, tr.keyD, off1, len, i);
      var tmp := firstList[Sub(i, off0, len)];
      var tmp' := secondList[Sub(i, off1, len)];
      data[i] := Step(plus, data[i], tmp, tmp', deltaV);
    }
    assert data[..] == Updated(plus, orig, sel0, sel1, deltaV);
  }

  /** The two updates of one entry: players 0 and 1 add, players 2 and 3 subtract. */
  function Step(plus: bool, d: u32, s: u32, e: u32, deltaV: u32): u32 {
    if plus then Plus32(Plus32(d, s), Times32(deltaV, e)) else Minus32(Minus32(d, s), Times32(deltaV, e))
  }

  function Updated(plus: bool, data: seq<u32>, sel0: seq<u32>, sel1: seq<u32>, deltaV: u32): seq<u32>
    requires |data| == |sel0| == |sel1|
  {
    seq(|data|, i requires 0 <= i < |data| => Step(plus, data[i], sel0[i], sel1[i], deltaV))
  }

  /** The two sides of a write add up to the old array with one entry changed. */
  lemma UpdatedAdds(a: seq<u32>, b: seq<u32>, v0: seq<u32>, v1: seq<u32>, e0: seq<u32>, e1: seq<u32>,
                    dv: u32, v: u32, x: nat, t: u32, o: u32)
    requires |a| == |b| == |v0| == |e0| && x < |a|
    requires Selects(v0, v1, x, v) && Selects(e0, e1, x, 1) && dv == W32(t - o - v)
    ensures AddSeqs(Updated(true, a, v0, e0, dv), Updated(false, b, v1, e1, dv))
         == AddSeqs(a, b)[x := W32(AddSeqs(a, b)[x] + t - o)]
  {
    hide W32, Step;
    forall i | 0 <= i < |a|
      ensures Plus32(Step(true, a[i], v0[i], e0[i], dv), Step(false, b[i], v1[i], e1[i], dv))
           == if i == x then W32(Plus32(a[i], b[i]) + t - o) else Plus32(a[i], b[i])
    {
      assert Minus32(v0[i], v1[i]) == if i == x then v else 0;
      assert Minus32(e0[i], e1[i]) == if i == x then 1 else 0;
      StepAdds(a[i], b[i], v0[i], v1[i], e0[i], e1[i], dv, if i == x then v else 0, if i == x then 1 else 0);
      EntryGains(Plus32(a[i], b[i]), v, t, o);
    }
  }

  lemma StepAdds(a: u32, b: u32, v0: u32, v1: u32, e0: u32, e1: u32, dv: u32, v: u32, hit: bit)
    requires Minus32(v0, v1) == v && Minus32(e0, e1) == hit
    ensures Plus32(Step(true, a, v0, e0, dv), Step(false, b, v1, e1, dv))
         == W32(Plus32(a, b) + v + (if hit == 1 then dv else 0))
  {
    var k := (e0 - e1) / M32;
    assert e0 - e1 == hit + M32 * k;
    ScaleDifference(dv, e0, e1, hit, k);
    hide W32;
    StepSum(a, b, v0, v1, dv * e0, dv * e1, v, if hit == 1 then dv else 0, dv * k);
  }

  lemma ScaleDifference(dv: int, e0: int, e1: int, hit: bit, k: int)
    requires e0 - e1 == hit + M32 * k
    ensures dv * e0 - dv * e1 == (if hit == 1 then dv else 0) + M32 * (dv * k)
  {
    assert dv * e0 - dv * e1 == dv * (e0 - e1) == dv * hit + M32 * (dv * k);
  }

  lemma StepSum(a: u32, b: u32, v0: u32, v1: u32, p: int, q: int, v: u32, g: u32, k: int)
    requires W32(v0 - v1) == v && p - q == g + M32 * k
    ensures W32(W32(W32(a + v0) + W32(p)) + W32(W32(b - v1) - W32(q))) == W32(W32(a + b) + v + g)
  {
    hide W32;
    WAdd(a + v0, p);
    WSub(b - v1, q);
    WAdd(a + v0 + p, b - v1 - q);
    WMultiple(a + b + (v0 - v1) + g, k);
    WAdd(a + b + g, v0 - v1);
    WAdd(a + b, v + g);
  }

  lemma EntryGains(c: u32, v: u32, t: u32, o: u32)
    ensures W32(c + v + W32(t - o - v)) == W32(c + t - o)
    ensures W32(c + 0 + 0) == c
  {
  }

  lemma ReplacesEntry(c: u32, t: u32, o: u32)
    ensures o == c ==> W32(c + t - o) == t
  {
  }

  lemma DeltaVPair(a: u32, b: u32, org: Four<u32>, v: Four<u32>, t: u32, o: u32, w: u32)
    requires W32(a + b) == t && W32(org.p0 + org.p2) == o && W32(v.p0 + v.p2) == w
    ensures W32(W32(a - org.p0 - v.p0) + W32(b - org.p2 - v.p2)) == W32(t - o - w)
    ensures W32(W32(b - org.p2 - v.p2) + W32(a - org.p0 - v.p0)) == W32(t - o - w)
  {
    hide W32;
    WAdd(a - org.p0 - v.p0, b - org.p2 - v.p2);
    WSub(a + b, org.p0 + org.p2);
    WSub(a + b - (org.p0 + org.p2), v.p0 + v.p2);
    WSub(t - o, v.p0 + v.p2);
    WSub(t - o, w);
  }

  lemma DeltaVSum(a: u32, b: u32, c: u32, d: u32, org: Four<u32>, v: Four<u32>, t: u32, o: u32, w: u32)
    requires W32(a + b + c + d) == t && W32(org.p0 + org.p2) == o && W32(v.p0 + v.p2) == w
    ensures W32(W32(W32(W32(a - org.p0 - v.p0) + W32(b - org.p2 - v.p2)) + c) + d) == W32(t - o - w)
    ensures W32(W32(W32(W32(b - org.p2 - v.p2) + W32(a - org.p0 - v.p0)) + d) + c) == W32(t - o - w)
  {
    hide W32;
    DeltaVPair(a, b, org, v, W32(a + b), o, w);
    var x := W32(a + b) - o - w;
    WAdd(x, c);
    WAdd(x, d);
    WAdd(x + c, d);
    WAdd(x + d, c);
    WAdd(a + b, c + d - o - w);
    WSub(a + b + c + d, o + w);
  }

  /** The four players' lists for one read triple. */
  method RecoverLists(prf: Prf, n: nat, len: u32, tr: Four<ReadTriple>, idx: Four<u32>, isRep: bool,
                      ghost x: nat, ghost at: (nat, nat)) returns (lists: Four<seq<u32>>)
    requires 2 <= n <= 29 && 1 <= len <= Pow2(n) && 3 * len < HALF
    requires ReadOk(prf, n, len, tr, at.0, at.1) && ReadFresh(prf, n, tr, at)
    requires x < len && IndexShared(idx, isRep, x, len)
    ensures |lists.p0| == |lists.p1| == |lists.p2| == |lists.p3| == len
    ensures Selects(lists.p0, lists.p1, x, 1) && Selects(lists.p2, lists.p3, x, 1)
  {
    hide HeadsDiffer, Rotated, IndexShared, Pow2, W32, LevelAt, RootsOk, Correction, NodeAt, Selects;
    var off := OpenRead(idx, tr, len, isRep, x, at.0, at.1);
    var l0 := LocalList(prf, n, tr.p0.key, off.p0, len);
    var l1 := LocalList(prf, n, tr.p1.key, off.p1, len);
    var l2 := LocalList(prf, n, tr.p2.key, off.p2, len);
    var l3 := LocalList(prf, n, tr.p3.key, off.p3, len);
    lists := Four(l0, l1, l2, l3);
    RotatedSelects(prf, n, tr.p0.key, tr.p1.key, at.0, 1, x, len);
    RotatedSelects(prf, n, tr.p2.key, tr.p3.key, at.1, 1, x, len);
  }

  method LocalList(prf: Prf, n: nat, key: ServerKeyEq, off: u32, len: u32) returns (list: seq<u32>)
    requires 2 <= n <= 29 && |key.tree.cw| == n - 1
    requires 1 <= len <= Pow2(n) && off < len
    ensures list == Rotated(prf, n, key, off, len)
  {
    hide RingShare, Pow2, W32, Sub;
    var ansList := new u32[len](_ => 0);
    EvaluateEq32(prf, n, key, ansList, len);
    ghost var sel := Rotated(prf, n, key, off, len);
    list := [];
    for i := 0 to len
      invariant forall x :: 0 <= x < len ==> ansList[x] == RingShare(prf, key, n, x)
      invariant |list| == i && forall x :: 0 <= x < i ==> list[x] == sel[x]
    {
      SubIs(i, off, len);
      RotatedAt(prf, n, key, off, len, i);
      list := list + [ansList[Sub(i, off, len)]];
    }
  }

  lemma PairsAdd(res: Four<u32>, a: u32, b: u32)
    requires Minus32(res.p0, res.p1) == a && Minus32(res.p2, res.p3) == b
    ensures W32(res.p0 - res.p1 + res.p2 - res.p3) == Plus32(a, b)
  {
    SumOfWords(res.p0 - res.p1, res.p2 - res.p3);
    hide W32;
    assert res.p0 - res.p1 + res.p2 - res.p3 == (res.p0 - res.p1) + (res.p2 - res.p3);
  }

  lemma SumOfWords(x: int, y: int)
    ensures W32(x + y) == Plus32(W32(x), W32(y))
  {
  }
}
