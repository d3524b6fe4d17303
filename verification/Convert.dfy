/** Turning a value shared among all four players into replicated form, under a mask of zero. */
module Convert {
  import opened Words
  import opened Players

  /** Masked and revealed within the pairs. */
  function Masked(x: Four<u32>, z: Four<u32>): Four<u32> {
    TwoReveal(Four(Plus32(x.p0, z.p0), Plus32(x.p1, z.p1), Plus32(x.p2, z.p2), Plus32(x.p3, z.p3)))
  }

  /** The form changes, the value does not. */
  lemma MaskedKeeps(x: Four<u32>, z: Four<u32>, v: u32)
    requires Additive(x, v) && Additive(z, 0)
    ensures Replicated(Masked(x, z), v)
  {
    MaskedSum(x, z);
    hide W32;
  }

  lemma MaskedSum(x: Four<u32>, z: Four<u32>)
    requires Additive(z, 0)
    ensures W32(Masked(x, z).p0 + Masked(x, z).p2) == W32(x.p0 + x.p1 + x.p2 + x.p3)
    ensures Masked(x, z).p0 == Masked(x, z).p1 && Masked(x, z).p2 == Masked(x, z).p3
  {
    hide W32;
    var a, b := (x.p0 as int) + z.p0, (x.p1 as int) + z.p1;
    var c, d := (x.p2 as int) + z.p2, (x.p3 as int) + z.p3;
    WAdd(a, b);
    WAdd(b, W32(a));
    WAdd(c, d);
    WAdd(a + b, c + d);
    WAdd(a, W32(b));
    WAdd(c, W32(d));
    WAdd((x.p0 as int) + x.p1 + x.p2 + x.p3, (z.p0 as int) + z.p1 + z.p2 + z.p3);
    assert W32(z.p0 + z.p1 + z.p2 + z.p3) == 0;
  }

  class Convert {
    var zeroShare: seq<Four<u32>>
    var zeroFlag: bool
    var ptr: nat

    /** Every entry of the mask buffer is a sharing of zero. */
    ghost predicate Valid()
      reads this
    {
      zeroFlag ==> ptr <= |zeroShare| && forall i :: 0 <= i < |zeroShare| ==> Additive(zeroShare[i], 0)
    }

    constructor ()
      ensures Valid() && !zeroFlag
    {
      zeroShare, zeroFlag, ptr := [], false, 0;
    }

    /** The helper deals out fresh masks; what was left of the old ones is dropped. */
    method FourpcZeroshare(len: nat)
      modifies this
      ensures Valid() && zeroFlag && ptr == 0 && |zeroShare| == len
    {
      ptr, zeroShare, zeroFlag := 0, [], true;
      for i := 0 to len
        invariant zeroFlag && ptr == 0 && |zeroShare| == i && Valid()
      {
        var r0 := Random32();
        var r1 := Random32();
        var r2 := Random32();
        var sum := (r0 as int) + r1 + r2;
        zeroShare := zeroShare + [Four(r0, r1, r2, W32(0 - sum))];
        WAdd(sum, 0 - sum);
      }
    }

    /** Rewrites the shares in place, unless no masks were dealt or too few are left. */
    method FourpcToReplicated(data: array<Four<u32>>)
      requires Valid()
      modifies this`ptr, data
      ensures Valid()
      ensures var ok := zeroFlag && data.Length + old(ptr) <= |zeroShare|;
              && ptr == (if ok then old(ptr) + data.Length else old(ptr))
              && forall i :: 0 <= i < data.Length ==>
                   && (!ok ==> data[i] == old(data[i]))
                   && (ok ==> forall v :: Additive(old(data[i]), v) ==> Replicated(data[i], v))
    {
      if !zeroFlag {
        return;
      }
      if data.Length + ptr > |zeroShare| {
        return;
      }
      hide Masked;
      for i := 0 to data.Length
        invariant ptr == old(ptr)
        invariant forall j :: i <= j < data.Length ==> data[j] == old(data[j])
        invariant forall j :: 0 <= j < i ==> data[j] == Masked(old(data[j]), zeroShare[ptr + j])
      {
        data[i] := Masked(data[i], zeroShare[ptr + i]);
      }
      forall i, v | 0 <= i < data.Length && Additive(old(data[i]), v)
        ensures Replicated(data[i], v)
      {
        MaskedKeeps(old(data[i]), zeroShare[ptr + i], v);
      }
      ptr := ptr + data.Length;
    }
  }
}
