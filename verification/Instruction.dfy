/** Instructions packed into 64-bit words, with field-by-field arithmetic for their shares. */
module Instruction {
  import opened Congruence
  import opened Words
  import opened WordModuli
  import opened Players
  import opened Selection

  datatype Ins = Ins(optr: nat, idic: nat, i: nat, j: nat, pad: nat, imme: u32)

  datatype Field = Optr | Idic | RegI | RegJ | Pad | Imme

  /** How many values a field has. */
  function Modulus(f: Field): nat {
    match f
    case Optr => 32
    case Idic => 64
    case RegI => 32
    case RegJ => 32
    case Pad => 2048
    case Imme => M32
  }

  function Get(a: Ins, f: Field): nat {
    match f
    case Optr => a.optr
    case Idic => a.idic
    case RegI => a.i
    case RegJ => a.j
    case Pad => a.pad
    case Imme => a.imme
  }

  ghost predicate InRange(a: Ins) {
    forall f :: Get(a, f) < Modulus(f)
  }

  /** From the low end: immediate, pad, the two registers, the operand's place, the opcode. */
  function Unpack(data: u64): Ins {
    var d1 := data / M32;
    var d2 := d1 / 2048;
    var d3 := d2 / 32;
    var d4 := d3 / 32;
    Ins(d4 / 64 % 32, d4 % 64, d3 % 32, d2 % 32, d1 % 2048, data % M32)
  }

  function Pack(a: Ins): u64 {
    W64(((((a.optr * 64 + a.idic) * 32 + a.i) * 32 + a.j) * 2048 + a.pad) * M32 + a.imme)
  }

  /** The fields' places in the word. */
  lemma UnpackIs(data: u64)
    ensures Unpack(data).optr == data / 0x800_0000_0000_0000
    ensures Unpack(data).idic == data / 0x20_0000_0000_0000 % 64
    ensures Unpack(data).i == data / 0x1_0000_0000_0000 % 32
    ensures Unpack(data).j == data / 0x800_0000_0000 % 32
    ensures Unpack(data).pad == data / 0x1_0000_0000 % 2048
    ensures Unpack(data).imme == data % 0x1_0000_0000
  {
    var d1 := data / M32;
    DivDiv(data, 0x1_0000_0000, 2048);
    DivDiv(data, 0x800_0000_0000, 32);
    DivDiv(data, 0x1_0000_0000_0000, 32);
    DivDiv(data, 0x20_0000_0000_0000, 64);
  }

  lemma DivDiv(x: nat, a: nat, b: nat)
    requires a > 0 && b > 0
    ensures a * b > 0 && x / a / b == x / (a * b)
  {
    DivMod(x, a);
    DivMod(x / a, b);
    var q, r, s := x / a / b, x / a % b, x % a;
    MulLe(a, r, b - 1);
    assert a * (b * q + r) == a * b * q + a * r && a * (b - 1) == a * b - a;
    DivUnique(x, a * b, q, a * r + s);
  }

  lemma UnpackInRange(data: u64)
    ensures InRange(Unpack(data))
  {
    forall f
      ensures Get(Unpack(data), f) < Modulus(f)
    {
      match f
      case Optr =>
      case Idic =>
      case RegI =>
      case RegJ =>
      case Pad =>
      case Imme =>
    }
  }

  lemma UnpackPack(a: Ins)
    requires InRange(a)
    ensures Unpack(Pack(a)) == a
  {
    assert Get(a, Optr) < 32 && Get(a, Idic) < 64 && Get(a, RegI) < 32 && Get(a, RegJ) < 32 && Get(a, Pad) < 2048;
    var d4 := a.optr * 64 + a.idic;
    var d3 := d4 * 32 + a.i;
    var d2 := d3 * 32 + a.j;
    var d1 := d2 * 2048 + a.pad;
    assert Pack(a) == d1 * M32 + a.imme;
    DivUnique(Pack(a), M32, d1, a.imme);
    DivUnique(d1, 2048, d2, a.pad);
    DivUnique(d2, 32, d3, a.j);
    DivUnique(d3, 32, d4, a.i);
    DivUnique(d4, 64, a.optr, a.idic);
  }

  /** The two forms of an instruction hold the same: packing is one to one and onto. */
  lemma PackUnpack(data: u64)
    ensures Pack(Unpack(data)) == data
  {
    var d1 := data / M32;
    var d2 := d1 / 2048;
    var d3 := d2 / 32;
    var d4 := d3 / 32;
    assert d4 / 64 < 32;
  }

  /** a - b modulo a field's size, with one correction when a is smaller. */
  function SubMod(a: nat, b: nat, m: nat): nat
    requires a < m && b < m
  {
    if a < b then a + m - b else (a - b) % m
  }

  function SubIns(a: Ins, b: Ins): Ins
    requires InRange(a) && InRange(b)
  {
    assert forall f :: Get(a, f) < Modulus(f) && Get(b, f) < Modulus(f);
    assert Get(a, Optr) < 32 && Get(b, Optr) < 32 && Get(a, Idic) < 64 && Get(b, Idic) < 64 && Get(a, RegI) < 32;
    assert Get(b, RegI) < 32 && Get(a, RegJ) < 32 && Get(b, RegJ) < 32 && Get(a, Pad) < 2048 && Get(b, Pad) < 2048;
    Ins(SubMod(a.optr, b.optr, 32), SubMod(a.idic, b.idic, 64), SubMod(a.i, b.i, 32), SubMod(a.j, b.j, 32),
        SubMod(a.pad, b.pad, 2048), Minus32(a.imme, b.imme))
  }

  function AddIns(a: Ins, b: Ins): Ins {
    Ins((a.optr + b.optr) % 32, (a.idic + b.idic) % 64, (a.i + b.i) % 32, (a.j + b.j) % 32,
        (a.pad + b.pad) % 2048, Plus32(a.imme, b.imme))
  }

  /** A word times every field, each reduced to the field's size first. */
  function ScaleIns(a: Ins, b: u32): Ins {
    Ins(a.optr * (b % 32) % 32, a.idic * (b % 64) % 64, a.i * (b % 32) % 32, a.j * (b % 32) % 32,
        a.pad * (b % 2048) % 2048, Times32(a.imme, b))
  }

  /** Negation field by field; a zero field becomes the field's size. */
  function NegIns(a: Ins): Ins
    requires InRange(a)
  {
    assert Get(a, Optr) < 32 && Get(a, Idic) < 64 && Get(a, RegI) < 32 && Get(a, RegJ) < 32 && Get(a, Pad) < 2048;
    Ins(32 - a.optr, 64 - a.idic, 32 - a.i, 32 - a.j, 2048 - a.pad, Neg32(a.imme))
  }

  lemma AddField(a: Ins, b: Ins, f: Field)
    ensures Get(AddIns(a, b), f) == (Get(a, f) + Get(b, f)) % Modulus(f) < Modulus(f)
  {
  }

  lemma ScaleField(a: Ins, b: u32, f: Field)
    ensures Get(ScaleIns(a, b), f) == Get(a, f) * (b % Modulus(f)) % Modulus(f) < Modulus(f)
  {
    if f == Imme {
      assert b % M32 == b;
    }
  }

  lemma SubField(a: Ins, b: Ins, f: Field)
    requires InRange(a) && InRange(b)
    ensures Get(a, f) < Modulus(f) && Get(b, f) < Modulus(f)
    ensures Get(SubIns(a, b), f) == SubMod(Get(a, f), Get(b, f), Modulus(f)) < Modulus(f)
  {
  }

  function AddWords(a: u64, b: u64): u64 {
    Pack(AddIns(Unpack(a), Unpack(b)))
  }

  function SubWords(a: u64, b: u64): u64 {
    UnpackInRange(a);
    UnpackInRange(b);
    Pack(SubIns(Unpack(a), Unpack(b)))
  }

  function ScaleWord(a: u64, b: u32): u64 {
    Pack(ScaleIns(Unpack(a), b))
  }

  /** Sharing an instruction and adding the shares gives it back. */
  lemma SharesOfIns(a: u64, r: u64)
    ensures AddWords(SubWords(a, r), r) == a
  {
    UnpackInRange(a);
    UnpackInRange(r);
    var x, y := Unpack(a), Unpack(r);
    var d := SubIns(x, y);
    hide Pack, Unpack;
    forall f
      ensures Get(d, f) < Modulus(f) && Get(AddIns(d, y), f) == Get(x, f)
    {
      SubField(x, y, f);
      AddField(d, y, f);
      SubThenAdd(Get(x, f), Get(y, f), Modulus(f));
    }
    UnpackPack(d);
    SameFields(AddIns(d, y), x);
    PackUnpack(a);
  }

  lemma SameFields(a: Ins, b: Ins)
    requires forall f :: Get(a, f) == Get(b, f)
    ensures a == b
  {
    assert Get(a, Optr) == Get(b, Optr) && Get(a, Idic) == Get(b, Idic) && Get(a, RegI) == Get(b, RegI);
    assert Get(a, RegJ) == Get(b, RegJ) && Get(a, Pad) == Get(b, Pad) && Get(a, Imme) == Get(b, Imme);
  }

  lemma SubThenAdd(x: nat, y: nat, m: nat)
    requires x < m && y < m
    ensures (SubMod(x, y, m) + y) % m == x
  {
    if x < y {
      DivUnique(x + m, m, 1, x);
    } else {
      DivUnique(x - y, m, 0, x - y);
      DivUnique(x, m, 0, x);
    }
  }

  /** One field of a list of packed instructions. */
  function Fields(data: seq<u64>, f: Field): (r: seq<int>)
    ensures |r| == |data|
  {
    seq(|data|, k requires 0 <= k < |data| => Get(Unpack(data[k]), f) as int)
  }

  /** One player's sum of packed instructions against its list, field by field. */
  method SumIns(data: seq<u64>, list: seq<u32>) returns (res: u64)
    requires |data| == |list| >= 1
    ensures forall f :: Get(Unpack(res), f) == DotMod(Modulus(f), Fields(data, f), list, |data|)
  {
    hide Unpack, Pack, ScaleIns, AddIns;
    res := 0;
    for k := 0 to |data|
      invariant k > 0 ==> forall f :: Get(Unpack(res), f) == DotMod(Modulus(f), Fields(data, f), list, k)
    {
      var tmpRes := ScaleWord(data[k], list[k]);
      ghost var acc := Unpack(res);
      res := if k == 0 then tmpRes else AddWords(res, tmpRes);
      forall f
        ensures Get(Unpack(res), f) == DotMod(Modulus(f), Fields(data, f), list, k + 1)
      {
        SumStep(acc, Unpack(data[k]), list[k], k == 0, f);
      }
    }
  }

  lemma SumStep(acc: Ins, v: Ins, s: u32, first: bool, f: Field)
    ensures var p := Unpack(Pack(ScaleIns(v, s)));
            var r := if first then p else Unpack(Pack(AddIns(acc, p)));
            Get(r, f) == AddProduct(Modulus(f), if first then 0 else Get(acc, f), Get(v, f), s)
  {
    var p := ScaleIns(v, s);
    forall g
      ensures Get(p, g) < Modulus(g) && Get(AddIns(acc, p), g) < Modulus(g)
    {
      ScaleField(v, s, g);
      AddField(acc, p, g);
    }
    UnpackPack(p);
    UnpackPack(AddIns(acc, p));
    ScaleField(v, s, f);
    AddField(acc, p, f);
    hide Unpack, Pack, ScaleIns, AddIns;
    FieldStep(Get(acc, f), Get(v, f), s, Modulus(f));
  }

  lemma FieldStep(acc: nat, v: nat, s: nat, m: nat)
    requires m > 0
    ensures (acc + v * (s % m) % m) % m == (acc + v * s) % m
    ensures v * (s % m) % m == (0 + v * s) % m
  {
    CongMod(s, m);
    CongMul(s % m, s, v, m);
    CongMod(v * (s % m), m);
    CongByMultiple(acc, acc, m, 0);
    CongTrans(v * (s % m) % m, v * (s % m), v * s, m);
    CongAdd(acc, acc, v * (s % m) % m, v * s, m);
  }

  function Cofactor(f: Field): nat {
    match f
    case Optr => 0x800_0000
    case Idic => 0x400_0000
    case RegI => 0x800_0000
    case RegJ => 0x800_0000
    case Pad => 0x20_0000
    case Imme => 1
  }

  /** Two shares of one packed instruction. */
  ghost predicate InsShared(a: u64, b: u64, ins: Ins) {
    forall f :: Cong(Get(Unpack(a), f) + Get(Unpack(b), f), Get(ins, f), Modulus(f))
  }

  lemma SharedWords(a: u64, b: u64)
    ensures InsShared(a, b, Unpack(AddWords(a, b)))
  {
    forall f
      ensures Cong(Get(Unpack(a), f) + Get(Unpack(b), f), Get(Unpack(AddWords(a, b)), f), Modulus(f))
    {
      var s := AddIns(Unpack(a), Unpack(b));
      forall g
        ensures Get(s, g) < Modulus(g)
      {
        AddField(Unpack(a), Unpack(b), g);
      }
      UnpackPack(s);
      AddField(Unpack(a), Unpack(b), f);
      hide Unpack, Pack, AddIns;
      CongMod(Get(Unpack(a), f) + Get(Unpack(b), f), Modulus(f));
    }
  }

  /** The four players' fetched instructions: players 1 and 3 negate, and then every field's shares
      add up to the field of the instruction at the shared index. */
  lemma FetchedField(r: Four<Ins>, data0: seq<u64>, data1: seq<u64>, lists: Four<seq<u32>>, x: nat, ins: Ins, f: Field)
    requires InRange(r.p1) && InRange(r.p3)
    requires |data0| == |data1| == |lists.p0| == |lists.p1| == |lists.p2| == |lists.p3| && x < |data0|
    requires Selects(lists.p0, lists.p1, x, 1) && Selects(lists.p2, lists.p3, x, 1) && InsShared(data0[x], data1[x], ins)
    requires Get(r.p0, f) == DotMod(Modulus(f), Fields(data0, f), lists.p0, |data0|)
    requires Get(r.p1, f) == DotMod(Modulus(f), Fields(data0, f), lists.p1, |data0|)
    requires Get(r.p2, f) == DotMod(Modulus(f), Fields(data1, f), lists.p2, |data0|)
    requires Get(r.p3, f) == DotMod(Modulus(f), Fields(data1, f), lists.p3, |data0|)
    ensures WordModulus(Modulus(f))
    ensures Cong(Get(r.p0, f) + Get(NegIns(r.p1), f) + Get(r.p2, f) + Get(NegIns(r.p3), f), Get(ins, f), Modulus(f))
  {
    hide *;
    var m, n := Modulus(f), |data0|;
    FieldModulus(f);
    DotSelects(m, Cofactor(f), Fields(data0, f), lists.p0, lists.p1, x, n);
    DotSelects(m, Cofactor(f), Fields(data1, f), lists.p2, lists.p3, x, n);
    NegField(r.p1, f);
    NegField(r.p3, f);
    SharedField(data0, data1, x, ins, f);
    FieldSum(Get(r.p0, f), Get(r.p1, f), Get(NegIns(r.p1), f), Get(r.p2, f), Get(r.p3, f), Get(NegIns(r.p3), f),
             Fields(data0, f)[x], Fields(data1, f)[x], Get(ins, f), m);
  }

  lemma SharedField(data0: seq<u64>, data1: seq<u64>, x: nat, ins: Ins, f: Field)
    requires |data0| == |data1| && x < |data0| && InsShared(data0[x], data1[x], ins)
    ensures Cong(Fields(data0, f)[x] + Fields(data1, f)[x], Get(ins, f), Modulus(f))
  {
    hide Unpack, Cong, Get, Modulus;
  }

  lemma FieldModulus(f: Field)
    ensures Modulus(f) > 0 && Modulus(f) * Cofactor(f) == M32 && WordModulus(Modulus(f))
  {
    WordModulusOf(Modulus(f), Cofactor(f));
  }

  lemma FieldSum(r0: int, r1: int, n1: int, r2: int, r3: int, n3: int, u: int, v: int, g: int, m: nat)
    requires m > 0 && Cong(r0 - r1, u, m) && Cong(r2 - r3, v, m) && Cong(u + v, g, m)
    requires Cong(r1 + n1, 0, m) && Cong(r3 + n3, 0, m)
    ensures Cong(r0 + n1 + r2 + n3, g, m)
  {
    hide Cong;
    CongAdd(r0 - r1, u, r2 - r3, v, m);
    CongTrans(r0 - r1 + (r2 - r3), u + v, g, m);
    CongAdd(r1 + n1, 0, r3 + n3, 0, m);
    CongAdd(r0 - r1 + (r2 - r3), g, r1 + n1 + (r3 + n3), 0, m);
  }

  lemma NegField(a: Ins, f: Field)
    requires InRange(a)
    ensures Cong(Get(a, f) + Get(NegIns(a), f), 0, Modulus(f))
  {
    var s := Get(a, f) + Get(NegIns(a), f);
    CongByMultiple(s, 0, Modulus(f), if f == Imme && a.imme == 0 then 0 else 1);
  }
}
