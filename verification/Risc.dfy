/** One step of the secret-shared machine: fetch, decode, all operations at once, and the selection of
    one result. */
module Risc {
  import opened Bits
  import opened Congruence
  import opened Words
  import opened WordModuli
  import opened Players
  import opened FssCommon
  import opened FssEq
  import opened RamOffset
  import opened Selection
  import opened Gate
  import opened Compare
  import R = Ram
  import M = Mul
  import opened Instruction
  import opened Operations
  import opened Slots
  import opened PlainMachine

  /** The four players' instruction shares: every field adds up modulo its size. */
  ghost predicate FieldsShared(r: Four<Ins>, ins: Ins) {
    forall f :: FieldShared(r, ins, f)
  }

  ghost predicate FieldShared(r: Four<Ins>, ins: Ins, f: Field) {
    && Cong(Get(r.p0, f) + Get(r.p1, f) + Get(r.p2, f) + Get(r.p3, f), Get(ins, f), Modulus(f))
    && Get(r.p0, f) <= Modulus(f) && Get(r.p1, f) <= Modulus(f) && Get(r.p2, f) <= Modulus(f) && Get(r.p3, f) <= Modulus(f)
  }

  /** The shares of the program. */
  ghost predicate ProgramShared(ins0: seq<u64>, ins1: seq<u64>, program: seq<Ins>) {
    && ProgramOk(program) && |ins0| == |ins1| == INS_LEN
    && forall k :: 0 <= k < INS_LEN ==> InsShared(ins0[k], ins1[k], program[k])
  }

  /** Every field of an instruction is the sum of the two words' fields, modulo the field's size. */
  lemma ProgramSharedAt(ins0: seq<u64>, ins1: seq<u64>, program: seq<Ins>, k: nat)
    requires ProgramShared(ins0, ins1, program) && k < 32
    ensures |ins0| == |ins1| == |program| == 32
    ensures var x, y, z := Unpack(ins0[k]), Unpack(ins1[k]), program[k];
            && z.optr == (x.optr + y.optr) % 32 && z.idic == (x.idic + y.idic) % 64
            && z.i == (x.i + y.i) % 32 && z.j == (x.j + y.j) % 32 && z.imme == (x.imme + y.imme) % 0x1_0000_0000
  {
    hide Unpack;
    FieldAt(ins0[k], ins1[k], program[k], Optr);
    FieldAt(ins0[k], ins1[k], program[k], Idic);
    FieldAt(ins0[k], ins1[k], program[k], RegI);
    FieldAt(ins0[k], ins1[k], program[k], RegJ);
    FieldAt(ins0[k], ins1[k], program[k], Imme);
  }

  lemma FieldAt(a: u64, b: u64, ins: Ins, f: Field)
    requires InsShared(a, b, ins) && InRange(ins)
    ensures Get(ins, f) == (Get(Unpack(a), f) + Get(Unpack(b), f)) % Modulus(f)
  {
    hide Unpack;
    var s := Get(Unpack(a), f) + Get(Unpack(b), f);
    assert Cong(s, Get(ins, f), Modulus(f)) && Get(ins, f) < Modulus(f);
    DivUnique(Get(ins, f), Modulus(f), 0, Get(ins, f));
  }

  /** The helper's shares of a packed program: random words, and the differences field by field. */
  method DealProgram(words: seq<u64>) returns (ins0: seq<u64>, ins1: seq<u64>)
    requires |words| == INS_LEN
    ensures ProgramShared(ins0, ins1, seq(INS_LEN, k requires 0 <= k < INS_LEN => Unpack(words[k])))
  {
    hide InRange, Unpack, InsShared, SubWords;
    ins0, ins1 := [], [];
    for i := 0 to INS_LEN
      invariant |ins0| == |ins1| == i
      invariant forall k :: 0 <= k < i ==> InsShared(ins0[k], ins1[k], Unpack(words[k])) && InRange(Unpack(words[k]))
    {
      var r := Random64();
      var d := SubWords(words[i], r);
      DealtShares(words[i], r);
      UnpackInRange(words[i]);
      ins0, ins1 := ins0 + [r], ins1 + [d];
    }
  }

  lemma DealtShares(a: u64, r: u64)
    ensures InsShared(r, SubWords(a, r), Unpack(a))
  {
    var d := SubWords(a, r);
    SharesOfIns(a, r);
    SharedWords(d, r);
    hide Cong, Unpack, SubWords, AddWords, Get;
    forall f
      ensures Cong(Get(Unpack(r), f) + Get(Unpack(d), f), Get(Unpack(a), f), Modulus(f))
    {
      assert Cong(Get(Unpack(d), f) + Get(Unpack(r), f), Get(Unpack(a), f), Modulus(f));
    }
  }

  /** A shared word taken as an index modulo len. */
  lemma WordIndex(x: Four<u32>, v: u32, len: nat)
    requires Additive(x, v) && (len == 32 || len == 64 || len == DATA_LEN)
    ensures v % len < len && R.IndexShared(x, false, v % len, len) && R.DiagShared(x, false, v % len, len)
  {
    var sum := x.p0 + x.p1 + x.p2 + x.p3;
    WordModulusOf(len, if len == 32 then 0x800_0000 else if len == 64 then 0x400_0000 else 0x8_0000);
    WordCong(sum, len);
    CongMod(v, len);
    CongTrans(sum, v, v % len, len);
  }

  /** A shared field as an index. */
  lemma FieldIndex(x: Four<u32>, v: nat, len: nat)
    requires len == 32 || len == 64
    requires Cong(x.p0 + x.p1 + x.p2 + x.p3, v, len) && v < len
    ensures R.IndexShared(x, false, v, len) && R.DiagShared(x, false, v, len)
  {
    WordModulusOf(len, if len == 32 then 0x800_0000 else 0x400_0000);
  }

  /** Fetch: the instruction at the shared program counter; players 1 and 3 negate theirs. */
  method FetchIns(prf: Prf, triple: Four<R.ReadTriple>, ghost at: (nat, nat), pc: Four<u32>, ins0: seq<u64>, ins1: seq<u64>,
                  ghost program: seq<Ins>, ghost pcv: u32) returns (r: Four<Ins>)
    requires R.ReadOk(prf, 5, 32, triple, at.0, at.1) && R.ReadFresh(prf, 5, triple, at)
    requires ProgramShared(ins0, ins1, program) && Additive(pc, pcv)
    ensures FieldsShared(r, Fetch(program, pcv))
  {
    hide *;
    Sizes();
    WordIndex(pc, pcv, 32);
    ProgramAt(ins0, ins1, program, pcv);
    ghost var x := pcv % 32;
    var lists := R.RecoverLists(prf, 5, 32, triple, pc, false, x, at);
    var w0 := SumIns(ins0, lists.p0);
    var w1 := SumIns(ins0, lists.p1);
    var w2 := SumIns(ins1, lists.p2);
    var w3 := SumIns(ins1, lists.p3);
    UnpackInRange(w0);
    UnpackInRange(w1);
    UnpackInRange(w2);
    UnpackInRange(w3);
    var u1, u3 := Unpack(w1), Unpack(w3);
    r := Four(Unpack(w0), NegIns(u1), Unpack(w2), NegIns(u3));
    FetchedAll(Four(Unpack(w0), u1, Unpack(w2), u3), ins0, ins1, lists, x, Fetch(program, pcv));
  }

  lemma Sizes()
    ensures Pow2(5) == 32 && Pow2(6) == 64 && 3 * 64 < HALF && INS_LEN == M_LEN == 32 && OPT_SIZE == 22
  {
    Pow2Step(0);
    Pow2Step(1);
    Pow2Step(2);
    Pow2Step(3);
    Pow2Step(4);
    Pow2Step(5);
  }

  lemma ProgramAt(ins0: seq<u64>, ins1: seq<u64>, program: seq<Ins>, pc: u32)
    requires ProgramShared(ins0, ins1, program)
    ensures |ins0| == |ins1| == |program| == 32 && ProgramOk(program)
    ensures InRange(Fetch(program, pc)) && InsShared(ins0[pc % 32], ins1[pc % 32], Fetch(program, pc))
  {
    hide InRange, InsShared;
  }

  lemma FetchedAll(r: Four<Ins>, ins0: seq<u64>, ins1: seq<u64>, lists: Four<seq<u32>>, x: nat, ins: Ins)
    requires InRange(r.p0) && InRange(r.p1) && InRange(r.p2) && InRange(r.p3)
    requires |ins0| == |ins1| == |lists.p0| == |lists.p1| == |lists.p2| == |lists.p3| == 32 && x < 32
    requires InsShared(ins0[x], ins1[x], ins)
    requires Selects(lists.p0, lists.p1, x, 1) && Selects(lists.p2, lists.p3, x, 1)
    requires forall f :: Get(r.p0, f) == DotMod(Modulus(f), Fields(ins0, f), lists.p0, 32)
    requires forall f :: Get(r.p1, f) == DotMod(Modulus(f), Fields(ins0, f), lists.p1, 32)
    requires forall f :: Get(r.p2, f) == DotMod(Modulus(f), Fields(ins1, f), lists.p2, 32)
    requires forall f :: Get(r.p3, f) == DotMod(Modulus(f), Fields(ins1, f), lists.p3, 32)
    ensures FieldsShared(Four(r.p0, NegIns(r.p1), r.p2, NegIns(r.p3)), ins)
  {
    hide Get, Modulus, Fields, DotMod, Selects, InRange, NegIns, InsShared, Cong, FieldShared;
    forall f
      ensures FieldShared(Four(r.p0, NegIns(r.p1), r.p2, NegIns(r.p3)), ins, f)
    {
      FetchedOne(r, ins0, ins1, lists, x, ins, f);
    }
  }

  lemma FetchedOne(r: Four<Ins>, ins0: seq<u64>, ins1: seq<u64>, lists: Four<seq<u32>>, x: nat, ins: Ins, f: Field)
    requires InRange(r.p0) && InRange(r.p1) && InRange(r.p2) && InRange(r.p3)
    requires |ins0| == |ins1| == |lists.p0| == |lists.p1| == |lists.p2| == |lists.p3| == 32 && x < 32
    requires InsShared(ins0[x], ins1[x], ins)
    requires Selects(lists.p0, lists.p1, x, 1) && Selects(lists.p2, lists.p3, x, 1)
    requires Get(r.p0, f) == DotMod(Modulus(f), Fields(ins0, f), lists.p0, 32)
    requires Get(r.p1, f) == DotMod(Modulus(f), Fields(ins0, f), lists.p1, 32)
    requires Get(r.p2, f) == DotMod(Modulus(f), Fields(ins1, f), lists.p2, 32)
    requires Get(r.p3, f) == DotMod(Modulus(f), Fields(ins1, f), lists.p3, 32)
    ensures FieldShared(Four(r.p0, NegIns(r.p1), r.p2, NegIns(r.p3)), ins, f)
  {
    hide Get, Modulus, Fields, DotMod, Selects, InRange, NegIns, InsShared, Cong;
    FieldModulus(f);
    FetchedField(r, ins0, ins1, lists, x, ins, f);
    FieldBelow(r.p0, f);
    FieldBelow(r.p1, f);
    FieldBelow(r.p2, f);
    FieldBelow(r.p3, f);
  }

  lemma FieldBelow(a: Ins, f: Field)
    requires InRange(a)
    ensures Get(a, f) <= Modulus(f) && Get(NegIns(a), f) <= Modulus(f)
  {
    assert Get(a, f) < Modulus(f);
  }

  /** The four players' register or operand indices, opcodes and immediates. */
  lemma DecodedFields(r: Four<Ins>, ins: Ins)
    requires FieldsShared(r, ins) && InRange(ins)
    ensures r.p0.i < 0x1_0000_0000 && r.p1.i < 0x1_0000_0000 && r.p2.i < 0x1_0000_0000 && r.p3.i < 0x1_0000_0000
    ensures r.p0.j < 0x1_0000_0000 && r.p1.j < 0x1_0000_0000 && r.p2.j < 0x1_0000_0000 && r.p3.j < 0x1_0000_0000
    ensures r.p0.idic < 0x1_0000_0000 && r.p1.idic < 0x1_0000_0000 && r.p2.idic < 0x1_0000_0000 && r.p3.idic < 0x1_0000_0000
    ensures r.p0.optr < 0x1_0000_0000 && r.p1.optr < 0x1_0000_0000 && r.p2.optr < 0x1_0000_0000 && r.p3.optr < 0x1_0000_0000
    ensures Cong(r.p0.i + r.p1.i + r.p2.i + r.p3.i, ins.i, 32) && Cong(r.p0.j + r.p1.j + r.p2.j + r.p3.j, ins.j, 32)
    ensures Cong(r.p0.idic + r.p1.idic + r.p2.idic + r.p3.idic, ins.idic, 64)
    ensures Cong(r.p0.optr + r.p1.optr + r.p2.optr + r.p3.optr, ins.optr, 32)
    ensures Additive(Four(r.p0.imme, r.p1.imme, r.p2.imme, r.p3.imme), ins.imme)
  {
    hide Cong;
    assert FieldShared(r, ins, RegI) && FieldShared(r, ins, RegJ) && FieldShared(r, ins, Idic) && FieldShared(r, ins, Optr);
    assert FieldShared(r, ins, Imme);
    ImmediateShares(r, ins);
  }

  lemma ImmediateShares(r: Four<Ins>, ins: Ins)
    requires FieldShared(r, ins, Imme)
    ensures Additive(Four(r.p0.imme, r.p1.imme, r.p2.imme, r.p3.imme), ins.imme)
  {
  }

  /** One entry of the registers doubled by the immediate. */
  function Dupli(a: u32, m: seq<u32>, i: nat): u32
    requires |m| == M_LEN
  {
    if i < M_LEN then a else if i >= 2 * M_LEN then a else m[i - M_LEN]
  }

  /** A player's view: the immediate's share in every low place, then the registers. */
  function Doubled(a: u32, m: seq<u32>): (r: seq<int>)
    requires |m| == M_LEN
    ensures |r| == 64
  {
    seq(64, i requires 0 <= i < 64 => Dupli(a, m, i) as int)
  }

  /** One player's sum of the doubled registers against its list. */
  method SumDoubled(a: u32, m: seq<u32>, list: seq<u32>) returns (res: u32)
    requires |m| == M_LEN && |list| == 64
    ensures res == DotMod(M32, Doubled(a, m), list, 64)
  {
    hide W32, AddProduct;
    res := 0;
    ghost var view := Doubled(a, m);
    for i := 0 to 64
      invariant res == DotMod(M32, view, list, i)
    {
      var v := Dupli(a, m, i);
      var tmpRes := Times32(v, list[i]);
      R.ProductWord(res, v, list[i]);
      res := if i == 0 then tmpRes else Plus32(res, tmpRes);
    }
  }

  /** What the players hold of a read, after players 1 and 3 have negated theirs. */
  function Signed(x: Four<u32>): Four<u32> {
    Four(x.p0, Neg32(x.p1), x.p2, Neg32(x.p3))
  }

  lemma SignedAdds(x: Four<u32>, v: u32)
    requires W32(x.p0 - x.p1 + x.p2 - x.p3) == v
    ensures Additive(Signed(x), v)
  {
    WMultiple(x.p0 - x.p1 + x.p2 - x.p3, 2);
    hide W32;
    WSmall(x.p0);
    WSmall(x.p2);
    WSum(x.p0, M32 - x.p1, x.p2, M32 - x.p3);
  }

  /** The second operand: the doubled registers read at the shared place. */
  method ReadOperand(prf: Prf, triple: Four<R.ReadTriple>, ghost at: (nat, nat), r: Four<Ins>, imme: Four<u32>,
                     m: Four<seq<u32>>, ghost ins: Ins, ghost regs: seq<u32>) returns (a: Four<u32>)
    requires R.ReadOk(prf, 6, 64, triple, at.0, at.1) && R.ReadFresh(prf, 6, triple, at)
    requires FieldsShared(r, ins) && InRange(ins) && Replicated(imme, ins.imme)
    requires |m.p0| == |m.p1| == |m.p2| == |m.p3| == |regs| == M_LEN && m.p0 == m.p1 && m.p2 == m.p3
    requires forall k :: 0 <= k < M_LEN ==> regs[k] == Plus32(m.p0[k], m.p2[k])
    ensures ins.idic < 64 && Additive(a, Operand(ins, regs))
  {
    hide *;
    Sizes();
    DecodedFields(r, ins);
    FieldsBound(ins);
    var d0: u32, d1: u32, d2: u32, d3: u32 := r.p0.idic, r.p1.idic, r.p2.idic, r.p3.idic;
    var idx := Four(d0, d1, d2, d3);
    FieldIndex(idx, ins.idic, 64);
    var lists := R.RecoverLists(prf, 6, 64, triple, idx, false, ins.idic, at);
    ImmeHalves(imme, ins.imme);
    var s0 := SumDoubled(imme.p0, m.p0, lists.p0);
    var s1 := SumDoubled(imme.p1, m.p1, lists.p1);
    var s2 := SumDoubled(imme.p2, m.p2, lists.p2);
    var s3 := SumDoubled(imme.p3, m.p3, lists.p3);
    a := Signed(Four(s0, s1, s2, s3));
    OperandReads(imme, m.p0, m.p2, lists, Four(s0, s1, s2, s3), ins, regs);
    SignedAdds(Four(s0, s1, s2, s3), Operand(ins, regs));
  }

  lemma ImmeHalves(imme: Four<u32>, v: u32)
    requires Replicated(imme, v)
    ensures imme.p0 == imme.p1 && imme.p2 == imme.p3 && Plus32(imme.p0, imme.p2) == v
  {
  }

  lemma OperandReads(imme: Four<u32>, m0: seq<u32>, m2: seq<u32>, lists: Four<seq<u32>>, s: Four<u32>, ins: Ins, regs: seq<u32>)
    requires |m0| == |m2| == |regs| == M_LEN && ins.idic < 64 && Plus32(imme.p0, imme.p2) == ins.imme
    requires forall k :: 0 <= k < M_LEN ==> regs[k] == Plus32(m0[k], m2[k])
    requires |lists.p0| == |lists.p1| == |lists.p2| == |lists.p3| == 64
    requires Selects(lists.p0, lists.p1, ins.idic, 1) && Selects(lists.p2, lists.p3, ins.idic, 1)
    requires s.p0 == DotMod(M32, Doubled(imme.p0, m0), lists.p0, 64) && s.p1 == DotMod(M32, Doubled(imme.p0, m0), lists.p1, 64)
    requires s.p2 == DotMod(M32, Doubled(imme.p2, m2), lists.p2, 64) && s.p3 == DotMod(M32, Doubled(imme.p2, m2), lists.p3, 64)
    ensures W32(s.p0 - s.p1 + s.p2 - s.p3) == Operand(ins, regs)
  {
    hide *;
    Sizes();
    WordSize();
    DotSelects(M32, 1, Doubled(imme.p0, m0), lists.p0, lists.p1, ins.idic, 64);
    DotSelects(M32, 1, Doubled(imme.p2, m2), lists.p2, lists.p3, ins.idic, 64);
    DoubledAt(imme, m0, m2, ins, regs);
    var u: int, v: int := Doubled(imme.p0, m0)[ins.idic], Doubled(imme.p2, m2)[ins.idic];
    CongAdd(s.p0 - s.p1, u, s.p2 - s.p3, v, M32);
    CongWord(s.p0 - s.p1 + (s.p2 - s.p3), u + v);
  }

  lemma WordSize()
    ensures M32 == 0x1_0000_0000
  {
  }

  lemma DoubledAt(imme: Four<u32>, m0: seq<u32>, m2: seq<u32>, ins: Ins, regs: seq<u32>)
    requires |m0| == |m2| == |regs| == M_LEN && ins.idic < 64 && Plus32(imme.p0, imme.p2) == ins.imme
    requires forall k :: 0 <= k < M_LEN ==> regs[k] == Plus32(m0[k], m2[k])
    ensures W32(Doubled(imme.p0, m0)[ins.idic] + Doubled(imme.p2, m2)[ins.idic]) == Operand(ins, regs)
  {
    hide W32;
  }

  lemma CongWord(x: int, y: int)
    requires Cong(x, y, M32)
    ensures W32(x) == W32(y)
  {
  }

  /** Selection bits for the opcode. */
  method ReadBetas(prf: Prf, triple: Four<R.ReadTriple>, ghost at: (nat, nat), r: Four<Ins>, ghost ins: Ins)
    returns (betas: Four<seq<u32>>)
    requires R.ReadOk(prf, 5, 32, triple, at.0, at.1) && R.ReadFresh(prf, 5, triple, at)
    requires FieldsShared(r, ins) && InRange(ins)
    ensures BetasFor(betas, ins.optr)
  {
    hide *;
    Sizes();
    DecodedFields(r, ins);
    FieldsBound(ins);
    var d0: u32, d1: u32, d2: u32, d3: u32 := r.p0.optr, r.p1.optr, r.p2.optr, r.p3.optr;
    var idx := Four(d0, d1, d2, d3);
    FieldIndex(idx, ins.optr, 32);
    var lists := R.RecoverLists(prf, 5, 32, triple, idx, false, ins.optr, at);
    BetasFromLists(lists, ins.optr);
    var n1 := Negated(lists.p1, OPT_SIZE);
    var n3 := Negated(lists.p3, OPT_SIZE);
    betas := Four(lists.p0, n1, lists.p2, n3);
  }

  /** What the bitwise circuits and the tape operation leave in their slots: any words that repeat
      within the pairs. */
  datatype Others = Others(res: seq<Four<u32>>, flags: seq<Four<u32>>)

  ghost predicate OthersOk(o: Others) {
    && |o.res| == |o.flags| == OPT_SIZE
    && forall k :: 0 <= k < OPT_SIZE && Foreign(k) ==> Repeats(o.res[k]) && Repeats(o.flags[k])
  }

  /** All results that repeat the register, or need two shared words only. */
  method ComputeAll(prf: Prf, p: int, eq: EqTuple, ghost point: u32, ri: Four<u32>, riRep: Four<u32>, rj: Four<u32>, a: Four<u32>,
                    flag: Four<u32>, loadRep: Four<u32>, res0: seq<Four<u32>>, flags0: seq<Four<u32>>, other: Others,
                    ghost v: View)
    returns (res: seq<Four<u32>>, flags: seq<Four<u32>>)
    requires IsPrime(p) && p > M32 && EqOk(prf, p, eq, point) && EqFresh(prf, p, eq, point)
    requires Additive(ri, v.ri) && Replicated(riRep, v.ri) && Additive(rj, v.rj) && Additive(a, v.a)
    requires Replicated(flag, v.flag) && Replicated(loadRep, v.loaded) && |res0| == |flags0| == OPT_SIZE && OthersOk(other)
    ensures |res| == |flags| == OPT_SIZE
    ensures forall k :: 0 <= k < OPT_SIZE ==> SlotDone(res0, res, flags0, flags, other, k, v)
  {
    hide Additive, Replicated, W32, EqOk, EqFresh, IsPrime, Choose, ResultOf, FlagOf, Carry, ChooseShares, Differences;
    var add, addFlag := AddSub(prf, rj, a, false, v.rj, v.a);
    var sub, subFlag := AddSub(prf, rj, a, true, v.rj, v.a);
    var lo, hi, over := M.Multiply(prf, rj, a, v.rj, v.a);
    var eqFlag := CompareEq(prf, p, eq, ri, a, v.ri, v.a, point);
    var aeFlag := CompareGe(prf, ri, a, v.ri, v.a);
    var mov := ConvertOne(a, v.a);
    ChooseAdds(flag, a, ri, v.flag, v.a, v.ri);
    var cmov := ConvertOne(ChooseShares(flag, a, ri), Choose(v.flag, v.a, v.ri));
    var aFlag := Differences(aeFlag, eqFlag);
    AboveFlag(aeFlag, eqFlag, v.ri, v.a);
    res := res0[..1] + other.res[1..ADD]
           + [add, sub, lo, hi, riRep, riRep, riRep, mov, cmov, riRep, riRep, riRep, riRep, loadRep] + [other.res[READ]];
    flags := flags0[..1] + other.flags[1..ADD]
             + [addFlag, subFlag, over, over, eqFlag, aFlag, aeFlag, flags0[MOV], flag, flag, flag, flag, flag, flag]
             + [other.flags[READ]];
    ResultsFit(v);
    forall k | 0 <= k < OPT_SIZE
      ensures SlotDone(res0, res, flags0, flags, other, k, v)
    {
    }
  }

  /** A computed slot holds its opcode's result, a foreign one what was left there, any other what it held before. */
  ghost predicate SlotDone(res0: seq<Four<u32>>, res: seq<Four<u32>>, flags0: seq<Four<u32>>, flags: seq<Four<u32>>,
                           other: Others, k: nat, v: View)
    requires |res0| == |res| == |flags0| == |flags| == |other.res| == |other.flags| == OPT_SIZE && k < OPT_SIZE
  {
    && (if Computed(k) then Replicated(res[k], ResultOf(k, v)) else res[k] == if Foreign(k) then other.res[k] else res0[k])
    && (if Computed(k) && k != MOV then Replicated(flags[k], FlagOf(k, v))
        else flags[k] == if Foreign(k) then other.flags[k] else flags0[k])
  }

  lemma ResultsFit(v: View)
    ensures ResultOf(ADD, v) == Plus32(v.rj, v.a) && ResultOf(SUB, v) == Minus32(v.rj, v.a)
    ensures ResultOf(MULL, v) == W32(v.rj * v.a) && ResultOf(MULLH, v) == v.rj * v.a / M32
    ensures ResultOf(MOV, v) == v.a && ResultOf(CMOV, v) == Choose(v.flag, v.a, v.ri) && ResultOf(LOAD, v) == v.loaded
    ensures forall k :: k in {COMPE, COMPA, COMPAE, JMP, CJMP, CNJMP, STORE} ==> ResultOf(k, v) == v.ri
    ensures FlagOf(ADD, v) == Carry(v.rj, v.a, false) && FlagOf(SUB, v) == Carry(v.rj, v.a, true)
    ensures FlagOf(MULL, v) == FlagOf(MULLH, v) == Ind(M32 <= v.rj * v.a)
    ensures FlagOf(COMPE, v) == Ind(v.ri == v.a) && FlagOf(COMPA, v) == Ind(v.ri > v.a) && FlagOf(COMPAE, v) == Ind(v.ri >= v.a)
    ensures forall k :: k in {CMOV, JMP, CJMP, CNJMP, STORE, LOAD} ==> FlagOf(k, v) == v.flag
  {
  }

  lemma AboveFlag(ae: Four<u32>, eq: Four<u32>, x: u32, y: u32)
    requires Replicated(ae, Ind(x >= y)) && Replicated(eq, Ind(x == y))
    ensures Replicated(Differences(ae, eq), Ind(x > y))
  {
    hide W32;
    WSum(ae.p0 - eq.p0, ae.p2 - eq.p2, 0, 0);
    WSub(ae.p0 + ae.p2, eq.p0 + eq.p2);
    SmallWord(Ind(x > y));
  }

  /** The next program counter: player 0 counts on, and the three jumps add what they call for. */
  method Jumps(pc: Four<u32>, a: Four<u32>, flag: Four<u32>, betas: Four<seq<u32>>, ghost op: nat, ghost pcv: u32, ghost v: View)
    returns (next: Four<u32>)
    requires Additive(pc, pcv) && Additive(a, v.a) && Replicated(flag, v.flag) && BetasFor(betas, op)
    ensures Additive(next, NextPc(op, pcv, v))
  {
    hide Additive, Replicated, BetaIs, W32, JumpShares, JumpIfShares, Sums, Choose;
    var counted := Four(Plus32(pc.p0, 1), pc.p1, pc.p2, pc.p3);
    CountOn(pc, pcv);
    ghost var pc1 := Plus32(pcv, 1);
    assert BetaAt(betas, JMP, op) && BetaAt(betas, CJMP, op) && BetaAt(betas, CNJMP, op);
    var j0 := JumpShares(a, counted, Beta(betas, JMP));
    var j1 := JumpIfShares(flag, a, counted, Beta(betas, CJMP), false);
    var j2 := JumpIfShares(flag, a, counted, Beta(betas, CNJMP), true);
    JumpAdds(a, counted, Beta(betas, JMP), v.a, pc1, Ind(JMP == op));
    JumpIfAdds(flag, a, counted, Beta(betas, CJMP), false, v.flag, v.a, pc1, Ind(CJMP == op));
    JumpIfAdds(flag, a, counted, Beta(betas, CNJMP), true, v.flag, v.a, pc1, Ind(CNJMP == op));
    ghost var d0 := if JMP == op then Minus32(v.a, pc1) else 0;
    ghost var d1 := if CJMP == op then Minus32(Choose(v.flag, v.a, pc1), pc1) else 0;
    ghost var d2 := if CNJMP == op then Minus32(Choose(v.flag, pc1, v.a), pc1) else 0;
    next := Sums(counted, Sums(Sums(j0, j1), j2));
    DifferencesAdd(j0, j1, d0, d1);
    DifferencesAdd(Sums(j0, j1), j2, Plus32(d0, d1), d2);
    DifferencesAdd(counted, Sums(Sums(j0, j1), j2), pc1, Plus32(Plus32(d0, d1), d2));
    JumpLands(pc1, if JMP == op then v.a else if CJMP == op then Choose(v.flag, v.a, pc1) else Choose(v.flag, pc1, v.a));
  }

  lemma CountOn(pc: Four<u32>, pcv: u32)
    requires Additive(pc, pcv)
    ensures Additive(Four(Plus32(pc.p0, 1), pc.p1, pc.p2, pc.p3), Plus32(pcv, 1))
  {
    hide W32;
    WAdd(pc.p0 + 1, pc.p1 + pc.p2 + pc.p3);
    WAdd(pc.p0 + pc.p1 + pc.p2 + pc.p3, 1);
  }

  lemma JumpLands(pc: u32, t: u32)
    ensures Plus32(pc, Plus32(Plus32(Minus32(t, pc), 0), 0)) == t
    ensures Plus32(pc, Plus32(Plus32(0, Minus32(t, pc)), 0)) == t
    ensures Plus32(pc, Plus32(Plus32(0, 0), Minus32(t, pc))) == t
    ensures Plus32(pc, Plus32(Plus32(0, 0), 0)) == pc
  {
    hide W32;
    WSmall(0);
    WSmall(pc);
    WSmall(t);
    var d := Minus32(t, pc);
    WSmall(d);
    WAdd(pc, (t as int) - pc);
  }

  lemma HasArrays(ram: R.Ram)
    requires ram.Valid()
    ensures ram.Arrays()
  {
  }

  /** Load and store: the entry at the operand is fetched, and written back or replaced. */
  method Memory(ram: R.Ram, a: Four<u32>, ri: Four<u32>, betas: Four<seq<u32>>, ghost op: nat, ghost v: View)
    returns (loadRep: Four<u32>, riRep: Four<u32>)
    requires ram.Valid() && ram.len == DATA_LEN && ram.readTimes < |ram.readTriples| && ram.writeTimes < |ram.writeTriples|
    requires |ram.readPoints| == |ram.readTriples| && |ram.writePoints| == |ram.writeTriples|
    requires R.ReadFresh(ram.prf, ram.n, ram.readTriples[ram.readTimes], ram.readPoints[ram.readTimes])
    requires R.WriteFresh(ram.prf, ram.n, ram.writeTriples[ram.writeTimes], ram.writePoints[ram.writeTimes])
    requires Additive(a, v.a) && Additive(ri, v.ri) && BetasFor(betas, op) && v.loaded == ram.Contents()[v.a % DATA_LEN]
    modifies ram`readTimes, ram`writeTimes, ram.ptr.p0, ram.ptr.p1, ram.ptr.p2, ram.ptr.p3
    ensures ram.Valid() && ram.readTimes == old(ram.readTimes) + 1 && ram.writeTimes == old(ram.writeTimes) + 1
    ensures Replicated(loadRep, v.loaded) && Replicated(riRep, v.ri)
    ensures ram.Contents() == NextMem(op, old(ram.Contents()), v)
    ensures ram.Contents() == if op == 19 then old(ram.Contents())[v.a % 8192 := v.ri] else old(ram.Contents())
  {
    hide R.Ram.Valid, R.Ram.Arrays, R.AddSeqs, R.ReadFresh, R.WriteFresh, R.IndexShared, R.DiagShared, Additive, Replicated, W32,
         BetaIs, StoreTarget, Signed;
    ghost var x: nat := v.a % DATA_LEN;
    HasArrays(ram);
    ghost var was := ram.Contents();
    WordIndex(a, v.a, DATA_LEN);
    var raw := ram.Read(a, false, x);
    SignedAdds(raw, v.loaded);
    loadRep := ConvertOne(Signed(raw), v.loaded);
    riRep := ConvertOne(ri, v.ri);
    assert BetaAt(betas, STORE, op);
    var target := StoreTarget(riRep, loadRep, Beta(betas, STORE));
    StoreAdds(riRep, loadRep, Beta(betas, STORE), v.ri, v.loaded, Ind(STORE == op));
    ram.Write(a, target, loadRep, false, true, x, if STORE == op then v.ri else v.loaded, v.loaded);
    assert STORE != op ==> was[x := was[x]] == was;
  }
}
