/** The four-party machine: its shares stand for a plain machine's state, step after step. */
module Machine {
  import opened Congruence
  import opened Words
  import opened Players
  import opened FssCommon
  import opened FssEq
  import R = Ram
  import opened Instruction
  import opened Operations
  import opened Slots
  import opened PlainMachine
  import opened Risc

  /** The key material of one step besides that of the registers and the memory. */
  datatype StepKeys = StepKeys(ins: Four<R.ReadTriple>, dm: Four<R.ReadTriple>, beta: Four<R.ReadTriple>, eq: EqTuple)
  datatype StepPoints = StepPoints(ins: (nat, nat), dm: (nat, nat), beta: (nat, nat), eq: u32)

  ghost predicate KeysOk(prf: Prf, p: int, k: StepKeys, at: StepPoints)
    requires p > 0
  {
    && R.ReadOk(prf, 5, 32, k.ins, at.ins.0, at.ins.1)
    && R.ReadOk(prf, 6, 64, k.dm, at.dm.0, at.dm.1)
    && R.ReadOk(prf, 5, 32, k.beta, at.beta.0, at.beta.1)
    && EqOk(prf, p, k.eq, at.eq)
  }

  ghost predicate KeysFresh(prf: Prf, p: int, k: StepKeys, at: StepPoints)
    requires p > 0
  {
    && R.ReadFresh(prf, 5, k.ins, at.ins) && R.ReadFresh(prf, 6, k.dm, at.dm) && R.ReadFresh(prf, 5, k.beta, at.beta)
    && EqFresh(prf, p, k.eq, at.eq)
  }

  /** The helper draws one step's key material. */
  method DrawStep(prf: Prf, p: int) returns (k: StepKeys, ghost at: StepPoints)
    requires IsPrime(p)
    ensures KeysOk(prf, p, k, at)
  {
    hide *;
    Sizes();
    var ins, i0, i1 := R.DrawRead(prf, 5, 32);
    var dm, d0, d1 := R.DrawRead(prf, 6, 64);
    var beta, b0, b1 := R.DrawRead(prf, 5, 32);
    var eq, point := DrawEq(prf, p);
    k := StepKeys(ins, dm, beta, eq);
    at := StepPoints((i0, i1), (d0, d1), (b0, b1), point);
    PrimePositive(p);
    KeysOkNow(prf, p, k, at);
  }

  ghost predicate AllKeysOk(prf: Prf, p: int, keys: seq<StepKeys>, points: seq<StepPoints>)
    requires p > 0
  {
    |keys| == |points| && forall i :: 0 <= i < |keys| ==> KeysOk(prf, p, keys[i], points[i])
  }

  method DrawSteps(prf: Prf, p: int, n: nat) returns (keys: seq<StepKeys>, ghost points: seq<StepPoints>)
    requires IsPrime(p)
    ensures p > 0 && |keys| == |points| == n && AllKeysOk(prf, p, keys, points)
  {
    hide KeysOk, IsPrime;
    PrimePositive(p);
    keys, points := [], [];
    for i := 0 to n
      invariant |keys| == i && AllKeysOk(prf, p, keys, points)
    {
      var k, at := DrawStep(prf, p);
      keys, points := keys + [k], points + [at];
    }
  }

  lemma KeysAppend(prf: Prf, p: int, k0: seq<StepKeys>, at0: seq<StepPoints>, k1: seq<StepKeys>, at1: seq<StepPoints>)
    requires p > 0 && AllKeysOk(prf, p, k0, at0) && AllKeysOk(prf, p, k1, at1)
    ensures AllKeysOk(prf, p, k0 + k1, at0 + at1)
  {
    hide KeysOk;
  }

  /** None of the key pairs from the given one on has colliding leaves. */
  ghost predicate AllKeysFresh(prf: Prf, p: int, keys: seq<StepKeys>, points: seq<StepPoints>, from: nat)
    requires p > 0 && |points| == |keys|
  {
    forall i :: from <= i < |keys| ==> KeysFresh(prf, p, keys[i], points[i])
  }

  lemma FreshKey(prf: Prf, p: int, keys: seq<StepKeys>, points: seq<StepPoints>, i: nat)
    requires p > 0 && AllKeysOk(prf, p, keys, points) && |points| == |keys|
    requires AllKeysFresh(prf, p, keys, points, i) && i < |keys|
    ensures KeysOk(prf, p, keys[i], points[i]) && KeysFresh(prf, p, keys[i], points[i])
    ensures AllKeysFresh(prf, p, keys, points, i + 1)
  {
    hide KeysOk, KeysFresh;
  }

  lemma KeysOkNow(prf: Prf, p: int, k: StepKeys, at: StepPoints)
    requires p > 0
    requires R.ReadOk(prf, 5, 32, k.ins, at.ins.0, at.ins.1) && R.ReadOk(prf, 6, 64, k.dm, at.dm.0, at.dm.1)
    requires R.ReadOk(prf, 5, 32, k.beta, at.beta.0, at.beta.1) && EqOk(prf, p, k.eq, at.eq)
    ensures KeysOk(prf, p, k, at)
  {
  }

  /** The registers' arrays and the memory's arrays have nothing in common. */
  ghost predicate Apart(a: Four<array<u32>>, b: Four<array<u32>>) {
    && a.p0 != b.p0 && a.p0 != b.p1 && a.p0 != b.p2 && a.p0 != b.p3
    && a.p1 != b.p0 && a.p1 != b.p1 && a.p1 != b.p2 && a.p1 != b.p3
    && a.p2 != b.p0 && a.p2 != b.p1 && a.p2 != b.p2 && a.p2 != b.p3
    && a.p3 != b.p0 && a.p3 != b.p1 && a.p3 != b.p2 && a.p3 != b.p3
  }

  class Machine {
    const prf: Prf
    const p: int
    /** The packed program: players 0 and 1 hold ins0, players 2 and 3 hold ins1. */
    const ins0: seq<u64>
    const ins1: seq<u64>
    const mRam: R.Ram
    const memRam: R.Ram
    var pc: Four<u32>
    var flag: Four<u32>
    var res: seq<Four<u32>>
    var flags: seq<Four<u32>>
    var nowIns: Four<Ins>
    var ri: Four<u32>
    var rj: Four<u32>
    var a: Four<u32>
    var riRep: Four<u32>
    var betas: Four<seq<u32>>
    var done: bool
    /** How many instructions have been loaded, and the key material for these and later ones. */
    var countNum: nat
    var keys: seq<StepKeys>
    ghost var points: seq<StepPoints>

    ghost predicate Valid()
      reads this, mRam, memRam, mRam.ptr.p0, mRam.ptr.p1, mRam.ptr.p2, mRam.ptr.p3
      reads memRam.ptr.p0, memRam.ptr.p1, memRam.ptr.p2, memRam.ptr.p3
    {
      && mRam != memRam && Apart(mRam.ptr, memRam.ptr)
      && mRam.Valid() && memRam.Valid() && Lengths(mRam) && Lengths(memRam)
      && mRam.len == M_LEN && memRam.len == DATA_LEN
      && IsPrime(p) && p > M32 && |res| == |flags| == OPT_SIZE
      && countNum <= |keys| == |points| && AllKeysOk(prf, p, keys, points)
    }

    /** The shares stand for the plain state. */
    ghost predicate Represents(s: State)
      requires Valid()
      reads this, mRam, memRam, mRam.ptr.p0, mRam.ptr.p1, mRam.ptr.p2, mRam.ptr.p3
      reads memRam.ptr.p0, memRam.ptr.p1, memRam.ptr.p2, memRam.ptr.p3
    {
      && Shaped(s) && Additive(pc, s.pc) && Additive(flag, s.flag)
      && mRam.Contents() == s.m && memRam.Contents() == s.mem
    }

    /** Sums of shares: four of the program counter and the flag, two of every register and memory entry. */
    lemma RepresentsIs(s: State)
      requires Valid() && Represents(s)
      ensures s.pc == (pc.p0 + pc.p1 + pc.p2 + pc.p3) % 0x1_0000_0000
      ensures s.flag == (flag.p0 + flag.p1 + flag.p2 + flag.p3) % 0x1_0000_0000
      ensures |s.m| == mRam.ptr.p0.Length == mRam.ptr.p2.Length == 32
      ensures |s.mem| == memRam.ptr.p0.Length == memRam.ptr.p2.Length == 8192
      ensures forall x :: 0 <= x < 32 ==> s.m[x] == ((mRam.ptr.p0[x] as int) + mRam.ptr.p2[x]) % 0x1_0000_0000
      ensures forall x :: 0 <= x < 8192 ==> s.mem[x] == ((memRam.ptr.p0[x] as int) + memRam.ptr.p2[x]) % 0x1_0000_0000
    {
      hide AllKeysOk, IsPrime;
    }

    /** The slots that no operation assigns repeat h within the pairs. */
    ghost predicate Holds(h: Unset)
      reads this
    {
      |res| == |flags| == OPT_SIZE && UnsetHold(res, flags, h)
    }

    /** Key material for n more steps is there. */
    ghost predicate Stocked(n: nat)
      reads this, mRam, memRam
    {
      && countNum + n <= |keys|
      && mRam.readTimes + 2 * n <= |mRam.readTriples| && mRam.writeTimes + n <= |mRam.writeTriples|
      && memRam.readTimes + n <= |memRam.readTriples| && memRam.writeTimes + n <= |memRam.writeTriples|
    }

    /** None of the unused key pairs has colliding leaves. */
    ghost predicate Fresh()
      requires Valid()
      reads this, mRam, memRam, mRam.ptr.p0, mRam.ptr.p1, mRam.ptr.p2, mRam.ptr.p3
      reads memRam.ptr.p0, memRam.ptr.p1, memRam.ptr.p2, memRam.ptr.p3
    {
      && AllKeysFresh(prf, p, keys, points, countNum)
      && RamFresh(mRam) && RamFresh(memRam)
    }

    /** The shares that the helper dealt: of the program, the registers, the memory, the program
        counter and the flag; what the result slots hold at first is left open. */
    constructor (prf: Prf, p: int, ins0: seq<u64>, ins1: seq<u64>, mRam: R.Ram, memRam: R.Ram,
                 pc: Four<u32>, flag: Four<u32>, res: seq<Four<u32>>, flags: seq<Four<u32>>)
      requires mRam != memRam && mRam.Valid() && memRam.Valid() && Lengths(mRam) && Lengths(memRam)
      requires Apart(mRam.ptr, memRam.ptr)
      requires mRam.len == M_LEN && memRam.len == DATA_LEN && IsPrime(p) && p > M32 && |res| == |flags| == OPT_SIZE
      ensures Valid() && !done && countNum == 0 && keys == []
      ensures this.mRam == mRam && this.memRam == memRam && this.ins0 == ins0 && this.ins1 == ins1
      ensures this.pc == pc && this.flag == flag && this.res == res && this.flags == flags
    {
      hide R.Ram.Valid;
      var zero := Four(0, 0, 0, 0);
      var noIns := Ins(0, 0, 0, 0, 0, 0);
      this.prf, this.p, this.ins0, this.ins1, this.mRam, this.memRam := prf, p, ins0, ins1, mRam, memRam;
      this.pc, this.flag, this.res, this.flags := pc, flag, res, flags;
      nowIns, ri, rj, a, riRep, betas, done := Four(noIns, noIns, noIns, noIns), zero, zero, zero, zero, Four([], [], [], []), false;
      countNum, keys, points := 0, [], [];
    }

    /** The helper deals key material for n more steps. */
    method Prepare(n: nat)
      requires Valid()
      modifies this`keys, this`points
      modifies mRam`readTriples, mRam`readPoints, mRam`writeTriples, mRam`writePoints
      modifies memRam`readTriples, memRam`readPoints, memRam`writeTriples, memRam`writePoints
      ensures Valid() && Stocked(n)
      ensures mRam.Contents() == old(mRam.Contents()) && memRam.Contents() == old(memRam.Contents())
    {
      hide R.Ram.Valid, R.Ram.Arrays, R.AddSeqs, IsPrime, AllKeysOk;
      StockRam(mRam, 2 * n, n);
      StockRam(memRam, n, n);
      var more, at := DrawSteps(prf, p, n);
      KeysAppend(prf, p, keys, points, more, at);
      keys, points := keys + more, points + at;
    }

    /** An instruction's operands are shared, and the selection bits for its opcode. */
    ghost predicate Decoded(ins: Ins, s: State)
      requires Valid()
      reads this, mRam, memRam, mRam.ptr.p0, mRam.ptr.p1, mRam.ptr.p2, mRam.ptr.p3
      reads memRam.ptr.p0, memRam.ptr.p1, memRam.ptr.p2, memRam.ptr.p3
    {
      && Shaped(s) && InRange(ins) && FieldsShared(nowIns, ins) && BetasFor(betas, ins.optr)
      && OperandsShared(ri, rj, a, flag, s, ins)
      && Additive(pc, s.pc) && mRam.Contents() == s.m && memRam.Contents() == s.mem
    }

    /** Fetch and decode. */
    method LoadIns(ghost program: seq<Ins>, ghost s: State)
      requires Valid() && Stocked(1) && Fresh() && Represents(s) && ProgramShared(ins0, ins1, program)
      modifies this`countNum, this`nowIns, this`flag, this`ri, this`rj, this`a, this`betas, this`done, mRam`readTimes
      ensures Valid() && Fresh() && countNum == old(countNum) + 1 && mRam.readTimes == old(mRam.readTimes) + 2
      ensures InRange(Fetch(program, s.pc)) && Decoded(Fetch(program, s.pc), s)
      ensures done <==> old(done) || Fetch(program, s.pc).optr == 0
    {
      hide Apart, Lengths, R.Ram.Valid, R.Ram.Arrays, R.AddSeqs, R.ReadOk, R.ReadFresh, IsPrime, AllKeysOk, AllKeysFresh, KeysOk, KeysFresh, Shaped,
           Additive, InRange, ProgramShared, FieldsShared, BetasFor, Fetch, RamFresh, OperandsShared, W32, EqOk, EqFresh, ViewOf;
      FreshKey(prf, p, keys, points, countNum);
      var fetched, x, y, z, f, bits, stop := FetchDecode(prf, p, keys[countNum], points[countNum], ins0, ins1, mRam, pc, flag, program, s);
      countNum := countNum + 1;
      nowIns, ri, rj, a, flag, betas := fetched, x, y, z, f, bits;
      if stop {
        done := true;
      }
    }

    /** Every operation at once; the memory and the program counter move on. */
    method RunOp(other: Others, ghost ins: Ins, ghost s: State)
      requires OthersOk(other) && Valid() && Fresh() && Decoded(ins, s) && 1 <= countNum
      requires KeysOk(prf, p, keys[countNum - 1], points[countNum - 1]) && KeysFresh(prf, p, keys[countNum - 1], points[countNum - 1])
      requires memRam.readTimes < |memRam.readTriples| && memRam.writeTimes < |memRam.writeTriples|
      modifies this`pc, this`res, this`flags, this`riRep
      modifies memRam`readTimes, memRam`writeTimes, memRam.ptr.p0, memRam.ptr.p1, memRam.ptr.p2, memRam.ptr.p3
      ensures Valid() && Fresh()
      ensures memRam.readTimes == old(memRam.readTimes) + 1 && memRam.writeTimes == old(memRam.writeTimes) + 1
      ensures Additive(pc, NextPc(ins.optr, s.pc, ViewOf(s, ins))) && Replicated(riRep, ViewOf(s, ins).ri)
      ensures memRam.Contents() == NextMem(ins.optr, s.mem, ViewOf(s, ins)) && mRam.Contents() == s.m
      ensures forall k :: 0 <= k < OPT_SIZE ==> SlotDone(old(res), res, old(flags), flags, other, k, ViewOf(s, ins))
    {
      hide R.Ram.Valid, R.Ram.Arrays, R.AddSeqs, IsPrime, AllKeysOk, AllKeysFresh, KeysOk, KeysFresh, OperandsShared, OthersOk,
           Additive, Replicated, InRange, FieldsShared, BetasFor, ViewOf, SlotDone, NextPc, NextMem, RamFresh;
      var next, r, f, rep := RunAll(prf, p, keys[countNum - 1], points[countNum - 1], memRam, pc, ri, rj, a, flag, betas, res, flags, other, ins, s);
      pc, res, flags, riRep := next, r, f, rep;
    }

    /** The sums over all slots are written to the register and kept as the flag. */
    method RetRes(ghost ins: Ins, ghost s: State)
      requires Valid() && Fresh() && InRange(ins) && Shaped(s) && FieldsShared(nowIns, ins) && BetasFor(betas, ins.optr)
      requires Replicated(riRep, ViewOf(s, ins).ri) && mRam.Contents() == s.m && mRam.writeTimes < |mRam.writeTriples|
      modifies this`flag, mRam`writeTimes, mRam.ptr.p0, mRam.ptr.p1, mRam.ptr.p2, mRam.ptr.p3
      ensures Valid() && Fresh() && mRam.writeTimes == old(mRam.writeTimes) + 1
      ensures ins.i < 32 && mRam.Contents() == s.m[ins.i := SlotTotal(res, betas, ins.optr)]
      ensures Additive(flag, SlotTotal(flags, betas, ins.optr))
      ensures memRam.Contents() == old(memRam.Contents())
    {
      hide R.Ram.Valid, R.Ram.Arrays, R.AddSeqs, IsPrime, AllKeysOk, AllKeysFresh, KeysFresh, Additive, Replicated, InRange, FieldsShared,
           BetasFor, ViewOf, RamFresh, SlotTotal;
      flag := SelectAll(mRam, nowIns, riRep, betas, res, flags, ins, s);
    }

    /** One instruction: the shares of a plain state become shares of its successor t. Opcode 19 alone writes to the
        memory; opcode 16 goes to the operand, 17 if the flag is 1, 18 if it is 0, all others go on. */
    method Step(other: Others, ghost program: seq<Ins>, ghost s: State, ghost h: Unset) returns (ghost t: State)
      requires Valid() && Stocked(1) && Fresh() && Represents(s) && Holds(h) && ProgramShared(ins0, ins1, program)
      requires OthersOk(other)
      modifies this`countNum, this`nowIns, this`flag, this`ri, this`rj, this`a, this`betas, this`done
      modifies this`pc, this`res, this`flags, this`riRep
      modifies mRam`readTimes, mRam`writeTimes, mRam.ptr.p0, mRam.ptr.p1, mRam.ptr.p2, mRam.ptr.p3
      modifies memRam`readTimes, memRam`writeTimes, memRam.ptr.p0, memRam.ptr.p1, memRam.ptr.p2, memRam.ptr.p3
      ensures Valid() && Fresh() && Holds(Replaced(h, other))
      ensures ProgramOk(program) && t == PlainStep(program, Replaced(h, other), s) && Represents(t)
      ensures Follows(program, s, t)
      ensures done <==> old(done) || Fetch(program, s.pc).optr == 0
      ensures countNum == old(countNum) + 1
      ensures mRam.readTimes == old(mRam.readTimes) + 2 && mRam.writeTimes == old(mRam.writeTimes) + 1
      ensures memRam.readTimes == old(memRam.readTimes) + 1 && memRam.writeTimes == old(memRam.writeTimes) + 1
    {
      hide Apart, Lengths, UnsetHold, R.Ram.Valid, R.Ram.Arrays, R.AddSeqs, IsPrime, AllKeysOk, AllKeysFresh, KeysOk, KeysFresh, OperandsShared, Additive, Replicated,
           InRange, FieldsShared, BetasFor, ViewOf, SlotDone, SlotHolds, NextPc, NextMem, RamFresh, Selected, SelectedFlag,
           ProgramShared, Fetch, ProgramOk, SlotTotal, Replaced, OthersOk, Follows;
      ProgramAt(ins0, ins1, program, s.pc);
      ghost var ins := Fetch(program, s.pc);
      FreshKey(prf, p, keys, points, countNum);
      UnsetThere(res, flags, h);
      ghost var res0, flags0, now := res, flags, Replaced(h, other);
      LoadIns(program, s);
      RunOp(other, ins, s);
      SlotsHold(res0, res, flags0, flags, other, ViewOf(s, ins), h);
      RetRes(ins, s);
      SlotsTotal(res, flags, betas, ViewOf(s, ins), now, ins.optr);
      StepIs(program, now, s);
      StepFollows(program, now, s);
      t := PlainStep(program, now, s);
      StillUnset(res0, res, flags0, flags, other, ViewOf(s, ins), h);
    }

    /** Any number of instructions: the machine keeps pace with the plain machine, whatever the foreign
        operations leave in their slots at each of them. */
    method Run(others: seq<Others>, ghost program: seq<Ins>, ghost s: State, ghost h: Unset)
      requires Valid() && Stocked(|others|) && Fresh() && Represents(s) && Holds(h) && ProgramShared(ins0, ins1, program)
      requires AllOthersOk(others)
      modifies this`countNum, this`nowIns, this`flag, this`ri, this`rj, this`a, this`betas, this`done
      modifies this`pc, this`res, this`flags, this`riRep
      modifies mRam`readTimes, mRam`writeTimes, mRam.ptr.p0, mRam.ptr.p1, mRam.ptr.p2, mRam.ptr.p3
      modifies memRam`readTimes, memRam`writeTimes, memRam.ptr.p0, memRam.ptr.p1, memRam.ptr.p2, memRam.ptr.p3
      ensures Valid() && ProgramOk(program) && Represents(PlainRun(program, Unsets(h, others), s, |others|))
    {
      hide Machine.Represents, Machine.Fresh, Machine.Valid, Machine.Holds, ProgramShared, PlainStep, R.Ram.Valid, Replaced, OthersOk;
      ProgramAt(ins0, ins1, program, 0);
      PlainReady(this, s, h);
      ghost var hs, now := Unsets(h, others), h;
      for i := 0 to |others|
        invariant Valid() && Fresh() && UnsetOk(now) && Holds(now) && Represents(PlainRun(program, hs, s, i))
        invariant forall o :: OthersOk(o) ==> Replaced(now, o) == Replaced(h, o)
        invariant countNum == old(countNum) + i
        invariant mRam.readTimes == old(mRam.readTimes) + 2 * i && mRam.writeTimes == old(mRam.writeTimes) + i
        invariant memRam.readTimes == old(memRam.readTimes) + i && memRam.writeTimes == old(memRam.writeTimes) + i
      {
        ghost var t := Step(others[i], program, PlainRun(program, hs, s, i), now);
        ReplacedTwice(now, others[i]);
        now := Replaced(now, others[i]);
      }
    }
  }

  lemma PlainReady(machine: Machine, s: State, h: Unset)
    requires machine.Valid() && machine.Represents(s) && machine.Holds(h)
    ensures Shaped(s) && UnsetOk(h) && |machine.res| == |machine.flags| == OPT_SIZE
  {
  }

  ghost predicate UnsetHold(res: seq<Four<u32>>, flags: seq<Four<u32>>, h: Unset)
    requires |res| == |flags| == OPT_SIZE
  {
    && UnsetOk(h)
    && (forall k :: 0 <= k < OPT_SIZE && !Computed(k) ==> Replicated(res[k], h.res[k]))
    && (forall k :: 0 <= k < OPT_SIZE && !(Computed(k) && k != MOV) ==> Replicated(flags[k], h.flags[k]))
  }

  lemma UnsetThere(res: seq<Four<u32>>, flags: seq<Four<u32>>, h: Unset)
    requires |res| == |flags| == OPT_SIZE && UnsetHold(res, flags, h)
    ensures UnsetOk(h)
  {
  }

  /** What the uncomputed slots hold once the foreign operations have left their words. */
  ghost function Replaced(h: Unset, other: Others): (r: Unset)
    requires UnsetOk(h) && OthersOk(other)
    ensures UnsetOk(r)
  {
    Unset(seq(OPT_SIZE, k requires 0 <= k < OPT_SIZE => if Foreign(k) then Held(other.res[k]) else h.res[k]),
          seq(OPT_SIZE, k requires 0 <= k < OPT_SIZE => if Foreign(k) then Held(other.flags[k]) else h.flags[k]))
  }

  /** The slots of opcodes 1 to 6 and 21 change, the others stay. */
  lemma ReplacedIs(h: Unset, other: Others, k: nat)
    requires UnsetOk(h) && OthersOk(other) && k < 22
    ensures |h.res| == |h.flags| == |other.res| == |other.flags| == 22
    ensures Replaced(h, other).res[k]
            == if 1 <= k <= 6 || k == 21 then ((other.res[k].p0 as int) + other.res[k].p2) % 0x1_0000_0000 else h.res[k]
    ensures Replaced(h, other).flags[k]
            == if 1 <= k <= 6 || k == 21 then ((other.flags[k].p0 as int) + other.flags[k].p2) % 0x1_0000_0000 else h.flags[k]
  {
  }

  lemma ReplacedTwice(h: Unset, other: Others)
    requires UnsetOk(h) && OthersOk(other)
    ensures forall o :: OthersOk(o) ==> Replaced(Replaced(h, other), o) == Replaced(h, o)
  {
    hide Held, OthersOk;
    forall o | OthersOk(o)
      ensures Replaced(Replaced(h, other), o) == Replaced(h, o)
    {
    }
  }

  ghost predicate AllOthersOk(others: seq<Others>) {
    forall i :: 0 <= i < |others| ==> OthersOk(others[i])
  }

  /** What the uncomputed slots hold at each step of a run that starts with h in them. */
  ghost function Unsets(h: Unset, others: seq<Others>): (hs: seq<Unset>)
    requires UnsetOk(h) && AllOthersOk(others)
    ensures |hs| == |others| && AllUnsetOk(hs)
  {
    seq(|others|, i requires 0 <= i < |others| => Replaced(h, others[i]))
  }

  /** As long as no foreign opcode is executed, what the foreign operations leave is of no account. */
  lemma OthersForgotten(program: seq<Ins>, h: Unset, others: seq<Others>, others': seq<Others>, s: State)
    requires ProgramOk(program) && UnsetOk(h) && AllOthersOk(others) && AllOthersOk(others') && |others| == |others'| && Shaped(s)
    requires forall i :: 0 <= i < |others| ==> !Foreign(OpAt(program, Unsets(h, others), s, i))
    ensures PlainRun(program, Unsets(h, others), s, |others|) == PlainRun(program, Unsets(h, others'), s, |others|)
  {
    hide Held, OthersOk, OpAt;
    var hs, hs' := Unsets(h, others), Unsets(h, others');
    forall i | 0 <= i < |others|
      ensures SameFor(OpAt(program, hs, s, i), hs[i], hs'[i])
    {
      assert !Foreign(OpAt(program, hs, s, i));
    }
    RunIndependent(program, hs, hs', s, |others|);
  }

  lemma SlotsHold(res0: seq<Four<u32>>, res: seq<Four<u32>>, flags0: seq<Four<u32>>, flags: seq<Four<u32>>, other: Others,
                  v: View, h: Unset)
    requires |res0| == |res| == |flags0| == |flags| == OPT_SIZE && UnsetHold(res0, flags0, h) && OthersOk(other)
    requires forall k :: 0 <= k < OPT_SIZE ==> SlotDone(res0, res, flags0, flags, other, k, v)
    ensures forall k :: 0 <= k < OPT_SIZE ==> SlotHolds(res[k], flags[k], k, v, Replaced(h, other))
  {
    hide Replicated, ResultOf, FlagOf, Held, Repeats;
    forall k | 0 <= k < OPT_SIZE
      ensures SlotHolds(res[k], flags[k], k, v, Replaced(h, other))
    {
      assert SlotDone(res0, res, flags0, flags, other, k, v);
      if Foreign(k) {
        RepeatsHolds(res[k]);
        RepeatsHolds(flags[k]);
      }
    }
  }

  lemma RepeatsHolds(x: Four<u32>)
    ensures Repeats(x) ==> Replicated(x, Held(x))
  {
  }

  lemma StillUnset(res0: seq<Four<u32>>, res: seq<Four<u32>>, flags0: seq<Four<u32>>, flags: seq<Four<u32>>, other: Others,
                   v: View, h: Unset)
    requires |res0| == |res| == |flags0| == |flags| == OPT_SIZE && UnsetHold(res0, flags0, h) && OthersOk(other)
    requires forall k :: 0 <= k < OPT_SIZE ==> SlotDone(res0, res, flags0, flags, other, k, v)
    ensures UnsetHold(res, flags, Replaced(h, other))
  {
    SlotsHold(res0, res, flags0, flags, other, v, h);
    hide Replicated, ResultOf, FlagOf, Held, Repeats, SlotDone, Replaced;
    forall k | 0 <= k < OPT_SIZE
      ensures !Computed(k) ==> Replicated(res[k], Replaced(h, other).res[k])
      ensures !(Computed(k) && k != MOV) ==> Replicated(flags[k], Replaced(h, other).flags[k])
    {
      assert SlotHolds(res[k], flags[k], k, v, Replaced(h, other));
    }
  }

  /** The parts of a plain step. */
  lemma StepIs(program: seq<Ins>, h: Unset, s: State)
    requires ProgramOk(program) && UnsetOk(h) && Shaped(s) && InRange(Fetch(program, s.pc))
    ensures var ins := Fetch(program, s.pc);
            var v, t := ViewOf(s, ins), PlainStep(program, h, s);
            && ins.i < 32 && t.pc == NextPc(ins.optr, s.pc, v) && t.flag == SelectedFlag(ins.optr, v, h)
            && t.m == s.m[ins.i := Selected(ins.optr, v, h)] && t.mem == NextMem(ins.optr, s.mem, v) && Shaped(t)
  {
    hide ViewOf, Selected, SelectedFlag, NextPc, NextMem, Fetch;
    FieldsBound(Fetch(program, s.pc));
  }

  /** A slot holds its opcode's result, or what it has held all along. */
  ghost predicate SlotHolds(r: Four<u32>, f: Four<u32>, k: nat, v: View, h: Unset)
    requires UnsetOk(h) && k < OPT_SIZE
  {
    Replicated(r, Selected(k, v, h)) && Replicated(f, SelectedFlag(k, v, h))
  }

  /** All operations, with the memory. */
  method RunAll(prf: Prf, p: int, k: StepKeys, ghost at: StepPoints, ram: R.Ram, pc: Four<u32>, ri: Four<u32>, rj: Four<u32>,
                a: Four<u32>, flag: Four<u32>, betas: Four<seq<u32>>, res0: seq<Four<u32>>, flags0: seq<Four<u32>>,
                other: Others, ghost ins: Ins, ghost s: State)
    returns (next: Four<u32>, res: seq<Four<u32>>, flags: seq<Four<u32>>, riRep: Four<u32>)
    requires IsPrime(p) && p > M32 && KeysOk(prf, p, k, at) && KeysFresh(prf, p, k, at) && |res0| == |flags0| == OPT_SIZE && OthersOk(other)
    requires ram.Valid() && Lengths(ram) && RamFresh(ram) && ram.len == DATA_LEN
    requires ram.readTimes < |ram.readTriples| && ram.writeTimes < |ram.writeTriples|
    requires Shaped(s) && InRange(ins) && OperandsShared(ri, rj, a, flag, s, ins) && BetasFor(betas, ins.optr)
    requires Additive(pc, s.pc) && ram.Contents() == s.mem
    modifies ram`readTimes, ram`writeTimes, ram.ptr.p0, ram.ptr.p1, ram.ptr.p2, ram.ptr.p3
    ensures ram.Valid() && Lengths(ram) && RamFresh(ram)
    ensures ram.readTimes == old(ram.readTimes) + 1 && ram.writeTimes == old(ram.writeTimes) + 1
    ensures Additive(next, NextPc(ins.optr, s.pc, ViewOf(s, ins))) && Replicated(riRep, ViewOf(s, ins).ri)
    ensures ram.Contents() == NextMem(ins.optr, s.mem, ViewOf(s, ins))
    ensures |res| == |flags| == OPT_SIZE
    ensures forall j :: 0 <= j < OPT_SIZE ==> SlotDone(res0, res, flags0, flags, other, j, ViewOf(s, ins))
  {
    hide R.Ram.Valid, R.Ram.Arrays, R.AddSeqs, R.ReadOk, R.ReadFresh, R.WriteFresh, IsPrime, EqOk, EqFresh,
         Additive, Replicated, InRange, BetasFor, ViewOf, SlotDone, NextPc, NextMem;
    ghost var v := ViewOf(s, ins);
    ViewLoads(s, ins);
    var loadRep, rep := Memory(ram, a, ri, betas, ins.optr, v);
    RamLengths(ram);
    next := Jumps(pc, a, flag, betas, ins.optr, s.pc, v);
    res, flags := ComputeAll(prf, p, k.eq, at.eq, ri, rep, rj, a, flag, loadRep, res0, flags0, other, v);
    riRep := rep;
  }

  lemma ViewLoads(s: State, ins: Ins)
    requires Shaped(s) && InRange(ins)
    ensures var v := ViewOf(s, ins); v.loaded == s.mem[v.a % DATA_LEN] && v.flag == s.flag
  {
    hide InRange;
  }

  /** What the sums over all slots amount to: the selected result and the spills. */
  function SlotTotal(slots: seq<Four<u32>>, betas: Four<seq<u32>>, op: nat): u32
    requires |slots| == OPT_SIZE
    requires OPT_SIZE <= |betas.p0| && OPT_SIZE <= |betas.p1| && OPT_SIZE <= |betas.p2| && OPT_SIZE <= |betas.p3|
  {
    Plus32(Chosen(slots, op, OPT_SIZE), Leak(slots, betas, OPT_SIZE))
  }

  /** The write-back: the register named by the shared index receives the sum. */
  method SelectAll(ram: R.Ram, r: Four<Ins>, riRep: Four<u32>, betas: Four<seq<u32>>, res: seq<Four<u32>>, flags: seq<Four<u32>>,
                   ghost ins: Ins, ghost s: State)
    returns (nowFlag: Four<u32>)
    requires ram.Valid() && Lengths(ram) && RamFresh(ram) && ram.len == M_LEN && ram.writeTimes < |ram.writeTriples|
    requires Shaped(s) && InRange(ins) && FieldsShared(r, ins) && BetasFor(betas, ins.optr) && ram.Contents() == s.m
    requires Replicated(riRep, ViewOf(s, ins).ri) && |res| == |flags| == OPT_SIZE
    modifies ram`writeTimes, ram.ptr.p0, ram.ptr.p1, ram.ptr.p2, ram.ptr.p3
    ensures ram.Valid() && Lengths(ram) && RamFresh(ram) && ram.writeTimes == old(ram.writeTimes) + 1
    ensures ins.i < 32 && ram.Contents() == s.m[ins.i := SlotTotal(res, betas, ins.optr)]
    ensures Additive(nowFlag, SlotTotal(flags, betas, ins.optr))
  {
    hide R.Ram.Valid, R.Ram.Arrays, R.AddSeqs, R.ReadFresh, R.WriteFresh, R.IndexShared, R.DiagShared, Additive, Replicated, InRange,
         FieldsShared, BetaAt, ViewOf, W32, Cong, Held, Leak;
    ghost var v := ViewOf(s, ins);
    FieldsBound(ins);
    ViewRegister(s, ins);
    DecodedFields(r, ins);
    var nowRes := SumAll(res, betas, ins.optr);
    nowFlag := SumAll(flags, betas, ins.optr);
    var i0: u32, i1: u32, i2: u32, i3: u32 := r.p0.i, r.p1.i, r.p2.i, r.p3.i;
    FieldIndex(Four(i0, i1, i2, i3), ins.i, 32);
    ram.Write(Four(i0, i1, i2, i3), nowRes, riRep, false, true, ins.i, SlotTotal(res, betas, ins.optr), v.ri);
    RamLengths(ram);
  }

  lemma ViewRegister(s: State, ins: Ins)
    requires Shaped(s) && InRange(ins)
    ensures ins.i < 32 && |s.m| == 32 && ViewOf(s, ins).ri == s.m[ins.i]
  {
    FieldsBound(ins);
    hide InRange;
  }

  /** Every slot repeats within the pairs, so that the sums are the selected result and flag. */
  lemma SlotsTotal(res: seq<Four<u32>>, flags: seq<Four<u32>>, betas: Four<seq<u32>>, v: View, h: Unset, op: nat)
    requires |res| == |flags| == OPT_SIZE && UnsetOk(h) && BetasFor(betas, op)
    requires forall k :: 0 <= k < OPT_SIZE ==> SlotHolds(res[k], flags[k], k, v, h)
    ensures SlotTotal(res, betas, op) == Selected(op, v, h) && SlotTotal(flags, betas, op) == SelectedFlag(op, v, h)
  {
    hide ResultOf, FlagOf, W32, Computed, BetaAt, Leak, Plus32;
    forall k | 0 <= k < OPT_SIZE
      ensures Repeats(res[k]) && Repeats(flags[k]) && Held(res[k]) == Selected(k, v, h) && Held(flags[k]) == SelectedFlag(k, v, h)
    {
      hide Selected, SelectedFlag;
      assert SlotHolds(res[k], flags[k], k, v, h);
      HeldIs(res[k], Selected(k, v, h));
      HeldIs(flags[k], SelectedFlag(k, v, h));
    }
    NoLeak(res, betas, OPT_SIZE);
    NoLeak(flags, betas, OPT_SIZE);
    PlusZero(Chosen(res, op, OPT_SIZE));
    PlusZero(Chosen(flags, op, OPT_SIZE));
  }

  lemma HeldIs(x: Four<u32>, v: u32)
    requires Replicated(x, v)
    ensures Repeats(x) && Held(x) == v
  {
  }

  /** The instruction at the program counter, its operands and its selection bits. */
  method FetchDecode(prf: Prf, p: int, k: StepKeys, ghost at: StepPoints, ins0: seq<u64>, ins1: seq<u64>, ram: R.Ram,
                     pc: Four<u32>, flag: Four<u32>, ghost program: seq<Ins>, ghost s: State)
    returns (fetched: Four<Ins>, ri: Four<u32>, rj: Four<u32>, a: Four<u32>, flagRep: Four<u32>, betas: Four<seq<u32>>, stop: bool)
    requires p > 0 && KeysOk(prf, p, k, at) && KeysFresh(prf, p, k, at) && ProgramShared(ins0, ins1, program)
    requires ram.Valid() && Lengths(ram) && RamFresh(ram) && ram.readTimes + 2 <= |ram.readTriples| && ram.len == M_LEN
    requires Shaped(s) && Additive(pc, s.pc) && Additive(flag, s.flag) && ram.Contents() == s.m
    modifies ram`readTimes
    ensures ram.Valid() && Lengths(ram) && RamFresh(ram) && ram.readTimes == old(ram.readTimes) + 2
    ensures InRange(Fetch(program, s.pc)) && FieldsShared(fetched, Fetch(program, s.pc))
    ensures OperandsShared(ri, rj, a, flagRep, s, Fetch(program, s.pc)) && BetasFor(betas, Fetch(program, s.pc).optr)
    ensures stop <==> Fetch(program, s.pc).optr == 0
  {
    hide R.Ram.Valid, R.Ram.Arrays, R.AddSeqs, R.ReadOk, R.ReadFresh, EqOk, EqFresh, Additive, Replicated, InRange, FieldsShared,
         ProgramShared, BetasFor, Fetch, W32, RamFresh, OperandsShared, ViewOf, Shaped;
    ProgramAt(ins0, ins1, program, s.pc);
    ghost var ins := Fetch(program, s.pc);
    fetched := FetchIns(prf, k.ins, at.ins, pc, ins0, ins1, program, s.pc);
    ri, rj, a, flagRep := ReadOperands(prf, p, k, at, ram, fetched, flag, ins, s);
    betas := ReadBetas(prf, k.beta, at.beta, fetched, ins);
    StopBit(betas, ins.optr);
    stop := Plus32(betas.p0[0], betas.p1[0]) == 1;
  }

  /** Additive shares of what the instruction sees, and the flag replicated. */
  ghost predicate OperandsShared(ri: Four<u32>, rj: Four<u32>, a: Four<u32>, flag: Four<u32>, s: State, ins: Ins)
    requires Shaped(s) && InRange(ins)
  {
    var v := ViewOf(s, ins);
    Additive(ri, v.ri) && Additive(rj, v.rj) && Additive(a, v.a) && Replicated(flag, v.flag)
  }

  /** The two registers and the operand of a fetched instruction, and the flag in replicated form. */
  method ReadOperands(prf: Prf, p: int, k: StepKeys, ghost at: StepPoints, ram: R.Ram, r: Four<Ins>, flag: Four<u32>,
                      ghost ins: Ins, ghost s: State)
    returns (ri: Four<u32>, rj: Four<u32>, a: Four<u32>, flagRep: Four<u32>)
    requires R.ReadOk(prf, 6, 64, k.dm, at.dm.0, at.dm.1) && R.ReadFresh(prf, 6, k.dm, at.dm)
    requires ram.Valid() && Lengths(ram) && RamFresh(ram) && ram.readTimes + 2 <= |ram.readTriples| && ram.len == M_LEN
    requires Shaped(s) && InRange(ins) && FieldsShared(r, ins) && Additive(flag, s.flag) && ram.Contents() == s.m
    modifies ram`readTimes
    ensures ram.Valid() && Lengths(ram) && RamFresh(ram) && ram.readTimes == old(ram.readTimes) + 2
    ensures OperandsShared(ri, rj, a, flagRep, s, ins)
  {
    hide R.Ram.Valid, R.Ram.Arrays, R.AddSeqs, R.ReadOk, R.ReadFresh, Additive, Replicated, InRange, FieldsShared,
         Operand, W32, RamFresh, Cong, OperandsShared, ViewOf, Plus32, Shaped;
    ShapedSizes(s);
    DecodedFields(r, ins);
    FieldsBound(ins);
    flagRep := ConvertOne(flag, s.flag);
    var imme := ConvertOne(Four(r.p0.imme, r.p1.imme, r.p2.imme, r.p3.imme), ins.imme);
    var i0: u32, i1: u32, i2: u32, i3: u32 := r.p0.i, r.p1.i, r.p2.i, r.p3.i;
    var j0: u32, j1: u32, j2: u32, j3: u32 := r.p0.j, r.p1.j, r.p2.j, r.p3.j;
    ri := ReadRegister(ram, Four(i0, i1, i2, i3), ins.i, s.m);
    rj := ReadRegister(ram, Four(j0, j1, j2, j3), ins.j, s.m);
    RegisterHalves(ram);
    a := ReadOperand(prf, k.dm, at.dm, r, imme, Four(ram.ptr.p0[..], ram.ptr.p1[..], ram.ptr.p2[..], ram.ptr.p3[..]), ins, s.m);
    OperandsNow(ri, rj, a, flagRep, s, ins);
  }

  lemma ShapedSizes(s: State)
    requires Shaped(s)
    ensures |s.m| == 32 && |s.mem| == 8192 && M_LEN == 32 && DATA_LEN == 8192
  {
  }

  lemma OperandsNow(ri: Four<u32>, rj: Four<u32>, a: Four<u32>, flag: Four<u32>, s: State, ins: Ins)
    requires Shaped(s) && InRange(ins) && ins.i < 32 && ins.j < 32 && ins.idic < 64 && |s.m| == M_LEN
    requires Additive(ri, s.m[ins.i]) && Additive(rj, s.m[ins.j]) && Additive(a, Operand(ins, s.m)) && Replicated(flag, s.flag)
    ensures OperandsShared(ri, rj, a, flag, s, ins)
  {
    hide Additive, Replicated;
  }

  ghost predicate Lengths(ram: R.Ram)
    reads ram
  {
    && ram.readTimes <= |ram.readTriples| == |ram.readPoints|
    && ram.writeTimes <= |ram.writeTriples| == |ram.writePoints|
  }

  /** Key material for more reads and writes of one array. */
  method StockRam(ram: R.Ram, fetches: nat, puts: nat)
    requires ram.Valid() && Lengths(ram)
    modifies ram`readTriples, ram`readPoints, ram`writeTriples, ram`writePoints
    ensures ram.Valid() && Lengths(ram) && ram.Contents() == old(ram.Contents())
    ensures ram.readTimes + fetches <= |ram.readTriples| && ram.writeTimes + puts <= |ram.writeTriples|
  {
    hide R.Ram.Valid, R.Ram.Arrays, R.AddSeqs;
    ram.PrepareRead(fetches);
    ram.PrepareWrite(puts);
    RamLengths(ram);
  }

  lemma RamLengths(ram: R.Ram)
    requires ram.Valid()
    ensures Lengths(ram) && ram.Arrays()
  {
  }

  ghost predicate RamFresh(ram: R.Ram)
    requires Lengths(ram)
    reads ram
  {
    && (forall r :: ram.readTimes <= r < |ram.readTriples| ==> R.ReadFresh(ram.prf, ram.n, ram.readTriples[r], ram.readPoints[r]))
    && (forall w :: ram.writeTimes <= w < |ram.writeTriples| ==> R.WriteFresh(ram.prf, ram.n, ram.writeTriples[w], ram.writePoints[w]))
  }

  /** The two summands of the registers. */
  lemma RegisterHalves(ram: R.Ram)
    requires ram.Valid() && ram.len == M_LEN
    ensures |ram.ptr.p0[..]| == |ram.ptr.p2[..]| == M_LEN
    ensures ram.ptr.p0[..] == ram.ptr.p1[..] && ram.ptr.p2[..] == ram.ptr.p3[..]
    ensures ram.Arrays() && forall k :: 0 <= k < M_LEN ==> ram.Contents()[k] == Plus32(ram.ptr.p0[..][k], ram.ptr.p2[..][k])
  {
    hide W32;
  }

  /** One register at a shared index, as additive shares. */
  method ReadRegister(ram: R.Ram, idx: Four<u32>, ghost x: nat, ghost regs: seq<u32>) returns (r: Four<u32>)
    requires ram.Valid() && Lengths(ram) && RamFresh(ram) && ram.readTimes < |ram.readTriples| && ram.len == M_LEN
    requires x < M_LEN && Cong(idx.p0 + idx.p1 + idx.p2 + idx.p3, x, 32) && ram.Contents() == regs && |regs| == M_LEN
    modifies ram`readTimes
    ensures ram.Valid() && Lengths(ram) && RamFresh(ram) && ram.readTimes == old(ram.readTimes) + 1
    ensures Additive(r, regs[x])
  {
    hide R.Ram.Valid, R.Ram.Arrays, R.AddSeqs, R.ReadFresh, R.IndexShared, R.DiagShared, Cong, W32;
    FieldIndex(idx, x, 32);
    var raw := ram.Read(idx, false, x);
    r := Signed(raw);
    SignedAdds(raw, regs[x]);
  }

  /** The pair's sum of the selection bits at opcode 0 tells whether the machine stops. */
  lemma StopBit(betas: Four<seq<u32>>, op: nat)
    requires BetasFor(betas, op)
    ensures |betas.p0| == |betas.p1| == 32
    ensures Plus32(betas.p0[0], betas.p1[0]) == 1 <==> op == 0
  {
    hide W32;
    assert BetaAt(betas, 0, op);
  }
}
