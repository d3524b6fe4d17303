/** The machine that the shares stand for: one register file, one memory, a flag and a program counter. */
module PlainMachine {
  import opened Words
  import opened Gate
  import opened Compare
  import opened DoubleWords
  import opened Instruction
  import opened Operations
  import opened Slots

  const ADD: nat := 7
  const SUB: nat := 8
  const MULL: nat := 9
  const MULLH: nat := 10
  const COMPE: nat := 11
  const COMPA: nat := 12
  const COMPAE: nat := 13
  const MOV: nat := 14
  const CMOV: nat := 15
  const JMP: nat := 16
  const CJMP: nat := 17
  const CNJMP: nat := 18
  const STORE: nat := 19
  const LOAD: nat := 20
  const READ: nat := 21

  const M_LEN: nat := 32
  const INS_LEN: nat := 32
  /** The data part of the memory. */
  const DATA_LEN: nat := 8192

  datatype State = State(pc: u32, flag: u32, m: seq<u32>, mem: seq<u32>)

  predicate Shaped(s: State) {
    |s.m| == M_LEN && |s.mem| == DATA_LEN
  }

  ghost predicate ProgramOk(program: seq<Ins>) {
    |program| == INS_LEN && forall k :: 0 <= k < INS_LEN ==> InRange(program[k])
  }

  lemma FieldsBound(a: Ins)
    requires InRange(a)
    ensures a.optr < 32 && a.idic < 64 && a.i < 32 && a.j < 32
  {
    assert Get(a, Optr) < 32 && Get(a, Idic) < 64 && Get(a, RegI) < 32 && Get(a, RegJ) < 32;
  }

  /** The instruction that the program counter stands at; it wraps at the program's end. */
  ghost function Fetch(program: seq<Ins>, pc: u32): Ins
    requires ProgramOk(program)
  {
    program[pc % INS_LEN]
  }

  /** The second operand: the immediate, or a register. */
  function Operand(ins: Ins, m: seq<u32>): u32
    requires |m| == M_LEN && ins.idic < 64
  {
    if ins.idic < M_LEN then ins.imme else m[ins.idic - M_LEN]
  }

  /** What an instruction sees. */
  datatype View = View(ri: u32, rj: u32, a: u32, loaded: u32, flag: u32)

  ghost function ViewOf(s: State, ins: Ins): View
    requires Shaped(s) && InRange(ins)
  {
    FieldsBound(ins);
    var a := Operand(ins, s.m);
    View(s.m[ins.i], s.m[ins.j], a, s.mem[a % DATA_LEN], s.flag)
  }

  /** Opcodes whose results the machine computes with arithmetic, comparisons, moves, jumps and memory. */
  predicate Computed(op: nat) {
    ADD <= op <= LOAD
  }

  /** The word that goes to register i. */
  function ResultOf(op: nat, v: View): u32
    requires Computed(op)
  {
    if op == ADD then Plus32(v.rj, v.a)
    else if op == SUB then Minus32(v.rj, v.a)
    else if op == MULL then W32(v.rj * v.a)
    else if op == MULLH then High(v.rj, v.a)
    else if op == MOV then v.a
    else if op == CMOV then Choose(v.flag, v.a, v.ri)
    else if op == LOAD then v.loaded
    else v.ri
  }

  /** The high word of the product. */
  function High(x: u32, y: u32): u32 {
    ProductFits(x, y);
    HighWord(x * y)
  }

  function HighWord(p: u64): u32 {
    p / M32
  }

  /** The new flag; a plain move leaves it unspecified. */
  function FlagOf(op: nat, v: View): u32
    requires Computed(op) && op != MOV
  {
    if op == ADD then Carry(v.rj, v.a, false)
    else if op == SUB then Carry(v.rj, v.a, true)
    else if op == MULL || op == MULLH then Ind(M32 <= v.rj * v.a)
    else if op == COMPE then Ind(v.ri == v.a)
    else if op == COMPA then Ind(v.ri > v.a)
    else if op == COMPAE then Ind(v.ri >= v.a)
    else v.flag
  }

  function NextPc(op: nat, pc: u32, v: View): u32 {
    var pc1 := Plus32(pc, 1);
    if op == JMP then v.a
    else if op == CJMP then Choose(v.flag, v.a, pc1)
    else if op == CNJMP then Choose(v.flag, pc1, v.a)
    else pc1
  }

  function NextMem(op: nat, mem: seq<u32>, v: View): seq<u32>
    requires |mem| == DATA_LEN
  {
    if op == STORE then mem[v.a % DATA_LEN := v.ri] else mem
  }

  /** Opcodes whose operations (bitwise circuits, and the tapes) assign results that are not modelled here. */
  predicate Foreign(op: nat) {
    1 <= op < ADD || op == READ
  }

  /** What the slots hold that the arithmetic of this machine does not assign: those of the foreign
      opcodes, of opcode 0, and the flag of a plain move. */
  datatype Unset = Unset(res: seq<u32>, flags: seq<u32>)

  predicate UnsetOk(h: Unset) {
    |h.res| == |h.flags| == OPT_SIZE
  }

  ghost predicate AllUnsetOk(hs: seq<Unset>) {
    forall i :: 0 <= i < |hs| ==> UnsetOk(hs[i])
  }

  /** The selected result: opcodes past the last slot select nothing. */
  function Selected(op: nat, v: View, h: Unset): u32
    requires UnsetOk(h)
  {
    if op >= OPT_SIZE then 0 else if Computed(op) then ResultOf(op, v) else h.res[op]
  }

  function SelectedFlag(op: nat, v: View, h: Unset): u32
    requires UnsetOk(h)
  {
    if op >= OPT_SIZE then 0 else if Computed(op) && op != MOV then FlagOf(op, v) else h.flags[op]
  }

  /** One step of the plain machine. */
  ghost function PlainStep(program: seq<Ins>, h: Unset, s: State): (t: State)
    requires ProgramOk(program) && UnsetOk(h) && Shaped(s)
    ensures Shaped(t)
  {
    var ins := Fetch(program, s.pc);
    FieldsBound(ins);
    var v := ViewOf(s, ins);
    State(NextPc(ins.optr, s.pc, v), SelectedFlag(ins.optr, v, h), s.m[ins.i := Selected(ins.optr, v, h)],
          NextMem(ins.optr, s.mem, v))
  }

  /** k steps of the plain machine; step i finds hs[i] in the slots that it does not compute. */
  ghost function PlainRun(program: seq<Ins>, hs: seq<Unset>, s: State, k: nat): (t: State)
    requires ProgramOk(program) && k <= |hs| && AllUnsetOk(hs) && Shaped(s)
    ensures Shaped(t)
  {
    if k == 0 then s else PlainStep(program, hs[k - 1], PlainRun(program, hs, s, k - 1))
  }

  /** The opcode that step k executes. */
  ghost function OpAt(program: seq<Ins>, hs: seq<Unset>, s: State, k: nat): nat
    requires ProgramOk(program) && k <= |hs| && AllUnsetOk(hs) && Shaped(s)
  {
    Fetch(program, PlainRun(program, hs, s, k).pc).optr
  }

  /** The opcode selects nothing that the machine does not compute, or it finds the same there. */
  ghost predicate SameFor(op: nat, h: Unset, h': Unset)
    requires UnsetOk(h) && UnsetOk(h')
  {
    && (op < OPT_SIZE && !Computed(op) ==> h.res[op] == h'.res[op])
    && (op < OPT_SIZE && !(Computed(op) && op != MOV) ==> h.flags[op] == h'.flags[op])
  }

  /** A run depends on the uncomputed slots only through the opcodes that it executes: not at all as
      long as these are computed and no plain move's flag is taken. */
  lemma {:induction false} RunIndependent(program: seq<Ins>, hs: seq<Unset>, hs': seq<Unset>, s: State, k: nat)
    requires ProgramOk(program) && k <= |hs| == |hs'| && AllUnsetOk(hs) && AllUnsetOk(hs') && Shaped(s)
    requires forall i :: 0 <= i < k ==> SameFor(OpAt(program, hs, s, i), hs[i], hs'[i])
    ensures PlainRun(program, hs, s, k) == PlainRun(program, hs', s, k)
  {
    hide ViewOf, Fetch, ResultOf, FlagOf, NextPc, NextMem, InRange;
    if k != 0 {
      RunIndependent(program, hs, hs', s, k - 1);
      assert SameFor(OpAt(program, hs, s, k - 1), hs[k - 1], hs'[k - 1]);
    }
  }

  ghost predicate FlagsAreBits(hs: seq<Unset>)
    requires AllUnsetOk(hs)
  {
    forall i, op :: 0 <= i < |hs| && 0 <= op < OPT_SIZE && !(Computed(op) && op != MOV) ==> hs[i].flags[op] <= 1
  }

  /** The flag is a bit after every step of every run that starts with a bit. */
  lemma {:induction false} FlagStaysBit(program: seq<Ins>, hs: seq<Unset>, s: State, k: nat)
    requires ProgramOk(program) && k <= |hs| && AllUnsetOk(hs) && FlagsAreBits(hs) && Shaped(s) && s.flag <= 1
    ensures PlainRun(program, hs, s, k).flag <= 1
  {
    hide InRange, Carry;
    if k != 0 {
      FlagStaysBit(program, hs, s, k - 1);
      var t := PlainRun(program, hs, s, k - 1);
      var ins := Fetch(program, t.pc);
      BitFlag(ins.optr, ViewOf(t, ins), hs[k - 1]);
    }
  }

  lemma BitFlag(op: nat, v: View, h: Unset)
    requires UnsetOk(h) && v.flag <= 1 && (op < OPT_SIZE && !(Computed(op) && op != MOV) ==> h.flags[op] <= 1)
    ensures SelectedFlag(op, v, h) <= 1
  {
  }

  /** With a bit in the flag the conditional move and the two conditional jumps are what they say. */
  lemma Conditionals(pc: u32, v: View)
    requires v.flag <= 1
    ensures ResultOf(CMOV, v) == if v.flag == 1 then v.a else v.ri
    ensures NextPc(CJMP, pc, v) == if v.flag == 1 then v.a else Plus32(pc, 1)
    ensures NextPc(CNJMP, pc, v) == if v.flag == 0 then v.a else Plus32(pc, 1)
  {
    ChooseBit(v.flag, v.a, v.ri);
    ChooseBit(v.flag, v.a, Plus32(pc, 1));
    ChooseBit(v.flag, Plus32(pc, 1), v.a);
    hide Choose, W32;
  }

  /** A step, with the opcodes' numbers: opcode 19 writes register i to the memory at the operand, which is the
      immediate or, from 32 on, a register; no other opcode changes the memory. */
  lemma StepMemory(program: seq<Ins>, h: Unset, s: State)
    requires ProgramOk(program) && UnsetOk(h) && Shaped(s)
    ensures s.pc % 32 < |program| == 32 && |s.m| == 32 && |s.mem| == 8192
    ensures var ins := program[s.pc % 32]; ins.i < 32 && ins.j < 32 && ins.idic < 64
    ensures var ins, t := program[s.pc % 32], PlainStep(program, h, s);
            var a := if ins.idic < 32 then ins.imme else s.m[ins.idic - 32];
            && |t.mem| == 8192
            && forall x :: 0 <= x < 8192 ==> t.mem[x] == if ins.optr == 19 && x == a % 8192 then s.m[ins.i] else s.mem[x]
  {
    hide Selected, SelectedFlag, NextPc;
    FieldsBound(program[s.pc % 32]);
  }

  /** Opcode 16 goes to the operand, 17 if the flag is 1, 18 if it is 0; all others go on. */
  lemma StepCounter(program: seq<Ins>, h: Unset, s: State)
    requires ProgramOk(program) && UnsetOk(h) && Shaped(s)
    ensures s.pc % 32 < |program| == 32 && |s.m| == 32 && |s.mem| == 8192
    ensures var ins := program[s.pc % 32]; ins.i < 32 && ins.j < 32 && ins.idic < 64
    ensures var ins, t := program[s.pc % 32], PlainStep(program, h, s);
            var a := if ins.idic < 32 then ins.imme else s.m[ins.idic - 32];
            var next := (s.pc + 1) % 0x1_0000_0000;
            && (ins.optr == 16 ==> t.pc == a)
            && (ins.optr == 17 ==> t.pc == (s.flag * a + (1 - s.flag) * next) % 0x1_0000_0000)
            && (ins.optr == 17 && s.flag == 1 ==> t.pc == a) && (ins.optr == 17 && s.flag == 0 ==> t.pc == next)
            && (ins.optr == 18 ==> t.pc == (s.flag * next + (1 - s.flag) * a) % 0x1_0000_0000)
            && (ins.optr == 18 && s.flag == 0 ==> t.pc == a) && (ins.optr == 18 && s.flag == 1 ==> t.pc == next)
            && (ins.optr < 16 || ins.optr > 18 ==> t.pc == next)
  {
    hide Selected, SelectedFlag, NextMem, W32, Choose;
    var ins := program[s.pc % 32];
    FieldsBound(ins);
    var a := if ins.idic < 32 then ins.imme else s.m[ins.idic - 32];
    ChooseIs(s.flag, a, Plus32(s.pc, 1));
    ChooseIs(s.flag, Plus32(s.pc, 1), a);
    Plus32Is(s.pc, 1);
  }

  lemma ChooseIs(f: u32, a: u32, b: u32)
    ensures Choose(f, a, b) == (f * a + (1 - f) * b) % 0x1_0000_0000
    ensures f == 1 ==> Choose(f, a, b) == a
    ensures f == 0 ==> Choose(f, a, b) == b
  {
  }

  lemma Plus32Is(x: u32, y: u32)
    ensures Plus32(x, y) == (x + y) % 0x1_0000_0000
  {
  }

  lemma ArithmeticIs(x: u32, y: u32)
    ensures Plus32(x, y) == (x + y) % 0x1_0000_0000 && Minus32(x, y) == (x - y) % 0x1_0000_0000
    ensures W32(x * y) == x * y % 0x1_0000_0000 && High(x, y) == x * y / 0x1_0000_0000
  {
    WordsAre(x, y);
    ProductFits(x, y);
  }

  /** Which register changes, and to what. */
  lemma StepRegister(program: seq<Ins>, h: Unset, s: State)
    requires ProgramOk(program) && UnsetOk(h) && Shaped(s)
    ensures s.pc % 32 < |program| == 32 && |s.m| == 32 && |s.mem| == 8192
    ensures var ins := program[s.pc % 32]; ins.i < 32 && ins.j < 32 && ins.idic < 64 && |h.res| == 22
    ensures var ins, t := program[s.pc % 32], PlainStep(program, h, s);
            var a := if ins.idic < 32 then ins.imme else s.m[ins.idic - 32];
            var ri, rj, op := s.m[ins.i], s.m[ins.j], ins.optr;
            && |t.m| == 32 && (forall r :: 0 <= r < 32 && r != ins.i ==> t.m[r] == s.m[r])
            && (op == 7 ==> t.m[ins.i] == (rj + a) % 0x1_0000_0000)
            && (op == 8 ==> t.m[ins.i] == (rj - a) % 0x1_0000_0000)
            && (op == 9 ==> t.m[ins.i] == rj * a % 0x1_0000_0000)
            && (op == 10 ==> t.m[ins.i] == rj * a / 0x1_0000_0000)
            && (op == 14 ==> t.m[ins.i] == a)
            && (op == 15 ==> t.m[ins.i] == (s.flag * a + (1 - s.flag) * ri) % 0x1_0000_0000)
            && (op == 15 && s.flag == 1 ==> t.m[ins.i] == a) && (op == 15 && s.flag == 0 ==> t.m[ins.i] == ri)
            && (op == 20 ==> t.m[ins.i] == s.mem[a % 8192])
            && (11 <= op <= 13 || 16 <= op <= 19 ==> t.m[ins.i] == ri)
            && (op < 7 || op == 21 ==> t.m[ins.i] == h.res[op])
            && (op > 21 ==> t.m[ins.i] == 0)
  {
    hide SelectedFlag, NextPc, NextMem, Choose, W32, HighWord;
    var ins := program[s.pc % 32];
    FieldsBound(ins);
    var a := if ins.idic < 32 then ins.imme else s.m[ins.idic - 32];
    ChooseIs(s.flag, a, s.m[ins.i]);
    ArithmeticIs(s.m[ins.j], a);
  }

  /** The flag. */
  lemma StepFlag(program: seq<Ins>, h: Unset, s: State)
    requires ProgramOk(program) && UnsetOk(h) && Shaped(s)
    ensures s.pc % 32 < |program| == 32 && |s.m| == 32 && |s.mem| == 8192
    ensures var ins := program[s.pc % 32]; ins.i < 32 && ins.j < 32 && ins.idic < 64 && |h.flags| == 22
    ensures var ins, t := program[s.pc % 32], PlainStep(program, h, s);
            var a := if ins.idic < 32 then ins.imme else s.m[ins.idic - 32];
            var ri, rj, op := s.m[ins.i], s.m[ins.j], ins.optr;
            && (op == 7 ==> t.flag == if rj + a >= 0x1_0000_0000 then 1 else 0)
            && (op == 8 ==> t.flag == if rj < a then 1 else 0)
            && (op == 9 || op == 10 ==> t.flag == if rj * a >= 0x1_0000_0000 then 1 else 0)
            && (op == 11 ==> t.flag == if ri == a then 1 else 0)
            && (op == 12 ==> t.flag == if ri > a then 1 else 0)
            && (op == 13 ==> t.flag == if ri >= a then 1 else 0)
            && (15 <= op <= 20 ==> t.flag == s.flag)
            && (op < 7 || op == 14 || op == 21 ==> t.flag == h.flags[op])
            && (op > 21 ==> t.flag == 0)
  {
    hide Selected, NextPc, NextMem;
    FieldsBound(program[s.pc % 32]);
  }

  /** A run is these steps one after the other. */
  lemma RunSteps(program: seq<Ins>, hs: seq<Unset>, s: State, k: nat)
    requires ProgramOk(program) && k <= |hs| && AllUnsetOk(hs) && Shaped(s)
    ensures k == 0 ==> PlainRun(program, hs, s, k) == s
    ensures k > 0 ==> PlainRun(program, hs, s, k) == PlainStep(program, hs[k - 1], PlainRun(program, hs, s, k - 1))
  {
    hide PlainStep;
  }

  /** t may follow s: the memory, the program counter and all registers but one are as the instruction says. */
  ghost predicate Follows(program: seq<Ins>, s: State, t: State) {
    && s.pc % 32 < |program| && |s.m| == |t.m| == 32 && |s.mem| == |t.mem| == 8192
    && var ins := program[s.pc % 32];
    && ins.i < 32 && ins.j < 32 && ins.idic < 64
    && var a, next := if ins.idic < 32 then ins.imme else s.m[ins.idic - 32], (s.pc + 1) % 0x1_0000_0000;
    && (forall x :: 0 <= x < 8192 ==> t.mem[x] == if ins.optr == 19 && x == a % 8192 then s.m[ins.i] else s.mem[x])
    && (forall r :: 0 <= r < 32 && r != ins.i ==> t.m[r] == s.m[r])
    && (ins.optr == 16 ==> t.pc == a) && (ins.optr < 16 || ins.optr > 18 ==> t.pc == next)
    && (ins.optr == 17 && s.flag <= 1 ==> t.pc == if s.flag == 1 then a else next)
    && (ins.optr == 18 && s.flag <= 1 ==> t.pc == if s.flag == 0 then a else next)
  }

  lemma StepFollows(program: seq<Ins>, h: Unset, s: State)
    requires ProgramOk(program) && UnsetOk(h) && Shaped(s)
    ensures Follows(program, s, PlainStep(program, h, s))
  {
    hide PlainStep;
    StepMemory(program, h, s);
    StepCounter(program, h, s);
    StepRegister(program, h, s);
  }
}
