/** mipssim.cc: one instruction of the simulated MIPS R2000/R3000, with its delayed loads. */
module Cpu {
  import opened Words
  import opened Options
  import opened Memory
  import opened Multiply
  import opened BitOps

  // Register numbers beyond the thirty-two general ones (machine.h).
  const R31 := 31
  const HI := 32
  const LO := 33
  const PC := 34
  const NEXT_PC := 35
  const PREV_PC := 36
  const LOAD := 37
  const LOAD_VALUE := 38
  const BAD_VADDR := 39
  const NUM_REGS := 40

  // Operation codes (mipssim.h).
  const ADD := 1    const ADDI := 2   const ADDIU := 3  const ADDU := 4    const AND := 5    const ANDI := 6
  const BEQ := 7    const BGEZ := 8   const BGEZAL := 9 const BGTZ := 10   const BLEZ := 11  const BLTZ := 12
  const BLTZAL := 13 const BNE := 14  const DIV := 16   const DIVU := 17   const J := 18     const JAL := 19
  const JALR := 20  const JR := 21    const LB := 22    const LBU := 23    const LH := 24    const LHU := 25
  const LUI := 26   const LW := 27    const LWL := 28   const LWR := 29    const MFHI := 31  const MFLO := 32
  const MTHI := 34  const MTLO := 35  const MULT := 36  const MULTU := 37  const NOR := 38   const OR := 39
  const ORI := 40   const SB := 42    const SH := 43    const SLL := 44    const SLLV := 45  const SLT := 46
  const SLTI := 47  const SLTIU := 48 const SLTU := 49  const SRA := 50    const SRAV := 51  const SRL := 52
  const SRLV := 53  const SUB := 54   const SUBU := 55  const SW := 56     const SWL := 57   const SWR := 58
  const XOR := 59   const XORI := 60  const SYSCALL := 61 const UNIMP := 62 const RES := 63
  const SPECIAL := 100
  const BCOND := 101

  type Regs = r: seq<Word> | |r| == NUM_REGS witness seq(NUM_REGS, _ => 0)

  /** The registers, and memory as the running program sees it. */
  datatype State = State(regs: Regs, mem: Space)

  datatype Instruction = Instruction(op: int, rs: int, rt: int, rd: int, extra: Word)

  // ---- decoding ---------------------------------------------------------------------------------

  datatype Format = IFMT | JFMT | RFMT

  /** opTable: bits 31..26. */
  function MajorOp(k: int): int {
    if k == 0 then SPECIAL else if k == 1 then BCOND else if k == 2 then J else if k == 3 then JAL
    else if k == 4 then BEQ else if k == 5 then BNE else if k == 6 then BLEZ else if k == 7 then BGTZ
    else if k == 8 then ADDI else if k == 9 then ADDIU else if k == 10 then SLTI else if k == 11 then SLTIU
    else if k == 12 then ANDI else if k == 13 then ORI else if k == 14 then XORI else if k == 15 then LUI
    else if k < 20 then UNIMP else if k < 32 then RES
    else if k == 32 then LB else if k == 33 then LH else if k == 34 then LWL else if k == 35 then LW
    else if k == 36 then LBU else if k == 37 then LHU else if k == 38 then LWR else if k == 39 then RES
    else if k == 40 then SB else if k == 41 then SH else if k == 42 then SWL else if k == 43 then SW
    else if k == 46 then SWR else if k < 48 then RES else if k < 52 then UNIMP else if k < 56 then RES
    else if k < 60 then UNIMP else RES
  }

  function FormatOf(k: int): Format {
    if k == 0 then RFMT else if k == 2 || k == 3 then JFMT else IFMT
  }

  /** specialTable: bits 5..0 of a SPECIAL instruction. */
  function SpecialOp(k: int): int {
    if k == 0 then SLL else if k == 2 then SRL else if k == 3 then SRA else if k == 4 then SLLV
    else if k == 6 then SRLV else if k == 7 then SRAV else if k == 8 then JR else if k == 9 then JALR
    else if k == 12 then SYSCALL else if k == 13 then UNIMP
    else if k == 16 then MFHI else if k == 17 then MTHI else if k == 18 then MFLO else if k == 19 then MTLO
    else if k == 24 then MULT else if k == 25 then MULTU else if k == 26 then DIV else if k == 27 then DIVU
    else if k == 32 then ADD else if k == 33 then ADDU else if k == 34 then SUB else if k == 35 then SUBU
    else if k == 36 then AND else if k == 37 then OR else if k == 38 then XOR else if k == 39 then NOR
    else if k == 42 then SLT else if k == 43 then SLTU
    else RES
  }

  /** Bits lo .. lo + n - 1 of a word. */
  function Field(w: Word, lo: nat, n: nat): int {
    w / Pow2(lo) % Pow2(n)
  }

  function Decode(raw: Word): Instruction {
    var major, rt := Field(raw, 26, 6), Field(raw, 16, 5);
    var op := MajorOp(major);
    var extra: Word := match FormatOf(major)
      case IFMT => if raw % 0x1_0000 >= 0x8000 then raw % 0x1_0000 + 0xffff_0000 else raw % 0x1_0000
      case RFMT => raw / 0x40 % 0x20
      case JFMT => raw % 0x400_0000;
    var op' := if op == SPECIAL then SpecialOp(raw % 0x40)
      else if op != BCOND then op
      else if rt == 0 then BLTZ else if rt == 1 then BGEZ else if rt == 0x10 then BLTZAL else if rt == 0x11 then BGEZAL
      else UNIMP;
    Instruction(op', Field(raw, 21, 5), rt, Field(raw, 11, 5), extra)
  }

  /** The codes the big switch has a case for. */
  predicate HasCase(op: int) {
    1 <= op <= 63 && op != 15 && op != 30 && op != 33 && op != 41
  }

  lemma Pow2Values()
    ensures Pow2(5) == 0x20 && Pow2(6) == 0x40
  {
  }

  /** Every word decodes to an operation the switch handles, and to register numbers 0..31. */
  lemma DecodeIsTotal(raw: Word)
    ensures var i := Decode(raw); HasCase(i.op) && 0 <= i.rs < 32 && 0 <= i.rt < 32 && 0 <= i.rd < 32
  {
    Pow2Values();
  }

  // ---- arithmetic -------------------------------------------------------------------------------

  function Add32(a: int, b: int): Word { (a + b) % TWO_32 }
  function Sub32(a: int, b: int): Word { (a - b) % TWO_32 }
  function Not32(a: Word): Word { 0xffff_ffff - a }
  function Shl32(a: Word, n: nat): Word { a * Pow2(n) % TWO_32 }
  function Sra32(a: Word, n: nat): Word { (Signed(a) / Pow2(n)) % TWO_32 }
  predicate SignBit(a: Word) { a >= 0x8000_0000 }
  function Bit(b: bool): Word { if b then 1 else 0 }

  /** C's integer division, rounding toward zero. */
  function Quotient(a: int, b: int): int
    requires b != 0
  {
    var q := (if a < 0 then -a else a) / (if b < 0 then -b else b);
    if (a < 0) == (b < 0) then q else -q
  }

  predicate FitsInt32(x: int) { -0x8000_0000 <= x < 0x8000_0000 }

  /** A signed result, or None when it does not fit a register. */
  function Exact(x: int): Option<Word> {
    if FitsInt32(x) then Some(x % TWO_32) else None
  }

  // ---- what an instruction means ----------------------------------------------------------------

  predicate Proper(i: Instruction) {
    0 <= i.rs < 32 && 0 <= i.rt < 32 && 0 <= i.rd < 32
  }

  predicate IsAlu(op: int) {
    op == ADD || op == SUB || op == ADDU || op == SUBU || op == AND || op == OR || op == XOR || op == NOR ||
    op == SLT || op == SLTU
  }

  predicate IsShift(op: int) { op == SLL || op == SRA || op == SRL || op == SLLV || op == SRAV || op == SRLV }

  predicate IsImmediate(op: int) {
    op == ADDI || op == ADDIU || op == ANDI || op == ORI || op == XORI || op == SLTI || op == SLTIU || op == LUI
  }

  predicate IsHiLo(op: int) {
    op == MFHI || op == MFLO || op == MTHI || op == MTLO || op == MULT || op == MULTU || op == DIV || op == DIVU
  }

  predicate IsBranch(op: int) {
    op == BEQ || op == BNE || op == BGTZ || op == BLEZ || op == BGEZ || op == BLTZ || op == BGEZAL || op == BLTZAL
  }

  predicate IsJump(op: int) { op == J || op == JAL || op == JR || op == JALR }
  predicate IsLoad(op: int) { op == LB || op == LBU || op == LH || op == LHU || op == LW }
  predicate IsPartialLoad(op: int) { op == LWL || op == LWR }
  predicate IsStore(op: int) { op == SB || op == SH || op == SW }
  predicate IsPartialStore(op: int) { op == SWL || op == SWR }

  /** Whether the operation looks at register rs, at register rt. */
  predicate ReadsRs(op: int) {
    IsAlu(op) || op == SLLV || op == SRAV || op == SRLV || (IsImmediate(op) && op != LUI) || IsBranch(op) ||
    op == JR || op == JALR || (IsHiLo(op) && op != MFHI && op != MFLO) ||
    IsLoad(op) || IsPartialLoad(op) || IsStore(op) || IsPartialStore(op)
  }

  predicate ReadsRt(op: int) {
    (IsAlu(op) && op != OR) || IsShift(op) || op == BEQ || op == BNE ||
    op == MULT || op == MULTU || op == DIV || op == DIVU || IsStore(op) || IsPartialStore(op)
  }

  /** The general register that the instruction sets at once, not through a delayed load. */
  function Target(i: Instruction): Option<int> {
    if IsAlu(i.op) || IsShift(i.op) || i.op == MFHI || i.op == MFLO || i.op == JALR then Some(i.rd)
    else if IsImmediate(i.op) then Some(i.rt)
    else if i.op == BGEZAL || i.op == BLTZAL || i.op == JAL then Some(R31)
    else None
  }

  /** All that an instruction may depend on beside memory; `merged` is the value register rt will have once
      the pending load is done, which is what LWL and LWR merge with. */
  datatype Operands = Operands(a: Word, b: Word, hi: Word, lo: Word, next: Word, merged: Word)

  function OperandsOf(i: Instruction, regs: Regs): Operands
    requires Proper(i)
  {
    Operands(if ReadsRs(i.op) then regs[i.rs] else 0,
             if ReadsRt(i.op) then regs[i.rt] else 0,
             regs[HI], regs[LO], regs[NEXT_PC],
             if !IsPartialLoad(i.op) then 0 else if regs[LOAD] == i.rt then regs[LOAD_VALUE] else regs[i.rt])
  }

  datatype Writes = NoWrite | One(reg: int, value: Word) | HiLo(hi: Word, lo: Word)

  predicate WritesOk(w: Writes) {
    w.One? ==> 0 <= w.reg < 34
  }

  function Apply(regs: Regs, w: Writes): (r: Regs)
    requires WritesOk(w)
    ensures forall k :: 34 <= k < NUM_REGS ==> r[k] == regs[k]
  {
    match w
    case NoWrite => regs
    case One(r, v) => regs[r := v]
    case HiLo(h, l) => regs[HI := h][LO := l]
  }

  /** What an instruction does: the registers it sets at once, the next program counter, the load it leaves
      pending, and memory; or an exception; or a failed assertion. */
  datatype Effect =
    | Done(w: Writes, pcAfter: Word, loadReg: int, loadValue: Word, mem: Space)
    | Raise(which: ExceptionType, addr: Word, mem: Space)
    | AssertFails

  /** Three-register arithmetic; None on overflow.  OR, as in the source, does not use its second operand. */
  function Alu(op: int, a: Word, b: Word): Option<Word> {
    if op == ADD then Exact(Signed(a) + Signed(b))
    else if op == SUB then Exact(Signed(a) - Signed(b))
    else if op == ADDU then Some(Add32(a, b))
    else if op == SUBU then Some(Sub32(a, b))
    else if op == AND then Some(And32(a, b))
    else if op == OR then Some(a)
    else if op == XOR then Some(Xor32(a, b))
    else if op == NOR then Some(Not32(Or32(a, b)))
    else if op == SLT then Some(Bit(Signed(a) < Signed(b)))
    else Some(Bit(a < b))
  }

  /** Shifts; all right shifts are arithmetic, as in the source. */
  function Shifted(op: int, a: Word, b: Word, extra: Word): Word {
    var n := if op == SLLV || op == SRAV || op == SRLV then a % 0x20 else extra;
    if op == SLL || op == SLLV then Shl32(b, n) else Sra32(b, n)
  }

  /** Arithmetic with the sign-extended constant of the instruction; None on overflow. */
  function Immediate(op: int, a: Word, x: Word): Option<Word> {
    if op == ADDI then Exact(Signed(a) + Signed(x))
    else if op == ADDIU then Some(Add32(a, x))
    else if op == ANDI then Some(And32(a, x % 0x1_0000))
    else if op == ORI then Some(Or32(a, x % 0x1_0000))
    else if op == XORI then Some(Xor32(a, x % 0x1_0000))
    else if op == SLTI then Some(Bit(Signed(a) < Signed(x)))
    else if op == SLTIU then Some(Bit(a < x))
    else Some(x % 0x1_0000 * 0x1_0000)
  }

  /** The exact double-word product modulo 2^64. */
  function Product(a: Word, b: Word, signedArith: bool): (p: int)
    ensures 0 <= p < TWO_64
  {
    if signedArith then Signed(a) * Signed(b) % TWO_64 else a * b % TWO_64
  }

  function Divided(a: int, b: int): Writes {
    if b == 0 then HiLo(0, 0)
    else
      var q := Quotient(a, b);
      HiLo((a - q * b) % TWO_32, q % TWO_32)
  }

  /** The operations on HI and LO. */
  function HiLoEffect(i: Instruction, o: Operands): Writes {
    if i.op == MFHI then One(i.rd, o.hi)
    else if i.op == MFLO then One(i.rd, o.lo)
    else if i.op == MTHI then One(HI, o.a)
    else if i.op == MTLO then One(LO, o.a)
    else if i.op == MULT || i.op == MULTU then
      var p := Product(o.a, o.b, i.op == MULT);
      HiLo(p / TWO_32, p % TWO_32)
    else if i.op == DIV then Divided(Signed(o.a), Signed(o.b))
    else Divided(o.a, o.b)
  }

  predicate BranchTaken(op: int, a: Word, b: Word) {
    if op == BEQ then a == b
    else if op == BNE then a != b
    else if op == BGTZ then Signed(a) > 0
    else if op == BLEZ then Signed(a) <= 0
    else if op == BGEZ || op == BGEZAL then Signed(a) >= 0
    else Signed(a) < 0
  }

  /** Where the instruction after next comes from.  A link register is set before the test reads it. */
  function BranchEffect(i: Instruction, o: Operands): (Writes, Word) {
    var link := i.op == BGEZAL || i.op == BLTZAL;
    var pc := Add32(o.next, 4);
    (if link then One(R31, pc) else NoWrite,
     if BranchTaken(i.op, if link && i.rs == R31 then pc else o.a, o.b) then Add32(o.next, Shl32(i.extra, 2)) else pc)
  }

  function JumpEffect(i: Instruction, o: Operands): (Writes, Word) {
    var pc := Add32(o.next, 4);
    if i.op == JR then (NoWrite, o.a)
    else if i.op == JALR then (One(i.rd, pc), if i.rd == i.rs then pc else o.a)
    else (if i.op == JAL then One(R31, pc) else NoWrite, Or32(And32(pc, 0xf000_0000), Shl32(i.extra, 2)))
  }

  /** The width of a memory reference. */
  function SizeOf(op: int): (n: int)
    ensures n == 1 || n == 2 || n == 4
  {
    if op == LB || op == LBU || op == SB then 1 else if op == LH || op == LHU || op == SH then 2 else 4
  }

  /** What is loaded, from the value read: bytes and half words sign-extended or cut as the operation says. */
  function Extended(op: int, value: Word): Word {
    if op == LB then (if value % 0x100 >= 0x80 then value % 0x100 + 0xffff_ff00 else value % 0x100)
    else if op == LBU then value % 0x100
    else if op == LH then (if value % 0x1_0000 >= 0x8000 then value % 0x1_0000 + 0xffff_0000 else value % 0x1_0000)
    else if op == LHU then value % 0x1_0000
    else value
  }

  function LoadEffect(i: Instruction, o: Operands, mem: Space): Effect {
    var addr := Add32(o.a, i.extra);
    var (value, fault, mem') := ReadMem(mem, addr, SizeOf(i.op));
    if value.None? then Raise(fault, addr, mem')
    else Done(NoWrite, Add32(o.next, 4), i.rt, Extended(i.op, value.value), mem')
  }

  /** LWL and LWR: the assertions leave only aligned addresses. */
  function PartialLoadEffect(i: Instruction, o: Operands, mem: Space): Effect {
    var addr := Add32(o.a, i.extra);
    if addr % 4 != 0 then AssertFails else
    var (value, fault, mem') := ReadMem(mem, addr, 4);
    if value.None? then Raise(fault, addr, mem')
    else Done(NoWrite, Add32(o.next, 4), i.rt,
              if i.op == LWL then value.value else o.merged - o.merged % 0x100 + value.value / 0x100_0000, mem')
  }

  function StoreEffect(i: Instruction, o: Operands, mem: Space): Effect {
    var addr := Add32(o.a, i.extra);
    var (fault, mem') := WriteMem(mem, addr, SizeOf(i.op), o.b);
    if fault != NoException then Raise(fault, addr, mem') else Done(NoWrite, Add32(o.next, 4), 0, 0, mem')
  }

  /** What SWL and SWR make of the word in memory. */
  function Stored(op: int, value: Word, b: Word): Word {
    if op == SWL then b else value % 0x100_0000 + b % 0x100 * 0x100_0000
  }

  function PartialStoreEffect(i: Instruction, o: Operands, mem: Space): Effect {
    var addr := Add32(o.a, i.extra);
    if addr % 4 != 0 then AssertFails else
    var (value, fault, mem') := ReadMem(mem, addr, 4);
    if value.None? then Raise(fault, addr, mem') else
    var (fault', mem'') := WriteMem(mem', addr, 4, Stored(i.op, value.value, o.b));
    if fault' != NoException then Raise(fault', addr, mem'') else Done(NoWrite, Add32(o.next, 4), 0, 0, mem'')
  }

  predicate EffectOk(e: Effect) {
    e.Done? ==> WritesOk(e.w) && 0 <= e.loadReg < 32
  }

  function Overflowing(r: Option<Word>, reg: int, next: Word, mem: Space): Effect {
    if r.None? then Raise(OverflowException, 0, mem) else Done(One(reg, r.value), Add32(next, 4), 0, 0, mem)
  }

  function Going(r: (Writes, Word), mem: Space): Effect {
    Done(r.0, r.1, 0, 0, mem)
  }

  /** The meaning of an instruction: the cases of the big switch of OneInstruction. */
  function EffectOf(i: Instruction, o: Operands, mem: Space): (e: Effect)
    requires Proper(i)
    ensures EffectOk(e)
  {
    if IsAlu(i.op) then Overflowing(Alu(i.op, o.a, o.b), i.rd, o.next, mem)
    else if IsShift(i.op) then Overflowing(Some(Shifted(i.op, o.a, o.b, i.extra)), i.rd, o.next, mem)
    else if IsImmediate(i.op) then Overflowing(Immediate(i.op, o.a, i.extra), i.rt, o.next, mem)
    else if IsHiLo(i.op) then Going((HiLoEffect(i, o), Add32(o.next, 4)), mem)
    else if IsBranch(i.op) then Going(BranchEffect(i, o), mem)
    else if IsJump(i.op) then Going(JumpEffect(i, o), mem)
    else if IsLoad(i.op) then LoadEffect(i, o, mem)
    else if IsPartialLoad(i.op) then PartialLoadEffect(i, o, mem)
    else if IsStore(i.op) then StoreEffect(i, o, mem)
    else if IsPartialStore(i.op) then PartialStoreEffect(i, o, mem)
    else if i.op == SYSCALL then Raise(SyscallException, 0, mem)
    else if i.op == RES || i.op == UNIMP then Raise(IllegalInstrException, 0, mem)
    else AssertFails
  }

  // ---- one step ---------------------------------------------------------------------------------

  /** Machine::DelayedLoad: do the pending load, and make another pending. */
  function Delayed(regs: Regs, nextReg: int, nextValue: Word): Regs
    requires regs[LOAD] < 32 && 0 <= nextReg < 32
  {
    regs[regs[LOAD] := regs[LOAD_VALUE]][LOAD := nextReg][LOAD_VALUE := nextValue][0 := 0]
  }

  /** What holds of the registers between instructions. */
  predicate Good(regs: Regs) {
    regs[0] == 0 && regs[LOAD] < 32
  }

  /** How an instruction ended: normally, in the kernel with an exception, or with a failed assertion. */
  datatype Outcome = Completed(m: State) | Trapped(which: ExceptionType, m: State) | Stopped

  /** Machine::RaiseException, up to the entry of the exception handler. */
  function Trap(regs: Regs, which: ExceptionType, addr: Word, mem: Space): Outcome
    requires regs[LOAD] < 32
  {
    Trapped(which, State(Delayed(regs[BAD_VADDR := addr], 0, 0), mem))
  }

  function Advanced(regs: Regs, pcAfter: Word): Regs {
    regs[PREV_PC := regs[PC]][PC := regs[NEXT_PC]][NEXT_PC := pcAfter]
  }

  function Finish(regs: Regs, e: Effect): Outcome
    requires EffectOk(e) && regs[LOAD] < 32
  {
    match e
    case Done(w, pcAfter, r, v, mem) => Completed(State(Advanced(Delayed(Apply(regs, w), r, v), pcAfter), mem))
    case Raise(which, addr, mem) => Trap(regs, which, addr, mem)
    case AssertFails => Stopped
  }

  function Execute(regs: Regs, i: Instruction, mem: Space): Outcome
    requires regs[LOAD] < 32 && Proper(i)
  {
    Finish(regs, EffectOf(i, OperandsOf(i, regs), mem))
  }

  /** Machine::OneInstruction. */
  function Step(m: State): Outcome
    requires m.regs[LOAD] < 32
  {
    var (raw, fault, mem) := ReadMem(m.mem, m.regs[PC], 4);
    if raw.None? then Trap(m.regs, fault, m.regs[PC], mem)
    else
      DecodeIsTotal(raw.value);
      Execute(m.regs, Decode(raw.value), mem)
  }

  /** What an interrupt does to the machine before its handler runs. */
  function Flush(m: State): State
    requires m.regs[LOAD] < 32
  {
    m.(regs := Delayed(m.regs, 0, 0))
  }

  predicate GoodOutcome(o: Outcome) {
    !o.Stopped? ==> Good(o.m.regs)
  }

  /** Every instruction, completed or trapped, leaves r0 zero and a load pending to one of r0..r31. */
  lemma StepKeepsGood(m: State)
    requires Good(m.regs)
    ensures GoodOutcome(Step(m))
  {
    var (raw, fault, mem) := ReadMem(m.mem, m.regs[PC], 4);
    if raw.Some? {
      DecodeIsTotal(raw.value);
      var i := Decode(raw.value);
      FinishKeepsGood(m.regs, EffectOf(i, OperandsOf(i, m.regs), mem));
    } else {
      FinishKeepsGood(m.regs, Raise(fault, m.regs[PC], mem));
    }
  }

  lemma FinishKeepsGood(regs: Regs, e: Effect)
    requires EffectOk(e) && regs[LOAD] < 32
    ensures GoodOutcome(Finish(regs, e))
  {
  }

  /** The instruction about to run, if it can be fetched. */
  function Fetched(m: State): (i: Option<Instruction>)
    ensures i.Some? ==> Proper(i.value)
  {
    var raw := ReadMem(m.mem, m.regs[PC], 4).0;
    if raw.None? then None else DecodeIsTotal(raw.value); Some(Decode(raw.value))
  }

  /** The switch has a case for every decoded instruction: what fails is only the alignment assertion of the
      four partial references. */
  lemma StopsExactly(m: State)
    requires Good(m.regs)
    ensures Step(m).Stopped? <==>
      Fetched(m).Some? && (var i := Fetched(m).value;
        (IsPartialLoad(i.op) || IsPartialStore(i.op)) && Add32(OperandsOf(i, m.regs).a, i.extra) % 4 != 0)
  {
    var (raw, fault, mem) := ReadMem(m.mem, m.regs[PC], 4);
    if raw.Some? {
      DecodeIsTotal(raw.value);
      var i := Decode(raw.value);
      EffectFails(i, OperandsOf(i, m.regs), mem);
    }
  }

  lemma EffectFails(i: Instruction, o: Operands, mem: Space)
    requires Proper(i) && HasCase(i.op)
    ensures EffectOf(i, o, mem).AssertFails? <==>
      (IsPartialLoad(i.op) || IsPartialStore(i.op)) && Add32(o.a, i.extra) % 4 != 0
  {
  }

  // ---- delayed loads and interrupts -------------------------------------------------------------

  /** The instruction neither reads r nor sets it at once; r0 is never in danger. */
  predicate Independent(i: Instruction, r: int) {
    r == 0 || (!(ReadsRs(i.op) && i.rs == r) && !(ReadsRt(i.op) && i.rt == r) && Target(i) != Some(r))
  }

  /** The state with the value of a pending load to r0, which nobody will see, forgotten. */
  function Settled(m: State): State {
    if m.regs[LOAD] == 0 then m.(regs := m.regs[LOAD_VALUE := 0]) else m
  }

  predicate Similar(m: State, m': State) {
    Settled(m) == Settled(m')
  }

  predicate SameOutcome(o: Outcome, o': Outcome) {
    match o
    case Completed(m) => o'.Completed? && Similar(m, o'.m)
    case _ => o == o'
  }

  /** Done, except for the value of a load to r0. */
  predicate SameEffect(e: Effect, e': Effect) {
    e == e' || (e.Done? && e'.Done? && e.loadReg == 0 && e' == e.(loadValue := e'.loadValue))
  }

  /** Flushing changes no operand of an independent instruction; LWL and LWR to the target itself see the
      pending value either way. */
  lemma FlushKeepsOperands(i: Instruction, regs: Regs)
    requires Proper(i) && Good(regs) && Independent(i, regs[LOAD])
    ensures var o, o' := OperandsOf(i, regs), OperandsOf(i, Delayed(regs, 0, 0));
      o' == o || (i.rt == 0 && IsPartialLoad(i.op) && o' == o.(merged := o'.merged))
  {
  }

  lemma FlushKeepsEffect(i: Instruction, regs: Regs, mem: Space)
    requires Proper(i) && Good(regs) && Independent(i, regs[LOAD])
    ensures SameEffect(EffectOf(i, OperandsOf(i, regs), mem), EffectOf(i, OperandsOf(i, Delayed(regs, 0, 0)), mem))
  {
    FlushKeepsOperands(i, regs);
  }

  /** What an instruction sets at once is its target, or HI and LO. */
  lemma WritesTheTarget(i: Instruction, o: Operands, mem: Space)
    requires Proper(i)
    ensures var e := EffectOf(i, o, mem);
      e.Done? && e.w.One? ==> e.w.reg == HI || e.w.reg == LO || Target(i) == Some(e.w.reg)
  {
  }

  lemma FinishAfterFlush(regs: Regs, e: Effect, e': Effect)
    requires Good(regs) && EffectOk(e) && EffectOk(e') && SameEffect(e, e')
    requires regs[LOAD] == 0 || !(e.Done? && e.w.One? && e.w.reg == regs[LOAD])
    ensures SameOutcome(Finish(regs, e), Finish(Delayed(regs, 0, 0), e'))
  {
  }

  /** One instruction gives the same result whether or not an interrupt came in before it, if it does not
      depend on the pending load. */
  lemma ExecuteAfterFlush(regs: Regs, i: Instruction, mem: Space)
    requires Proper(i) && Good(regs) && Independent(i, regs[LOAD])
    ensures SameOutcome(Execute(regs, i, mem), Execute(Delayed(regs, 0, 0), i, mem))
  {
    FlushKeepsEffect(i, regs, mem);
    WritesTheTarget(i, OperandsOf(i, regs), mem);
    FinishAfterFlush(regs, EffectOf(i, OperandsOf(i, regs), mem), EffectOf(i, OperandsOf(i, Delayed(regs, 0, 0)), mem));
  }

  /** The code observes the load delay here: the next instruction does not depend on the pending load. */
  predicate HazardFree(m: State) {
    Fetched(m).Some? ==> Independent(Fetched(m).value, m.regs[LOAD])
  }

  lemma StepAfterFlush(m: State)
    requires Good(m.regs) && HazardFree(m)
    ensures SameOutcome(Step(m), Step(Flush(m)))
  {
    var (raw, fault, mem) := ReadMem(m.mem, m.regs[PC], 4);
    assert Flush(m).regs[PC] == m.regs[PC];
    if raw.Some? {
      DecodeIsTotal(raw.value);
      ExecuteAfterFlush(m.regs, Decode(raw.value), mem);
    } else {
      FinishAfterFlush(m.regs, Raise(fault, m.regs[PC], mem), Raise(fault, m.regs[PC], mem));
    }
  }

  /** The instruction about to run reads the target of the pending load. */
  predicate ReadsPending(m: State) {
    Fetched(m).Some? && m.regs[LOAD] != 0 && (var i := Fetched(m).value;
      (ReadsRs(i.op) && i.rs == m.regs[LOAD]) || (ReadsRt(i.op) && i.rt == m.regs[LOAD]))
  }

  /** The value it sets that target to at once, if it does and is not stopped by a trap. */
  function SetsPending(m: State): Option<Word> {
    if Fetched(m).None? || m.regs[LOAD] == 0 then None else
    var i := Fetched(m).value;
    var e := EffectOf(i, OperandsOf(i, m.regs), ReadMem(m.mem, m.regs[PC], 4).2);
    if e.Done? && e.w.One? && e.w.reg == m.regs[LOAD] then Some(e.w.value) else None
  }

  /** Unless the next instruction reads the target of the pending load, an interrupt before it is invisible if
      and only if the instruction does not set that target at once, or happens to set it to the value loaded:
      without the interrupt the load comes last and wins. */
  lemma FlushInvisibleExactly(m: State)
    requires Good(m.regs) && !ReadsPending(m)
    ensures SameOutcome(Step(m), Step(Flush(m))) <==> (SetsPending(m).Some? ==> SetsPending(m).value == m.regs[LOAD_VALUE])
  {
    if Fetched(m).None? {
      StepAfterFlush(m);
    } else {
      ExecuteUnread(m.regs, Fetched(m).value, ReadMem(m.mem, m.regs[PC], 4).2);
      assert Flush(m).regs[PC] == m.regs[PC];
    }
  }

  lemma ExecuteUnread(regs: Regs, i: Instruction, mem: Space)
    requires Proper(i) && Good(regs)
    requires regs[LOAD] != 0 ==> !(ReadsRs(i.op) && i.rs == regs[LOAD]) && !(ReadsRt(i.op) && i.rt == regs[LOAD])
    ensures var e := EffectOf(i, OperandsOf(i, regs), mem);
      SameOutcome(Execute(regs, i, mem), Execute(Delayed(regs, 0, 0), i, mem)) <==>
        !(e.Done? && regs[LOAD] != 0 && e.w.One? && e.w.reg == regs[LOAD]) || e.w.value == regs[LOAD_VALUE]
  {
    var e := EffectOf(i, OperandsOf(i, regs), mem);
    var e' := EffectOf(i, OperandsOf(i, Delayed(regs, 0, 0)), mem);
    UnreadKeepsEffect(i, regs, mem);
    if e.Done? && regs[LOAD] != 0 && e.w.One? && e.w.reg == regs[LOAD] {
      FinishAfterOverwrite(regs, e, e');
    } else {
      FinishAfterFlush(regs, e, e');
    }
  }

  lemma UnreadKeepsEffect(i: Instruction, regs: Regs, mem: Space)
    requires Proper(i) && Good(regs)
    requires regs[LOAD] != 0 ==> !(ReadsRs(i.op) && i.rs == regs[LOAD]) && !(ReadsRt(i.op) && i.rt == regs[LOAD])
    ensures SameEffect(EffectOf(i, OperandsOf(i, regs), mem), EffectOf(i, OperandsOf(i, Delayed(regs, 0, 0)), mem))
  {
    var o, o' := OperandsOf(i, regs), OperandsOf(i, Delayed(regs, 0, 0));
    assert o' == o || (i.rt == 0 && IsPartialLoad(i.op) && o' == o.(merged := o'.merged));
  }

  lemma FinishAfterOverwrite(regs: Regs, e: Effect, e': Effect)
    requires Good(regs) && EffectOk(e) && EffectOk(e') && SameEffect(e, e')
    requires regs[LOAD] != 0 && e.Done? && e.w.One? && e.w.reg == regs[LOAD]
    ensures SameOutcome(Finish(regs, e), Finish(Delayed(regs, 0, 0), e')) <==> e.w.value == regs[LOAD_VALUE]
  {
    var r := regs[LOAD];
    var m, m' := Finish(regs, e).m, Finish(Delayed(regs, 0, 0), e').m;
    assert Settled(m).regs[r] == regs[LOAD_VALUE] && Settled(m').regs[r] == e.w.value;
    if e.w.value == regs[LOAD_VALUE] {
      assert Settled(m).regs == Settled(m').regs;
    }
  }

  // ---- a visible interrupt ----------------------------------------------------------------------

  /** The instruction with these four bytes at address 0, and a load of the value 7 pending to $8. */
  function LoadPending(b0: Byte, b1: Byte, b2: Byte, b3: Byte): State {
    State(seq(NUM_REGS, _ => 0)[NEXT_PC := 4][LOAD := 8][LOAD_VALUE := 7],
          Space(seq(MEMORY_SIZE, _ => 0)[0 := b0][1 := b1][2 := b2][3 := b3],
                [TranslationEntry(0, 0, true, false, false, false)]))
  }

  /** addu $9, $8, $0 */
  const ADDU_9_8_0: Word := 0x0100_4821
  /** addiu $8, $0, 5 */
  const ADDIU_8_0_5: Word := 0x2408_0005

  function Hazard(): State {
    LoadPending(0x21, 0x48, 0x00, 0x01)
  }

  function Overwrite(): State {
    LoadPending(0x05, 0x00, 0x08, 0x24)
  }

  lemma FieldPowers()
    ensures Pow2(5) == 0x20 && Pow2(6) == 0x40 && Pow2(11) == 0x800 && Pow2(16) == 0x1_0000
    ensures Pow2(21) == 0x20_0000 && Pow2(26) == 0x400_0000
  {
    Pow2Values();
    assert Pow2(11) == 0x800;
    assert Pow2(16) == 0x1_0000;
    assert Pow2(21) == 0x20_0000;
  }

  lemma HazardFetches()
    ensures Fetched(Hazard()) == Some(Instruction(ADDU, 8, 0, 9, 0))
  {
    assert WordAt(Hazard().mem.bytes, 0) == ADDU_9_8_0;
    FieldPowers();
  }

  lemma OverwriteFetches()
    ensures Fetched(Overwrite()) == Some(Instruction(ADDIU, 0, 8, 0, 5))
  {
    assert WordAt(Overwrite().mem.bytes, 0) == ADDIU_8_0_5;
    FieldPowers();
  }

  /** An interrupt before an instruction that does read the target is seen: with it $9 becomes 7, without it
      the old value of $8. */
  lemma InterruptSeen()
    ensures var m := Hazard(); Good(m.regs) && ReadsPending(m) && !SameOutcome(Step(m), Step(Flush(m)))
  {
    var m := Hazard();
    HazardFetches();
    var i, mem := Instruction(ADDU, 8, 0, 9, 0), ReadMem(m.mem, 0, 4).2;
    assert Step(m) == Execute(m.regs, i, mem) && Step(Flush(m)) == Execute(Flush(m).regs, i, mem);
    assert Settled(Execute(m.regs, i, mem).m).regs[9] == 0;
    assert Settled(Execute(Flush(m).regs, i, mem).m).regs[9] == 7;
  }

  /** So is one before an instruction that does not read the target but sets it to another value: with the
      interrupt $8 becomes 5, without it the load comes last and $8 becomes 7. */
  lemma OverwriteSeen()
    ensures var m := Overwrite();
      && Good(m.regs) && !ReadsPending(m) && SetsPending(m) == Some(5) && m.regs[LOAD_VALUE] == 7
      && !SameOutcome(Step(m), Step(Flush(m)))
  {
    OverwriteFetches();
    FlushInvisibleExactly(Overwrite());
  }

  // ---- whole runs -------------------------------------------------------------------------------

  type Processor = State --> Outcome

  /** What StepKeepsGood says of Step. */
  ghost predicate KeepsGood(step: Processor) {
    forall m: State :: Good(m.regs) ==> step.requires(m) && GoodOutcome(step(m))
  }

  /** What the kernel makes of the machine on a trap, when n instructions of the run are left. */
  type Kernel = (nat, ExceptionType, State) -> State

  ghost predicate KernelOk(kernel: Kernel) {
    forall n, which, m: State :: Good(m.regs) ==> Good(kernel(n, which, m).regs)
  }

  /** After a trap the kernel returns to the program. */
  function Resumed(kernel: Kernel, n: nat, o: Outcome): Outcome {
    if o.Trapped? then Completed(kernel(n, o.which, o.m)) else o
  }

  /** n instructions in a row, with the kernel's work on each trap, unless an assertion stops the machine. */
  ghost function Run(step: Processor, kernel: Kernel, m: State, n: nat): Outcome
    requires KeepsGood(step) && KernelOk(kernel) && Good(m.regs)
    decreases n
  {
    if n == 0 then Completed(m) else
    var first := Resumed(kernel, n, step(m));
    if first.Completed? then Run(step, kernel, first.m, n - 1) else first
  }

  function Before(m: State, interrupt: bool): State
    requires m.regs[LOAD] < 32
  {
    if interrupt then Flush(m) else m
  }

  lemma FlushKeepsGood(m: State)
    requires Good(m.regs)
    ensures Good(Flush(m).regs)
  {
  }

  /** The same, with an interrupt before each of the instructions marked. */
  ghost function RunInterrupted(step: Processor, kernel: Kernel, m: State, at: seq<bool>): Outcome
    requires KeepsGood(step) && KernelOk(kernel) && Good(m.regs)
    decreases |at|
  {
    if at == [] then Completed(m) else
    FlushKeepsGood(m);
    var first := Resumed(kernel, |at|, step(Before(m, at[0])));
    if first.Completed? then RunInterrupted(step, kernel, first.m, at[1..]) else first
  }

  /** No instruction of the run depends on a load still pending. */
  ghost predicate HazardFreeRun(step: Processor, kernel: Kernel, m: State, n: nat)
    requires KeepsGood(step) && KernelOk(kernel) && Good(m.regs)
    decreases n
  {
    n == 0 ||
    (HazardFree(m) &&
     (var first := Resumed(kernel, n, step(m)); first.Completed? ==> HazardFreeRun(step, kernel, first.m, n - 1)))
  }

  lemma {:induction false} RunKeepsGood(step: Processor, kernel: Kernel, m: State, n: nat)
    requires KeepsGood(step) && KernelOk(kernel) && Good(m.regs)
    ensures GoodOutcome(Run(step, kernel, m, n))
    decreases n
  {
    if n > 0 {
      var first := Resumed(kernel, n, step(m));
      if first.Completed? {
        RunKeepsGood(step, kernel, first.m, n - 1);
      }
    }
  }

  lemma StepIsProcessor()
    ensures KeepsGood(Step)
  {
    forall m: State | Good(m.regs) ensures Step.requires(m) && GoodOutcome(Step(m)) {
      StepKeepsGood(m);
    }
  }

  /** A state and the same without the value of a load to r0 step alike. */
  lemma StepSettled(m: State)
    requires Good(m.regs)
    ensures SameOutcome(Step(m), Step(Settled(m)))
  {
    if m.regs[LOAD] == 0 {
      assert Settled(m) == Flush(m);
      StepAfterFlush(m);
    }
  }

  lemma StepSimilar(m: State, m': State)
    requires Good(m.regs) && Good(m'.regs) && Similar(m, m')
    ensures SameOutcome(Step(m), Step(m'))
  {
    assert m.regs[LOAD] == Settled(m).regs[LOAD] == m'.regs[LOAD];
    StepSettled(m);
    StepSettled(m');
  }

  lemma SimilarHazards(m: State, m': State)
    requires Similar(m, m')
    ensures HazardFree(m) == HazardFree(m')
  {
    assert m.regs[LOAD] == Settled(m).regs[LOAD] == m'.regs[LOAD];
    assert m.regs[PC] == Settled(m).regs[PC] == m'.regs[PC];
  }

  lemma OneInterrupted(m: State, m': State, interrupt: bool)
    requires Good(m.regs) && Good(m'.regs) && Similar(m, m') && HazardFree(m)
    ensures SameOutcome(Step(m), Step(Before(m', interrupt)))
  {
    StepSimilar(m, m');
    if interrupt {
      SimilarHazards(m, m');
      StepAfterFlush(m');
    }
  }

  /** What OneInterrupted says of Step. */
  ghost predicate Indifferent(step: Processor)
    requires KeepsGood(step)
  {
    forall m: State, m': State, interrupt: bool ::
      Good(m.regs) && Good(m'.regs) && Similar(m, m') && HazardFree(m) ==>
        Good(Before(m', interrupt).regs) && SameOutcome(step(m), step(Before(m', interrupt)))
  }

  lemma {:induction false} RunIsIndifferent(step: Processor, kernel: Kernel, m: State, m': State, at: seq<bool>)
    requires KeepsGood(step) && Indifferent(step) && KernelOk(kernel)
    requires Good(m.regs) && Good(m'.regs) && Similar(m, m')
    requires HazardFreeRun(step, kernel, m, |at|)
    ensures SameOutcome(Run(step, kernel, m, |at|), RunInterrupted(step, kernel, m', at))
    decreases |at|
  {
    if at != [] {
      assert SameOutcome(step(m), step(Before(m', at[0])));
      var first, first' := Resumed(kernel, |at|, step(m)), Resumed(kernel, |at|, step(Before(m', at[0])));
      assert SameOutcome(first, first');
      if first.Completed? {
        RunIsIndifferent(step, kernel, first.m, first'.m, at[1..]);
      }
    }
  }

  lemma StepIsIndifferent()
    ensures KeepsGood(Step) && Indifferent(Step)
  {
    StepIsProcessor();
    forall m: State, m': State, interrupt: bool | Good(m.regs) && Good(m'.regs) && Similar(m, m') && HazardFree(m)
      ensures Good(Before(m', interrupt).regs) && SameOutcome(Step(m), Step(Before(m', interrupt)))
    {
      FlushKeepsGood(m');
      OneInterrupted(m, m', interrupt);
    }
  }

  /** n instructions of this processor and the kernel's work between them, alone or with interrupts before
      those marked. */
  ghost function Executed(kernel: Kernel, m: State, n: nat): Outcome
    requires KernelOk(kernel) && Good(m.regs)
  {
    StepIsProcessor();
    Run(Step, kernel, m, n)
  }

  ghost function ExecutedInterrupted(kernel: Kernel, m: State, at: seq<bool>): Outcome
    requires KernelOk(kernel) && Good(m.regs)
  {
    StepIsProcessor();
    RunInterrupted(Step, kernel, m, at)
  }

  ghost predicate RespectsDelay(kernel: Kernel, m: State, n: nat)
    requires KernelOk(kernel) && Good(m.regs)
  {
    StepIsProcessor();
    HazardFreeRun(Step, kernel, m, n)
  }

  /** After any number of instructions, system calls and other traps included, r0 is zero and the pending
      target is one of r0..r31. */
  lemma ExecutedKeepsGood(kernel: Kernel, m: State, n: nat)
    requires KernelOk(kernel) && Good(m.regs)
    ensures GoodOutcome(Executed(kernel, m, n))
  {
    StepIsProcessor();
    RunKeepsGood(Step, kernel, m, n);
  }

  /** Interrupts are transparent: a program that respects the load delay computes the same, with the same traps
      in the same states whatever the kernel does on them, wherever interrupts come in between its
      instructions. */
  lemma InterruptsAreTransparent(kernel: Kernel, m: State, at: seq<bool>)
    requires KernelOk(kernel) && Good(m.regs) && RespectsDelay(kernel, m, |at|)
    ensures SameOutcome(Executed(kernel, m, |at|), ExecutedInterrupted(kernel, m, at))
  {
    StepIsIndifferent();
    RunIsIndifferent(Step, kernel, m, m, at);
  }
}
