/** mipssim.cc and machine.cc: the machine that updates its registers in place, proved against Cpu.Step. */
module Machines {
  import opened Words
  import opened Options
  import opened BitOps
  import opened Memory
  import opened Multiply
  import opened Cpu

  const SIGN_EXTEND_BYTE: Word := 0xffff_ff00
  const SIGN_EXTEND_HALF: Word := 0xffff_0000

  // ---- the operators of the source, in terms of arithmetic --------------------------------------

  /** The overflow tests on sign bits find exactly the sums and differences that do not fit. */
  lemma SignsTellOverflow(a: Word, b: Word)
    ensures FitsInt32(Signed(a) + Signed(b)) <==> !(SignBit(a) == SignBit(b) && SignBit(a) != SignBit(Add32(a, b)))
    ensures (Signed(a) + Signed(b)) % TWO_32 == Add32(a, b)
  {
  }

  lemma SignsTellUnderflow(a: Word, b: Word)
    ensures FitsInt32(Signed(a) - Signed(b)) <==> !(SignBit(a) != SignBit(b) && SignBit(a) != SignBit(Sub32(a, b)))
    ensures (Signed(a) - Signed(b)) % TWO_32 == Sub32(a, b)
  {
  }

  lemma HalfWordUp(x: Word)
    ensures Shl32(x, 16) == x % 0x1_0000 * 0x1_0000
  {
    Powers();
  }

  lemma ProductIsMult(a: Word, b: Word, signedArith: bool, hi: Word, lo: Word)
    requires signedArith ==> SignedPair(hi, lo) == Signed(a) * Signed(b)
    requires !signedArith ==> Pair(hi, lo) == a * b
    ensures Pair(hi, lo) == Product(a, b, signedArith)
  {
    if signedArith {
      assert Pair(hi, lo) == SignedPair(hi, lo) % TWO_64;
    } else {
      ProductFits(a, b);
    }
  }

  method LowHalf(x: Word) returns (r: Word)
    ensures r == x % 0x1_0000
  {
    Powers();
    AndLowWord(x, 16, 0xffff);
    r := And32(x, 0xffff);
  }

  /** What is loaded from a byte or half word as read: the tests and masks of LB, LBU, LH and LHU. */
  method Extend(op: int, value: Word) returns (r: Word)
    requires IsLoad(op)
    ensures r == Extended(op, value)
  {
    Powers();
    r := value;
    if op == LB || op == LBU {
      if value % 0x100 >= 0x80 && op == LB {
        OrHighWord(value, 8, SIGN_EXTEND_BYTE);
        r := Or32(value, SIGN_EXTEND_BYTE);
      } else {
        r := LowByte(value);
      }
    } else if op == LH || op == LHU {
      if value % 0x1_0000 >= 0x8000 && op == LH {
        OrHighWord(value, 16, SIGN_EXTEND_HALF);
        r := Or32(value, SIGN_EXTEND_HALF);
      } else {
        r := LowHalf(value);
      }
    }
  }

  /** LWR on an aligned word: the top byte of memory into the low byte of the register. */
  method MergeRight(merged: Word, value: Word) returns (r: Word)
    ensures r == merged - merged % 0x100 + value / 0x100_0000
  {
    var high := WithoutByte(merged);
    var low := TopByte(value);
    JoinByte(merged / 0x100, low);
    r := Or32(high, low);
  }

  method WithoutByte(x: Word) returns (r: Word)
    ensures r == x / 0x100 * 0x100
  {
    Powers();
    AndHighWord(x, 8, 0xffff_ff00);
    r := And32(x, 0xffff_ff00);
  }

  method TopByte(x: Word) returns (r: Word)
    ensures r == x / 0x100_0000
  {
    r := LowByte(x / 0x100_0000);
  }

  lemma JoinByte(h: nat, byte: Word)
    requires h < 0x100_0000 && byte < 0x100
    ensures Or32(h * 0x100, byte) == h * 0x100 + byte
  {
    Powers();
    OrApartWord(h * 0x100, byte, h, 8);
  }

  method LowByte(x: Word) returns (r: Word)
    ensures r == x % 0x100
  {
    Powers();
    AndLowWord(x, 8, 0xff);
    r := And32(x, 0xff);
  }

  /** SWL and SWR on an aligned word: all of the register, or its low byte into the top byte of memory. */
  method MergeStored(op: int, value: Word, rt: Word) returns (r: Word)
    requires IsPartialStore(op)
    ensures r == Stored(op, value, rt)
  {
    if op == SWL {
      r := rt;
    } else {
      Powers();
      AndLowWord(value, 24, 0xff_ffff);
      var h := rt % 0x100;
      assert Shl32(rt, 24) == h * 0x100_0000;
      assert Pow2(32 - 24) == 0x100;
      OrApartWord(Shl32(rt, 24), value % 0x100_0000, h, 24);
      r := Or32(And32(value, 0xff_ffff), Shl32(rt, 24));
    }
  }

  datatype Status = Ran | Caught(which: ExceptionType) | Failed

  /** Before the delayed load and the program counters: what the cases of the switch have done. */
  ghost predicate Performed(e: Effect, regs: Regs, status: Status, now: State, pcAfter: Word, loadReg: int, loadValue: Word)
    requires EffectOk(e) && regs[LOAD] < 32
  {
    match e
    case Done(w, pc, r, v, m) =>
      status == Ran && now == State(Apply(regs, w), m) && pcAfter == pc && loadReg == r && loadValue == v
    case Raise(which, addr, m) => status == Caught(which) && Trapped(which, now) == Trap(regs, which, addr, m)
    case AssertFails => status == Failed
  }

  ghost predicate Ended(o: Outcome, status: Status, now: State) {
    match o
    case Completed(m) => status == Ran && now == m
    case Trapped(which, m) => status == Caught(which) && now == m
    case Stopped => status == Failed
  }

  class Machine {
    const registers: array<Word>
    var mem: Space

    ghost predicate Valid()
      reads this, registers
    {
      registers.Length == NUM_REGS && registers[LOAD] < 32
    }

    ghost function Value(): State
      requires Valid()
      reads this, registers
    {
      State(registers[..], mem)
    }

    /** All registers and all of memory start at zero, with no page table. */
    constructor ()
      ensures Valid() && fresh(registers) && Good(registers[..])
      ensures Value() == State(seq(NUM_REGS, _ => 0), Space(seq(MEMORY_SIZE, _ => 0), []))
    {
      registers := new Word[NUM_REGS](_ => 0);
      mem := Space(seq(MEMORY_SIZE, _ => 0), []);
      new;
      assert registers[..] == seq(NUM_REGS, _ => 0);
    }

    /** Machine::DelayedLoad. */
    method DelayedLoad(nextReg: int, nextValue: Word)
      requires Valid() && 0 <= nextReg < 32
      modifies registers
      ensures Valid() && registers[..] == Delayed(old(registers[..]), nextReg, nextValue)
    {
      registers[registers[LOAD]] := registers[LOAD_VALUE];
      registers[LOAD] := nextReg;
      registers[LOAD_VALUE] := nextValue;
      registers[0] := 0;
    }

    /** Machine::RaiseException, up to the call of the exception handler. */
    method RaiseException(which: ExceptionType, badVAddr: Word)
      requires Valid()
      modifies registers
      ensures Valid() && Trapped(which, Value()) == Trap(old(registers[..]), which, badVAddr, mem)
    {
      registers[BAD_VADDR] := badVAddr;
      DelayedLoad(0, 0);
    }

    method Arithmetic(i: Instruction) returns (overflow: bool)
      requires Valid() && Proper(i) && IsAlu(i.op)
      modifies registers
      ensures var o := OperandsOf(i, old(registers[..]));
        overflow == Alu(i.op, o.a, o.b).None? &&
        registers[..] == if overflow then old(registers[..]) else old(registers[..])[i.rd := Alu(i.op, o.a, o.b).value]
    {
      var rs, rt := registers[i.rs], registers[i.rt];
      SignsTellOverflow(rs, rt);
      SignsTellUnderflow(rs, rt);
      overflow := false;
      if i.op == ADD {
        var sum := Add32(rs, rt);
        if SignBit(rs) == SignBit(rt) && SignBit(rs) != SignBit(sum) {
          return true;
        }
        registers[i.rd] := sum;
      } else if i.op == SUB {
        var diff := Sub32(rs, rt);
        if SignBit(rs) != SignBit(rt) && SignBit(rs) != SignBit(diff) {
          return true;
        }
        registers[i.rd] := diff;
      } else if i.op == ADDU {
        registers[i.rd] := Add32(rs, rt);
      } else if i.op == SUBU {
        registers[i.rd] := Sub32(rs, rt);
      } else if i.op == AND {
        registers[i.rd] := And32(rs, rt);
      } else if i.op == OR {
        OrWithItself(rs);
        registers[i.rd] := Or32(rs, rs);
      } else if i.op == XOR {
        registers[i.rd] := Xor32(rs, rt);
      } else if i.op == NOR {
        registers[i.rd] := Not32(Or32(rs, rt));
      } else if i.op == SLT {
        registers[i.rd] := if Signed(rs) < Signed(rt) then 1 else 0;
      } else {
        registers[i.rd] := if rs < rt then 1 else 0;
      }
    }

    method Shift(i: Instruction)
      requires Valid() && Proper(i) && IsShift(i.op)
      modifies registers
      ensures var o := OperandsOf(i, old(registers[..]));
        registers[..] == old(registers[..])[i.rd := Shifted(i.op, o.a, o.b, i.extra)]
    {
      var rs, rt := registers[i.rs], registers[i.rt];
      Powers();
      AndLowWord(rs, 5, 0x1f);
      if i.op == SLL {
        registers[i.rd] := Shl32(rt, i.extra);
      } else if i.op == SLLV {
        registers[i.rd] := Shl32(rt, And32(rs, 0x1f));
      } else if i.op == SRA || i.op == SRL {
        registers[i.rd] := Sra32(rt, i.extra);
      } else {
        registers[i.rd] := Sra32(rt, And32(rs, 0x1f));
      }
    }

    method WithConstant(i: Instruction) returns (overflow: bool)
      requires Valid() && Proper(i) && IsImmediate(i.op)
      modifies registers
      ensures var o := OperandsOf(i, old(registers[..]));
        overflow == Immediate(i.op, o.a, i.extra).None? &&
        registers[..] == if overflow then old(registers[..]) else old(registers[..])[i.rt := Immediate(i.op, o.a, i.extra).value]
    {
      var rs, x := registers[i.rs], i.extra;
      var half := LowHalf(x);
      overflow := false;
      if i.op == ADDI {
        SignsTellOverflow(rs, x);
        var sum := Add32(rs, x);
        if SignBit(rs) == SignBit(x) && SignBit(x) != SignBit(sum) {
          return true;
        }
        registers[i.rt] := sum;
      } else if i.op == ADDIU {
        registers[i.rt] := Add32(rs, x);
      } else if i.op == ANDI {
        registers[i.rt] := And32(rs, half);
      } else if i.op == ORI {
        registers[i.rt] := Or32(rs, half);
      } else if i.op == XORI {
        registers[i.rt] := Xor32(rs, half);
      } else if i.op == SLTI {
        registers[i.rt] := if Signed(rs) < Signed(x) then 1 else 0;
      } else if i.op == SLTIU {
        registers[i.rt] := if rs < x then 1 else 0;
      } else {
        HalfWordUp(x);
        registers[i.rt] := Shl32(x, 16);
      }
    }

    /** Mult on two registers, into HI and LO. */
    method Multiplication(i: Instruction)
      requires Valid() && Proper(i) && (i.op == MULT || i.op == MULTU)
      modifies registers
      ensures registers[..] == Apply(old(registers[..]), HiLoEffect(i, OperandsOf(i, old(registers[..]))))
    {
      var rs, rt := registers[i.rs], registers[i.rt];
      var hi, lo := Mult(Signed(rs), Signed(rt), i.op == MULT);
      ProductIsMult(rs, rt, i.op == MULT, hi, lo);
      SplitPair(hi, lo);
      registers[HI], registers[LO] := hi, lo;
    }

    method Division(i: Instruction)
      requires Valid() && Proper(i) && (i.op == DIV || i.op == DIVU)
      modifies registers
      ensures registers[..] == Apply(old(registers[..]), HiLoEffect(i, OperandsOf(i, old(registers[..]))))
    {
      var rs, rt := registers[i.rs], registers[i.rt];
      if rt == 0 {
        registers[LO] := 0;
        registers[HI] := 0;
      } else if i.op == DIV {
        var q := Quotient(Signed(rs), Signed(rt));
        registers[LO] := q % TWO_32;
        registers[HI] := (Signed(rs) - q * Signed(rt)) % TWO_32;
      } else {
        UnsignedDivision(rs, rt);
        registers[LO] := rs / rt;
        registers[HI] := rs % rt;
      }
    }

    method OnHiLo(i: Instruction)
      requires Valid() && Proper(i) && IsHiLo(i.op)
      modifies registers
      ensures registers[..] == Apply(old(registers[..]), HiLoEffect(i, OperandsOf(i, old(registers[..]))))
    {
      if i.op == MFHI {
        registers[i.rd] := registers[HI];
      } else if i.op == MFLO {
        registers[i.rd] := registers[LO];
      } else if i.op == MTHI {
        registers[HI] := registers[i.rs];
      } else if i.op == MTLO {
        registers[LO] := registers[i.rs];
      } else if i.op == MULT || i.op == MULTU {
        Multiplication(i);
      } else {
        Division(i);
      }
    }

    /** Branches; a linking branch falls through into the test of the plain one. */
    method Branch(i: Instruction) returns (pcAfter: Word)
      requires Valid() && Proper(i) && IsBranch(i.op)
      modifies registers
      ensures (registers[..], pcAfter) ==
        (Apply(old(registers[..]), BranchEffect(i, OperandsOf(i, old(registers[..]))).0), BranchEffect(i, OperandsOf(i, old(registers[..]))).1)
    {
      pcAfter := Add32(registers[NEXT_PC], 4);
      var target := Add32(registers[NEXT_PC], Shl32(i.extra, 2));
      if i.op == BGEZAL || i.op == BLTZAL {
        registers[R31] := Add32(registers[NEXT_PC], 4);
      }
      if i.op == BEQ {
        if registers[i.rs] == registers[i.rt] {
          pcAfter := target;
        }
      } else if i.op == BNE {
        if registers[i.rs] != registers[i.rt] {
          pcAfter := target;
        }
      } else if i.op == BGEZ || i.op == BGEZAL {
        if !SignBit(registers[i.rs]) {
          pcAfter := target;
        }
      } else if i.op == BLTZ || i.op == BLTZAL {
        if SignBit(registers[i.rs]) {
          pcAfter := target;
        }
      } else if i.op == BGTZ {
        if Signed(registers[i.rs]) > 0 {
          pcAfter := target;
        }
      } else if Signed(registers[i.rs]) <= 0 {
        pcAfter := target;
      }
    }

    method Jump(i: Instruction) returns (pcAfter: Word)
      requires Valid() && Proper(i) && IsJump(i.op)
      modifies registers
      ensures (registers[..], pcAfter) ==
        (Apply(old(registers[..]), JumpEffect(i, OperandsOf(i, old(registers[..]))).0), JumpEffect(i, OperandsOf(i, old(registers[..]))).1)
    {
      pcAfter := Add32(registers[NEXT_PC], 4);
      if i.op == JAL || i.op == J {
        if i.op == JAL {
          registers[R31] := Add32(registers[NEXT_PC], 4);
        }
        pcAfter := Or32(And32(pcAfter, 0xf000_0000), Shl32(i.extra, 2));
      } else {
        if i.op == JALR {
          registers[i.rd] := Add32(registers[NEXT_PC], 4);
        }
        pcAfter := registers[i.rs];
      }
    }
  
    /** Machine::ReadMem, which raises the exception itself. */
    method Load(addr: Word, size: int) returns (status: Status, value: Word)
      requires Valid() && (size == 1 || size == 2 || size == 4)
      modifies this, registers
      ensures Valid()
      ensures var r := ReadMem(old(mem), addr, size);
        mem == r.2 &&
        match r.0
        case Some(v) => status == Ran && value == v && registers[..] == old(registers[..])
        case None => status == Caught(r.1) && Trapped(r.1, Value()) == Trap(old(registers[..]), r.1, addr, r.2)
    {
      var (v, fault, mem') := ReadMem(mem, addr, size);
      mem := mem';
      match v {
        case Some(x) => status, value := Ran, x;
        case None =>
          RaiseException(fault, addr);
          status, value := Caught(fault), 0;
      }
    }

    /** Machine::WriteMem. */
    method Store(addr: Word, size: int, value: Word) returns (status: Status)
      requires Valid() && (size == 1 || size == 2 || size == 4)
      modifies this, registers
      ensures Valid()
      ensures var r := WriteMem(old(mem), addr, size, value);
        mem == r.1 &&
        if r.0 == NoException then status == Ran && registers[..] == old(registers[..])
        else status == Caught(r.0) && Trapped(r.0, Value()) == Trap(old(registers[..]), r.0, addr, r.1)
    {
      var (fault, mem') := WriteMem(mem, addr, size, value);
      mem := mem';
      status := Ran;
      if fault != NoException {
        RaiseException(fault, addr);
        status := Caught(fault);
      }
    }

    method LoadDelayed(i: Instruction) returns (status: Status, pcAfter: Word, loadReg: int, loadValue: Word)
      requires Valid() && Proper(i) && IsLoad(i.op)
      modifies this, registers
      ensures Valid()
      ensures Performed(LoadEffect(i, OperandsOf(i, old(registers[..])), old(mem)), old(registers[..]), status, Value(),
                        pcAfter, loadReg, loadValue)
    {
      pcAfter, loadReg, loadValue := Add32(registers[NEXT_PC], 4), 0, 0;
      var tmp := Add32(registers[i.rs], i.extra);
      var size := if i.op == LB || i.op == LBU then 1 else if i.op == LH || i.op == LHU then 2 else 4;
      if size > 1 && tmp % size != 0 {
        RaiseException(AddressErrorException, tmp);
        return Caught(AddressErrorException), pcAfter, loadReg, loadValue;
      }
      var value;
      status, value := Load(tmp, size);
      if status == Ran {
        loadReg := i.rt;
        loadValue := Extend(i.op, value);
      }
    }

    method LoadPart(i: Instruction) returns (status: Status, pcAfter: Word, loadReg: int, loadValue: Word)
      requires Valid() && Proper(i) && IsPartialLoad(i.op)
      modifies this, registers
      ensures Valid()
      ensures Performed(PartialLoadEffect(i, OperandsOf(i, old(registers[..])), old(mem)), old(registers[..]), status, Value(),
                        pcAfter, loadReg, loadValue)
    {
      pcAfter, loadReg, loadValue := Add32(registers[NEXT_PC], 4), 0, 0;
      var tmp := Add32(registers[i.rs], i.extra);
      if tmp % 4 != 0 {
        return Failed, pcAfter, loadReg, loadValue;
      }
      var value;
      status, value := Load(tmp, 4);
      if status == Ran {
        if registers[LOAD] == i.rt {
          loadValue := registers[LOAD_VALUE];
        } else {
          loadValue := registers[i.rt];
        }
        if i.op == LWL {
          loadValue := value;
        } else {
          loadValue := MergeRight(loadValue, value);
        }
        loadReg := i.rt;
      }
    }

    method StoreWhole(i: Instruction) returns (status: Status, pcAfter: Word)
      requires Valid() && Proper(i) && IsStore(i.op)
      modifies this, registers
      ensures Valid()
      ensures Performed(StoreEffect(i, OperandsOf(i, old(registers[..])), old(mem)), old(registers[..]), status, Value(),
                        pcAfter, 0, 0)
    {
      pcAfter := Add32(registers[NEXT_PC], 4);
      var addr := Add32(registers[i.rs], i.extra);
      if i.op == SB {
        status := Store(addr, 1, registers[i.rt]);
      } else if i.op == SH {
        status := Store(addr, 2, registers[i.rt]);
      } else {
        status := Store(addr, 4, registers[i.rt]);
      }
    }

    method StorePart(i: Instruction) returns (status: Status, pcAfter: Word)
      requires Valid() && Proper(i) && IsPartialStore(i.op)
      modifies this, registers
      ensures Valid()
      ensures Performed(PartialStoreEffect(i, OperandsOf(i, old(registers[..])), old(mem)), old(registers[..]), status, Value(),
                        pcAfter, 0, 0)
    {
      pcAfter := Add32(registers[NEXT_PC], 4);
      var tmp := Add32(registers[i.rs], i.extra);
      if tmp % 4 != 0 {
        return Failed, pcAfter;
      }
      var value;
      status, value := Load(tmp, 4);
      if status == Ran {
        value := MergeStored(i.op, value, registers[i.rt]);
        status := Store(tmp, 4, value);
      }
    }

    /** The operations that stay in the processor. */
    method Compute(i: Instruction) returns (status: Status, pcAfter: Word)
      requires Valid() && Proper(i) && (IsAlu(i.op) || IsShift(i.op) || IsImmediate(i.op) || IsHiLo(i.op))
      modifies registers
      ensures Valid()
      ensures Performed(EffectOf(i, OperandsOf(i, old(registers[..])), mem), old(registers[..]), status, Value(), pcAfter, 0, 0)
    {
      status, pcAfter := Ran, Add32(registers[NEXT_PC], 4);
      var overflow := false;
      if IsAlu(i.op) {
        overflow := Arithmetic(i);
      } else if IsShift(i.op) {
        Shift(i);
      } else if IsImmediate(i.op) {
        overflow := WithConstant(i);
      } else {
        OnHiLo(i);
      }
      if overflow {
        RaiseException(OverflowException, 0);
        status := Caught(OverflowException);
      }
    }

    /** The switch of OneInstruction. */
    method Perform(i: Instruction) returns (status: Status, pcAfter: Word, loadReg: int, loadValue: Word)
      requires Valid() && Proper(i)
      modifies this, registers
      ensures Valid()
      ensures Performed(EffectOf(i, OperandsOf(i, old(registers[..])), old(mem)), old(registers[..]), status, Value(),
                        pcAfter, loadReg, loadValue)
    {
      status, pcAfter, loadReg, loadValue := Ran, 0, 0, 0;
      if IsAlu(i.op) || IsShift(i.op) || IsImmediate(i.op) || IsHiLo(i.op) {
        status, pcAfter := Compute(i);
      } else if IsBranch(i.op) {
        pcAfter := Branch(i);
      } else if IsJump(i.op) {
        pcAfter := Jump(i);
      } else if IsLoad(i.op) {
        status, pcAfter, loadReg, loadValue := LoadDelayed(i);
      } else if IsPartialLoad(i.op) {
        status, pcAfter, loadReg, loadValue := LoadPart(i);
      } else if IsStore(i.op) {
        status, pcAfter := StoreWhole(i);
      } else if IsPartialStore(i.op) {
        status, pcAfter := StorePart(i);
      } else if i.op == SYSCALL {
        RaiseException(SyscallException, 0);
        status := Caught(SyscallException);
      } else if i.op == RES || i.op == UNIMP {
        RaiseException(IllegalInstrException, 0);
        status := Caught(IllegalInstrException);
      } else {
        status := Failed;
      }
    }

    /** Machine::OneInstruction does one step of the processor. */
    method OneInstruction() returns (status: Status)
      requires Valid()
      modifies this, registers
      ensures Valid()
      ensures Ended(Step(old(Value())), status, Value())
    {
      var raw;
      status, raw := Load(registers[PC], 4);
      if status != Ran {
        return;
      }
      DecodeIsTotal(raw);
      var pcAfter, loadReg, loadValue;
      status, pcAfter, loadReg, loadValue := Perform(Decode(raw));
      if status == Ran {
        DelayedLoad(loadReg, loadValue);
        registers[PREV_PC] := registers[PC];
        registers[PC] := registers[NEXT_PC];
        registers[NEXT_PC] := pcAfter;
      }
    }
  }

  lemma SplitPair(hi: Word, lo: Word)
    ensures Pair(hi, lo) / TWO_32 == hi && Pair(hi, lo) % TWO_32 == lo
  {
  }

  lemma UnsignedDivision(a: Word, b: Word)
    requires b != 0
    ensures Divided(a, b) == HiLo(a % b, a / b)
  {
    DivisionIs(a, b);
    assert Quotient(a, b) == a / b;
    NoWrap(a / b);
    NoWrap(a % b);
  }

  lemma DivisionIs(a: Word, b: Word)
    requires b != 0
    ensures 0 <= a / b <= a && a - (a / b) * b == a % b
  {
    var q := a / b;
    assert a == b * q + a % b;
    QuotientIsSmaller(q, b, a);
  }

  lemma NoWrap(x: nat)
    requires x < TWO_32
    ensures x % TWO_32 == x
  {
  }

  lemma QuotientIsSmaller(q: nat, b: nat, a: nat)
    requires b > 0 && b * q <= a
    ensures q <= a
  {
    MulAtLeast(b, 1, q);
  }
}
