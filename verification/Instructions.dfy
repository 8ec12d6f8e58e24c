/** What the arithmetic of mipssim.cc means, apart from how it is computed: shifts bit by bit, division by its law, and
    decoding as the inverse of an encoder for each instruction format. */
module Instructions {
  import opened Words
  import opened Options
  import opened BitOps
  import opened Multiply
  import opened Memory
  import opened Cpu

  // ---- shifts -----------------------------------------------------------------------------------

  /** A left shift moves bits up and brings in zeros. */
  lemma ShlBits(a: Word, n: nat, k: nat)
    requires k < 32
    ensures TestBit(Shl32(a, n), k) <==> k >= n && TestBit(a, k - n)
  {
    WordLimit();
    UpIsProduct(a, n);
    LowIsRemainder(a * Pow2(n), 32);
    LowBits(a * Pow2(n), 32, k);
    UpBits(a, n, k);
  }

  lemma NotBits(a: Word, k: nat)
    requires k < 32
    ensures TestBit(Not32(a), k) <==> !TestBit(a, k)
  {
    WordLimit();
    Complement(a, 32, k);
  }

  lemma {:induction false} Complement(a: nat, n: nat, k: nat)
    requires a < Pow2(n) && k < n
    ensures TestBit(Pow2(n) - 1 - a, k) <==> !TestBit(a, k)
  {
    if k > 0 {
      assert (Pow2(n) - 1 - a) / 2 == Pow2(n - 1) - 1 - a / 2;
      Complement(a / 2, n - 1, k - 1);
    }
  }

  /** An arithmetic right shift by one place. */
  function Halved(a: Word): Word {
    a / 2 + (if a >= 0x8000_0000 then 0x8000_0000 else 0)
  }

  lemma HalvedBits(a: Word, k: nat)
    requires k < 32
    ensures TestBit(Halved(a), k) <==> TestBit(a, if k < 31 then k + 1 else 31)
  {
    WordLimit();
    assert Pow2(32) == 2 * Pow2(31);
    TopBit(a, 31);
    TopAdded(a / 2, 31, k);
    TopBit(a / 2, 31);
    assert TestBit(a, k + 1) == TestBit(a / 2, k);
  }

  lemma DivideTwice(x: int, p: nat)
    requires p > 0
    ensures x / 2 / p == x / (2 * p)
  {
    var q, r := x / (2 * p), x % (2 * p);
    assert x == 2 * p * q + r;
    assert x / 2 == p * q + r / 2 by {
      assert x == 2 * (p * q) + r;
    }
    OneQuotient(p, x / 2 / p, x / 2 % p, q, r / 2);
  }

  lemma OneQuotient(d: int, q: int, r: int, q': int, r': int)
    requires 0 <= r < d && 0 <= r' < d && d * q + r == d * q' + r'
    ensures q == q'
  {
    var t := q - q';
    assert d * t == r' - r;
    if t != 0 {
      MultipleIsFar(d, t);
    }
  }

  lemma SraStep(a: Word, n: nat)
    requires n > 0
    ensures Sra32(a, n) == Sra32(Halved(a), n - 1)
  {
    assert Signed(Halved(a)) == Signed(a) / 2;
    DivideTwice(Signed(a), Pow2(n - 1));
  }

  /** A right shift moves bits down and copies the sign bit in from above. */
  lemma {:induction false} SraBits(a: Word, n: nat, k: nat)
    requires k < 32
    ensures TestBit(Sra32(a, n), k) <==> TestBit(a, if k + n < 31 then k + n else 31)
    decreases n
  {
    if n == 0 {
      assert Pow2(0) == 1;
      assert Sra32(a, 0) == a;
    } else {
      SraStep(a, n);
      SraBits(Halved(a), n - 1, k);
      HalvedBits(a, if k + (n - 1) < 31 then k + (n - 1) else 31);
    }
  }

  // ---- division ---------------------------------------------------------------------------------

  function Magnitude(x: int): nat {
    if x < 0 then -x else x
  }

  /** Quotient and remainder as C defines them: they make up the dividend, the remainder is smaller than the divisor,
      and it has the sign of the dividend unless it is zero.  There is just one such pair. */
  ghost predicate Divides(a: int, b: int, q: int, r: int) {
    q * b + r == a && Magnitude(r) < Magnitude(b) && (r == 0 || (r < 0) == (a < 0))
  }

  lemma NatDivision(x: nat, y: nat)
    requires y > 0
    ensures x == y * (x / y) + x % y && 0 <= x / y <= x && 0 <= x % y < y
  {
    var q := x / y;
    if q > 0 {
      AtLeast(q, y);
      assert q * y == y * q;
    }
  }

  lemma QuotientDivides(a: int, b: int)
    requires b != 0
    ensures var q := Quotient(a, b); Divides(a, b, q, a - q * b) && Magnitude(q) <= Magnitude(a)
    ensures a >= 0 && b > 0 ==> Quotient(a, b) >= 0
  {
    var x: int, y: int := Magnitude(a), Magnitude(b);
    NatDivision(x, y);
    SignedProduct(a, b, x / y, y);
  }

  lemma SignedProduct(a: int, b: int, u: int, y: int)
    requires b != 0 && y == (if b < 0 then -b else b)
    ensures (if (a < 0) == (b < 0) then u else -u) * b == (if a < 0 then -(y * u) else y * u)
  {
    if b < 0 {
      assert u * b == -(u * -b) && -u * b == u * -b;
    }
  }

  /** DIV, for every dividend and divisor but zero and the one pair whose quotient does not fit. */
  lemma DivLaw(i: Instruction, o: Operands)
    requires i.op == DIV && o.b != 0 && !(Signed(o.a) == -0x8000_0000 && Signed(o.b) == -1)
    ensures var e := HiLoEffect(i, o);
      e.HiLo? && Divides(Signed(o.a), Signed(o.b), Signed(e.lo), Signed(e.hi))
  {
    var a: int, b: int := Signed(o.a), Signed(o.b);
    QuotientDivides(a, b);
    QuotientFits(a, b);
    SignedBack(Quotient(a, b));
    SignedBack(a - Quotient(a, b) * b);
  }

  lemma QuotientFits(a: int, b: int)
    requires FitsInt32(a) && FitsInt32(b) && b != 0 && !(a == -0x8000_0000 && b == -1)
    ensures FitsInt32(Quotient(a, b)) && FitsInt32(a - Quotient(a, b) * b)
  {
    QuotientDivides(a, b);
    if a == -0x8000_0000 && Quotient(a, b) == 0x8000_0000 {
      SmallQuotient(b);
    }
  }

  lemma SmallQuotient(b: int)
    requires b < -1
    ensures Quotient(-0x8000_0000, b) < 0x8000_0000
  {
  }

  lemma SignedBack(x: int)
    requires FitsInt32(x)
    ensures Signed(x % TWO_32) == x
  {
  }

  /** DIVU. */
  lemma DivuLaw(i: Instruction, o: Operands)
    requires i.op == DIVU && o.b != 0
    ensures var e := HiLoEffect(i, o); e.HiLo? && e.lo * o.b + e.hi == o.a && e.hi < o.b
  {
    var a: int, b: int := o.a, o.b;
    QuotientDivides(a, b);
    var q := Quotient(a, b);
    NoWrap(q);
    NoWrap(a - q * b);
  }

  lemma NoWrap(x: int)
    requires 0 <= x < TWO_32
    ensures x % TWO_32 == x
  {
  }

  /** The law leaves no choice. */
  lemma DividesOnce(a: int, b: int, q: int, r: int, q': int, r': int)
    requires Divides(a, b, q, r) && Divides(a, b, q', r')
    ensures q == q' && r == r'
  {
    Distribute(q, q', b);
    CloseRemainders(a, b, r, r');
    NotFar(b, q - q', r' - r);
  }

  lemma Distribute(q: int, q': int, b: int)
    ensures (q - q') * b == q * b - q' * b
  {
  }

  lemma CloseRemainders(a: int, b: int, r: int, r': int)
    requires Magnitude(r) < Magnitude(b) && Magnitude(r') < Magnitude(b)
    requires (r == 0 || (r < 0) == (a < 0)) && (r' == 0 || (r' < 0) == (a < 0))
    ensures Magnitude(r' - r) < Magnitude(b)
  {
  }

  lemma NotFar(b: int, t: int, x: int)
    requires b != 0 && t * b == x && Magnitude(x) < Magnitude(b)
    ensures t == 0
  {
    if b > 0 {
      SmallMultiple(b, t, x);
    } else {
      assert -b * t == -x;
      SmallMultiple(-b, t, -x);
    }
  }

  lemma SmallMultiple(d: int, t: int, x: int)
    requires d > 0 && d * t == x && -d < x < d
    ensures t == 0
  {
    if t != 0 {
      MultipleIsFar(d, t);
    }
  }

  // ---- decoding ---------------------------------------------------------------------------------

  /** The function codes of the R format, the codes of the I and J formats, and the codes that BCOND takes in rt, as
      the manual of the processor lists them. */
  function FunctionCode(op: int): Option<int> {
    if op == SLL then Some(0x00) else if op == SRL then Some(0x02) else if op == SRA then Some(0x03)
    else if op == SLLV then Some(0x04) else if op == SRLV then Some(0x06) else if op == SRAV then Some(0x07)
    else if op == JR then Some(0x08) else if op == JALR then Some(0x09) else if op == SYSCALL then Some(0x0c)
    else if op == MFHI then Some(0x10) else if op == MTHI then Some(0x11) else if op == MFLO then Some(0x12)
    else if op == MTLO then Some(0x13) else if op == MULT then Some(0x18) else if op == MULTU then Some(0x19)
    else if op == DIV then Some(0x1a) else if op == DIVU then Some(0x1b) else if op == ADD then Some(0x20)
    else if op == ADDU then Some(0x21) else if op == SUB then Some(0x22) else if op == SUBU then Some(0x23)
    else if op == AND then Some(0x24) else if op == OR then Some(0x25) else if op == XOR then Some(0x26)
    else if op == NOR then Some(0x27) else if op == SLT then Some(0x2a) else if op == SLTU then Some(0x2b)
    else None
  }

  function ImmediateCode(op: int): Option<int> {
    if op == BEQ then Some(0x04) else if op == BNE then Some(0x05) else if op == BLEZ then Some(0x06)
    else if op == BGTZ then Some(0x07) else if op == ADDI then Some(0x08) else if op == ADDIU then Some(0x09)
    else if op == SLTI then Some(0x0a) else if op == SLTIU then Some(0x0b) else if op == ANDI then Some(0x0c)
    else if op == ORI then Some(0x0d) else if op == XORI then Some(0x0e) else if op == LUI then Some(0x0f)
    else if op == LB then Some(0x20) else if op == LH then Some(0x21) else if op == LWL then Some(0x22)
    else if op == LW then Some(0x23) else if op == LBU then Some(0x24) else if op == LHU then Some(0x25)
    else if op == LWR then Some(0x26) else if op == SB then Some(0x28) else if op == SH then Some(0x29)
    else if op == SWL then Some(0x2a) else if op == SW then Some(0x2b) else if op == SWR then Some(0x2e)
    else None
  }

  function JumpCode(op: int): Option<int> {
    if op == J then Some(2) else if op == JAL then Some(3) else None
  }

  function ConditionCode(op: int): Option<int> {
    if op == BLTZ then Some(0x00) else if op == BGEZ then Some(0x01) else if op == BLTZAL then Some(0x10)
    else if op == BGEZAL then Some(0x11) else None
  }

  predicate IsRegister(r: int) {
    0 <= r < 32
  }

  /** The word with these fields. */
  function Encoded(major: int, rs: int, rt: int, low: int): Word
    requires 0 <= major < 64 && IsRegister(rs) && IsRegister(rt) && 0 <= low < 0x1_0000
  {
    major * 0x400_0000 + rs * 0x20_0000 + rt * 0x1_0000 + low
  }

  /** rd, the shift amount and the function code. */
  function LowOf(rd: int, shamt: int, funct: int): int {
    rd * 0x800 + shamt * 0x40 + funct
  }

  lemma FieldsBack(major: int, rs: int, rt: int, low: int)
    requires 0 <= major < 64 && IsRegister(rs) && IsRegister(rt) && 0 <= low < 0x1_0000
    ensures var w := Encoded(major, rs, rt, low);
      Field(w, 26, 6) == major && Field(w, 21, 5) == rs && Field(w, 16, 5) == rt && w % 0x1_0000 == low
  {
    FieldPowers();
    var w := Encoded(major, rs, rt, low);
    assert w / 0x1_0000 == major * 0x400 + rs * 0x20 + rt;
    assert w / 0x20_0000 == major * 0x20 + rs;
    assert w / 0x400_0000 == major;
  }

  lemma LowBack(rd: int, shamt: int, funct: int, w: Word)
    requires IsRegister(rd) && IsRegister(shamt) && 0 <= funct < 64 && w % 0x1_0000 == LowOf(rd, shamt, funct)
    ensures Field(w, 11, 5) == rd && w / 0x40 % 0x20 == shamt && w % 0x40 == funct
  {
    FieldPowers();
    var h := w / 0x1_0000;
    assert w == h * 0x1_0000 + LowOf(rd, shamt, funct);
    RdBack(w, h, rd, shamt * 0x40 + funct);
    ShamtBack(w, h * 0x20 + rd, shamt, funct);
  }

  lemma RdBack(w: int, h: int, rd: int, rest: int)
    requires w == h * 0x1_0000 + rd * 0x800 + rest && IsRegister(rd) && 0 <= rest < 0x800
    ensures w / 0x800 % 0x20 == rd
  {
    assert w == 0x800 * (h * 0x20 + rd) + rest;
    assert w / 0x800 == h * 0x20 + rd;
  }

  lemma ShamtBack(w: int, h: int, shamt: int, funct: int)
    requires w == h * 0x800 + shamt * 0x40 + funct && IsRegister(shamt) && 0 <= funct < 0x40
    ensures w / 0x40 % 0x20 == shamt && w % 0x40 == funct
  {
    assert w == 0x40 * (h * 0x20 + shamt) + funct;
    assert w / 0x40 == h * 0x20 + shamt;
  }

  /** A register instruction decodes to its operation and fields. */
  lemma DecodeRegister(op: int, rs: int, rt: int, rd: int, shamt: int)
    requires FunctionCode(op).Some? && IsRegister(rs) && IsRegister(rt) && IsRegister(rd) && IsRegister(shamt)
    ensures Decode(Encoded(0, rs, rt, LowOf(rd, shamt, FunctionCode(op).value))) == Instruction(op, rs, rt, rd, shamt)
  {
    var c := FunctionCode(op).value;
    SpecialBack(op);
    FieldsBack(0, rs, rt, LowOf(rd, shamt, c));
    LowBack(rd, shamt, c, Encoded(0, rs, rt, LowOf(rd, shamt, c)));
  }

  lemma SpecialBack(op: int)
    requires FunctionCode(op).Some?
    ensures 0 <= FunctionCode(op).value < 64 && SpecialOp(FunctionCode(op).value) == op
  {
  }

  /** The constant of an instruction as a word, extended by its sign. */
  function SignExtended(x: int): Word
    requires 0 <= x < 0x1_0000
  {
    if x >= 0x8000 then x + 0xffff_0000 else x
  }

  lemma DecodeImmediate(op: int, rs: int, rt: int, x: int)
    requires ImmediateCode(op).Some? && IsRegister(rs) && IsRegister(rt) && 0 <= x < 0x1_0000
    ensures var i := Decode(Encoded(ImmediateCode(op).value, rs, rt, x));
      i.op == op && i.rs == rs && i.rt == rt && i.extra == SignExtended(x)
  {
    FieldsBack(ImmediateCode(op).value, rs, rt, x);
  }

  lemma DecodeCondition(op: int, rs: int, x: int)
    requires ConditionCode(op).Some? && IsRegister(rs) && 0 <= x < 0x1_0000
    ensures var i := Decode(Encoded(1, rs, ConditionCode(op).value, x)); i.op == op && i.rs == rs && i.extra == SignExtended(x)
  {
    FieldsBack(1, rs, ConditionCode(op).value, x);
  }

  lemma DecodeJump(op: int, target: int)
    requires JumpCode(op).Some? && 0 <= target < 0x400_0000
    ensures var i := Decode(JumpCode(op).value * 0x400_0000 + target); i.op == op && i.extra == target
  {
    FieldPowers();
    var c := JumpCode(op).value;
    assert (c * 0x400_0000 + target) / 0x400_0000 == c && (c * 0x400_0000 + target) % 0x400_0000 == target;
  }

  lemma SpecialOnly(k: int)
    requires 0 <= k < 64
    ensures var op := SpecialOp(k); FunctionCode(op) == Some(k) || op == RES || op == UNIMP
    ensures var op := SpecialOp(k); ImmediateCode(op).None? && JumpCode(op).None? && ConditionCode(op).None?
  {
  }

  lemma MajorOnly(k: int)
    requires 1 < k < 64
    ensures var op := MajorOp(k); op != SPECIAL && op != BCOND
    ensures var op := MajorOp(k); ImmediateCode(op) == Some(k) || JumpCode(op) == Some(k) || op == RES || op == UNIMP
    ensures var op := MajorOp(k); FunctionCode(op).None? && ConditionCode(op).None? && (ImmediateCode(op).None? || JumpCode(op).None?)
  {
  }

  /** And no other word decodes to an operation that the processor has. */
  lemma DecodeOnly(w: Word)
    ensures var op, major := Decode(w).op, w / 0x400_0000;
      && (FunctionCode(op).Some? ==> major == 0 && w % 0x40 == FunctionCode(op).value)
      && (ImmediateCode(op).Some? ==> major == ImmediateCode(op).value)
      && (JumpCode(op).Some? ==> major == JumpCode(op).value)
      && (ConditionCode(op).Some? ==> major == 1 && w / 0x1_0000 % 0x20 == ConditionCode(op).value)
      && (FunctionCode(op).Some? || ImmediateCode(op).Some? || JumpCode(op).Some? || ConditionCode(op).Some? || op == RES || op == UNIMP)
  {
    FieldPowers();
    var major := w / 0x400_0000;
    assert Field(w, 26, 6) == major && Field(w, 16, 5) == w / 0x1_0000 % 0x20;
    if major == 0 {
      SpecialOnly(w % 0x40);
    } else if major > 1 {
      MajorOnly(major);
    }
  }

  // ---- operands ---------------------------------------------------------------------------------

  /** Which operations look at rs and at rt: all that the processor has, but for those listed.  OR is among them,
      because the source uses its first operand twice. */
  lemma ReadsExactly(op: int)
    requires HasCase(op)
    ensures ReadsRs(op) <==>
      op !in {SLL, SRL, SRA, LUI, J, JAL, MFHI, MFLO, SYSCALL, UNIMP, RES}
    ensures ReadsRt(op) <==>
      op in {ADD, ADDU, AND, BEQ, BNE, DIV, DIVU, MULT, MULTU, NOR, SB, SH, SLL, SLLV, SLT, SLTU, SRA, SRAV, SRL, SRLV, SUB, SUBU,
             SW, SWL, SWR, XOR}
  {
  }
}
