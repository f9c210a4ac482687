/**
 What the words of the plain opcodes say: every field that the processor decodes, for all accepted operands,
 and what the moves and additions among them do when executed. `li` and `set` are in module WideConstants,
 and the opcodes that name a label in module Reach.
*/
module Encodings {
  import opened Words
  import opened Results
  import opened Instructions
  import opened Reach
  import opened Tokens
  import opened Constants
  import opened Grammar
  import opened Items
  import I = Instructions
  import S = State
  import Machine

  /** The fields of a word as an I-type and as an R-type instruction. */
  datatype IFields = IFields(op: opcode7, rd: reg, f3: funct3, rs1: reg, imm: int)

  datatype RFields = RFields(op: opcode7, rd: reg, f3: funct3, rs1: reg, rs2: reg, f7: funct7)

  function IFieldsOf(w: u32): IFields {
    IFields(I.Opcode(w), Rd(w), Funct3(w), Rs1(w), SignedImm(w))
  }

  function RFieldsOf(w: u32): RFields {
    RFields(I.Opcode(w), Rd(w), Funct3(w), Rs1(w), Rs2(w), Funct7(w))
  }

  predicate IsIType(w: u32, op: opcode7, rd: reg, f3: funct3, rs1: reg, imm: int) {
    IFieldsOf(w) == IFields(op, rd, f3, rs1, imm)
  }

  predicate IsRType(w: u32, op: opcode7, rd: reg, f3: funct3, rs1: reg, rs2: reg, f7: funct7) {
    RFieldsOf(w) == RFields(op, rd, f3, rs1, rs2, f7)
  }

  /** A 12-bit immediate says its constant exactly when the constant, at 64 bits, is in range. */
  lemma ImmediateExact(imm: u128)
    ensures S12(imm) == S64(imm) <==> ImmediateFits(imm)
  {
    LowTwelve(imm);
    InTwelveBits(S64(imm));
  }

  lemma LowTwelve(imm: u128)
    ensures S12(imm) == S12(S64(imm))
  {
    var x: int := S64(imm);
    var q := (imm - x) / P64;
    assert imm == x + P64 * q;
    SameResidue(x, 0x10_0000_0000_0000 * q, 0x1000);
    assert 0x1000 * (0x10_0000_0000_0000 * q) == P64 * q;
  }

  lemma InTwelveBits(x: int)
    ensures S12(x) == x <==> -2048 <= x <= 0x7FF
  {
  }

  /** A constant of fewer bits, read as the 64 bits of a signed number (decimals), or as all 128 bits. */
  predicate Near64(imm: u128, half: nat) {
    imm < half || P64 - half <= imm < P64
  }

  predicate Near128(imm: u128, half: nat) {
    imm < half || imm >= P128 - half
  }

  /** A field says the constant that was written, in either reading, exactly when it has the bits for it. */
  ghost predicate Exactly(x: int, imm: u128, half: nat, even: bool) {
    && (x % P64 == imm <==> Near64(imm, half) && (even ==> imm % 2 == 0))
    && (Wrap(x) == imm <==> Near128(imm, half) && (even ==> imm % 2 == 0))
  }

  /** A field of 12 bits. */
  lemma ConstantExact(x: int, imm: u128)
    requires x == S12(imm)
    ensures Exactly(x, imm, 0x800, false)
  {
    SmallMod(x);
  }

  lemma SmallMod(x: int)
    requires -0x10_0000 <= x <= 0x10_0000
    ensures x % P64 == if x < 0 then x + P64 else x
    ensures Wrap(x) == if x < 0 then x + P128 else x
  {
    if x < 0 {
      ModUnique(x, P64, -1, x + P64);
      ModUnique(x, P128, -1, x + P128);
    } else {
      ModUnique(x, P64, 0, x);
      ModUnique(x, P128, 0, x);
    }
  }

  /** The 20 bits of a jump, of which the last is always zero. */
  lemma JumpConstantExact(x: int, imm: u128)
    requires x == (imm - imm % 2 + 0x80000) % 0x100000 - 0x80000
    ensures Exactly(x, imm, 0x80000, true)
  {
    SmallMod(x);
  }

  /** The bounds check looks at 64 bits: what passes it is in bounds exactly if there are no more, or only signs. */
  lemma CheckedExact(imm: u128)
    requires ImmediateFits(imm)
    ensures Near64(imm, 0x800) <==> imm < P64
    ensures Near64(imm, 0x800) || Near128(imm, 0x800) <==> imm < P64 || imm >= P128 - 0x800
  {
  }

  /** Registers of arithmetic: the destination is also the first source when only two are written. */
  ghost predicate SaysRegisters(w: u32, op: opcode7, f3: funct3, f7: funct7, operands: Operands) {
    match operands
    case Regs2(r, r2) => IsRType(w, op, r, f3, r, r2, f7)
    case Regs3(r, r2, r3) => IsRType(w, op, r, f3, r2, r3, f7)
    case _ => false
  }

  /**
   The words of a plain opcode, field by field; those without operands are the words of the RISC-V
   Unprivileged and Privileged ISA manuals.
  */
  ghost predicate Says(op: Opcode, operands: Operands, words: seq<u32>) {
    match op
    case Nop => words == [0x13]
    case Mov => operands.Regs2? && |words| == 1 && IsIType(words[0], RV32I_OP_IMM, operands.a, 0, operands.b, 0)
    case Inc => operands.Reg? && |words| == 1 && IsIType(words[0], RV32I_OP_IMM, operands.a, 0, operands.a, 1)
    case Load(f3) =>
      && operands.Regs2Imm? && |words| == 1
      && IsIType(words[0], RV32I_LOAD, operands.a, f3, operands.b, S12(operands.imm))
      && (SignedImm(words[0]) == S64(operands.imm) <==> ImmediateFits(operands.imm))
      && Exactly(SignedImm(words[0]), operands.imm, 0x800, false)
    case Store(f3) =>
      && operands.Regs2Imm? && |words| == 1
      && I.Opcode(words[0]) == RV32I_STORE && Funct3(words[0]) == f3
      && Rs1(words[0]) == operands.a && Rs2(words[0]) == operands.b
      && (StoreImm(words[0]) == S64(operands.imm) <==> ImmediateFits(operands.imm))
      && Exactly(StoreImm(words[0]), operands.imm, 0x800, false)
    case Call =>
      operands.RegImm? ==>
        && |words| == 1 && I.Opcode(words[0]) == RV32I_JAL && Rd(words[0]) == operands.a
        && (JumpOffset(words[0]) == S64(operands.imm) <==> InJumpRange(S64(operands.imm)))
        && Exactly(JumpOffset(words[0]), operands.imm, 0x80000, true)
    case Jalr =>
      && operands.Regs2Imm? && |words| == 1
      && IsIType(words[0], RV32I_JALR, operands.a, 0, operands.b, S12(operands.imm))
      && (SignedImm(words[0]) == S64(operands.imm) <==> ImmediateFits(operands.imm))
      && Exactly(SignedImm(words[0]), operands.imm, 0x800, false)
    case Ret => words == [0x8067]
    case Arithmetic(opcode, f3) =>
      && |words| == 1
      && if operands.RegImm?
         then && IsIType(words[0], opcode, operands.a, f3, operands.a, S64(operands.imm))
              && Exactly(SignedImm(words[0]), operands.imm, 0x800, false)
              && (SignedImm(words[0]) % P64 == operands.imm <==> operands.imm < P64)
              && (SignedImm(words[0]) % P64 == operands.imm || Wrap(SignedImm(words[0])) == operands.imm
                  <==> operands.imm < P64 || operands.imm >= P128 - 0x800)
         else SaysRegisters(words[0], RegisterForm(opcode), f3, 0, operands)
    case RegisterOnly(opcode, f3, f7) => |words| == 1 && SaysRegisters(words[0], opcode, f3, f7, operands)
    case Syscall =>
      && operands.Imm? && |words| == 2
      && IsIType(words[0], RV32I_OP_IMM, 17, 0, 0, S12(operands.imm)) && words[1] == 0x73
      && (SignedImm(words[0]) == S64(operands.imm) <==> ImmediateFits(operands.imm))
      && Exactly(SignedImm(words[0]), operands.imm, 0x800, false)
    case Ecall => words == [0x73]
    case Ebreak => words == [0x10_0073]
    case Wfi => words == [0x1050_0073]
    case System =>
      && operands.Imm2? && |words| == 1
      && I.Opcode(words[0]) == RV32I_SYSTEM && Rd(words[0]) == 0 && Rs1(words[0]) == 0
      && (Funct3(words[0]) == operands.first <==> operands.first < 8)
      && (IImm(words[0]) == operands.second <==> operands.second < 0x1000)
    case _ => true
  }

  lemma SaysIType(op: opcode7, rd: reg, f3: funct3, rs1: reg, imm: int)
    ensures IsIType(IType(op, rd, f3, rs1, imm), op, rd, f3, rs1, S12(imm))
  {
    ITypeFields(op, rd, f3, rs1, imm);
  }

  lemma SaysRType(op: opcode7, rd: reg, f3: funct3, rs1: reg, rs2: reg, f7: funct7)
    ensures IsRType(RType(op, rd, f3, rs1, rs2, f7), op, rd, f3, rs1, rs2, f7)
  {
    RTypeFields(op, rd, f3, rs1, rs2, f7);
  }

  lemma JumpDisplacement(rd: reg, d: int)
    ensures JumpOffset(JType(rd, d)) == (d - d % 2 + 0x80000) % 0x100000 - 0x80000
  {
    SetJTypeImm(rd, 0, d);
    JumpOffsetPatched(JType(rd, 0), d);
  }

  /** The displacement of a jump by a constant. */
  lemma SaysJump(w: u32, rd: reg, d: int)
    requires w == JType(rd, d) && d == S64(d)
    ensures I.Opcode(w) == RV32I_JAL && Rd(w) == rd
    ensures JumpOffset(w) == d <==> InJumpRange(d)
  {
    JTypeBits(rd, d);
    JumpKept(JumpOffset(w), rd, d);
  }

  /** The displacement against the constant as it was written. */
  lemma SaysJumpConstant(w: u32, rd: reg, imm: u128, d: int)
    requires d == S64(imm) && w == JType(rd, d)
    ensures Exactly(JumpOffset(w), imm, 0x80000, true)
  {
    JumpDisplacement(rd, d);
    SameLowBits(imm, d);
    JumpConstantExact(JumpOffset(w), imm);
  }

  lemma SameLowBits(imm: u128, d: int)
    requires d == S64(imm)
    ensures imm % 2 == d % 2
    ensures (imm - imm % 2 + 0x80000) % 0x100000 == (d - d % 2 + 0x80000) % 0x100000
  {
    var q := (imm - d) / P64;
    assert imm == d + P64 * q;
    SameResidue(d, 0x8000_0000_0000_0000 * q, 2);
    SameResidue(d - d % 2 + 0x80000, 0x1000_0000_0000 * q, 0x100000);
  }

  lemma JumpKept(off: int, rd: reg, d: int)
    requires off == JumpOffset(JType(rd, d)) && d == S64(d)
    ensures off == d <==> InJumpRange(d)
  {
    JumpDisplacement(rd, d);
    KeptInJump(d, d);
  }

  /** An immediate that is not checked. */
  lemma Unchecked(w: u32, op: opcode7, rd: reg, f3: funct3, rs1: reg, imm: u128)
    requires w == IType(op, rd, f3, rs1, imm)
    ensures IsIType(w, op, rd, f3, rs1, S12(imm))
    ensures SignedImm(w) == S64(imm) <==> ImmediateFits(imm)
    ensures Exactly(SignedImm(w), imm, 0x800, false)
  {
    SaysIType(op, rd, f3, rs1, imm);
    ImmediateExact(imm);
    ConstantExact(SignedImm(w), imm);
  }

  lemma SaysStore(f3: funct3, rs1: reg, rs2: reg, imm: u128)
    ensures var w := SType(f3, rs1, rs2, S64(imm));
      && I.Opcode(w) == RV32I_STORE && Funct3(w) == f3 && Rs1(w) == rs1 && Rs2(w) == rs2
      && (StoreImm(w) == S64(imm) <==> ImmediateFits(imm))
      && Exactly(StoreImm(w), imm, 0x800, false)
  {
    STypeFields(f3, rs1, rs2, S64(imm));
    InTwelveBits(S64(imm));
    LowTwelve(imm);
    ConstantExact(S12(imm), imm);
  }

  lemma SystemFields(f3: u128, imm: u128)
    ensures var w := IType(RV32I_SYSTEM, 0, f3 % 8, 0, imm);
      && I.Opcode(w) == RV32I_SYSTEM && Rd(w) == 0 && Rs1(w) == 0
      && (Funct3(w) == f3 <==> f3 < 8) && (IImm(w) == imm <==> imm < 0x1000)
  {
    ITypeFields(RV32I_SYSTEM, 0, f3 % 8, 0, imm);
  }

  lemma SaysArithmetic(opcode: opcode7, f3: funct3, operands: Operands, words: seq<u32>)
    requires Generate(Arithmetic(opcode, f3), operands) == Some(Plain(words))
    requires operands.RegImm? ==> ImmediateFits(operands.imm)
    ensures Says(Arithmetic(opcode, f3), operands, words)
  {
    match operands {
      case RegImm(r, imm) =>
        Unchecked(words[0], opcode, r, f3, r, imm);
        CheckedExact(imm);
      case Regs2(r, r2) => SaysRType(RegisterForm(opcode), r, f3, r, r2, 0);
      case Regs3(r, r2, r3) => SaysRType(RegisterForm(opcode), r, f3, r2, r3, 0);
      case _ => assert false;
    }
  }

  lemma SaysRegisterOnly(opcode: opcode7, f3: funct3, f7: funct7, operands: Operands, words: seq<u32>)
    requires Generate(RegisterOnly(opcode, f3, f7), operands) == Some(Plain(words))
    ensures Says(RegisterOnly(opcode, f3, f7), operands, words)
  {
    match operands {
      case Regs2(r, r2) => SaysRType(opcode, r, f3, r, r2, f7);
      case Regs3(r, r2, r3) => SaysRType(opcode, r, f3, r2, r3, f7);
      case _ => assert false;
    }
  }

  lemma SaysLoad(f3: funct3, operands: Operands, words: seq<u32>)
    requires Generate(Load(f3), operands) == Some(Plain(words))
    ensures Says(Load(f3), operands, words)
  {
    Unchecked(words[0], RV32I_LOAD, operands.a, f3, operands.b, operands.imm);
  }

  lemma SaysStored(f3: funct3, operands: Operands, words: seq<u32>)
    requires Generate(Store(f3), operands) == Some(Plain(words))
    ensures Says(Store(f3), operands, words)
  {
    SaysStore(f3, operands.a, operands.b, operands.imm);
  }

  lemma SaysJalr(operands: Operands, words: seq<u32>)
    requires Generate(Jalr, operands) == Some(Plain(words))
    ensures Says(Jalr, operands, words)
  {
    Unchecked(words[0], RV32I_JALR, operands.a, 0, operands.b, operands.imm);
  }

  lemma FixedIType(w: u32, op: opcode7, rd: reg, f3: funct3, rs1: reg, imm: int)
    requires w == IType(op, rd, f3, rs1, imm) && -2048 <= imm <= 0x7FF
    ensures IsIType(w, op, rd, f3, rs1, imm)
  {
    SaysIType(op, rd, f3, rs1, imm);
    InTwelveBits(imm);
  }

  /** Opcodes without operands. */
  lemma FixedWords()
    ensures IType(RV32I_OP_IMM, 0, 0, 0, 0) == 0x13 && IType(RV32I_JALR, 0, 0, 1, 0) == 0x8067
    ensures IType(RV32I_SYSTEM, 0, 0, 0, 0) == 0x73 && IType(RV32I_SYSTEM, 0, 0, 0, 1) == 0x10_0073
    ensures IType(RV32I_SYSTEM, 0, 0, 0, 0x105) == 0x1050_0073
  {
  }

  lemma SaysMov(operands: Operands, words: seq<u32>)
    requires Generate(Mov, operands) == Some(Plain(words))
    ensures Says(Mov, operands, words)
  {
    FixedIType(words[0], RV32I_OP_IMM, operands.a, 0, operands.b, 0);
  }

  lemma SaysInc(operands: Operands, words: seq<u32>)
    requires Generate(Inc, operands) == Some(Plain(words))
    ensures Says(Inc, operands, words)
  {
    FixedIType(words[0], RV32I_OP_IMM, operands.a, 0, operands.a, 1);
  }

  lemma SaysSyscall(operands: Operands, words: seq<u32>)
    requires Generate(Syscall, operands) == Some(Plain(words))
    ensures Says(Syscall, operands, words)
  {
    SyscallWords(operands.imm, words, 17, 0);
  }

  lemma SyscallWords(imm: u128, words: seq<u32>, a7: reg, zero: reg)
    requires words == [IType(RV32I_OP_IMM, a7, 0, zero, imm), IType(RV32I_SYSTEM, zero, 0, zero, 0)] && zero == 0
    ensures IsIType(words[0], RV32I_OP_IMM, a7, 0, zero, S12(imm)) && words[1] == 0x73
    ensures SignedImm(words[0]) == S64(imm) <==> ImmediateFits(imm)
    ensures Exactly(SignedImm(words[0]), imm, 0x800, false)
  {
    Unchecked(words[0], RV32I_OP_IMM, a7, 0, zero, imm);
  }

  lemma SaysSystem(operands: Operands, words: seq<u32>)
    requires Generate(System, operands) == Some(Plain(words))
    ensures Says(System, operands, words)
  {
    SystemFields(operands.first, operands.second);
  }

  lemma AcceptedImmediate(opcode: opcode7, f3: funct3, ts: seq<Token>, i: nat)
    requires ParseOperands(Arithmetic(opcode, f3), ts, i).At?
    ensures var operands := ParseOperands(Arithmetic(opcode, f3), ts, i).value;
      operands.RegImm? ==> ImmediateFits(operands.imm)
  {
  }

  /**
   Encoding: whatever operands an opcode accepts, the words it emits decode to them, with constants cut to their
   fields. The bounds check of arithmetic sees 64 bits of a constant, so an accepted one is exact exactly when it
   has no more than those, or copies of its sign. The displacement of a load, store, `jalr` or `jal`, and the
   numbers of `syscall` and `system`, are not checked, and are exact exactly when the field has the bits for them.
  */
  lemma OperandsDecode(op: Opcode, ts: seq<Token>, i: nat, operands: Operands, words: seq<u32>)
    requires ParseOperands(op, ts, i).At? && operands == ParseOperands(op, ts, i).value
    requires Generate(op, operands) == Some(Plain(words))
    ensures Says(op, operands, words)
  {
    match op {
      case Arithmetic(opcode, f3) =>
        AcceptedImmediate(opcode, f3, ts, i);
        SaysArithmetic(opcode, f3, operands, words);
      case RegisterOnly(opcode, f3, f7) => SaysRegisterOnly(opcode, f3, f7, operands, words);
      case Call => SaysCall(operands, words);
      case Load(f3) => SaysLoad(f3, operands, words);
      case Store(f3) => SaysStored(f3, operands, words);
      case Jalr => SaysJalr(operands, words);
      case _ =>
        if op.Syscall? {
          SaysSyscall(operands, words);
        } else if op.System? {
          SaysSystem(operands, words);
        } else if op.Mov? {
          SaysMov(operands, words);
        } else if op.Inc? {
          SaysInc(operands, words);
        } else if op.Nop? || op.Ret? || op.Ecall? || op.Ebreak? || op.Wfi? {
          FixedWords();
        }
    }
  }

  lemma SaysCall(operands: Operands, words: seq<u32>)
    requires Generate(Call, operands) == Some(Plain(words))
    ensures Says(Call, operands, words)
  {
    if operands.RegImm? {
      SaysJump(words[0], operands.a, S64(operands.imm));
      SaysJumpConstant(words[0], operands.a, operands.imm, S64(operands.imm));
    }
  }

  // ---- Executing them -----------------------------------------------------------------------------------------

  /** The sum that `add`, `inc` and `mov` leave in a register, with the registers before and 64 bits of a constant. */
  function SumOf(op: Opcode, operands: Operands, m: Machine.Core): (reg, int) {
    match (op, operands)
    case (Mov, Regs2(rd, rs)) => (rd, Machine.Read(m, rs))
    case (Inc, Reg(r)) => (r, Machine.Read(m, r) + 1)
    case (Arithmetic(_, _), RegImm(r, imm)) => (r, Machine.Read(m, r) + S64(imm))
    case (Arithmetic(_, _), Regs2(r, r2)) => (r, Machine.Read(m, r) + Machine.Read(m, r2))
    case (Arithmetic(_, _), Regs3(r, r2, r3)) => (r, Machine.Read(m, r2) + Machine.Read(m, r3))
    case _ => (0, 0)
  }

  /**
   `mov`, `inc` and every form of the 128-bit `add` leave their sum and go on to the next instruction. A constant
   is added as it was written, at 128 bits, exactly if it is near zero at 128 bits.
  */
  lemma AdditionRuns(op: Opcode, operands: Operands, words: seq<u32>, m: Machine.Core) returns (m': Machine.Core)
    requires op.Mov? || op.Inc? || op == Arithmetic(RV32I_OP_IMM, 0)
    requires Generate(op, operands).Some? && Says(op, operands, words)
    ensures |words| == 1 && Machine.Step(m, words[0]) == Some(m')
    ensures var (rd, sum) := SumOf(op, operands, m); m' == Machine.Next(Machine.Write(m, rd, sum))
    ensures operands.RegImm? && operands.a != 0 ==>
              (Machine.Read(m', operands.a) == Wrap(Machine.Read(m, operands.a) + operands.imm)
               <==> Near128(operands.imm, 0x800))
  {
    var (rd, sum) := SumOf(op, operands, m);
    m' := Machine.Next(Machine.Write(m, rd, sum));
    match operands {
      case Reg(r) => AddiRuns(m, words[0], r, r, 1);
      case RegImm(r, imm) =>
        AddiRuns(m, words[0], r, r, S64(imm));
        WrapCancel(S64(imm), imm, Machine.Read(m, r));
        ModUnique(imm, P128, 0, imm);
      case Regs2(r, r2) =>
        if op.Mov? {
          AddiRuns(m, words[0], r, r2, 0);
        } else {
          AddRuns(m, words[0], r, r, r2);
        }
      case Regs3(r, r2, r3) => AddRuns(m, words[0], r, r2, r3);
      case _ => assert false;
    }
  }

  lemma AddiRuns(m: Machine.Core, w: u32, rd: reg, rs1: reg, imm: int)
    requires IsIType(w, RV32I_OP_IMM, rd, 0, rs1, imm)
    ensures Machine.Step(m, w) == Some(Machine.Next(Machine.Write(m, rd, Machine.Read(m, rs1) + imm)))
  {
    assert Machine.Decode(w) == Machine.Addi(rd, rs1, imm);
  }

  lemma AddRuns(m: Machine.Core, w: u32, rd: reg, rs1: reg, rs2: reg)
    requires IsRType(w, RV32I_OP, rd, 0, rs1, rs2, 0)
    ensures Machine.Step(m, w) == Some(Machine.Next(Machine.Write(m, rd, Machine.Read(m, rs1) + Machine.Read(m, rs2))))
  {
    assert Machine.Decode(w) == Machine.Add(rd, rs1, rs2);
  }

  /** `jalr` jumps to the sum of its register and displacement, made even, and links its destination. */
  lemma JalrRuns(rd: reg, rs1: reg, imm: u128, words: seq<u32>, m: Machine.Core)
    requires Generate(Jalr, Regs2Imm(rd, rs1, imm)) == Some(Plain(words))
    ensures |words| == 1
    ensures Machine.Step(m, words[0])
         == Some(Machine.Write(m, rd, m.pc + 4).(pc := Machine.Even(Machine.Read(m, rs1) + S12(imm))))
  {
    StepJalr(m, rd, rs1, imm);
  }

  /** A load with displacement 2048 is accepted, and reaches 2048 below its base instead. */
  lemma LoadWraps(f3: funct3, rd: reg, rs1: reg, imm: u128) returns (w: u32)
    requires imm == 2048
    ensures Generate(Load(f3), Regs2Imm(rd, rs1, imm)) == Some(Plain([w])) && SignedImm(w) == -2048
  {
    w := IType(RV32I_LOAD, rd, f3, rs1, imm);
    SaysIType(RV32I_LOAD, rd, f3, rs1, imm);
    HalfOfRange(imm);
  }

  lemma HalfOfRange(imm: int)
    requires imm == 2048
    ensures S12(imm) == -2048
  {
  }

  /** A load with displacement 2^64 is accepted, and says 0. */
  lemma LoadDropsHighHalf(f3: funct3, rd: reg, rs1: reg, imm: u128) returns (w: u32)
    requires imm == 0x1_0000_0000_0000_0000
    ensures Generate(Load(f3), Regs2Imm(rd, rs1, imm)) == Some(Plain([w])) && SignedImm(w) == 0
  {
    w := IType(RV32I_LOAD, rd, f3, rs1, imm);
    SaysIType(RV32I_LOAD, rd, f3, rs1, imm);
    AboveHalf(imm, 0);
  }

  lemma AboveHalf(imm: u128, low: nat)
    requires imm == 0x1_0000_0000_0000_0000 + low && low < 0x800
    ensures S12(imm) == low && S64(imm) == low
  {
    ModUnique(imm, 0x1000, 0x10_0000_0000_0000, low);
    ModUnique(imm, P64, 1, low);
  }

  /** `add` of 2^64 + 5 passes the bounds check, and adds 5. */
  lemma AddDropsHighHalf(ts: seq<Token>, r: reg, imm: u128) returns (w: u32)
    requires imm == 0x1_0000_0000_0000_0005 && |ts| == 2
    requires ts[0].body == Register(r) && ts[1].body == Constant(imm)
    ensures ParseOperands(Arithmetic(RV32I_OP_IMM, 0), ts, 0) == At(RegImm(r, imm), 2)
    ensures Generate(Arithmetic(RV32I_OP_IMM, 0), RegImm(r, imm)) == Some(Plain([w])) && SignedImm(w) == 5
  {
    w := IType(RV32I_OP_IMM, r, 0, r, imm);
    SaysIType(RV32I_OP_IMM, r, 0, r, imm);
    AboveHalf(imm, 5);
    OneConstant(ts, r, imm);
  }

  lemma OneConstant(ts: seq<Token>, r: reg, imm: u128)
    requires |ts| == 2 && ts[0].body == Register(r) && ts[1].body == Constant(imm) && ImmediateFits(imm)
    ensures ParseArithmetic(ts, 0) == At(RegImm(r, imm), 2)
  {
    assert Resolve(ts, 1) == At(imm, 2);
  }

  /** The numbers of `syscall` and the displacement of `jal` are cut without a check as well. */
  lemma SyscallWraps(imm: u128, words: seq<u32>)
    requires imm == 2048 && Generate(Syscall, Imm(imm)) == Some(Plain(words))
    ensures |words| == 2 && SignedImm(words[0]) == -2048
  {
    SyscallWords(imm, words, 17, 0);
    HalfOfRange(imm);
  }

  lemma JalWraps(rd: reg, imm: u128) returns (w: u32)
    requires imm == 0x80000
    ensures Generate(Call, RegImm(rd, imm)) == Some(Plain([w])) && JumpOffset(w) == -0x80000
  {
    w := JType(rd, S64(imm));
    ModUnique(imm, P64, 0, imm);
    JumpDisplacement(rd, S64(imm));
  }

  // ---- Register forms -----------------------------------------------------------------------------------------

  /** The opcode for registers beside an opcode for immediates, in the RISC-V manual: bit 5 is set. */
  function OnRegisters(opcode: opcode7): opcode7 {
    if opcode / 0x20 % 2 == 0 then opcode + 0x20 else opcode
  }

  /** The register form has the opcode for registers exactly if it is not one of the 64-bit forms (`addd`, ...). */
  lemma RegisterFormExact(opcode: opcode7)
    requires opcode == RV32I_OP_IMM || opcode == RV64I_OP_IMM32 || opcode == RV128I_OP_IMM64
    ensures RegisterForm(opcode) == OnRegisters(opcode) <==> opcode != RV128I_OP_IMM64
  {
  }

  /** What the others say: `addd r, r2` is an instruction with an immediate, the number of the register `r2`. */
  lemma WideRegisterForm(f3: funct3, r: reg, r2: reg, opcode: opcode7) returns (w: u32)
    requires opcode == RV128I_OP_IMM64
    ensures Generate(Arithmetic(opcode, f3), Regs2(r, r2)) == Some(Plain([w]))
    ensures IsIType(w, opcode, r, f3, r, r2)
  {
    w := RType(RegisterForm(opcode), r, f3, r, r2, 0);
    RTypeFields(RegisterForm(opcode), r, f3, r, r2, 0);
    NumberAsImmediate(w, r2);
  }

  lemma NumberAsImmediate(w: u32, r2: reg)
    requires Rs2(w) == r2 && Funct7(w) == 0
    ensures SignedImm(w) == r2
  {
  }

  // ---- Data ---------------------------------------------------------------------------------------------------

  /** Where the constants that a data form cannot keep begin: `dq` writes 16 bytes, but of a 64-bit value. */
  function DataLimit(size: unit): nat {
    Pow256(if size == 16 then 8 else size)
  }

  lemma Pow256Values()
    ensures Pow256(1) == 0x100 && Pow256(2) == 0x1_0000 && Pow256(4) == 0x1_0000_0000
    ensures Pow256(8) == 0x1_0000_0000_0000_0000
    ensures Pow256(16) == 0x1_0000_0000_0000_0000_0000_0000_0000_0000
  {
    assert Pow256(2) == 0x1_0000;
    assert Pow256(4) == 0x1_0000_0000;
    assert Pow256(6) == 0x1_0000_0000_0000;
    assert Pow256(8) == 0x1_0000_0000_0000_0000;
    assert Pow256(10) == 0x1_0000_0000_0000_0000_0000;
    assert Pow256(12) == 0x1_0000_0000_0000_0000_0000_0000;
    assert Pow256(14) == 0x1_0000_0000_0000_0000_0000_0000_0000;
  }

  lemma TruncatedTwice(v: nat, p: nat, limit: nat)
    requires 0 < limit <= 0x1_0000_0000_0000_0000 && limit <= p
    requires p == limit || limit == 0x1_0000_0000_0000_0000
    ensures v % 0x1_0000_0000_0000_0000 % p == v <==> v < limit
  {
    var low := v % 0x1_0000_0000_0000_0000;
    Below(low, p);
    if v < limit {
      ModUnique(v, 0x1_0000_0000_0000_0000, 0, v);
      ModUnique(v, p, 0, v);
    }
  }

  lemma Below(x: nat, p: nat)
    requires p > 0
    ensures x % p <= x && x % p < p
  {
    if x < p {
      ModUnique(x, p, 0, x);
    }
  }

  /** Data: the bytes read back as the constant exactly when it is below the limit. */
  lemma DataExact(size: unit, v: u128, blobs: map<string, seq<byte>>, item: Item)
    requires PseudoItem(Data(size), ConstantArgument(v), blobs) == Some(item)
    ensures item.Block? && item.payload.Bytes? && |item.payload.bytes| == size
    ensures FromLittleEndian(item.payload.bytes) == v <==> v < DataLimit(size)
  {
    LittleEndianRoundTrip(Low64(v), size);
    Pow256Values();
    TruncatedTwice(v, Pow256(size), DataLimit(size));
  }

  /** `dq` of 2^64 writes sixteen zeros. */
  lemma DqDropsHighHalf(size: unit, v: u128, blobs: map<string, seq<byte>>, item: Item)
    requires size == 16 && v == 0x1_0000_0000_0000_0000
    requires PseudoItem(Data(size), ConstantArgument(v), blobs) == Some(item)
    ensures item.Block? && item.payload.Bytes? && item.payload.bytes == S.Repeat(16)
  {
    ZeroBytes(Low64(v), size);
  }

  lemma {:induction false} ZeroBytes(x: nat, n: nat)
    requires x == 0
    ensures LittleEndian(x, n) == S.Repeat(n)
    decreases n
  {
    if n > 0 {
      ZeroBytes(x, n - 1);
      assert LittleEndian(x, n) == [0] + S.Repeat(n - 1);
    }
  }

  /**
   Reserved space: the buffer keeps its bytes and grows by as many zeros as the constant times the size exactly
   when it may grow that much.
  */
  lemma ReserveExact(size: unit, v: u128, blobs: map<string, seq<byte>>, item: Item, s: S.SectionValue)
    requires PseudoItem(Reserve(size), ConstantArgument(v), blobs) == Some(item) && |s.output| <= 0x7FFF_FFFF_FFFF_FFFF
    ensures item.Block? && item.payload.Zeros?
    ensures var r := S.Allocate(s, item.payload.count);
      r.Ok? && |r.value.output| == |s.output| + v * size <==> |s.output| + v * size <= 0x7FFF_FFFF_FFFF_FFFF
    ensures |s.output| + v * size <= 0x7FFF_FFFF_FFFF_FFFF ==>
              S.Allocate(s, item.payload.count).value.output == s.output + S.Repeat(v * size)
    ensures item.payload.count == v * size <==> v * size < 0x1_0000_0000_0000_0000
  {
    TruncatedTimes(v, size);
    AllocateExact(s, v * size, item.payload.count);
  }

  lemma AllocateExact(s: S.SectionValue, wanted: nat, count: u64)
    requires |s.output| <= 0x7FFF_FFFF_FFFF_FFFF && (count == wanted <==> wanted < P64)
    ensures var r := S.Allocate(s, count);
      && (r.Ok? && |r.value.output| == |s.output| + wanted <==> |s.output| + wanted <= 0x7FFF_FFFF_FFFF_FFFF)
      && (|s.output| + wanted <= 0x7FFF_FFFF_FFFF_FFFF ==> r.value.output == s.output + S.Repeat(wanted))
  {
    var total := |s.output| + wanted;
    if total <= 0x7FFF_FFFF_FFFF_FFFF {
      ModUnique(total, P64, 0, total);
      GrowsByZeros(s.output, total);
    }
  }

  lemma GrowsByZeros(output: seq<byte>, total: nat)
    requires |output| <= total <= S.MAX_SIZE
    ensures S.Resize(output, total) == Ok(output + S.Repeat(total - |output|))
  {
    assert total == |output| ==> output[..total] == output + S.Repeat(0);
  }

  /** `resq` of 2^60 reserves nothing. */
  lemma ResqReservesNothing(size: unit, v: u128, blobs: map<string, seq<byte>>, item: Item, s: S.SectionValue)
    requires size == 16 && v == 0x1000_0000_0000_0000 && |s.output| <= S.MAX_SIZE
    requires PseudoItem(Reserve(size), ConstantArgument(v), blobs) == Some(item)
    ensures item.payload.Zeros? && S.Allocate(s, item.payload.count) == Ok(s.(resv := true))
  {
    assert item.payload.count == 0;
    ModUnique(|s.output|, P64, 0, |s.output|);
    assert s.output[..|s.output|] == s.output;
  }

  /** `resb` of 2^64 - 1 behind one byte is accepted, and takes the byte away. */
  lemma ResbEmpties(size: unit, v: u128, blobs: map<string, seq<byte>>, item: Item, s: S.SectionValue)
    requires size == 1 && v == 0xFFFF_FFFF_FFFF_FFFF && |s.output| == 1
    requires PseudoItem(Reserve(size), ConstantArgument(v), blobs) == Some(item)
    ensures item.payload.Zeros? && S.Allocate(s, item.payload.count) == Ok(s.(output := [], resv := true))
  {
    assert item.payload.count == v;
    assert s.output[..0] == [];
  }

  lemma TruncatedTimes(v: nat, size: unit)
    ensures v % 0x1_0000_0000_0000_0000 * size % 0x1_0000_0000_0000_0000 == v * size
       <==> v * size < 0x1_0000_0000_0000_0000
  {
    match size {
      case 1 =>
      case 2 =>
      case 4 =>
      case 8 =>
      case 16 =>
      case _ =>
    }
  }
}
