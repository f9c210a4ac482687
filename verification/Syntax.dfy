/**
 From tokens to items and fields, as they are written: for every statement, at any place of a program, the item it
 makes and what its words say, by the numbers of the RISC-V manuals (src/opcodes.cpp, src/directive.cpp,
 src/pseudo_ops.cpp).
*/
module Syntax {
  import opened Words
  import opened Results
  import opened Instructions
  import opened Immediates
  import opened WideConstants
  import opened References
  import opened Tokens
  import opened Constants
  import opened Grammar
  import opened Items
  import opened Manual

  type Blobs = map<string, seq<byte>>

  /** The tokens from `i` to `j` are a statement that makes the item. */
  ghost predicate Makes(ts: seq<Token>, i: nat, j: nat, item: Item, blobs: Blobs) {
    && i < |ts| && ParseStatement(ts, i).At? && ParseStatement(ts, i).next == j
    && IncludedFile(ParseStatement(ts, i).value).None? && ItemOf(ParseStatement(ts, i).value, blobs) == Some(item)
  }

  /** The first item of a program is that of its first statement. */
  lemma MakesFirst(ts: seq<Token>, i: nat, j: nat, item: Item, depth: nat, files: Files)
    requires Makes(ts, i, j, item, files.blobs)
    ensures ItemsFrom(ts, i, depth, files)
         == if ItemsFrom(ts, j, depth, files).None? then None
            else Some([item] + ItemsFrom(ts, j, depth, files).value)
  {
  }

  /** The words of an opcode, aligned to 4 and in front of them the labels that wait. */
  function CodeBlock(words: seq<u32>): Item {
    Block(4, true, Bytes(CodeOutput, CodeBytes(words)))
  }

  ghost predicate MakesCode(ts: seq<Token>, i: nat, j: nat, words: seq<u32>, blobs: Blobs) {
    Makes(ts, i, j, CodeBlock(words), blobs)
  }

  /** `op` and then registers. */
  predicate OneRegister(ts: seq<Token>, i: nat, op: Opcode, a: reg) {
    i + 1 < |ts| && ts[i].body == Op(op) && ts[i + 1].body == Register(a)
  }

  predicate TwoRegisters(ts: seq<Token>, i: nat, op: Opcode, a: reg, b: reg) {
    i + 2 < |ts| && OneRegister(ts, i, op, a) && ts[i + 2].body == Register(b)
  }

  predicate ThreeRegisters(ts: seq<Token>, i: nat, op: Opcode, a: reg, b: reg, c: reg) {
    i + 3 < |ts| && TwoRegisters(ts, i, op, a, b) && ts[i + 3].body == Register(c)
  }

  predicate IsSymbol(ts: seq<Token>, i: nat, name: string) {
    i < |ts| && ts[i].body == Symbol(name)
  }

  // ---- References -------------------------------------------------------------------------------------------

  /** A branch: the registers in the order in which they are written. */
  lemma BranchWritten(ts: seq<Token>, i: nat, f3: funct3, a: reg, b: reg, name: string, blobs: Blobs, pc: u128,
                      target: u128) returns (w: u32)
    requires TwoRegisters(ts, i, BranchIf(f3), a, b) && IsSymbol(ts, i + 3, name)
    ensures Makes(ts, i, i + 4, Refer(name, Branch(f3, a, b)), blobs)
    ensures FinalCode(Branch(f3, a, b), pc, target) == [w]
    ensures HasOpcode(w, 0x63) && HasFunct3(w, f3) && HasRs1(w, a) && HasRs2(w, b)
  {
    w := BType(f3, a, b, S32(target - pc));
    ManualBType(f3, a, b, S32(target - pc));
  }

  /** `la`: the register is written by both instructions, and read by the second. */
  lemma LaWritten(ts: seq<Token>, i: nat, a: reg, name: string, blobs: Blobs, pc: u128, target: u128)
    returns (w: u32, w': u32)
    requires OneRegister(ts, i, LoadAddress, a) && IsSymbol(ts, i + 2, name)
    ensures Makes(ts, i, i + 3, Refer(name, La(a)), blobs)
    ensures FinalCode(La(a), pc, target) == [w, w']
    ensures HasRd(w, a) && HasOpcode(w, if -0x8000_0000 <= S64(target - pc) <= 0x7FFF_FFFF then 0x17 else 0x37)
    ensures HasOpcode(w', 0x13) && HasFunct3(w', 0) && HasRd(w', a) && HasRs1(w', a)
  {
    var code := LaCode(a, pc, target);
    w, w' := code[0], code[1];
    var v := S64(target - pc);
    ManualUType(RV32I_AUIPC, a, Upper(v));
    ManualIType(RV32I_OP_IMM, a, 0, a, v);
    ManualUType(RV32I_LUI, a, Upper(S32(target)));
    ManualIType(RV32I_OP_IMM, a, 0, a, S32(target));
  }

  /** `laq`: the first register is the destination and the second the temporary. */
  lemma LaqWritten(ts: seq<Token>, i: nat, a: reg, b: reg, name: string, blobs: Blobs, pc: u128, target: u128)
    requires TwoRegisters(ts, i, LoadAddressWide, a, b) && IsSymbol(ts, i + 3, name)
    ensures Makes(ts, i, i + 4, Refer(name, Laq(a, b)), blobs)
    ensures FinalCode(Laq(a, b), pc, target) == LaqCode(a, b, target)
  {
  }

  /** `farcall`: through the register that is written, linking register 1. */
  lemma FarCallWritten(ts: seq<Token>, i: nat, a: reg, name: string, blobs: Blobs, pc: u128, target: u128)
    returns (w: u32, w': u32)
    requires OneRegister(ts, i, Opcode.FarCall, a) && IsSymbol(ts, i + 2, name)
    ensures Makes(ts, i, i + 3, Refer(name, Reference.FarCall(a)), blobs)
    ensures FinalCode(Reference.FarCall(a), pc, target) == [w, w']
    ensures HasOpcode(w, 0x37) && HasRd(w, a) && HasUpper(w, target / 0x1000)
    ensures HasOpcode(w', 0x67) && HasFunct3(w', 0) && HasRd(w', 1) && HasRs1(w', a) && HasImmediate(w', target)
  {
    w, w' := UType(RV32I_LUI, a, target / 0x1000), IType(RV32I_JALR, 1, 0, a, target);
    ManualUType(RV32I_LUI, a, target / 0x1000);
    ManualIType(RV32I_JALR, 1, 0, a, target);
  }

  /** `call` and `jal` of a label link register 1, or the register that is written behind it. */
  lemma CallWritten(ts: seq<Token>, i: nat, name: string, link: reg, j: nat, blobs: Blobs, pc: u128, target: u128)
    returns (w: u32)
    requires i < |ts| && ts[i].body == Op(Call) && IsSymbol(ts, i + 1, name)
    requires if i + 2 < |ts| && ts[i + 2].body.Register? then ts[i + 2].body.r == link && j == i + 3
             else link == 1 && j == i + 2
    ensures Makes(ts, i, j, Refer(name, Jump(link)), blobs)
    ensures FinalCode(Jump(link), pc, target) == [w] && HasOpcode(w, 0x6F) && HasRd(w, link)
  {
    w := JType(link, S64(target - pc));
    ManualJType(link, S64(target - pc));
  }

  /** `jmp` links nothing. */
  lemma JmpWritten(ts: seq<Token>, i: nat, name: string, blobs: Blobs, pc: u128, target: u128) returns (w: u32)
    requires i < |ts| && ts[i].body == Op(Jmp) && IsSymbol(ts, i + 1, name)
    ensures Makes(ts, i, i + 2, Refer(name, Jump(0)), blobs)
    ensures FinalCode(Jump(0), pc, target) == [w] && HasOpcode(w, 0x6F) && HasRd(w, 0)
  {
    w := JType(0, S64(target - pc));
    ManualJType(0, S64(target - pc));
  }

  // ---- Plain opcodes ----------------------------------------------------------------------------------------

  /** Opcodes without operands are single words. */
  lemma FixedWritten(ts: seq<Token>, i: nat, op: Opcode, w: u32, blobs: Blobs)
    requires i < |ts| && ts[i].body == Op(op)
    requires (op == Nop && w == 0x13) || (op == Ret && w == 0x8067) || (op == Ecall && w == 0x73)
          || (op == Ebreak && w == 0x10_0073) || (op == Wfi && w == 0x1050_0073)
    ensures MakesCode(ts, i, i + 1, [w], blobs)
  {
  }

  /** `mov a, b` adds 0 to b, and `inc a` adds 1 to a. */
  lemma MovWritten(ts: seq<Token>, i: nat, a: reg, b: reg, blobs: Blobs) returns (w: u32)
    requires TwoRegisters(ts, i, Mov, a, b)
    ensures MakesCode(ts, i, i + 3, [w], blobs)
    ensures HasOpcode(w, 0x13) && HasFunct3(w, 0) && HasRd(w, a) && HasRs1(w, b) && HasImmediate(w, 0)
  {
    w := IType(RV32I_OP_IMM, a, 0, b, 0);
    ManualIType(RV32I_OP_IMM, a, 0, b, 0);
  }

  lemma IncWritten(ts: seq<Token>, i: nat, a: reg, blobs: Blobs) returns (w: u32)
    requires OneRegister(ts, i, Inc, a)
    ensures MakesCode(ts, i, i + 2, [w], blobs)
    ensures HasOpcode(w, 0x13) && HasFunct3(w, 0) && HasRd(w, a) && HasRs1(w, a) && HasImmediate(w, 1)
  {
    w := IType(RV32I_OP_IMM, a, 0, a, 1);
    ManualIType(RV32I_OP_IMM, a, 0, a, 1);
  }

  /** `li` and `set`: the destination comes first, and then the temporary. */
  lemma LiWritten(ts: seq<Token>, i: nat, a: reg, imm: u128, j: nat, blobs: Blobs)
    requires OneRegister(ts, i, Li, a) && Resolve(ts, i + 2) == At(imm, j)
    ensures MakesCode(ts, i, j, LoadImm(a, S32(imm)), blobs)
  {
  }

  lemma SetWritten(ts: seq<Token>, i: nat, a: reg, b: reg, imm: u128, j: nat, blobs: Blobs)
    requires TwoRegisters(ts, i, Set, a, b) && Resolve(ts, i + 3) == At(imm, j)
    ensures MakesCode(ts, i, j, SetCode(a, b, imm), blobs)
  {
  }

  /** A load: destination, offset if there is one, and base. */
  lemma LoadWritten(ts: seq<Token>, i: nat, f3: funct3, a: reg, imm: u128, k: nat, b: reg, blobs: Blobs)
    returns (w: u32)
    requires OneRegister(ts, i, Load(f3), a) && k < |ts| && ts[k].body == Register(b)
    requires if AtConstant(ts, i + 2) then Resolve(ts, i + 2) == At(imm, k) else k == i + 2 && imm == 0
    ensures MakesCode(ts, i, k + 1, [w], blobs)
    ensures HasOpcode(w, 0x03) && HasFunct3(w, f3) && HasRd(w, a) && HasRs1(w, b) && HasImmediate(w, imm)
  {
    w := IType(RV32I_LOAD, a, f3, b, imm);
    ManualIType(RV32I_LOAD, a, f3, b, imm);
  }

  /** A store: base, source, and the offset if there is one. */
  lemma StoreWritten(ts: seq<Token>, i: nat, f3: funct3, a: reg, b: reg, imm: u128, j: nat, blobs: Blobs)
    returns (w: u32)
    requires TwoRegisters(ts, i, Store(f3), a, b)
    requires if AtConstant(ts, i + 3) then Resolve(ts, i + 3) == At(imm, j) else j == i + 3 && imm == 0
    ensures MakesCode(ts, i, j, [w], blobs)
    ensures HasOpcode(w, 0x23) && HasFunct3(w, f3) && HasRs1(w, a) && HasRs2(w, b) && HasStoreImmediate(w, S64(imm))
  {
    w := SType(f3, a, b, S64(imm));
    ManualSType(f3, a, b, S64(imm));
  }

  /** `jalr`: source, offset and link, each of which may be missing. */
  lemma JalrOperands(ts: seq<Token>, i: nat, a: reg, i1: nat, imm: u128, i2: nat, link: reg, j: nat)
    requires if AtRegister(ts, i) then ts[i].body.r == a && i1 == i + 1 else a == 0 && i1 == i
    requires if AtConstant(ts, i1) then ts[i1].body.constant == imm && i2 == i1 + 1 else imm == 0 && i2 == i1
    requires if AtRegister(ts, i2) then ts[i2].body.r == link && j == i2 + 1 else link == 0 && j == i2
    ensures ParseJalr(ts, i) == At(Regs2Imm(link, a, imm), j)
  {
  }

  lemma JalrMakes(ts: seq<Token>, i: nat, operands: Operands, j: nat, w: u32, blobs: Blobs)
    requires i < |ts| && ts[i].body == Op(Jalr) && ParseJalr(ts, i + 1) == At(operands, j) && operands.Regs2Imm?
    requires w == IType(RV32I_JALR, operands.a, 0, operands.b, operands.imm)
    ensures MakesCode(ts, i, j, [w], blobs)
  {
  }

  /** The link is the destination, and the sum of source and offset is where it jumps. */
  lemma JalrWritten(ts: seq<Token>, i: nat, operands: Operands, j: nat, blobs: Blobs) returns (w: u32)
    requires i < |ts| && ts[i].body == Op(Jalr) && ParseJalr(ts, i + 1) == At(operands, j) && operands.Regs2Imm?
    ensures MakesCode(ts, i, j, [w], blobs)
    ensures HasOpcode(w, 0x67) && HasFunct3(w, 0)
    ensures HasRd(w, operands.a) && HasRs1(w, operands.b) && HasImmediate(w, operands.imm)
  {
    w := IType(RV32I_JALR, operands.a, 0, operands.b, operands.imm);
    ManualIType(RV32I_JALR, operands.a, 0, operands.b, operands.imm);
    JalrMakes(ts, i, operands, j, w, blobs);
  }

  /** `call` and `jal` by a constant. */
  lemma CallByWritten(ts: seq<Token>, i: nat, imm: u128, link: reg, j: nat, blobs: Blobs) returns (w: u32)
    requires i + 1 < |ts| && ts[i].body == Op(Call) && ts[i + 1].body == Constant(imm)
    requires if i + 2 < |ts| && ts[i + 2].body.Register? then ts[i + 2].body.r == link && j == i + 3
             else link == 1 && j == i + 2
    ensures MakesCode(ts, i, j, [w], blobs)
    ensures w == JType(link, S64(imm)) && HasOpcode(w, 0x6F) && HasRd(w, link)
  {
    w := JType(link, S64(imm));
    ManualJType(link, S64(imm));
  }

  /** Arithmetic with a constant: the register is source and destination. */
  lemma ImmediateWritten(ts: seq<Token>, i: nat, opcode: opcode7, f3: funct3, a: reg, imm: u128, j: nat, blobs: Blobs)
    returns (w: u32)
    requires OneRegister(ts, i, Arithmetic(opcode, f3), a) && Resolve(ts, i + 2) == At(imm, j)
    requires -2048 <= S64(imm) <= 2047
    ensures MakesCode(ts, i, j, [w], blobs)
    ensures HasOpcode(w, opcode) && HasFunct3(w, f3) && HasRd(w, a) && HasRs1(w, a) && HasImmediate(w, imm)
  {
    w := IType(opcode, a, f3, a, imm);
    ManualIType(opcode, a, f3, a, imm);
  }

  /** And a constant beyond the bounds is an error. */
  lemma ImmediateRejected(ts: seq<Token>, i: nat, opcode: opcode7, f3: funct3, a: reg, imm: u128, j: nat)
    requires OneRegister(ts, i, Arithmetic(opcode, f3), a) && Resolve(ts, i + 2) == At(imm, j)
    requires !(-2048 <= S64(imm) <= 2047)
    ensures ParseStatement(ts, i).Fail?
  {
  }

  /** The opcode of registers beside that of constants, by number; the 64-bit one has none of its own. */
  predicate Beside(opcode: nat, number: nat) {
    if opcode == 0x13 then number == 0x33 else if opcode == 0x1B then number == 0x3B else number == 0x5B
  }

  /** What an opcode makes of operands that need no label. */
  lemma PlainMakes(ts: seq<Token>, i: nat, op: Opcode, operands: Operands, j: nat, w: u32, blobs: Blobs)
    requires i < |ts| && ts[i].body == Op(op) && ParseOperands(op, ts, i + 1) == At(operands, j)
    requires Generate(op, operands) == Some(Plain([w]))
    ensures MakesCode(ts, i, j, [w], blobs)
  {
  }

  lemma RegistersParsed(ts: seq<Token>, i: nat, op: Opcode, a: reg, b: reg)
    requires TwoRegisters(ts, i, op, a, b) && (op.Arithmetic? || op.RegisterOnly?)
    ensures ParseOperands(op, ts, i + 1)
         == if AtRegister(ts, i + 3) then At(Regs3(a, b, ts[i + 3].body.r), i + 4) else At(Regs2(a, b), i + 3)
  {
  }

  predicate OnRegisters(op: Opcode, f3: funct3, f7: funct7, number: opcode7) {
    (op.Arithmetic? && op.f3 == f3 && f7 == 0 && Beside(op.op, number)) || op == RegisterOnly(number, f3, f7)
  }

  /** Arithmetic on two registers: the first is destination and first source. */
  lemma TwoWritten(ts: seq<Token>, i: nat, op: Opcode, f3: funct3, f7: funct7, number: opcode7, a: reg, b: reg,
                   blobs: Blobs) returns (w: u32)
    requires TwoRegisters(ts, i, op, a, b) && !AtRegister(ts, i + 3) && OnRegisters(op, f3, f7, number)
    ensures MakesCode(ts, i, i + 3, [w], blobs)
    ensures HasOpcode(w, number) && HasFunct3(w, f3) && HasFunct7(w, f7) && HasRd(w, a) && HasRs1(w, a) && HasRs2(w, b)
  {
    w := RType(number, a, f3, a, b, f7);
    RegistersParsed(ts, i, op, a, b);
    PlainMakes(ts, i, op, Regs2(a, b), i + 3, w, blobs);
    ManualRType(number, a, f3, a, b, f7);
  }

  /** On three: destination, first source and second source. */
  lemma ThreeWritten(ts: seq<Token>, i: nat, op: Opcode, f3: funct3, f7: funct7, number: opcode7, a: reg, b: reg,
                     c: reg, blobs: Blobs) returns (w: u32)
    requires ThreeRegisters(ts, i, op, a, b, c) && OnRegisters(op, f3, f7, number)
    ensures MakesCode(ts, i, i + 4, [w], blobs)
    ensures HasOpcode(w, number) && HasFunct3(w, f3) && HasFunct7(w, f7) && HasRd(w, a) && HasRs1(w, b) && HasRs2(w, c)
  {
    w := RType(number, a, f3, b, c, f7);
    RegistersParsed(ts, i, op, a, b);
    PlainMakes(ts, i, op, Regs3(a, b, c), i + 4, w, blobs);
    ManualRType(number, a, f3, b, c, f7);
  }

  /** `syscall` puts its number into register 17 and calls. */
  lemma SyscallWritten(ts: seq<Token>, i: nat, imm: u128, j: nat, blobs: Blobs) returns (w: u32)
    requires i < |ts| && ts[i].body == Op(Syscall) && Resolve(ts, i + 1) == At(imm, j)
    ensures MakesCode(ts, i, j, [w, 0x73], blobs)
    ensures HasOpcode(w, 0x13) && HasFunct3(w, 0) && HasRd(w, 17) && HasRs1(w, 0) && HasImmediate(w, imm)
  {
    w := IType(RV32I_OP_IMM, 17, 0, 0, imm);
    ManualIType(RV32I_OP_IMM, 17, 0, 0, imm);
    assert IType(RV32I_SYSTEM, 0, 0, 0, 0) == 0x73;
  }

  /** `system` wants two chains, but the first one takes every constant: it is never accepted. */
  lemma SystemFails(ts: seq<Token>, i: nat)
    requires i < |ts| && ts[i].body == Op(System)
    ensures ParseStatement(ts, i).Fail?
  {
    var first := Resolve(ts, i + 1);
    if first.At? {
      ResolveEnds(ts, i + 1);
      assert Resolve(ts, first.next).Fail?;
    }
  }

  /** `ldu` is not implemented. */
  lemma LduFails(ts: seq<Token>, i: nat)
    requires i < |ts| && ts[i].body == Op(Ldu)
    ensures ParseStatement(ts, i).Fail?
  {
  }

  // ---- Data -------------------------------------------------------------------------------------------------

  /** Data: aligned to its size and behind the labels that wait, but for bytes, which are neither. */
  lemma DataWritten(ts: seq<Token>, i: nat, size: unit, v: u128, blobs: Blobs) returns (bytes: seq<byte>)
    requires i + 1 < |ts| && ts[i].body == Pseudo(Data(size)) && ts[i + 1].body == Constant(v)
    ensures Makes(ts, i, i + 2, Block(if size == 1 then 0 else size, size != 1, Bytes(DataOutput, bytes)), blobs)
    ensures |bytes| == size && FromLittleEndian(bytes) == v % 0x1_0000_0000_0000_0000 % Pow256(size)
  {
    bytes := LittleEndian(v % 0x1_0000_0000_0000_0000, size);
    LittleEndianRoundTrip(v % 0x1_0000_0000_0000_0000, size);
  }

  lemma ReserveWritten(ts: seq<Token>, i: nat, size: unit, v: u128, blobs: Blobs) returns (count: u64)
    requires i + 1 < |ts| && ts[i].body == Pseudo(Reserve(size)) && ts[i + 1].body == Constant(v)
    ensures Makes(ts, i, i + 2, Block(if size == 1 then 0 else size, size != 1, Zeros(count)), blobs)
    ensures count == v % 0x1_0000_0000_0000_0000 * size % 0x1_0000_0000_0000_0000
  {
    count := Times(v, size);
  }

  /** A file as it is, behind the labels that wait; a missing one is an error. */
  lemma IncbinWritten(ts: seq<Token>, i: nat, file: string, blobs: Blobs)
    requires i + 1 < |ts| && ts[i].body == Pseudo(Incbin) && ts[i + 1].body == Text(file)
    ensures file in blobs ==> Makes(ts, i, i + 2, Block(1, true, Bytes(DataOutput, blobs[file])), blobs)
    ensures file !in blobs ==> ParseStatement(ts, i).At? && ItemOf(ParseStatement(ts, i).value, blobs).None?
  {
  }

  // ---- Directives -------------------------------------------------------------------------------------------

  predicate IsDirective(ts: seq<Token>, i: nat, name: string) {
    i < |ts| && ts[i].body == Directive(name)
  }

  lemma LabelWritten(ts: seq<Token>, i: nat, name: string, blobs: Blobs)
    requires i < |ts| && ts[i].body == Label(name)
    ensures Makes(ts, i, i + 1, NewLabel(name), blobs)
  {
  }

  /** Directives with a constant. */
  lemma ConstantDirective(ts: seq<Token>, i: nat, v: u128, blobs: Blobs)
    requires i + 1 < |ts| && ts[i + 1].body == Constant(v)
    ensures IsDirective(ts, i, ".align") ==> Makes(ts, i, i + 2, Align(v % 0x1_0000_0000_0000_0000), blobs)
    ensures IsDirective(ts, i, ".org") ==> Makes(ts, i, i + 2, Org(v), blobs)
  {
  }

  /** Directives about a symbol. */
  lemma SymbolDirective(ts: seq<Token>, i: nat, name: string, blobs: Blobs)
    requires IsSymbol(ts, i + 1, name)
    ensures IsDirective(ts, i, ".endfunc") ==> Makes(ts, i, i + 2, Remark(name, EndFunc), blobs)
    ensures IsDirective(ts, i, ".global") ==> Makes(ts, i, i + 2, Global(name), blobs)
    ensures IsDirective(ts, i, ".size") ==> Makes(ts, i, i + 2, Refer(name, SizeOf), blobs)
  {
  }

  /** `.type`: 1 for an object and 2 for a function, by the numbers of the System V gABI, and nothing else. */
  lemma TypeDirectiveWritten(ts: seq<Token>, i: nat, name: string, info: string, blobs: Blobs)
    requires IsDirective(ts, i, ".type") && IsSymbol(ts, i + 1, name) && IsSymbol(ts, i + 2, info)
    ensures info == "object" ==> Makes(ts, i, i + 3, Remark(name, TypeNote(1)), blobs)
    ensures info == "func" || info == "function" ==> Makes(ts, i, i + 3, Remark(name, TypeNote(2)), blobs)
    ensures info != "object" && info != "func" && info != "function" ==> ParseStatement(ts, i).Fail?
  {
  }

  /** Directives of their own. */
  lemma BareDirective(ts: seq<Token>, i: nat, blobs: Blobs)
    requires i < |ts|
    ensures IsDirective(ts, i, ".execonly") ==> Makes(ts, i, i + 1, ExecOnly, blobs)
    ensures IsDirective(ts, i, ".readonly") ==> Makes(ts, i, i + 1, ReadOnly, blobs)
    ensures IsDirective(ts, i, ".finish_labels") ==> Makes(ts, i, i + 1, Block(0, true, Nothing), blobs)
  {
  }

  lemma SectionWritten(ts: seq<Token>, i: nat, name: string, blobs: Blobs)
    requires IsDirective(ts, i, ".section") && IsDirective(ts, i + 1, name)
    ensures Makes(ts, i, i + 2, Switch(name), blobs)
  {
  }

  lemma IncludeWritten(ts: seq<Token>, i: nat, file: string)
    requires IsDirective(ts, i, ".include") && i + 1 < |ts| && ts[i + 1].body == Text(file)
    ensures ParseStatement(ts, i).At? && ParseStatement(ts, i).next == i + 2
    ensures IncludedFile(ParseStatement(ts, i).value) == Some(file)
  {
  }

  /** A directive of another name is skipped. */
  lemma OtherDirective(ts: seq<Token>, i: nat, name: string, blobs: Blobs)
    requires IsDirective(ts, i, name)
    requires name !in {".align", ".endfunc", ".finish_labels", ".global", ".include", ".section", ".org", ".execonly",
                       ".readonly", ".type", ".size", ".string", ".strlen", ".ascii"}
    ensures Makes(ts, i, i + 1, Block(0, false, Nothing), blobs)
  {
  }

  /** The bytes of a text are the numbers of its characters. */
  ghost predicate Spells(bytes: seq<byte>, text: string) {
    |bytes| == |text| && forall k :: 0 <= k < |text| ==> text[k] as int < 0x100 ==> bytes[k] == text[k] as int
  }

  /** `.string` adds a NUL and `.ascii` does not; `.strlen` is the length, aligned to 4. */
  lemma TextDirective(ts: seq<Token>, i: nat, text: string, blobs: Blobs) returns (bytes: seq<byte>, length: seq<byte>)
    requires i + 1 < |ts| && ts[i + 1].body == Text(text)
    ensures IsDirective(ts, i, ".string") ==> Makes(ts, i, i + 2, Block(0, true, Bytes(DataOutput, bytes + [0])), blobs)
    ensures IsDirective(ts, i, ".ascii") ==> Makes(ts, i, i + 2, Block(0, true, Bytes(DataOutput, bytes)), blobs)
    ensures IsDirective(ts, i, ".strlen") ==> Makes(ts, i, i + 2, Block(4, true, Bytes(DataOutput, length)), blobs)
    ensures Spells(bytes, text) && |length| == 4 && FromLittleEndian(length) == |text| % Pow256(4)
  {
    bytes, length := StringBytes(text), LittleEndian(|text|, 4);
    LittleEndianRoundTrip(|text|, 4);
  }
}
