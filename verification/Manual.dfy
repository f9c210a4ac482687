/**
 Instruction words as numbers: the formats of section 2.2 and the opcodes of chapter 24 of the RISC-V Unprivileged
 ISA manual, version 20191213, and the 128-bit opcodes of its chapter 6 (src/rv32i_instr.hpp,
 src/instruction_list.hpp).
*/
module Manual {
  import opened Words
  import opened Instructions

  /** Seven bits that say the format, and the fields in the places that the formats share. */
  predicate HasOpcode(w: u32, opcode: nat) {
    w % 0x80 == opcode
  }

  predicate HasRd(w: u32, rd: reg) {
    w / 0x80 % 0x20 == rd
  }

  predicate HasFunct3(w: u32, f3: funct3) {
    w / 0x1000 % 8 == f3
  }

  predicate HasRs1(w: u32, rs1: reg) {
    w / 0x8000 % 0x20 == rs1
  }

  predicate HasRs2(w: u32, rs2: reg) {
    w / 0x10_0000 % 0x20 == rs2
  }

  predicate HasFunct7(w: u32, f7: funct7) {
    w / 0x200_0000 == f7
  }

  /** The twelve bits of an immediate in the upper end of a word. */
  predicate HasImmediate(w: u32, imm: int) {
    w / 0x10_0000 == imm % 0x1000
  }

  /** The twelve bits of a store's immediate, around the registers. */
  predicate HasStoreImmediate(w: u32, imm: int) {
    w / 0x80 % 0x20 == imm % 0x20 && w / 0x200_0000 == imm / 0x20 % 0x80
  }

  /** The twenty bits of an upper immediate. */
  predicate HasUpper(w: u32, imm: int) {
    w / 0x1000 == imm % 0x10_0000
  }

  lemma ManualRType(op: opcode7, rd: reg, f3: funct3, rs1: reg, rs2: reg, f7: funct7)
    ensures var w := RType(op, rd, f3, rs1, rs2, f7);
      && HasOpcode(w, op) && HasRd(w, rd) && HasFunct3(w, f3) && HasRs1(w, rs1) && HasRs2(w, rs2) && HasFunct7(w, f7)
  {
    RTypeFields(op, rd, f3, rs1, rs2, f7);
  }

  lemma ManualIType(op: opcode7, rd: reg, f3: funct3, rs1: reg, imm: int)
    ensures var w := IType(op, rd, f3, rs1, imm);
      && HasOpcode(w, op) && HasRd(w, rd) && HasFunct3(w, f3) && HasRs1(w, rs1) && HasImmediate(w, imm)
  {
    ITypeFields(op, rd, f3, rs1, imm);
  }

  lemma ManualSType(f3: funct3, rs1: reg, rs2: reg, imm: int)
    ensures var w := SType(f3, rs1, rs2, imm);
      && HasOpcode(w, 0x23) && HasFunct3(w, f3) && HasRs1(w, rs1) && HasRs2(w, rs2) && HasStoreImmediate(w, imm)
  {
    STypeFields(f3, rs1, rs2, imm);
    RTypeFields(RV32I_STORE, imm % 0x20, f3, rs1, rs2, imm / 0x20 % 0x80);
  }

  lemma ManualUType(op: opcode7, rd: reg, imm: int)
    ensures var w := UType(op, rd, imm); HasOpcode(w, op) && HasRd(w, rd) && HasUpper(w, imm)
  {
    UTypeFields(op, rd, imm);
    ModUnique(UType(op, rd, imm), 0x1000, imm % 0x10_0000, op + rd * 0x80);
  }

  lemma ManualBType(f3: funct3, rs1: reg, rs2: reg, d: int)
    ensures var w := BType(f3, rs1, rs2, d); HasOpcode(w, 0x63) && HasFunct3(w, f3) && HasRs1(w, rs1) && HasRs2(w, rs2)
  {
    BTypeBits(f3, rs1, rs2, d);
  }

  lemma ManualJType(rd: reg, d: int)
    ensures var w := JType(rd, d); HasOpcode(w, 0x6F) && HasRd(w, rd)
  {
    JTypeBits(rd, d);
  }

  /** The opcodes the assembler uses, by number. */
  lemma OpcodeNumbers()
    ensures RV32I_LOAD == 0x03 && RV32I_STORE == 0x23 && RV32I_BRANCH == 0x63 && RV32I_JALR == 0x67
    ensures RV32I_JAL == 0x6F && RV32I_OP_IMM == 0x13 && RV32I_OP == 0x33 && RV32I_SYSTEM == 0x73
    ensures RV32I_LUI == 0x37 && RV32I_AUIPC == 0x17
    ensures RV64I_OP_IMM32 == 0x1B && RV64I_OP32 == 0x3B && RV128I_OP_IMM64 == 0x5B
  {
  }

  /** Whole words: `lui x15, 0xF4247`, `addi x1, x2, 3`, `add x1, x2, x3`, `lw x1, 8(x2)`, `sw x3, 8(x2)`. */
  lemma KnownWords()
    ensures UType(RV32I_LUI, 15, 0xF4247) == 0xF424_77B7
    ensures UType(RV32I_AUIPC, 15, 0xF4247) == 0xF424_7797
    ensures IType(RV32I_OP_IMM, 1, 0, 2, 3) == 0x0031_0093
    ensures RType(RV32I_OP, 1, 0, 2, 3, 0) == 0x0031_00B3
    ensures IType(RV32I_LOAD, 1, 2, 2, 8) == 0x0081_2083
    ensures SType(2, 2, 3, 8) == 0x0031_2423
  {
  }

  /** `beq x1, x2, 16` and `bge x5, x6, -12`; `jal x1, 8` and `jal x0, -12`. */
  lemma KnownJumps()
    ensures BType(0, 1, 2, 16) == 0x0020_8863 && BType(5, 5, 6, -12) == 0xFE62_DAE3
    ensures JType(1, 8) == 0x0080_00EF && JType(0, -12) == 0xFF5F_F06F
  {
  }

  /** An instruction is stored with its least significant byte first. */
  lemma BytesOfWord(w: u32)
    requires w % 4 == 3
    ensures Emitted(w) == [w % 0x100, w / 0x100 % 0x100, w / 0x1_0000 % 0x100, w / 0x100_0000]
  {
  }
}
