/**
 Instruction words: the bit-field layouts of src/rv32i_instr.hpp, with the assignments the code
 generator and the fixups make to them (`Set...`) and the decoders of the same header.
 A shift right of a signed value is Dafny's `/` by a power of two, which also rounds down.
*/
module Instructions {
  import opened Words

  type reg = n: int | 0 <= n < 32

  const RV32I_LOAD: int := 0x03
  const RV32I_STORE: int := 0x23
  const RV32I_BRANCH: int := 0x63
  const RV32I_JALR: int := 0x67
  const RV32I_JAL: int := 0x6F
  const RV32I_OP_IMM: int := 0x13
  const RV32I_OP: int := 0x33
  const RV32I_SYSTEM: int := 0x73
  const RV32I_LUI: int := 0x37
  const RV32I_AUIPC: int := 0x17
  const RV64I_OP_IMM32: int := 0x1B
  const RV64I_OP32: int := 0x3B
  const RV128I_OP_IMM64: int := 0x5B

  type opcode7 = n: int | 0 <= n < 0x80
  type funct3 = n: int | 0 <= n < 8
  type funct7 = n: int | 0 <= n < 0x80

  // ---- Building words from fields -------------------------------------------------------------

  function RType(op: opcode7, rd: reg, f3: funct3, rs1: reg, rs2: reg, f7: funct7): u32 {
    op + rd * 0x80 + f3 * 0x1000 + rs1 * 0x8000 + rs2 * 0x100000 + f7 * 0x2000000
  }

  function IType(op: opcode7, rd: reg, f3: funct3, rs1: reg, imm: int): u32 {
    op + rd * 0x80 + f3 * 0x1000 + rs1 * 0x8000 + imm % 0x1000 * 0x100000
  }

  function SType(f3: funct3, rs1: reg, rs2: reg, imm: int): u32 {
    RV32I_STORE + imm % 0x20 * 0x80 + f3 * 0x1000 + rs1 * 0x8000 + rs2 * 0x100000 + imm / 0x20 % 0x80 * 0x2000000
  }

  function UType(op: opcode7, rd: reg, imm: int): u32 {
    op + rd * 0x80 + imm % 0x100000 * 0x1000
  }

  /** A branch with its displacement bits spread over four fields. */
  function BType(f3: funct3, rs1: reg, rs2: reg, d: int): u32 {
    RV32I_BRANCH + d / 0x800 % 2 * 0x80 + d / 2 % 0x10 * 0x100 + f3 * 0x1000 + rs1 * 0x8000 + rs2 * 0x100000
    + d / 0x20 % 0x40 * 0x2000000 + d / 0x1000 % 2 * 0x8000_0000
  }

  /** A jump as this assembler encodes it: bit 31 is bit 19 of the displacement. */
  function JType(rd: reg, d: int): u32 {
    RV32I_JAL + rd * 0x80 + d / 0x1000 % 0x100 * 0x1000 + d / 0x800 % 2 * 0x100000
    + d / 2 % 0x400 * 0x200000 + d / 0x80000 % 2 * 0x8000_0000
  }

  // ---- Assigning to immediate fields ------------------------------------------------------------

  /** `w.Itype.imm = v` */
  function SetIImm(w: u32, v: int): u32 {
    w % 0x100000 + v % 0x1000 * 0x100000
  }

  /** `w.Utype.imm = v` */
  function SetUImm(w: u32, v: int): u32 {
    w % 0x1000 + v % 0x100000 * 0x1000
  }

  /** `w.Utype.opcode = op` */
  function SetOpcode(w: u32, op: opcode7): u32 {
    w - w % 0x80 + op
  }

  /** The four assignments to `w.Btype.imm1` .. `imm4`. */
  function SetBImm(w: u32, d: int): u32 {
    w % 0x80 + d / 0x800 % 2 * 0x80 + d / 2 % 0x10 * 0x100
    + w / 0x1000 % 0x2000 * 0x1000 + d / 0x20 % 0x40 * 0x2000000 + d / 0x1000 % 2 * 0x8000_0000
  }

  /** The four assignments to `w.Jtype.imm1` .. `imm4`; the sign bit is taken from bit 19. */
  function SetJImm(w: u32, d: int): u32 {
    w % 0x1000 + d / 0x1000 % 0x100 * 0x1000 + d / 0x800 % 2 * 0x100000
    + d / 2 % 0x400 * 0x200000 + d / 0x80000 % 2 * 0x8000_0000
  }

  // ---- Reading fields ---------------------------------------------------------------------------

  function Opcode(w: u32): opcode7 { w % 0x80 }
  function Rd(w: u32): reg { w / 0x80 % 0x20 }
  function Funct3(w: u32): funct3 { w / 0x1000 % 8 }
  function Rs1(w: u32): reg { w / 0x8000 % 0x20 }
  function Rs2(w: u32): reg { w / 0x100000 % 0x20 }
  function Funct7(w: u32): funct7 { w / 0x2000000 }

  function IImm(w: u32): int { w / 0x100000 }
  function SignedImm(w: u32): int { S12(w / 0x100000) }
  function UpperImm(w: u32): int { S32(w - w % 0x1000) }

  function StoreImm(w: u32): int {
    S12(w / 0x80 % 0x20 + w / 0x2000000 * 0x20)
  }

  /** Branch displacement: bits 31, 7, 30..25 and 11..8 of the word. */
  function BranchOffset(w: u32): int {
    w / 0x100 % 0x10 * 2 + w / 0x2000000 % 0x40 * 0x20 + w / 0x80 % 2 * 0x800 - w / 0x8000_0000 * 0x1000
  }

  /** Jump displacement: bits 31, 19..12, 20 and 30..21 of the word. */
  function JumpOffset(w: u32): int {
    w / 0x200000 % 0x400 * 2 + w / 0x100000 % 2 * 0x800 + w / 0x1000 % 0x100 * 0x1000
    - w / 0x8000_0000 * 0x100000
  }

  /** Length in bytes: 4 when the two low bits are set, else 2. */
  function Length(w: u32): nat {
    if w % 4 == 3 then 4 else 2
  }

  // ---- Words and bytes --------------------------------------------------------------------------

  function Bytes4(w: u32): (bytes: seq<byte>)
    ensures |bytes| == 4
  {
    var b0: byte := w % 0x100;
    var b1: byte := w / 0x100 % 0x100;
    var b2: byte := w / 0x100 / 0x100 % 0x100;
    var b3: byte := w / 0x100 / 0x100 / 0x100;
    [b0, b1, b2, b3]
  }

  function Word4(bytes: seq<byte>): u32
    requires |bytes| == 4
  {
    var b0: int, b1: int, b2: int, b3: int := bytes[0], bytes[1], bytes[2], bytes[3];
    b0 + b1 * 0x100 + b2 * 0x10000 + b3 * 0x1000000
  }

  lemma Word4RoundTrip(w: u32)
    ensures Word4(Bytes4(w)) == w
  {
  }

  /** The bytes the assembler appends for one instruction. */
  function Emitted(w: u32): seq<byte> {
    Bytes4(w)[..Length(w)]
  }

  function CodeBytes(words: seq<u32>): seq<byte> {
    if words == [] then [] else Emitted(words[0]) + CodeBytes(words[1..])
  }

  /** Every word is a full-length instruction. */
  predicate FullLength(words: seq<u32>) {
    forall i :: 0 <= i < |words| ==> words[i] % 4 == 3
  }

  lemma {:induction false} CodeBytesConcat(a: seq<u32>, b: seq<u32>)
    ensures CodeBytes(a + b) == CodeBytes(a) + CodeBytes(b)
  {
    if a == [] {
      assert a + b == b;
    } else {
      CodeBytesConcat(a[1..], b);
      assert (a + b)[0] == a[0] && (a + b)[1..] == a[1..] + b;
      ConcatAssociative(Emitted(a[0]), CodeBytes(a[1..]), CodeBytes(b));
    }
  }

  lemma ConcatAssociative<T>(a: seq<T>, b: seq<T>, c: seq<T>)
    ensures (a + b) + c == a + (b + c)
  {
  }

  /** Full-length instructions lie four bytes apart. */
  lemma {:induction false} CodeBytesAt(words: seq<u32>)
    requires FullLength(words)
    ensures |CodeBytes(words)| == 4 * |words|
    ensures forall i :: 0 <= i < |words| ==> CodeBytes(words)[4 * i..4 * i + 4] == Bytes4(words[i])
  {
    if words != [] {
      var rest := CodeBytes(words[1..]);
      CodeBytesAt(words[1..]);
      assert CodeBytes(words) == Bytes4(words[0]) + rest;
      forall i | 0 <= i < |words|
        ensures CodeBytes(words)[4 * i..4 * i + 4] == Bytes4(words[i])
      {
        if i != 0 {
          assert words[i] == words[1..][i - 1];
          assert CodeBytes(words)[4 * i..4 * i + 4] == rest[4 * (i - 1)..4 * (i - 1) + 4];
        }
      }
    }
  }

  // ---- Fields survive encoding --------------------------------------------------------------------

  /** A field `mid` of width `m` between the bits `low` (below `l`) and the bits `high`. */
  lemma Field(w: int, low: int, l: int, mid: int, m: int, high: int)
    requires 0 <= low < l && 0 <= mid < m
    requires w == low + l * (mid + m * high)
    ensures w % l == low && w / l == mid + m * high && w / l % m == mid
  {
    ModUnique(w, l, mid + m * high, low);
    ModUnique(mid + m * high, m, high, mid);
  }

  lemma RTypeFields(op: opcode7, rd: reg, f3: funct3, rs1: reg, rs2: reg, f7: funct7)
    ensures var w := RType(op, rd, f3, rs1, rs2, f7);
            && Opcode(w) == op && Rd(w) == rd && Funct3(w) == f3 && Rs1(w) == rs1
            && Rs2(w) == rs2 && Funct7(w) == f7
  {
    var w := RType(op, rd, f3, rs1, rs2, f7);
    LowFields(w, op, rd, f3, rs1, rs2 + 0x20 * f7);
    Field(w, op + rd * 0x80 + f3 * 0x1000 + rs1 * 0x8000, 0x100000, rs2, 0x20, f7);
    Field(w, op + rd * 0x80 + f3 * 0x1000 + rs1 * 0x8000 + rs2 * 0x100000, 0x2000000, f7, 0x80, 0);
  }

  lemma LowFields(w: u32, op: opcode7, rd: reg, f3: funct3, rs1: reg, high: int)
    requires w == op + rd * 0x80 + f3 * 0x1000 + rs1 * 0x8000 + high * 0x100000
    ensures Opcode(w) == op && Rd(w) == rd && Funct3(w) == f3 && Rs1(w) == rs1 && w / 0x100000 == high
    ensures w % 0x100000 == op + rd * 0x80 + f3 * 0x1000 + rs1 * 0x8000
  {
    Field(w, op, 0x80, rd, 0x20, f3 + 8 * rs1 + 0x100 * high);
    Field(w, op + rd * 0x80, 0x1000, f3, 8, rs1 + 0x20 * high);
    Field(w, op + rd * 0x80 + f3 * 0x1000, 0x8000, rs1, 0x20, high);
    ModUnique(w, 0x100000, high, op + rd * 0x80 + f3 * 0x1000 + rs1 * 0x8000);
  }

  lemma ITypeFields(op: opcode7, rd: reg, f3: funct3, rs1: reg, imm: int)
    ensures var w := IType(op, rd, f3, rs1, imm);
            && Opcode(w) == op && Rd(w) == rd && Funct3(w) == f3 && Rs1(w) == rs1
            && IImm(w) == imm % 0x1000 && SignedImm(w) == S12(imm)
  {
    LowFields(IType(op, rd, f3, rs1, imm), op, rd, f3, rs1, imm % 0x1000);
  }

  /** A store's displacement is split around the register fields and comes back whole. */
  lemma STypeFields(f3: funct3, rs1: reg, rs2: reg, imm: int)
    ensures var w := SType(f3, rs1, rs2, imm);
            && Opcode(w) == RV32I_STORE && Funct3(w) == f3 && Rs1(w) == rs1 && Rs2(w) == rs2
            && StoreImm(w) == S12(imm)
  {
    var w := SType(f3, rs1, rs2, imm);
    var lo, hi := imm % 0x20, imm / 0x20 % 0x80;
    LowFields(w, RV32I_STORE, lo, f3, rs1, rs2 + 0x20 * hi);
    Field(w, RV32I_STORE + lo * 0x80 + f3 * 0x1000 + rs1 * 0x8000, 0x100000, rs2, 0x20, hi);
    Field(w, RV32I_STORE + lo * 0x80 + f3 * 0x1000 + rs1 * 0x8000 + rs2 * 0x100000, 0x2000000, hi, 0x80, 0);
    ModUnique(imm, 0x1000, imm / 0x20 / 0x80, lo + hi * 0x20);
  }

  lemma UTypeFields(op: opcode7, rd: reg, imm: int)
    ensures var w := UType(op, rd, imm);
            Opcode(w) == op && Rd(w) == rd && UpperImm(w) == S32(imm * 0x1000)
  {
    var w := UType(op, rd, imm);
    var hi := imm % 0x100000;
    Field(w, op, 0x80, rd, 0x20, hi);
    ModUnique(w, 0x1000, hi, op + rd * 0x80);
    ModUnique(imm * 0x1000, P32, imm / 0x100000, hi * 0x1000);
    ModUnique(hi * 0x1000, P32, 0, hi * 0x1000);
  }

  /** A branch fixup touches only the displacement. */
  lemma BranchFields(w: u32, d: int)
    ensures var p := SetBImm(w, d);
            && Opcode(p) == Opcode(w) && Funct3(p) == Funct3(w) && Rs1(p) == Rs1(w) && Rs2(p) == Rs2(w)
    ensures var p := SetBImm(w, d);
            && p / 0x80 % 2 == d / 0x800 % 2 && p / 0x100 % 0x10 == d / 2 % 0x10
            && p / 0x2000000 % 0x40 == d / 0x20 % 0x40 && p / 0x8000_0000 == d / 0x1000 % 2
  {
    var p := SetBImm(w, d);
    var op, b11, b1, regs, b5, sign :=
      w % 0x80, d / 0x800 % 2, d / 2 % 0x10, w / 0x1000 % 0x2000, d / 0x20 % 0x40, d / 0x1000 % 2;
    Field(p, op, 0x80, b11, 2, b1 + 0x10 * (regs + 0x2000 * (b5 + 0x40 * sign)));
    Field(p, op + 0x80 * b11, 0x100, b1, 0x10, regs + 0x2000 * (b5 + 0x40 * sign));
    var low := op + 0x80 * b11 + 0x100 * b1;
    Field(p, low, 0x1000, regs, 0x2000, b5 + 0x40 * sign);
    Field(p, low + 0x1000 * regs, 0x2000000, b5, 0x40, sign);
    Field(p, low + 0x1000 * regs + 0x2000000 * b5, 0x8000_0000, sign, 2, 0);
    MiddleFields(w);
    MiddleFields(p);
  }

  /** `funct3`, `rs1` and `rs2` depend only on bits 12 to 24. */
  lemma MiddleFields(w: u32)
    ensures var regs := w / 0x1000 % 0x2000;
            Funct3(w) == regs % 8 && Rs1(w) == regs / 8 % 0x20 && Rs2(w) == regs / 0x100
  {
    var regs, high := w / 0x1000 % 0x2000, w / 0x1000 / 0x2000;
    var f3, rs1, rs2 := regs % 8, regs / 8 % 0x20, regs / 8 / 0x20;
    var low := w % 0x1000;
    assert regs == f3 + 8 * (rs1 + 0x20 * rs2);
    assert w == low + 0x1000 * (f3 + 8 * (rs1 + 0x20 * (rs2 + 0x20 * high)));
    Field(w, low, 0x1000, f3, 8, rs1 + 0x20 * (rs2 + 0x20 * high));
    Field(w, low + 0x1000 * f3, 0x8000, rs1, 0x20, rs2 + 0x20 * high);
    Field(w, low + 0x1000 * f3 + 0x8000 * rs1, 0x100000, rs2, 0x20, high);
  }

  /**
   The displacement a branch word holds after patching, for every difference: the low bit is lost and
   the rest is kept modulo 2^13.
  */
  lemma BranchOffsetPatched(w: u32, d: int)
    ensures BranchOffset(SetBImm(w, d)) == (d - d % 2 + 0x1000) % 0x2000 - 0x1000
  {
    BranchFields(w, d);
    var b0, b1, b5 := d % 2, d / 2 % 0x10, d / 2 / 0x10 % 0x40;
    var b11, b12, high := d / 0x800 % 2, d / 0x800 / 2 % 2, d / 0x800 / 2 / 2;
    DivDiv(d, 2, 0x10);
    DivDiv(d, 0x20, 0x40);
    DivDiv(d, 0x800, 2);
    assert d == b0 + 2 * (b1 + 0x10 * (b5 + 0x40 * (b11 + 2 * (b12 + 2 * high))));
    var even := 2 * b1 + 0x20 * b5 + 0x800 * b11;
    assert d - b0 == even + 0x1000 * b12 + 0x2000 * high;
    if b12 == 0 {
      ModUnique(d - b0 + 0x1000, 0x2000, high, even + 0x1000);
    } else {
      ModUnique(d - b0 + 0x1000, 0x2000, high + 1, even);
    }
  }

  lemma JumpFields(w: u32, d: int)
    ensures var p := SetJImm(w, d);
            && p % 0x1000 == w % 0x1000 && p / 0x1000 % 0x100 == d / 0x1000 % 0x100
            && p / 0x100000 % 2 == d / 0x800 % 2 && p / 0x200000 % 0x400 == d / 2 % 0x400
            && p / 0x8000_0000 == d / 0x80000 % 2
    ensures var p := SetJImm(w, d); Opcode(p) == Opcode(w) && Rd(p) == Rd(w)
  {
    var p := SetJImm(w, d);
    var low, b12, b11, b1, sign := w % 0x1000, d / 0x1000 % 0x100, d / 0x800 % 2, d / 2 % 0x400, d / 0x80000 % 2;
    Field(p, low, 0x1000, b12, 0x100, b11 + 2 * (b1 + 0x400 * sign));
    Field(p, low + 0x1000 * b12, 0x100000, b11, 2, b1 + 0x400 * sign);
    Field(p, low + 0x1000 * b12 + 0x100000 * b11, 0x200000, b1, 0x400, sign);
    Field(p, low + 0x1000 * b12 + 0x100000 * b11 + 0x200000 * b1, 0x8000_0000, sign, 2, 0);
    OpcodeAndRd(w);
    OpcodeAndRd(p);
  }

  lemma OpcodeAndRd(w: u32)
    ensures var low := w % 0x1000; Opcode(w) == low % 0x80 && Rd(w) == low / 0x80
  {
    var low := w % 0x1000;
    Field(w, low % 0x80, 0x80, low / 0x80, 0x20, w / 0x1000);
  }

  /**
   The displacement a jump word holds after patching. Bit 19 is stored twice (as the top bit of `imm1`
   and as the sign), so the rest is kept modulo 2^20.
  */
  lemma JumpOffsetPatched(w: u32, d: int)
    ensures JumpOffset(SetJImm(w, d)) == (d - d % 2 + 0x80000) % 0x100000 - 0x80000
  {
    JumpFields(w, d);
    var b0, b1, b11 := d % 2, d / 2 % 0x400, d / 2 / 0x400 % 2;
    var b12, b19, high := d / 0x1000 % 0x80, d / 0x1000 / 0x80 % 2, d / 0x1000 / 0x80 / 2;
    DivDiv(d, 2, 0x400);
    DivDiv(d, 0x800, 2);
    DivDiv(d, 0x1000, 0x80);
    Field(d / 0x1000, b12, 0x80, b19, 2, high);
    ModUnique(d / 0x1000, 0x100, high, b12 + 0x80 * b19);
    assert d == b0 + 2 * (b1 + 0x400 * (b11 + 2 * (b12 + 0x80 * (b19 + 2 * high))));
    var even := 2 * b1 + 0x800 * b11 + 0x1000 * b12;
    assert d - b0 == even + 0x80000 * b19 + 0x100000 * high;
    if b19 == 0 {
      ModUnique(d - b0 + 0x80000, 0x100000, high, even + 0x80000);
    } else {
      ModUnique(d - b0 + 0x80000, 0x100000, high + 1, even);
    }
  }

  // ---- Assigning to a field gives the word built with that field ----------------------------------

  lemma SetITypeImm(op: opcode7, rd: reg, f3: funct3, rs1: reg, was: int, v: int)
    ensures SetIImm(IType(op, rd, f3, rs1, was), v) == IType(op, rd, f3, rs1, v)
  {
    LowFields(IType(op, rd, f3, rs1, was), op, rd, f3, rs1, was % 0x1000);
  }

  lemma SetUTypeImm(op: opcode7, rd: reg, was: int, v: int)
    ensures SetUImm(UType(op, rd, was), v) == UType(op, rd, v)
  {
    ModUnique(UType(op, rd, was), 0x1000, was % 0x100000, op + rd * 0x80);
  }

  lemma SetUTypeOpcode(op: opcode7, rd: reg, imm: int, op': opcode7)
    ensures SetOpcode(UType(op, rd, imm), op') == UType(op', rd, imm)
  {
    UTypeFields(op, rd, imm);
  }

  lemma SetBTypeImm(f3: funct3, rs1: reg, rs2: reg, was: int, d: int)
    ensures SetBImm(BType(f3, rs1, rs2, was), d) == BType(f3, rs1, rs2, d)
  {
    var w := BType(f3, rs1, rs2, was);
    BTypeBits(f3, rs1, rs2, was);
    var regs := f3 + 8 * rs1 + 0x100 * rs2;
    assert w % 0x80 == RV32I_BRANCH && w / 0x1000 % 0x2000 == regs;
  }

  lemma BTypeBits(f3: funct3, rs1: reg, rs2: reg, d: int)
    ensures var w := BType(f3, rs1, rs2, d);
            w % 0x80 == RV32I_BRANCH && w / 0x1000 % 0x2000 == f3 + 8 * rs1 + 0x100 * rs2
    ensures var w := BType(f3, rs1, rs2, d);
            Opcode(w) == RV32I_BRANCH && Funct3(w) == f3 && Rs1(w) == rs1 && Rs2(w) == rs2
  {
    var w := BType(f3, rs1, rs2, d);
    var b11, b1, b5, sign := d / 0x800 % 2, d / 2 % 0x10, d / 0x20 % 0x40, d / 0x1000 % 2;
    var regs, high := f3 + 8 * rs1 + 0x100 * rs2, b5 + 0x40 * sign;
    Field(w, RV32I_BRANCH, 0x80, b11, 2, b1 + 0x10 * (regs + 0x2000 * high));
    Field(w, RV32I_BRANCH + 0x80 * b11 + 0x100 * b1, 0x1000, regs, 0x2000, high);
    MiddleFields(w);
    Field(regs, f3, 8, rs1, 0x20, rs2);
    ModUnique(regs, 0x100, rs2, f3 + 8 * rs1);
  }

  lemma SetJTypeImm(rd: reg, was: int, d: int)
    ensures SetJImm(JType(rd, was), d) == JType(rd, d)
  {
    JTypeBits(rd, was);
  }

  lemma JTypeBits(rd: reg, d: int)
    ensures var w := JType(rd, d); w % 0x1000 == RV32I_JAL + rd * 0x80 && Opcode(w) == RV32I_JAL && Rd(w) == rd
  {
    var w := JType(rd, d);
    var b12, b11, b1, sign := d / 0x1000 % 0x100, d / 0x800 % 2, d / 2 % 0x400, d / 0x80000 % 2;
    ModUnique(w, 0x1000, b12 + 0x100 * (b11 + 2 * (b1 + 0x400 * sign)), RV32I_JAL + rd * 0x80);
    OpcodeAndRd(w);
    ModUnique(RV32I_JAL + rd * 0x80, 0x80, rd, RV32I_JAL);
  }
}
