/**
 Which instructions `li`, `set` and `laq` are made of: how many, and what each says (src/opcodes.cpp:30-50,
 68-112, 143-180).
*/
module Shapes {
  import opened Words
  import opened Instructions
  import opened Immediates
  import opened WideConstants
  import opened Manual

  /** `lui rd, hi`, `addi rd, rs1, imm`, `slli rd, rd, 32` and `add rd, rd, rs2`. */
  predicate IsLui(w: u32, rd: reg, hi: int) {
    HasOpcode(w, 0x37) && HasRd(w, rd) && HasUpper(w, hi)
  }

  predicate IsAddi(w: u32, rd: reg, rs1: reg, imm: int) {
    HasOpcode(w, 0x13) && HasFunct3(w, 0) && HasRd(w, rd) && HasRs1(w, rs1) && HasImmediate(w, imm)
  }

  predicate IsShift32(w: u32, rd: reg) {
    HasOpcode(w, 0x13) && HasFunct3(w, 1) && HasRd(w, rd) && HasRs1(w, rd) && HasImmediate(w, 32)
  }

  predicate IsAdd(w: u32, rd: reg, rs2: reg) {
    && HasOpcode(w, 0x33) && HasFunct3(w, 0) && HasFunct7(w, 0)
    && HasRd(w, rd) && HasRs1(w, rd) && HasRs2(w, rs2)
  }

  /** A pair of a rounded upper part and the low twelve bits. */
  predicate IsPair(code: seq<u32>, rd: reg, v: int) {
    |code| == 2 && IsLui(code[0], rd, (v + 0x800) / 0x1000) && IsAddi(code[1], rd, rd, v)
  }

  lemma PairShape(rd: reg, v: int32)
    ensures IsPair(FullPair(rd, v), rd, v)
  {
    ManualUType(RV32I_LUI, rd, Upper(v));
    ManualIType(RV32I_OP_IMM, rd, 0, rd, v);
    RoundingTrick(v);
  }

  /** `li` is one instruction if twelve bits are enough, or if the low twelve are zero, and else the pair. */
  lemma LoadShape(rd: reg, v: int32)
    ensures var code := LoadImm(rd, v);
      if -2048 <= v <= 2047 then |code| == 1 && IsAddi(code[0], rd, 0, v)
      else if v % 0x1000 == 0 then |code| == 1 && IsLui(code[0], rd, v / 0x1000)
      else IsPair(code, rd, v)
  {
    RoundingTrick(v);
    ManualIType(RV32I_OP_IMM, rd, 0, 0, v);
    ManualUType(RV32I_LUI, rd, Upper(v));
    PairShape(rd, v);
  }

  lemma JoiningShape(dst: reg, temp: reg)
    ensures IsShift32(ShiftLeft32(dst), dst) && IsAdd(AddTo(dst, temp), dst, temp)
  {
    ManualIType(RV32I_OP_IMM, dst, 1, dst, 32);
    ManualRType(RV32I_OP, dst, 0, dst, temp, 0);
  }

  /** The shift, which is left out while nothing is to be shifted. */
  function Shifting(shift: u32, needed: bool): seq<u32> {
    if needed then [shift] else []
  }

  lemma LanesOf(x: u128)
    ensures SignedLane(x, 3) == S32(x / 0x1_0000_0000_0000_0000_0000_0000)
    ensures SignedLane(x, 2) == S32(x / 0x1_0000_0000_0000_0000)
    ensures SignedLane(x, 1) == S32(x / 0x1_0000_0000) && SignedLane(x, 0) == S32(x)
  {
    LowWord(x / 0x1_0000_0000_0000_0000_0000_0000);
    LowWord(x / 0x1_0000_0000_0000_0000);
    LowWord(x / 0x1_0000_0000);
    LowWord(x);
  }

  /**
   `set` of a constant of more than 32 bits: its four lanes as `li` loads them, the first into the destination and the
   others into the temporary, each followed by the shift, if there is anything above it, and the addition.
  */
  lemma SetShape(dst: reg, temp: reg, x: u128) returns (shift: u32, add: u32)
    requires x >= 0x1_0000_0000
    ensures IsShift32(shift, dst) && IsAdd(add, dst, temp)
    ensures SetCode(dst, temp, x) ==
      LoadImm(dst, S32(x / 0x1_0000_0000_0000_0000_0000_0000))
      + (LoadImm(temp, S32(x / 0x1_0000_0000_0000_0000))
         + Shifting(shift, x >= 0x1_0000_0000_0000_0000_0000_0000) + [add])
      + (LoadImm(temp, S32(x / 0x1_0000_0000)) + Shifting(shift, x >= 0x1_0000_0000_0000_0000) + [add])
      + (LoadImm(temp, S32(x)) + [shift] + [add])
  {
    shift, add := ShiftLeft32(dst), AddTo(dst, temp);
    JoiningShape(dst, temp);
    LanesOf(x);
    HighExists(x);
    LanesGrouped(false, dst, temp, x, shift, add);
  }

  /** A constant of up to 32 bits is loaded as `li` loads it. */
  lemma SetShort(dst: reg, temp: reg, x: u128)
    requires x < 0x1_0000_0000
    ensures SetCode(dst, temp, x) == LoadImm(dst, S32(x))
  {
  }

  lemma HighExists(x: u128)
    ensures High(x, 3) != 0 <==> x >= 0x1_0000_0000_0000_0000_0000_0000
    ensures High(x, 2) != 0 <==> x >= 0x1_0000_0000_0000_0000
    ensures High(x, 1) != 0 <==> x >= 0x1_0000_0000
  {
  }

  /** All lanes, each with what joins it. */
  lemma LanesGrouped(full: bool, dst: reg, temp: reg, x: u128, shift: u32, add: u32)
    requires shift == ShiftLeft32(dst) && add == AddTo(dst, temp)
    ensures Lanes(full, dst, temp, x, 0) ==
      LoadLane(full, dst, SignedLane(x, 3))
      + (LoadLane(full, temp, SignedLane(x, 2)) + Shifting(shift, full || High(x, 3) != 0) + [add])
      + (LoadLane(full, temp, SignedLane(x, 1)) + Shifting(shift, full || High(x, 2) != 0) + [add])
      + (LoadLane(full, temp, SignedLane(x, 0)) + Shifting(shift, full || High(x, 1) != 0) + [add])
  {
    LaneGrouped(full, dst, temp, x, 2, shift, add);
    LaneGrouped(full, dst, temp, x, 1, shift, add);
    LaneGrouped(full, dst, temp, x, 0, shift, add);
  }

  lemma LaneGrouped(full: bool, dst: reg, temp: reg, x: u128, n: lane, shift: u32, add: u32)
    requires n < 3 && shift == ShiftLeft32(dst) && add == AddTo(dst, temp)
    ensures Lanes(full, dst, temp, x, n) == Lanes(full, dst, temp, x, n + 1)
      + (LoadLane(full, temp, SignedLane(x, n)) + Shifting(shift, full || High(x, n + 1) != 0) + [add])
  {
    Regroup(Lanes(full, dst, temp, x, n + 1), LoadLane(full, temp, SignedLane(x, n)),
            Shifting(shift, full || High(x, n + 1) != 0), [add]);
  }

  lemma Regroup(a: seq<u32>, b: seq<u32>, c: seq<u32>, d: seq<u32>)
    ensures (a + b) + (c + d) == a + (b + c + d)
  {
  }

  /** `laq`: fourteen instructions, the four pairs and three joints, whatever the address. */
  lemma LaqPattern(dst: reg, temp: reg, x: u128) returns (p3: seq<u32>, p2: seq<u32>, p1: seq<u32>, p0: seq<u32>,
                                                          shift: u32, add: u32)
    ensures IsShift32(shift, dst) && IsAdd(add, dst, temp)
    ensures IsPair(p3, dst, S32(x / 0x1_0000_0000_0000_0000_0000_0000))
    ensures IsPair(p2, temp, S32(x / 0x1_0000_0000_0000_0000)) && IsPair(p1, temp, S32(x / 0x1_0000_0000))
    ensures IsPair(p0, temp, S32(x))
    ensures LaqCode(dst, temp, x) == p3 + (p2 + [shift] + [add]) + (p1 + [shift] + [add]) + (p0 + [shift] + [add])
    ensures |LaqCode(dst, temp, x)| == 14
  {
    shift, add := ShiftLeft32(dst), AddTo(dst, temp);
    p3, p2 := FullPair(dst, SignedLane(x, 3)), FullPair(temp, SignedLane(x, 2));
    p1, p0 := FullPair(temp, SignedLane(x, 1)), FullPair(temp, SignedLane(x, 0));
    JoiningShape(dst, temp);
    LanesOf(x);
    LanesGrouped(true, dst, temp, x, shift, add);
    PairShape(dst, SignedLane(x, 3));
    PairShape(temp, SignedLane(x, 2));
    PairShape(temp, SignedLane(x, 1));
    PairShape(temp, SignedLane(x, 0));
  }
}
