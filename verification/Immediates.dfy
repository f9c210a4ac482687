/**
 Constant-loading code: `build_uint32`, `set_uint32`, `li`, `set` and the placeholder of `laq`
 (src/opcodes.cpp:21-180). The functions say what is emitted in the terms of the ISA manual; the
 methods emit it the way the program does; the lemmas run the result on the machine.
*/
module Immediates {
  import opened Words
  import opened Results
  import opened Instructions
  import opened Machine

  type int32 = n: int | -0x8000_0000 <= n < 0x8000_0000

  /** The upper part that goes with the sign-extended low 12 bits of `v`. */
  function Upper(v: int): int {
    (v - S12(v)) / 0x1000
  }

  /** A LUI and ADDI pair with both parts of `v` in place, even when one alone would do. */
  function FullPair(rd: reg, v: int32): seq<u32> {
    [UType(RV32I_LUI, rd, Upper(v)), IType(RV32I_OP_IMM, rd, 0, rd, v)]
  }

  /** LUI and ADDI for `v`, each left out when the other loads the value alone. */
  function LoadImm(rd: reg, v: int32): seq<u32> {
    if Upper(v) == 0 then [IType(RV32I_OP_IMM, rd, 0, 0, v)]
    else if S12(v) == 0 then [UType(RV32I_LUI, rd, Upper(v))]
    else FullPair(rd, v)
  }

  /** The value LUI and ADDI really leave for `v`: the top 2048 positive values come out 2^32 lower. */
  function Loaded(v: int): int {
    if v <= 0x7FFF_F7FF then v else v - 0x1_0000_0000
  }

  /** The code's rounding: adding the unsigned low 12 bits before the shift is rounding to nearest. */
  lemma RoundingTrick(v: int)
    ensures (v + v % 0x1000) / 0x1000 == (v + 0x800) / 0x1000 == Upper(v)
  {
    var q, lo := v / 0x1000, v % 0x1000;
    assert v == 0x1000 * q + lo;
    if lo < 0x800 {
      ModUnique(v + lo, 0x1000, q, 2 * lo);
      ModUnique(v + 0x800, 0x1000, q, lo + 0x800);
    } else {
      ModUnique(v + lo, 0x1000, q + 1, 2 * lo - 0x1000);
      ModUnique(v + 0x800, 0x1000, q + 1, lo - 0x800);
    }
  }

  method BuildUint32(res: seq<u32>, rd: reg, value: int32) returns (out: seq<u32>)
    ensures out == res + LoadImm(rd, value)
  {
    RoundingTrick(value);
    out := res;
    var i1 := IType(RV32I_OP_IMM, rd, 0, 0, value);
    var i2 := UType(RV32I_LUI, rd, (value + value % 0x1000) / 0x1000);
    // the field is zero only when the whole upper part is
    UpperField(rd, value);
    if i2 / 0x1000 != 0 {
      i1 := IType(RV32I_OP_IMM, rd, 0, rd, value);
      out := out + [i2];
      if value % 0x1000 != 0 {
        out := out + [i1];
      }
    } else {
      out := out + [i1];
    }
  }

  lemma UpperField(rd: reg, v: int32)
    ensures UType(RV32I_LUI, rd, Upper(v)) / 0x1000 == Upper(v) % 0x100000
    ensures -0x80000 <= Upper(v) <= 0x80000
    ensures Upper(v) % 0x100000 == 0 <==> Upper(v) == 0
    ensures v == Upper(v) * 0x1000 + S12(v)
  {
    RoundingTrick(v);
    ModUnique(UType(RV32I_LUI, rd, Upper(v)), 0x1000, Upper(v) % 0x100000, RV32I_LUI + rd * 0x80);
  }

  // ---- Running the pieces -----------------------------------------------------------------------

  /** The machine after `n` instructions that wrote `v` to `rd`. */
  function After(m: Core, n: nat, rd: reg, v: int): Core {
    Write(m, rd, v).(pc := Wrap(m.pc + 4 * n))
  }

  lemma DecodeUpper(rd: reg, hi: int)
    ensures Decode(UType(RV32I_LUI, rd, hi)) == Lui(rd, S32(hi * 0x1000))
    ensures Decode(UType(RV32I_AUIPC, rd, hi)) == Auipc(rd, S32(hi * 0x1000))
  {
    UTypeFields(RV32I_LUI, rd, hi);
    UTypeFields(RV32I_AUIPC, rd, hi);
  }

  lemma DecodeAddi(rd: reg, rs1: reg, v: int)
    ensures Decode(IType(RV32I_OP_IMM, rd, 0, rs1, v)) == Addi(rd, rs1, S12(v))
  {
    ITypeFields(RV32I_OP_IMM, rd, 0, rs1, v);
  }

  lemma DecodeShift32(rd: reg)
    ensures Decode(IType(RV32I_OP_IMM, rd, 1, rd, 32)) == Slli(rd, rd, 32)
  {
    ITypeFields(RV32I_OP_IMM, rd, 1, rd, 32);
  }

  lemma DecodeAdd(rd: reg, rs2: reg)
    ensures Decode(RType(RV32I_OP, rd, 0, rd, rs2, 0)) == Add(rd, rd, rs2)
  {
    RTypeFields(RV32I_OP, rd, 0, rd, rs2, 0);
  }

  lemma StepLui(m: Core, rd: reg, hi: int)
    ensures Step(m, UType(RV32I_LUI, rd, hi)) == Some(After(m, 1, rd, S32(hi * 0x1000)))
  {
    DecodeUpper(rd, hi);
  }

  lemma StepAuipc(m: Core, rd: reg, hi: int)
    ensures Step(m, UType(RV32I_AUIPC, rd, hi)) == Some(After(m, 1, rd, m.pc + S32(hi * 0x1000)))
  {
    DecodeUpper(rd, hi);
  }

  lemma StepAddi(m: Core, rd: reg, rs1: reg, v: int)
    ensures Step(m, IType(RV32I_OP_IMM, rd, 0, rs1, v)) == Some(After(m, 1, rd, Read(m, rs1) + S12(v)))
  {
    DecodeAddi(rd, rs1, v);
  }

  lemma StepShift32(m: Core, rd: reg)
    ensures Step(m, IType(RV32I_OP_IMM, rd, 1, rd, 32)) == Some(After(m, 1, rd, Read(m, rd) * 0x1_0000_0000))
  {
    DecodeShift32(rd);
    Pow2At32();
  }

  lemma StepAdd(m: Core, rd: reg, rs2: reg)
    ensures Step(m, RType(RV32I_OP, rd, 0, rd, rs2, 0)) == Some(After(m, 1, rd, Read(m, rd) + Read(m, rs2)))
  {
    DecodeAdd(rd, rs2);
    StepDecodedAdd(m, RType(RV32I_OP, rd, 0, rd, rs2, 0), rd, rs2);
  }

  lemma StepDecodedAdd(m: Core, w: u32, rd: reg, rs2: reg)
    requires Decode(w) == Add(rd, rd, rs2)
    ensures Step(m, w) == Some(After(m, 1, rd, Read(m, rd) + Read(m, rs2)))
  {
  }

  lemma RunsTwo(m: Core, w: u32, w': u32, m1: Core, m2: Core)
    requires Step(m, w) == Some(m1) && Step(m1, w') == Some(m2)
    ensures Runs(m, [w, w'], m2)
  {
    RunsStep(m, w, m1);
    RunsStep(m1, w', m2);
    RunsConcat(m, [w], m1, [w'], m2);
    assert [w, w'] == [w] + [w'];
  }

  lemma FullPairRuns(m: Core, rd: reg, v: int32)
    ensures Runs(m, FullPair(rd, v), After(m, 2, rd, Loaded(v)))
  {
    var u := S32(Upper(v) * 0x1000);
    StepLui(m, rd, Upper(v));
    StepAddi(After(m, 1, rd, u), rd, rd, v);
    UpperValue(v);
    AfterAdd(m, 1, 1, rd, u, S12(v), Loaded(v));
    RunsTwo(m, UType(RV32I_LUI, rd, Upper(v)), IType(RV32I_OP_IMM, rd, 0, rd, v), After(m, 1, rd, u),
            After(m, 2, rd, Loaded(v)));
  }

  /** Adding to a register just written; register 0 stays what it is. */
  lemma AfterAdd(m: Core, n: nat, n': nat, rd: reg, u: int, v: int, sum: int)
    requires sum == u + v
    ensures After(After(m, n, rd, u), n', rd, Read(After(m, n, rd, u), rd) + v) == After(m, n + n', rd, sum)
  {
    if rd == 0 {
      AfterTwice(m, n, n', rd, u, v);
    } else {
      WrapAdd(u, v);
      AfterTwice(m, n, n', rd, u, Wrap(u) + v);
      AfterEqual(m, n + n', rd, Wrap(u) + v, sum);
    }
  }

  /** A register keeps 128 bits of what is written. */
  lemma AfterEqual(m: Core, n: nat, rd: reg, u: int, v: int)
    requires Wrap(u) == Wrap(v)
    ensures After(m, n, rd, u) == After(m, n, rd, v)
  {
  }

  /** The later of two writes to a register wins. */
  lemma AfterTwice(m: Core, n: nat, n': nat, rd: reg, u: int, v: int)
    ensures After(After(m, n, rd, u), n', rd, v) == After(m, n + n', rd, v)
  {
    WrapAdd(m.pc + 4 * n, 4 * n');
    assert m.pc + 4 * n + 4 * n' == m.pc + 4 * (n + n');
    if rd != 0 {
      assert m.regs[rd := Wrap(u)][rd := Wrap(v)] == m.regs[rd := Wrap(v)];
    }
  }

  /** What LUI contributes: the upper part, read as a signed 32-bit value. */
  lemma UpperValue(v: int32)
    ensures S32(Upper(v) * 0x1000) + S12(v) == Loaded(v)
  {
    UpperField(0, v);
  }

  /**
   `build_uint32` on the machine: only `rd` and the program counter change, and `rd` holds the
   sign-extended value except for the top 2048 positive values.
  */
  lemma LoadImmRuns(m: Core, rd: reg, v: int32)
    ensures Runs(m, LoadImm(rd, v), After(m, |LoadImm(rd, v)|, rd, Loaded(v)))
  {
    UpperField(rd, v);
    if Upper(v) == 0 {
      StepAddi(m, rd, 0, v);
      RunsStep(m, IType(RV32I_OP_IMM, rd, 0, 0, v), After(m, 1, rd, Loaded(v)));
    } else if S12(v) == 0 {
      StepLui(m, rd, Upper(v));
      UpperValue(v);
      RunsStep(m, UType(RV32I_LUI, rd, Upper(v)), After(m, 1, rd, Loaded(v)));
    } else {
      FullPairRuns(m, rd, v);
    }
  }

  /** The register is exact, as a 128-bit value, for precisely the values up to 0x7FFFF7FF. */
  lemma LoadImmExact(v: int32)
    ensures Wrap(Loaded(v)) == Wrap(v) <==> v <= 0x7FFF_F7FF
    ensures Loaded(v) % 0x1_0000_0000 == v % 0x1_0000_0000
  {
    if v > 0x7FFF_F7FF {
      assert Wrap(v) == v && Wrap(Loaded(v)) == v - P32 + P128;
    }
  }
}
