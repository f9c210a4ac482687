/**
 Where code that names a label ends up when it is executed at the address it was encoded for. Each
 lemma says exactly when the README's promise holds, in terms of the true (128-bit, signed) distance.
*/
module Reach {
  import opened Words
  import opened Results
  import opened Instructions
  import opened Machine
  import opened Immediates
  import opened References

  /** The signed distance from `pc` to `target` around the 128-bit address space. */
  function Distance(pc: u128, target: u128): int {
    S128(target - pc)
  }

  /** Adding a small displacement reaches the target exactly when it is the distance. */
  lemma DisplacementReaches(pc: u128, target: u128, d: int)
    requires -0x1_0000_0000 <= d <= 0x1_0000_0000
    ensures Wrap(pc + d) == target <==> Distance(pc, target) == d
  {
    WrapCancel(d, target - pc, pc);
    WrapSigned(target - pc);
    if Wrap(target - pc) == Wrap(d) {
      SignedUnique(target - pc, d);
    }
  }

  lemma WrapCancel(a: int, b: int, c: int)
    ensures Wrap(a) == Wrap(b) <==> Wrap(a + c) == Wrap(b + c)
  {
    WrapAdd(a, c);
    WrapAdd(b, c);
    WrapAdd(a + c, -c);
    WrapAdd(b + c, -c);
  }

  /** Truncating a distance to 64 or 32 bits loses nothing that its 128-bit sign did not say. */
  lemma TruncatedDistance(x: int)
    ensures S64(S128(x)) == S64(x) && S32(S128(x)) == S32(x)
  {
    var q := (x - S128(x)) / P128;
    assert x == S128(x) + P128 * q;
    SameResidue(S128(x), 0x1_0000_0000_0000_0000 * q, 0x1_0000_0000_0000_0000);
    SameResidue(S128(x), 0x1_0000_0000_0000_0000_0000_0000 * q, 0x1_0000_0000);
  }

  lemma SameResidue(x: int, k: int, d: int)
    requires d > 0
    ensures (x + d * k) % d == x % d
  {
    ModUnique(x + d * k, d, x / d + k, x % d);
  }

  // ---- la -------------------------------------------------------------------------------------------

  /** When `la` is exact. The guard of its relative branch decides which range counts. */
  predicate LaExact(pc: u128, target: u128) {
    if -0x8000_0000 <= S64(target - pc) <= 0x7FFF_FFFF then -0x8000_0000 <= Distance(pc, target) <= 0x7FFF_F7FF
    else -0x8000_0800 <= S128(target) <= 0x7FFF_F7FF
  }

  /** `la` loads the address of its label exactly when the label is in range; nothing else changes. */
  lemma LaLoadsLabel(m: Core, rd: reg, target: u128) returns (m': Core)
    ensures Runs(m, LaCode(rd, m.pc, target), m')
    ensures Read(m', rd) == target <==> if rd == 0 then target == 0 else LaExact(m.pc, target)
    ensures forall r: reg :: r != rd ==> Read(m', r) == Read(m, r)
  {
    m' := After(m, 2, rd, LaLoaded(m.pc, target));
    LaCodeRuns(m, rd, target, S64(target - m.pc));
    LaLoadedExact(m.pc, target);
  }

  /** The value that `la` writes. */
  function LaLoaded(pc: u128, target: u128): int {
    if RelativelyClose(S64(target - pc)) then pc + Loaded(S64(target - pc)) else Loaded(S32(target))
  }

  lemma LaCodeRuns(m: Core, rd: reg, target: u128, diff: int)
    requires diff == S64(target - m.pc)
    ensures Runs(m, LaCode(rd, m.pc, target), After(m, 2, rd, LaLoaded(m.pc, target)))
  {
    if RelativelyClose(diff) {
      RelativePairRuns(m, rd, diff);
    } else {
      FullPairRuns(m, rd, S32(target));
    }
  }

  lemma LaLoadedExact(pc: u128, target: u128)
    ensures Wrap(LaLoaded(pc, target)) == target <==> LaExact(pc, target)
  {
    if RelativelyClose(S64(target - pc)) {
      RelativeExact(pc, target);
    } else {
      AbsoluteExact(target);
    }
  }

  lemma RelativePairRuns(m: Core, rd: reg, v: int32)
    ensures Runs(m, [UType(RV32I_AUIPC, rd, Upper(v)), IType(RV32I_OP_IMM, rd, 0, rd, v)],
                 After(m, 2, rd, m.pc + Loaded(v)))
  {
    var u := m.pc + S32(Upper(v) * 0x1000);
    StepAuipc(m, rd, Upper(v));
    StepAddi(After(m, 1, rd, u), rd, rd, v);
    UpperValue(v);
    AfterAdd(m, 1, 1, rd, u, S12(v), m.pc + Loaded(v));
    RunsTwo(m, UType(RV32I_AUIPC, rd, Upper(v)), IType(RV32I_OP_IMM, rd, 0, rd, v), After(m, 1, rd, u),
            After(m, 2, rd, m.pc + Loaded(v)));
  }

  lemma RelativeExact(pc: u128, target: u128)
    requires RelativelyClose(S64(target - pc))
    ensures Wrap(pc + Loaded(S64(target - pc))) == target <==> -0x8000_0000 <= Distance(pc, target) <= 0x7FFF_F7FF
  {
    DisplacementReaches(pc, target, Loaded(S64(target - pc)));
    TruncatedDistance(target - pc);
    LoadedDistance(Distance(pc, target));
  }

  lemma LoadedDistance(d: int)
    requires RelativelyClose(S64(d))
    ensures d == Loaded(S64(d)) <==> -0x8000_0000 <= d <= 0x7FFF_F7FF
  {
  }

  lemma AbsoluteExact(target: u128)
    ensures Wrap(Loaded(S32(target))) == target <==> -0x8000_0800 <= S128(target) <= 0x7FFF_F7FF
  {
    TruncatedDistance(target);
    SignedValue(target, Loaded(S32(target)));
    LoadedTruncated(S128(target));
  }

  /** A signed value is the one that an address stands for. */
  lemma SignedValue(target: u128, v: int)
    requires -0x1_0000_0000 <= v <= 0x1_0000_0000
    ensures Wrap(v) == target <==> S128(target) == v
  {
    WrapSigned(target);
    if Wrap(v) == target {
      SignedUnique(target, v);
    }
  }

  lemma LoadedTruncated(d: int)
    ensures Loaded(S32(d)) == d <==> -0x8000_0800 <= d <= 0x7FFF_F7FF
  {
  }

  // ---- Branches and jumps -----------------------------------------------------------------------------

  predicate InBranchRange(d: int) {
    d % 2 == 0 && -0x1000 <= d < 0x1000
  }

  predicate InJumpRange(d: int) {
    d % 2 == 0 && -0x80000 <= d < 0x80000
  }

  /** The displacement in a branch is the distance to the label exactly for even distances in range. */
  lemma BranchOffsetExact(f3: funct3, rs1: reg, rs2: reg, pc: u128, target: u128)
    ensures var off := BranchOffset(BType(f3, rs1, rs2, S32(target - pc)));
            && InBranchRange(off)
            && (off == Distance(pc, target) <==> InBranchRange(Distance(pc, target)))
  {
    var d := S32(target - pc);
    SetBTypeImm(f3, rs1, rs2, 0, d);
    BranchOffsetPatched(BType(f3, rs1, rs2, 0), d);
    TruncatedDistance(target - pc);
    KeptInBranch(d, Distance(pc, target));
  }

  /** Clearing the low bit and reducing to a signed range keeps exactly the even numbers of the range. */
  lemma KeptInBranch(e: int, d: int)
    requires e == S32(d)
    ensures var off := (e - e % 2 + 0x1000) % 0x2000 - 0x1000;
            InBranchRange(off) && (off == d <==> InBranchRange(d))
  {
    ModMod(e - e % 2 + 0x1000, 2, 0x1000);
  }

  lemma KeptInJump(e: int, d: int)
    requires e == S64(d)
    ensures var off := (e - e % 2 + 0x80000) % 0x100000 - 0x80000;
            InJumpRange(off) && (off == d <==> InJumpRange(d))
  {
    ModMod(e - e % 2 + 0x80000, 2, 0x80000);
  }

  /** A branch: where it goes when taken, that it falls through otherwise, and that registers stay. */
  lemma BranchLands(m: Core, f3: funct3, rs1: reg, rs2: reg, target: u128) returns (m': Core)
    requires f3 != 2 && f3 != 3
    ensures Step(m, BType(f3, rs1, rs2, S32(target - m.pc))) == Some(m')
    ensures Taken(f3, Read(m, rs1), Read(m, rs2)) ==> (m'.pc == target <==> InBranchRange(Distance(m.pc, target)))
    ensures !Taken(f3, Read(m, rs1), Read(m, rs2)) ==> m'.pc == Wrap(m.pc + 4)
    ensures m'.regs == m.regs
  {
    var w := BType(f3, rs1, rs2, S32(target - m.pc));
    var off := BranchOffset(w);
    BTypeBits(f3, rs1, rs2, S32(target - m.pc));
    BranchOffsetExact(f3, rs1, rs2, m.pc, target);
    DisplacementReaches(m.pc, target, off);
    m' := if Taken(f3, Read(m, rs1), Read(m, rs2)) then m.(pc := Wrap(m.pc + off)) else Next(m);
    DecodesAs(m, w, Machine.Branch(f3, rs1, rs2, off));
  }

  lemma DecodesAs(m: Core, w: u32, o: Operation)
    requires Decode(w) == o
    ensures Step(m, w) == Execute(m, o)
  {
  }

  /** The displacement in a jump, with its sign taken from bit 19. */
  lemma JumpOffsetExact(rd: reg, pc: u128, target: u128)
    ensures var off := JumpOffset(JType(rd, S64(target - pc)));
            && InJumpRange(off)
            && (off == Distance(pc, target) <==> InJumpRange(Distance(pc, target)))
  {
    var d := S64(target - pc);
    SetJTypeImm(rd, 0, d);
    JumpOffsetPatched(JType(rd, 0), d);
    TruncatedDistance(target - pc);
    KeptInJump(d, Distance(pc, target));
  }

  /** A jump or call: it lands on its label exactly for even distances in range, and links `rd`. */
  lemma JumpLands(m: Core, rd: reg, target: u128) returns (m': Core)
    ensures Step(m, JType(rd, S64(target - m.pc))) == Some(m')
    ensures m'.pc == target <==> InJumpRange(Distance(m.pc, target))
    ensures m'.regs == Write(m, rd, m.pc + 4).regs
  {
    var w := JType(rd, S64(target - m.pc));
    JTypeBits(rd, S64(target - m.pc));
    JumpOffsetExact(rd, m.pc, target);
    DisplacementReaches(m.pc, target, JumpOffset(w));
    m' := Write(m, rd, m.pc + 4).(pc := Wrap(m.pc + JumpOffset(w)));
    DecodesAs(m, w, Jal(rd, JumpOffset(w)));
  }

  /** A jump whose label is within 2 KiB looks near. */
  lemma NearLooksNear(pc: u128, target: u128)
    requires -2048 <= Distance(pc, target) <= 2047
    ensures LooksNear(pc, target)
  {
    TruncatedDistance(target - pc);
    var d := Distance(pc, target);
    if d < 0 {
      ModUnique(d, P64, -1, d + P64);
    } else {
      ModUnique(d, P64, 0, d);
    }
    assert S64(d) == d;
    assert S64(target - pc) == d;
  }

  /**
   The assembler's own bounds check looks at the distance truncated to 64 bits. A jump that passes it
   lands on its label exactly when the label is even and really as near as the check believes.
  */
  lemma AcceptedJumpLands(m: Core, rd: reg, target: u128) returns (m': Core)
    requires !Rejects(JumpKind, m.pc, target)
    ensures Step(m, JType(rd, S64(target - m.pc))) == Some(m')
    ensures var d := Distance(m.pc, target); m'.pc == target <==> d % 2 == 0 && -2048 <= d <= 2047
    ensures m'.regs == Write(m, rd, m.pc + 4).regs
  {
    m' := JumpLands(m, rd, target);
    TruncatedDistance(target - m.pc);
    SmallTruncation(Distance(m.pc, target));
  }

  lemma SmallTruncation(d: int)
    requires -2048 <= S64(d) <= 2047
    ensures InJumpRange(d) <==> d % 2 == 0 && -2048 <= d <= 2047
  {
  }

  /** A jump the check lets through although its label is 2^64 bytes away: it misses, and stays where it is. */
  lemma FarJumpMisses(m: Core, rd: reg, target: u128) returns (m': Core)
    requires m.pc == 0 && target == 0x1_0000_0000_0000_0000
    ensures !Rejects(JumpKind, m.pc, target)
    ensures Step(m, JType(rd, S64(target - m.pc))) == Some(m') && m'.pc == m.pc != target
  {
    m' := JumpLands(m, rd, m.pc);
    assert S64(target - m.pc) == S64(m.pc - m.pc);
  }

  /** A label 2^31 - 2048 bytes ahead, which `la` takes to be near enough and does not load. */
  lemma LaMisses(m: Core, rd: reg, target: u128) returns (m': Core)
    requires m.pc == 0 && rd != 0 && target == 0x7FFF_F800
    ensures Runs(m, LaCode(rd, m.pc, target), m') && Read(m', rd) != target
  {
    m' := LaLoadsLabel(m, rd, target);
    SignedUnique(target, target);
  }

  /** A label 4096 bytes ahead, which a taken branch misses without any complaint. */
  lemma BranchMisses(m: Core, f3: funct3, rs1: reg, rs2: reg, target: u128) returns (m': Core)
    requires m.pc == 0 && target == 0x1000 && f3 != 2 && f3 != 3 && Taken(f3, Read(m, rs1), Read(m, rs2))
    ensures !Rejects(BranchKind, m.pc, target)
    ensures Step(m, BType(f3, rs1, rs2, S32(target - m.pc))) == Some(m') && m'.pc != target
  {
    m' := BranchLands(m, f3, rs1, rs2, target);
    SignedUnique(target, target);
  }

  // ---- farcall ----------------------------------------------------------------------------------------

  /**
   When `farcall` lands: its upper part is not rounded, so bit 11 of the address must be clear. Register 0 does not
   hold an upper part at all.
  */
  predicate FarCallExact(rd: reg, target: u128) {
    && target % 2 == 0
    && if rd == 0 then -0x800 <= S128(target) <= 0x7FF
       else target % 0x1000 < 0x800 && -0x8000_0000 <= S128(target) <= 0x7FFF_FFFF
  }

  /** `farcall` jumps to its label exactly when the label allows it, and links register 1. */
  lemma FarCallLands(m: Core, rd: reg, target: u128) returns (m1: Core, m': Core)
    ensures Step(m, UType(RV32I_LUI, rd, target / 0x1000)) == Some(m1)
    ensures Step(m1, IType(RV32I_JALR, 1, 0, rd, target)) == Some(m')
    ensures m'.pc == target <==> FarCallExact(rd, target)
    ensures Read(m', 1) == Wrap(m.pc + 8)
    ensures forall q: reg :: q != rd && q != 1 ==> Read(m', q) == Read(m, q)
  {
    var hi := target / 0x1000;
    var u := S32(hi * 0x1000);
    m1, m' := FarCallSteps(m, rd, hi, u, target, S12(target));
    FarCallValue(rd, target, u, m'.pc);
  }

  lemma FarCallValue(rd: reg, target: u128, u: int, to: u128)
    requires u == S32(target / 0x1000 * 0x1000) && to == Even((if rd == 0 then 0 else u) + S12(target))
    ensures to == target <==> FarCallExact(rd, target)
  {
    if rd == 0 {
      LowTarget(target, S12(target));
    } else {
      FarCallTarget(target, u);
    }
  }

  lemma FarCallSteps(m: Core, rd: reg, hi: int, u: int, d: int, low: int) returns (m1: Core, m': Core)
    requires u == S32(hi * 0x1000) && low == S12(d)
    ensures Step(m, UType(RV32I_LUI, rd, hi)) == Some(m1) && Step(m1, IType(RV32I_JALR, 1, 0, rd, d)) == Some(m')
    ensures m'.pc == Even((if rd == 0 then 0 else u) + low) && Read(m', 1) == Wrap(m.pc + 8)
    ensures forall q: reg :: q != rd && q != 1 ==> Read(m', q) == Read(m, q)
  {
    m1 := After(m, 1, rd, u);
    StepLui(m, rd, hi);
    StepJalr(m1, 1, rd, d);
    m' := Jumped(m, m1, rd, u, low);
  }

  /** A linking jump through the register that was just written. */
  lemma Jumped(m: Core, m1: Core, rd: reg, u: int, low: int) returns (m': Core)
    requires m1 == After(m, 1, rd, u)
    ensures m' == Write(m1, 1, m1.pc + 4).(pc := Even(Read(m1, rd) + low))
    ensures m'.pc == Even((if rd == 0 then 0 else u) + low) && Read(m', 1) == Wrap(m.pc + 8)
    ensures forall q: reg :: q != rd && q != 1 ==> Read(m', q) == Read(m, q)
  {
    m' := Write(m1, 1, m1.pc + 4).(pc := Even(Read(m1, rd) + low));
    LinkedAfter(m, m1, rd, u);
    EvenWrap(u, low);
  }

  lemma LinkedAfter(m: Core, m1: Core, rd: reg, u: int)
    requires m1 == After(m, 1, rd, u)
    ensures Read(m1, rd) == (if rd == 0 then 0 else Wrap(u)) && Read(Write(m1, 1, m1.pc + 4), 1) == Wrap(m.pc + 8)
  {
    WrapAdd(m.pc + 4, 4);
  }

  lemma EvenWrap(a: int, b: int)
    ensures Even(Wrap(a) + b) == Even(a + b)
  {
    WrapAdd(a, b);
  }

  lemma StepJalr(m: Core, rd: reg, rs1: reg, v: int)
    ensures Step(m, IType(RV32I_JALR, rd, 0, rs1, v))
         == Some(Write(m, rd, m.pc + 4).(pc := Even(Read(m, rs1) + S12(v))))
  {
    ITypeFields(RV32I_JALR, rd, 0, rs1, v);
  }

  /** Twelve bits alone. */
  lemma LowTarget(target: u128, low: int)
    requires low == S12(target)
    ensures Even(0 + low) == target <==> target % 2 == 0 && -0x800 <= S128(target) <= 0x7FF
  {
    LowParity(target, low);
    SignedValue(target, low);
    LowSigned(target, S128(target));
  }

  lemma LowParity(x: nat, low: int)
    requires low == S12(x)
    ensures Wrap(low) % 2 == x % 2
  {
    if low < 0 {
      ModUnique(low, P128, -1, low + P128);
    } else {
      ModUnique(low, P128, 0, low);
    }
  }

  lemma LowSigned(x: u128, d: int)
    requires d == S128(x)
    ensures S12(x) == d <==> -0x800 <= d <= 0x7FF
  {
    var q := (x - d) / P128;
    assert x == d + P128 * q;
    SameResidue(d, 0x10_0000_0000_0000_0000_0000_0000_0000 * q, 0x1000);
  }

  lemma FarCallTarget(target: u128, u: int)
    requires u == S32(target / 0x1000 * 0x1000)
    ensures Even(u + S12(target)) == target <==>
              target % 2 == 0 && target % 0x1000 < 0x800 && -0x8000_0000 <= S128(target) <= 0x7FFF_FFFF
  {
    var sum := u + S12(target);
    if target % 0x1000 < 0x800 {
      LowKept(target);
      assert sum == S32(target);
      EvenSigned(target);
    } else {
      Borrowing(target, sum);
      NeverThere(target, sum);
    }
  }

  lemma LowKept(x: nat)
    requires x % 0x1000 < 0x800
    ensures S32(x / 0x1000 * 0x1000) + S12(x) == S32(x)
  {
  }

  lemma Borrowing(x: nat, sum: int)
    requires x % 0x1000 >= 0x800 && sum == S32(x / 0x1000 * 0x1000) + S12(x)
    ensures (sum + 0x1000) % 0x1_0000_0000 == x % 0x1_0000_0000
  {
  }

  lemma NeverThere(target: u128, sum: int)
    requires (sum + 0x1000) % 0x1_0000_0000 == target % 0x1_0000_0000
    ensures Even(sum) != target
  {
    var q := (sum - Wrap(sum)) / P128;
    assert sum == Wrap(sum) + P128 * q;
    SameResidue(Wrap(sum) + 0x1000, 0x1_0000_0000_0000_0000_0000_0000 * q, 0x1_0000_0000);
    if Even(sum) == target {
      Apart(target, Wrap(sum) % 2);
    }
  }

  lemma Apart(x: nat, bit: nat)
    requires bit < 2
    ensures (x + bit + 0x1000) % 0x1_0000_0000 != x % 0x1_0000_0000
  {
  }

  lemma EvenSigned(target: u128)
    ensures Even(S32(target)) == target <==> target % 2 == 0 && -0x8000_0000 <= S128(target) <= 0x7FFF_FFFF
  {
    SameParity(target, S32(target));
    Signed32Exact(target);
  }

  lemma Signed32Exact(target: u128)
    ensures Wrap(S32(target)) == target <==> -0x8000_0000 <= S128(target) <= 0x7FFF_FFFF
  {
    TruncatedDistance(target);
    SignedValue(target, S32(target));
    Truncated32(S128(target));
  }

  lemma Truncated32(d: int)
    ensures S32(d) == d <==> -0x8000_0000 <= d <= 0x7FFF_FFFF
  {
  }

  lemma SameParity(x: nat, v: int)
    requires v == S32(x)
    ensures Wrap(v) % 2 == x % 2
  {
    var q := v / P128;
    assert v == Wrap(v) + P128 * q;
    SameResidue(Wrap(v), 0x8000_0000_0000_0000_0000_0000_0000_0000 * q, 2);
    SignedParity(x, v);
  }

  lemma SignedParity(x: nat, v: int)
    requires v == S32(x)
    ensures v % 2 == x % 2
  {
    var k := x / P32;
    assert x == P32 * k + x % P32;
    SameResidue(x % P32, 0x8000_0000 * k, 2);
  }

  /** A label that `farcall` misses although it is near: bit 11 of its address is set. */
  lemma FarCallMisses(m: Core, rd: reg, target: u128) returns (m1: Core, m': Core)
    requires rd != 0 && target == 0x800
    ensures Step(m, UType(RV32I_LUI, rd, target / 0x1000)) == Some(m1)
    ensures Step(m1, IType(RV32I_JALR, 1, 0, rd, target)) == Some(m') && m'.pc != target
  {
    m1, m' := FarCallLands(m, rd, target);
  }

  // ---- Return -----------------------------------------------------------------------------------------

  /**
   Call and return: a call links a register, and a return through a register with that link (`ret` is the one
   through register 1) goes on behind the call, exactly if the call is at an even address.
  */
  lemma CallReturns(m: Core, target: u128, link: reg, ret: u32, zero: reg, back: Core) returns (m1: Core, m2: Core)
    requires link != 0 && zero == 0 && ret == IType(RV32I_JALR, zero, 0, link, zero)
    requires Read(back, link) == Wrap(m.pc + 4)
    ensures Step(m, JType(link, S64(target - m.pc))) == Some(m1) && Read(m1, link) == Wrap(m.pc + 4)
    ensures Step(back, ret) == Some(m2) && m2.regs == back.regs
    ensures m2.pc == Wrap(m.pc + 4) <==> m.pc % 2 == 0
  {
    m1 := JumpLands(m, link, target);
    LinkRead(m, m1, link);
    m2 := ReturnRuns(back, ret, zero, link);
    NextIsEven(m.pc, Wrap(m.pc + 4));
  }

  lemma LinkRead(m: Core, m1: Core, link: reg)
    requires link != 0 && m1.regs == Write(m, link, m.pc + 4).regs
    ensures Read(m1, link) == Wrap(m.pc + 4)
  {
  }

  lemma ReturnRuns(m: Core, w: u32, zero: reg, link: reg) returns (m': Core)
    requires zero == 0 && w == IType(RV32I_JALR, zero, 0, link, zero)
    ensures Step(m, w) == Some(m') && m'.regs == m.regs && m'.pc == Even(Read(m, link))
  {
    m' := m.(pc := Even(Read(m, link)));
    StepJalr(m, zero, link, zero);
  }

  lemma NextIsEven(pc: u128, next: u128)
    requires next == Wrap(pc + 4)
    ensures Even(next) == next <==> pc % 2 == 0
  {
    if pc + 4 < P128 {
      ModUnique(pc + 4, P128, 0, pc + 4);
    } else {
      ModUnique(pc + 4, P128, 1, pc + 4 - P128);
    }
    ModUnique(next, P128, 0, next);
    assert next % 2 == pc % 2;
  }
}
