/**
 A small interpreter for the RV128 instructions the assembler generates by itself. Semantics follow
 the RISC-V Unprivileged ISA manual, version 20191213: sections 2.3 to 2.5, and chapter 6 for the
 128-bit register width. Registers are 128 bits wide and immediates are sign-extended to that width.
*/
module Machine {
  import opened Words
  import opened Results
  import opened Instructions

  datatype State = State(pc: u128, regs: seq<u128>)

  type Core = m: State | |m.regs| == 32 witness State(0, seq(32, _ => 0))

  function Read(m: Core, r: reg): u128 {
    if r == 0 then 0 else m.regs[r]
  }

  function Write(m: Core, r: reg, v: int): Core {
    if r == 0 then m else m.(regs := m.regs[r := Wrap(v)])
  }

  function Next(m: Core): Core {
    m.(pc := Wrap(m.pc + 4))
  }

  predicate Taken(f3: funct3, a: u128, b: u128) {
    match f3
    case 0 => a == b
    case 1 => a != b
    case 4 => S128(a) < S128(b)
    case 5 => S128(a) >= S128(b)
    case 6 => a < b
    case 7 => a >= b
    case _ => false
  }

  datatype Operation =
    | Lui(rd: reg, imm: int)
    | Auipc(rd: reg, imm: int)
    | Addi(rd: reg, rs1: reg, imm: int)
    | Slli(rd: reg, rs1: reg, shift: nat)
    | Add(rd: reg, rs1: reg, rs2: reg)
    | Jal(rd: reg, offset: int)
    | Jalr(rd: reg, rs1: reg, offset: int)
    | Branch(f3: funct3, rs1: reg, rs2: reg, offset: int)
    | Other

  /** An address with its least significant bit set to zero. */
  function Even(a: int): u128 {
    Wrap(a) - Wrap(a) % 2
  }

  /** The opcode numbers are those of the manual's tables, chapters 24 and 6. */
  function Decode(w: u32): Operation {
    var op, f3 := w % 0x80, Funct3(w);
    if op == 0x37 then Lui(Rd(w), UpperImm(w))
    else if op == 0x17 then Auipc(Rd(w), UpperImm(w))
    else if op == 0x13 && f3 == 0 then Addi(Rd(w), Rs1(w), SignedImm(w))
    else if op == 0x13 && f3 == 1 && IImm(w) < 0x80 then Slli(Rd(w), Rs1(w), IImm(w))
    else if op == 0x33 && f3 == 0 && Funct7(w) == 0 then Add(Rd(w), Rs1(w), Rs2(w))
    else if op == 0x6F then Jal(Rd(w), JumpOffset(w))
    else if op == 0x67 && f3 == 0 then Jalr(Rd(w), Rs1(w), SignedImm(w))
    else if op == 0x63 && f3 != 2 && f3 != 3 then Branch(f3, Rs1(w), Rs2(w), BranchOffset(w))
    else Other
  }

  function Execute(m: Core, o: Operation): Option<Core> {
    match o
    case Lui(rd, imm) => Some(Next(Write(m, rd, imm)))
    case Auipc(rd, imm) => Some(Next(Write(m, rd, m.pc + imm)))
    case Addi(rd, rs1, imm) => Some(Next(Write(m, rd, Read(m, rs1) + imm)))
    case Slli(rd, rs1, shift) => Some(Next(Write(m, rd, Read(m, rs1) * Pow2(shift))))
    case Add(rd, rs1, rs2) => Some(Next(Write(m, rd, Read(m, rs1) + Read(m, rs2))))
    case Jal(rd, offset) => Some(Write(m, rd, m.pc + 4).(pc := Wrap(m.pc + offset)))
    case Jalr(rd, rs1, offset) => Some(Write(m, rd, m.pc + 4).(pc := Even(Read(m, rs1) + offset)))
    case Branch(f3, rs1, rs2, offset) =>
      Some(if Taken(f3, Read(m, rs1), Read(m, rs2)) then m.(pc := Wrap(m.pc + offset)) else Next(m))
    case Other => None
  }

  /** One instruction; `None` for a word outside this fragment. */
  function Step(m: Core, w: u32): Option<Core> {
    Execute(m, Decode(w))
  }

  /** Straight-line execution of a list of instructions. */
  function Run(m: Core, words: seq<u32>): Option<Core>
    decreases |words|
  {
    if words == [] then Some(m)
    else
      var m' :- Step(m, words[0]);
      Run(m', words[1..])
  }

  lemma {:induction false} RunConcat(m: Core, a: seq<u32>, b: seq<u32>)
    ensures Run(m, a + b) == if Run(m, a).None? then None else Run(Run(m, a).value, b)
    decreases |a|
  {
    if a == [] {
      assert a + b == b;
    } else {
      assert (a + b)[0] == a[0] && (a + b)[1..] == a[1..] + b;
      if Step(m, a[0]).Some? {
        RunConcat(Step(m, a[0]).value, a[1..], b);
      }
    }
  }

  /**
   Running `code` from `m` ends in `m'`. The quantifier keeps a proof about longer code from looking
   inside shorter code whose effect is already known.
  */
  ghost predicate Runs(m: Core, code: seq<u32>, m': Core) {
    forall c: Core :: c == m ==> Run(c, code) == Some(m')
  }

  lemma RunsStep(m: Core, w: u32, m': Core)
    requires Step(m, w) == Some(m')
    ensures Runs(m, [w], m')
  {
    assert [w][1..] == [];
  }

  lemma RunsConcat(m: Core, a: seq<u32>, m1: Core, b: seq<u32>, m2: Core)
    requires Runs(m, a, m1) && Runs(m1, b, m2)
    ensures Runs(m, a + b, m2)
  {
    RunConcat(m, a, b);
  }
}
