/**
 Instructions and data that refer to a label: the placeholder that is emitted, the fixup that rewrites
 it in place once the label has an address (the scheduled lambdas of src/opcodes.cpp and of `.size` in
 src/directive.cpp), and the bytes a two-pass assembler would have written in the first place.
*/
module References {
  import opened Words
  import opened Instructions
  import opened Machine
  import opened Immediates
  import opened WideConstants

  datatype Reference =
    | La(rd: reg)
    | Laq(dst: reg, temp: reg)
    | Branch(f3: funct3, rs1: reg, rs2: reg)
    | Jump(rd: reg)
    | FarCall(rd: reg)
    | SizeOf

  /** What a scheduled lambda knows besides its locations: which one it is. Registers are only in the bytes. */
  datatype Kind = LaKind | LaqKind | BranchKind | JumpKind | FarCallKind | SizeKind

  function KindOf(ref: Reference): Kind {
    match ref
    case La(_) => LaKind
    case Laq(_, _) => LaqKind
    case Branch(_, _, _) => BranchKind
    case Jump(_) => JumpKind
    case FarCall(_) => FarCallKind
    case SizeOf => SizeKind
  }

  /** Number of bytes the fixup owns. */
  function Width(kind: Kind): (n: nat)
    ensures n > 0
  {
    match kind
    case LaKind => 8
    case LaqKind => 56
    case BranchKind => 4
    case JumpKind => 4
    case FarCallKind => 8
    case SizeKind => 4
  }

  // ---- The two-pass encoding ----------------------------------------------------------------------

  predicate RelativelyClose(diff: int) {
    -0x8000_0000 <= diff <= 0x7FFF_FFFF
  }

  /** `la`: relative to the program counter when the 64-bit difference allows, else absolute. */
  function LaCode(rd: reg, pc: u128, target: u128): seq<u32> {
    var diff := S64(target - pc);
    if RelativelyClose(diff) then [UType(RV32I_AUIPC, rd, Upper(diff)), IType(RV32I_OP_IMM, rd, 0, rd, diff)]
    else FullPair(rd, S32(target))
  }

  function FinalCode(ref: Reference, pc: u128, target: u128): seq<u32>
    requires !ref.SizeOf?
  {
    match ref
    case La(rd) => LaCode(rd, pc, target)
    case Laq(dst, temp) => LaqCode(dst, temp, target)
    case Branch(f3, rs1, rs2) => [BType(f3, rs1, rs2, S32(target - pc))]
    case Jump(rd) => [JType(rd, S64(target - pc))]
    case FarCall(rd) => [UType(RV32I_LUI, rd, target / 0x1000), IType(RV32I_JALR, 1, 0, rd, target)]
  }

  /**
   The value of `.size`: from a label up to the position before the directive's own alignment, or,
   for a label that is not before that position, from the end of the emitted value up to the label.
  */
  function SizeValue(pc: u128, target: u128, before: u128): u32 {
    (if target < before then before - target else target - 4 - pc) % 0x1_0000_0000
  }

  /** The bytes of a reference at address `pc`, once the address of its label is known. */
  function FinalBytes(ref: Reference, pc: u128, target: u128, before: u128): seq<byte> {
    if ref.SizeOf? then Bytes4(SizeValue(pc, target, before)) else CodeBytes(FinalCode(ref, pc, target))
  }

  /** The only complaint a fixup can make: a jump out of bounds. */
  predicate Rejects(kind: Kind, pc: u128, target: u128) {
    kind == JumpKind && !(-2048 <= S64(target - pc) <= 2047)
  }

  /** A distance whose low 64 bits, as a signed number, have 12 bits. */
  predicate LooksNear(pc: u128, target: u128) {
    var d := (target - pc) % 0x1_0000_0000_0000_0000; d < 0x800 || d >= 0xFFFF_FFFF_FFFF_F800
  }

  /** Which references the assembler turns down: jumps that do not look near, and nothing else. */
  lemma RejectsExactly(kind: Kind, pc: u128, target: u128)
    ensures Rejects(kind, pc, target) <==> kind == JumpKind && !LooksNear(pc, target)
  {
  }

  // ---- The one-pass placeholder and its fixup -----------------------------------------------------

  function PlaceholderCode(ref: Reference): seq<u32>
    requires !ref.SizeOf?
  {
    match ref
    case La(rd) => [UType(RV32I_LUI, rd, 0), IType(RV32I_OP_IMM, rd, 0, rd, 0)]
    case Laq(dst, temp) => LaqCode(dst, temp, LAQ_PLACEHOLDER)
    case Branch(f3, rs1, rs2) => [BType(f3, rs1, rs2, 0)]
    case Jump(rd) => [JType(rd, 0)]
    case FarCall(rd) => [UType(RV32I_LUI, rd, 0), IType(RV32I_JALR, 1, 0, rd, 0)]
  }

  function Placeholder(ref: Reference): seq<byte> {
    if ref.SizeOf? then [0, 0, 0, 0] else CodeBytes(PlaceholderCode(ref))
  }

  /** The `k`-th instruction in a byte buffer, and the buffer with it replaced. */
  function WordAt(bytes: seq<byte>, k: nat): u32
    requires 4 * k + 4 <= |bytes|
  {
    Word4(bytes[4 * k..4 * k + 4])
  }

  function WithWord(bytes: seq<byte>, k: nat, w: u32): (r: seq<byte>)
    requires 4 * k + 4 <= |bytes|
    ensures |r| == |bytes|
  {
    bytes[..4 * k] + Bytes4(w) + bytes[4 * k + 4..]
  }

  /** An assignment to a field of the `word`-th instruction, or to the whole of it. */
  datatype Assignment =
    | IImmTo(word: nat, v: int)
    | UImmTo(word: nat, v: int)
    | OpcodeTo(word: nat, op: opcode7)
    | BImmTo(word: nat, v: int)
    | JImmTo(word: nat, v: int)
    | WordTo(word: nat, value: u32)

  function AssignTo(w: u32, a: Assignment): u32 {
    match a
    case IImmTo(_, v) => SetIImm(w, v)
    case UImmTo(_, v) => SetUImm(w, v)
    case OpcodeTo(_, op) => SetOpcode(w, op)
    case BImmTo(_, v) => SetBImm(w, v)
    case JImmTo(_, v) => SetJImm(w, v)
    case WordTo(_, value) => value
  }

  function Assign(bytes: seq<byte>, a: Assignment): (r: seq<byte>)
    ensures |r| == |bytes|
  {
    if 4 * a.word + 4 <= |bytes| then WithWord(bytes, a.word, AssignTo(WordAt(bytes, a.word), a)) else bytes
  }

  function AssignAll(bytes: seq<byte>, todo: seq<Assignment>): (r: seq<byte>)
    ensures |r| == |bytes|
    decreases |todo|
  {
    if todo == [] then bytes else AssignAll(Assign(bytes, todo[0]), todo[1..])
  }

  /** `(value + imm) >> 12` with the 12-bit field as it reads back after `imm = value`. */
  function RoundedUpper(value: int): int {
    (value + value % 0x1000) / 0x1000
  }

  /** `set_uint32`: the immediates of a LUI and ADDI pair. */
  function PairAssignments(word: nat, value: int): seq<Assignment> {
    [IImmTo(word + 1, value), UImmTo(word, RoundedUpper(value))]
  }

  /** What each lambda assigns, in order. */
  function Assignments(kind: Kind, pc: u128, target: u128, before: u128): seq<Assignment> {
    match kind
    case LaKind =>
      var diff := S64(target - pc);
      if RelativelyClose(diff) then [IImmTo(1, diff), OpcodeTo(0, RV32I_AUIPC), UImmTo(0, RoundedUpper(diff))]
      else [IImmTo(1, target), UImmTo(0, Wrap(target + target % 0x1000) / 0x1000)]
    case LaqKind =>
      PairAssignments(0, S32(High(target, 3))) + PairAssignments(2, S32(High(target, 2)))
      + PairAssignments(6, S32(High(target, 1))) + PairAssignments(10, S32(target))
    case BranchKind => [BImmTo(0, S32(target - pc))]
    case JumpKind => [JImmTo(0, S64(target - pc))]
    case FarCallKind => [UImmTo(0, target / 0x1000), IImmTo(1, target)]
    case SizeKind => [WordTo(0, SizeValue(pc, target, before))]
  }

  /** A fixup applied to the bytes it owns. */
  function Patch(kind: Kind, bytes: seq<byte>, pc: u128, target: u128, before: u128): (r: seq<byte>)
    ensures |r| == |bytes|
  {
    AssignAll(bytes, Assignments(kind, pc, target, before))
  }

  // ---- Patching code is encoding it with the address ------------------------------------------------

  lemma WordOfCode(code: seq<u32>, k: nat)
    requires FullLength(code) && k < |code|
    ensures |CodeBytes(code)| == 4 * |code| && WordAt(CodeBytes(code), k) == code[k]
  {
    CodeBytesAt(code);
    Word4RoundTrip(code[k]);
  }

  /** Replacing a word of code in the bytes is replacing it in the list. */
  lemma CodeWithWord(code: seq<u32>, k: nat, w: u32)
    requires FullLength(code) && k < |code| && w % 4 == 3
    ensures FullLength(code[k := w]) && |CodeBytes(code)| == 4 * |code|
    ensures WithWord(CodeBytes(code), k, w) == CodeBytes(code[k := w])
  {
    CodeBytesAt(code);
    var a, b := code[..k], code[k + 1..];
    assert code == a + [code[k]] + b && code[k := w] == a + [w] + b;
    SplitCode(a, code[k], b);
    SplitCode(a, w, b);
    CodeBytesAt(a);
    WithWordSplit(CodeBytes(a), code[k], CodeBytes(b), k, w);
  }

  lemma WithWordSplit(a: seq<byte>, u: u32, b: seq<byte>, k: nat, w: u32)
    requires |a| == 4 * k
    ensures WithWord(a + Bytes4(u) + b, k, w) == a + Bytes4(w) + b
  {
    var bytes := a + Bytes4(u) + b;
    assert bytes[..4 * k] == a && bytes[4 * k + 4..] == b;
  }

  lemma SplitCode(a: seq<u32>, w: u32, b: seq<u32>)
    requires w % 4 == 3
    ensures CodeBytes(a + [w] + b) == CodeBytes(a) + Bytes4(w) + CodeBytes(b)
  {
    CodeBytesConcat(a + [w], b);
    CodeBytesConcat(a, [w]);
    assert CodeBytes([w]) == Bytes4(w) by {
      assert [w][1..] == [];
      assert Bytes4(w)[..4] == Bytes4(w);
    }
  }

  /** The assignments of a fixup, on code instead of bytes. */
  function AssignCode(code: seq<u32>, a: Assignment): (r: seq<u32>)
    ensures |r| == |code|
  {
    if a.word < |code| then code[a.word := AssignTo(code[a.word], a)] else code
  }

  function AssignAllCode(code: seq<u32>, todo: seq<Assignment>): (r: seq<u32>)
    ensures |r| == |code|
    decreases |todo|
  {
    if todo == [] then code else AssignAllCode(AssignCode(code, todo[0]), todo[1..])
  }

  predicate KeepsLength(a: Assignment) {
    !a.WordTo? && (a.OpcodeTo? ==> a.op % 4 == 3)
  }

  lemma FieldsKeepLength(w: u32, a: Assignment)
    requires w % 4 == 3 && KeepsLength(a)
    ensures AssignTo(w, a) % 4 == 3
  {
    LowTwoBits(w);
    LowTwoBits(AssignTo(w, a));
    match a
    case IImmTo(_, v) => LowSeven(w % 0x100000, v % 0x1000, 0x2000); ModMod(w, 0x80, 0x2000);
    case UImmTo(_, v) => LowSeven(w % 0x1000, v % 0x100000, 0x20); ModMod(w, 0x80, 0x20);
    case OpcodeTo(_, op) => LowSeven(op, w / 0x80, 1);
    case BImmTo(_, v) => BranchFields(w, v);
    case JImmTo(_, v) => JumpFields(w, v);
  }

  lemma LowSeven(low: nat, high: nat, k: nat)
    ensures (low + high * (0x80 * k)) % 0x80 == low % 0x80
  {
    ModUnique(low + 0x80 * (high * k), 0x80, low / 0x80 + high * k, low % 0x80);
    assert high * (0x80 * k) == 0x80 * (high * k);
  }

  lemma AssignIsCode(code: seq<u32>, a: Assignment)
    requires FullLength(code) && KeepsLength(a)
    ensures FullLength(AssignCode(code, a)) && Assign(CodeBytes(code), a) == CodeBytes(AssignCode(code, a))
  {
    CodeBytesAt(code);
    if a.word < |code| {
      WordOfCode(code, a.word);
      FieldsKeepLength(code[a.word], a);
      CodeWithWord(code, a.word, AssignTo(code[a.word], a));
    }
  }

  /** Assigning to fields in the bytes of code is assigning to them in the list of instructions. */
  lemma {:induction false} AssignAllIsCode(code: seq<u32>, todo: seq<Assignment>)
    requires FullLength(code) && forall i :: 0 <= i < |todo| ==> KeepsLength(todo[i])
    ensures FullLength(AssignAllCode(code, todo))
    ensures AssignAll(CodeBytes(code), todo) == CodeBytes(AssignAllCode(code, todo))
    decreases |todo|
  {
    if todo != [] {
      AssignIsCode(code, todo[0]);
      assert forall i :: 0 <= i < |todo[1..]| ==> todo[1..][i] == todo[i + 1];
      AssignAllIsCode(AssignCode(code, todo[0]), todo[1..]);
    }
  }

  lemma {:induction false} AssignAllConcat(code: seq<u32>, a: seq<Assignment>, b: seq<Assignment>)
    ensures AssignAllCode(code, a + b) == AssignAllCode(AssignAllCode(code, a), b)
    decreases |a|
  {
    if a == [] {
      assert a + b == b;
    } else {
      assert (a + b)[0] == a[0] && (a + b)[1..] == a[1..] + b;
      AssignAllConcat(AssignCode(code, a[0]), a[1..], b);
    }
  }

  lemma AssignTwo(code: seq<u32>, a: Assignment, b: Assignment)
    ensures AssignAllCode(code, [a, b]) == AssignCode(AssignCode(code, a), b)
  {
    assert [a, b][1..] == [b];
    AssignOne(AssignCode(code, a), b);
  }

  /** Assigning to a pair keeps its registers and opcodes and gives the pair for the new value. */
  lemma PairAssigned(code: seq<u32>, k: nat, op: opcode7, rd: reg, was: int, v: int, value: int)
    requires k + 1 < |code|
    requires code[k] == UType(op, rd, was) && code[k + 1] == IType(RV32I_OP_IMM, rd, 0, rd, v)
    ensures AssignAllCode(code, PairAssignments(k, value))
         == code[k := UType(op, rd, Upper(value))][k + 1 := IType(RV32I_OP_IMM, rd, 0, rd, value)]
  {
    var i2, u1 := IImmTo(k + 1, value), UImmTo(k, RoundedUpper(value));
    AssignTwo(code, i2, u1);
    assert AssignAllCode(code, PairAssignments(k, value)) == AssignCode(AssignCode(code, i2), u1);
    SetITypeImm(RV32I_OP_IMM, rd, 0, rd, v, value);
    SetUTypeImm(op, rd, was, Upper(value));
    RoundingTrick(value);
    assert RoundedUpper(value) == Upper(value);
    var w1, w2 := UType(op, rd, Upper(value)), IType(RV32I_OP_IMM, rd, 0, rd, value);
    assert AssignCode(code, i2) == code[k + 1 := w2];
    assert AssignCode(code[k + 1 := w2], u1) == code[k + 1 := w2][k := w1];
    assert code[k + 1 := w2][k := w1] == code[k := w1][k + 1 := w2];
  }

  /** The length of an instruction depends only on its opcode. */
  lemma UTypeLength(op: opcode7, rd: reg, u: int)
    ensures UType(op, rd, u) % 4 == op % 4
  {
    assert UType(op, rd, u) == op + 4 * (rd * 0x20 + u % 0x100000 * 0x400);
  }

  lemma ITypeLength(op: opcode7, rd: reg, f3: funct3, rs: reg, v: int)
    ensures IType(op, rd, f3, rs, v) % 4 == op % 4
  {
    assert IType(op, rd, f3, rs, v) == op + 4 * (rd * 0x20 + f3 * 0x400 + rs * 0x2000 + v % 0x1000 * 0x40000);
  }

  lemma LowTwoBits(w: u32)
    ensures w % 0x80 % 4 == w % 4
  {
    ModMod(w, 4, 0x20);
  }

  lemma PlaceholderFullLength(ref: Reference)
    requires !ref.SizeOf?
    ensures FullLength(PlaceholderCode(ref)) && 4 * |PlaceholderCode(ref)| == Width(KindOf(ref))
  {
    match ref
    case La(rd) =>
      UTypeLength(RV32I_LUI, rd, 0);
      ITypeLength(RV32I_OP_IMM, rd, 0, rd, 0);
    case Laq(dst, temp) =>
      LaqFullLength(dst, temp, LAQ_PLACEHOLDER);
    case Branch(f3, rs1, rs2) =>
      BTypeBits(f3, rs1, rs2, 0);
      LowTwoBits(BType(f3, rs1, rs2, 0));
    case Jump(rd) =>
      JTypeBits(rd, 0);
      LowTwoBits(JType(rd, 0));
    case FarCall(rd) =>
      UTypeLength(RV32I_LUI, rd, 0);
      ITypeLength(RV32I_JALR, 1, 0, rd, 0);
  }

  /** The placeholder is as wide as its fixup expects. */
  lemma PlaceholderWidth(ref: Reference)
    ensures |Placeholder(ref)| == Width(KindOf(ref))
  {
    if !ref.SizeOf? {
      PlaceholderFullLength(ref);
      CodeBytesAt(PlaceholderCode(ref));
    }
  }

  /** The slots of `laq`: label parts in words 0, 2, 6 and 10 and the words after them. */
  lemma LaqLayout(dst: reg, temp: reg, x: u128)
    ensures LaqCode(dst, temp, x) ==
      FullPair(dst, SignedLane(x, 3))
      + FullPair(temp, SignedLane(x, 2)) + [ShiftLeft32(dst), AddTo(dst, temp)]
      + FullPair(temp, SignedLane(x, 1)) + [ShiftLeft32(dst), AddTo(dst, temp)]
      + FullPair(temp, SignedLane(x, 0)) + [ShiftLeft32(dst), AddTo(dst, temp)]
  {
    var join := [ShiftLeft32(dst), AddTo(dst, temp)];
    assert Joining(dst, temp, true) == join;
    assert Lanes(true, dst, temp, x, 2) == FullPair(dst, SignedLane(x, 3)) + FullPair(temp, SignedLane(x, 2)) + join;
    assert Lanes(true, dst, temp, x, 1) == Lanes(true, dst, temp, x, 2) + FullPair(temp, SignedLane(x, 1)) + join;
    assert Lanes(true, dst, temp, x, 0) == Lanes(true, dst, temp, x, 1) + FullPair(temp, SignedLane(x, 0)) + join;
  }

  lemma LaqFullLength(dst: reg, temp: reg, x: u128)
    ensures |LaqCode(dst, temp, x)| == 14 && FullLength(LaqCode(dst, temp, x))
  {
    FullLanesLength(dst, temp, x, 0);
    LanesFullLength(dst, temp, x, 0);
  }

  lemma {:induction false} LanesFullLength(dst: reg, temp: reg, x: u128, n: lane)
    ensures FullLength(Lanes(true, dst, temp, x, n))
    decreases 3 - n
  {
    PairFullLength(dst, SignedLane(x, n));
    if n < 3 {
      LanesFullLength(dst, temp, x, n + 1);
      PairFullLength(temp, SignedLane(x, n));
      JoiningFullLength(dst, temp);
    }
  }

  lemma PairFullLength(rd: reg, v: int32)
    ensures FullLength(FullPair(rd, v))
  {
    UTypeLength(RV32I_LUI, rd, Upper(v));
    ITypeLength(RV32I_OP_IMM, rd, 0, rd, v);
  }

  lemma JoiningFullLength(dst: reg, temp: reg)
    ensures FullLength(Joining(dst, temp, true))
  {
    ITypeLength(RV32I_OP_IMM, dst, 1, dst, 32);
    assert AddTo(dst, temp) == RV32I_OP + 4 * (dst * 0x20 + dst * 0x2000 + temp * 0x40000);
  }

  /** The absolute form computes at 128 bits what `build_uint32` computes at 32. */
  lemma AbsoluteUpper(target: u128)
    ensures Wrap(target + target % 0x1000) / 0x1000 % 0x100000 == Upper(S32(target)) % 0x100000
    ensures S32(target) % 0x1000 == target % 0x1000
  {
    var lo, v := target % 0x1000, S32(target);
    var q := (target - v) / 0x1_0000_0000;
    assert target == v + 0x1_0000_0000 * q;
    ModUnique(v, 0x1000, target / 0x1000 - 0x100000 * q, lo);
    RoundingTrick(v);
    var sum := (target + lo) / 0x1000;
    assert Upper(v) == sum - 0x100000 * q by {
      ModUnique(v + lo, 0x1000, sum - 0x100000 * q, (target + lo) % 0x1000);
    }
    var c := (target + lo) / P128;
    assert Wrap(target + lo) == target + lo - P128 * c;
    ModUnique(Wrap(target + lo), 0x1000, sum - 0x10_0000_0000_0000_0000_0000_0000_0000 * c, (target + lo) % 0x1000);
    ModUnique(Upper(v), 0x100000, sum / 0x100000 - q, sum % 0x100000);
    ModUnique(Wrap(target + lo) / 0x1000, 0x100000, sum / 0x100000 - 0x1_0000_0000_0000_0000_0000_0000 * c,
              sum % 0x100000);
  }

  lemma LaAssigned(rd: reg, pc: u128, target: u128)
    ensures AssignAllCode(PlaceholderCode(La(rd)), Assignments(LaKind, pc, target, 0)) == LaCode(rd, pc, target)
  {
    var code: seq<u32> := PlaceholderCode(La(rd));
    var diff := S64(target - pc);
    if RelativelyClose(diff) {
      var i1, u1 := IImmTo(1, diff), UImmTo(0, RoundedUpper(diff));
      var mid := AssignCode(code, i1);
      assert Assignments(LaKind, pc, target, 0) == [i1] + [OpcodeTo(0, RV32I_AUIPC), u1];
      AssignAllConcat(code, [i1], [OpcodeTo(0, RV32I_AUIPC), u1]);
      assert AssignAllCode(code, [i1]) == mid by { assert [i1][1..] == []; }
      AssignTwo(mid, OpcodeTo(0, RV32I_AUIPC), u1);
      SetITypeImm(RV32I_OP_IMM, rd, 0, rd, 0, diff);
      SetUTypeOpcode(RV32I_LUI, rd, 0, RV32I_AUIPC);
      SetUTypeImm(RV32I_AUIPC, rd, 0, Upper(diff));
      RoundingTrick(diff);
    } else {
      AssignTwo(code, IImmTo(1, target), UImmTo(0, Wrap(target + target % 0x1000) / 0x1000));
      AbsoluteUpper(target);
      SetITypeImm(RV32I_OP_IMM, rd, 0, rd, 0, target);
      SetUTypeImm(RV32I_LUI, rd, 0, Wrap(target + target % 0x1000) / 0x1000);
    }
  }

  lemma LaqAssigned(dst: reg, temp: reg, target: u128)
    ensures AssignAllCode(LaqCode(dst, temp, LAQ_PLACEHOLDER), Assignments(LaqKind, 0, target, 0))
            == LaqCode(dst, temp, target)
  {
    PlaceholderLanes();
    LaqElements(dst, temp, LAQ_PLACEHOLDER);
    LaqElements(dst, temp, target);
    var c0 := LaqCode(dst, temp, LAQ_PLACEHOLDER);
    var c1 := SlotAssigned(c0, 0, dst, 0x7FFF_FFFF, SignedLane(target, 3));
    var c2 := SlotAssigned(c1, 2, temp, 0x7FFF_FFFF, SignedLane(target, 2));
    var c3 := SlotAssigned(c2, 6, temp, 0x7FFF_FFFF, SignedLane(target, 1));
    var c4 := SlotAssigned(c3, 10, temp, 0x7FFF_FFFF, SignedLane(target, 0));
    SlotsDetermine(c4, LaqCode(dst, temp, target), dst, temp, target);
    LaneOfHigh(target);
    FourPairs(c0, c1, c2, c3, SignedLane(target, 3), SignedLane(target, 2), SignedLane(target, 1),
              SignedLane(target, 0));
  }

  lemma FourPairs(c0: seq<u32>, c1: seq<u32>, c2: seq<u32>, c3: seq<u32>, v3: int, v2: int, v1: int, v0: int)
    requires AssignAllCode(c0, PairAssignments(0, v3)) == c1
    requires AssignAllCode(c1, PairAssignments(2, v2)) == c2
    requires AssignAllCode(c2, PairAssignments(6, v1)) == c3
    ensures AssignAllCode(c0, PairAssignments(0, v3) + PairAssignments(2, v2) + PairAssignments(6, v1)
                              + PairAssignments(10, v0))
         == AssignAllCode(c3, PairAssignments(10, v0))
  {
    AssignAllConcat(c0, PairAssignments(0, v3) + PairAssignments(2, v2) + PairAssignments(6, v1),
                    PairAssignments(10, v0));
    AssignAllConcat(c0, PairAssignments(0, v3) + PairAssignments(2, v2), PairAssignments(6, v1));
    AssignAllConcat(c0, PairAssignments(0, v3), PairAssignments(2, v2));
  }

  /** Words `k` and `k + 1` hold a pair for `v`. */
  ghost predicate Slot(code: seq<u32>, k: nat, rd: reg, v: int32)
    requires k + 1 < |code|
  {
    code[k] == FullPair(rd, v)[0] && code[k + 1] == FullPair(rd, v)[1]
  }

  /** The shape of `laq` code that loads `x`. */
  ghost predicate LaqShape(code: seq<u32>, dst: reg, temp: reg, x: u128) {
    && |code| == 14
    && Slot(code, 0, dst, SignedLane(x, 3)) && Slot(code, 2, temp, SignedLane(x, 2))
    && Slot(code, 6, temp, SignedLane(x, 1)) && Slot(code, 10, temp, SignedLane(x, 0))
    && code[4] == code[8] == code[12] == ShiftLeft32(dst)
    && code[5] == code[9] == code[13] == AddTo(dst, temp)
  }

  lemma SlotsDetermine(c: seq<u32>, c': seq<u32>, dst: reg, temp: reg, x: u128)
    requires LaqShape(c, dst, temp, x) && LaqShape(c', dst, temp, x)
    ensures c == c'
  {
    assert c[4] == c'[4] && c[5] == c'[5] && c[8] == c'[8] && c[9] == c'[9] && c[12] == c'[12] && c[13] == c'[13];
  }

  lemma LaqElements(dst: reg, temp: reg, x: u128)
    ensures LaqShape(LaqCode(dst, temp, x), dst, temp, x)
  {
    LaqLayout(dst, temp, x);
    Slices(LaqCode(dst, temp, x), FullPair(dst, SignedLane(x, 3)), FullPair(temp, SignedLane(x, 2)),
           FullPair(temp, SignedLane(x, 1)), FullPair(temp, SignedLane(x, 0)), [ShiftLeft32(dst), AddTo(dst, temp)]);
  }

  lemma Slices(c: seq<u32>, p3: seq<u32>, p2: seq<u32>, p1: seq<u32>, p0: seq<u32>, join: seq<u32>)
    requires |p3| == |p2| == |p1| == |p0| == |join| == 2
    requires c == p3 + p2 + join + p1 + join + p0 + join
    ensures |c| == 14 && c[0] == p3[0] && c[1] == p3[1] && c[2] == p2[0] && c[3] == p2[1]
    ensures c[4] == c[8] == c[12] == join[0] && c[5] == c[9] == c[13] == join[1]
    ensures c[6] == p1[0] && c[7] == p1[1] && c[10] == p0[0] && c[11] == p0[1]
  {
  }

  lemma LaneOfHigh(x: u128)
    ensures S32(High(x, 3)) == SignedLane(x, 3) && S32(High(x, 2)) == SignedLane(x, 2)
    ensures S32(High(x, 1)) == SignedLane(x, 1) && S32(x) == SignedLane(x, 0)
  {
    LowWord(High(x, 3));
    LowWord(High(x, 2));
    LowWord(High(x, 1));
    LowWord(x);
  }

  /** One `set_uint32` call on a slot that holds a pair. */
  lemma SlotAssigned(code: seq<u32>, k: nat, rd: reg, was: int32, v: int32) returns (code': seq<u32>)
    requires k + 1 < |code| && Slot(code, k, rd, was)
    ensures |code'| == |code| && Slot(code', k, rd, v)
    ensures forall i :: 0 <= i < |code| && i != k && i != k + 1 ==> code'[i] == code[i]
    ensures AssignAllCode(code, PairAssignments(k, v)) == code'
  {
    PairAssigned(code, k, RV32I_LUI, rd, Upper(was), was, v);
    code' := code[k := UType(RV32I_LUI, rd, Upper(v))][k + 1 := IType(RV32I_OP_IMM, rd, 0, rd, v)];
  }

  lemma CodeAssigned(ref: Reference, pc: u128, target: u128)
    requires !ref.SizeOf?
    ensures AssignAllCode(PlaceholderCode(ref), Assignments(KindOf(ref), pc, target, 0)) == FinalCode(ref, pc, target)
  {
    match ref
    case La(rd) => LaAssigned(rd, pc, target);
    case Laq(dst, temp) => LaqAssigned(dst, temp, target);
    case Branch(f3, rs1, rs2) =>
      SetBTypeImm(f3, rs1, rs2, 0, S32(target - pc));
      AssignOne(PlaceholderCode(ref), BImmTo(0, S32(target - pc)));
    case Jump(rd) =>
      SetJTypeImm(rd, 0, S64(target - pc));
      AssignOne(PlaceholderCode(ref), JImmTo(0, S64(target - pc)));
    case FarCall(rd) =>
      SetUTypeImm(RV32I_LUI, rd, 0, target / 0x1000);
      SetITypeImm(RV32I_JALR, 1, 0, rd, 0, target);
      AssignTwo(PlaceholderCode(ref), UImmTo(0, target / 0x1000), IImmTo(1, target));
  }

  lemma AssignOne(code: seq<u32>, a: Assignment)
    ensures AssignAllCode(code, [a]) == AssignCode(code, a)
  {
    assert [a][1..] == [];
  }

  lemma AssignmentsKeepLength(kind: Kind, pc: u128, target: u128)
    requires kind != SizeKind
    ensures forall i :: 0 <= i < |Assignments(kind, pc, target, 0)| ==> KeepsLength(Assignments(kind, pc, target, 0)[i])
  {
  }

  /**
   Back-patching is encoding: assigning to the fields of a placeholder in place gives exactly the bytes
   a second pass would encode from the registers and the addresses.
  */
  lemma PatchIsFinal(ref: Reference, pc: u128, target: u128, before: u128)
    ensures |Placeholder(ref)| == Width(KindOf(ref))
    ensures Patch(KindOf(ref), Placeholder(ref), pc, target, before) == FinalBytes(ref, pc, target, before)
  {
    PlaceholderWidth(ref);
    if ref.SizeOf? {
      var a := WordTo(0, SizeValue(pc, target, before));
      assert [a][1..] == [];
      var bytes: seq<byte> := [0, 0, 0, 0];
      assert Assign(bytes, a) == Bytes4(a.value);
      assert AssignAll(bytes, [a]) == Assign(bytes, a);
    } else {
      PlaceholderFullLength(ref);
      CodeAssigned(ref, pc, target);
      AssignmentsKeepLength(KindOf(ref), pc, target);
      AssignAllIsCode(PlaceholderCode(ref), Assignments(KindOf(ref), pc, target, 0));
      assert Assignments(KindOf(ref), pc, target, before) == Assignments(KindOf(ref), pc, target, 0);
    }
  }
}
