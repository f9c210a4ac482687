/**
 What statements mean: the item each one contributes, and the item list of a program with its included
 files. Files are given as finite maps from names to their tokens and to their bytes.
*/
module Items {
  import opened Words
  import opened Results
  import opened Instructions
  import opened Immediates
  import opened WideConstants
  import opened References
  import opened Tokens
  import opened Grammar

  datatype OutputType = CodeOutput | DataOutput

  /** What a block puts after its alignment and its labels. */
  datatype Payload =
    | Bytes(kind: OutputType, bytes: seq<byte>)
    | Zeros(count: u64)
    | Nothing

  datatype Note = EndFunc | TypeNote(symbolType: nat)

  datatype Item =
    | NewLabel(name: string)
    | Switch(section: string)
    | Org(address: u128)
    | ExecOnly
    | ReadOnly
    | Global(name: string)
    | Align(to: u64)
    | Remark(symbol: string, note: Note)
    | Block(alignment: u64, flushes: bool, payload: Payload)
    | Refer(symbol: string, ref: Reference)

  const STT_OBJECT: nat := 1
  const STT_FUNC: nat := 2

  // ---- Opcodes ------------------------------------------------------------------------------------

  /** The register form of an immediate opcode. */
  function RegisterForm(op: opcode7): opcode7 {
    if op == RV32I_OP_IMM then RV32I_OP
    else if op == RV64I_OP_IMM32 then RV64I_OP32
    else RV128I_OP_IMM64
  }

  /** What a handler returns: instructions, or instructions that wait for a label. */
  datatype Generated = Plain(words: seq<u32>) | Waiting(symbol: string, ref: Reference)

  function Generate(op: Opcode, operands: Operands): (g: Option<Generated>)
    ensures g.Some? && g.value.Waiting? ==> !g.value.ref.SizeOf?
  {
    match (op, operands)
    case (Nop, NoOperands) => Some(Plain([IType(RV32I_OP_IMM, 0, 0, 0, 0)]))
    case (Set, Regs2Imm(dst, temp, imm)) => Some(Plain(SetCode(dst, temp, imm)))
    case (Li, RegImm(rd, imm)) => Some(Plain(LoadImm(rd, S32(imm))))
    case (LoadAddress, RegNamed(rd, symbol)) => Some(Waiting(symbol, La(rd)))
    case (LoadAddressWide, Regs2Named(dst, temp, symbol)) => Some(Waiting(symbol, Laq(dst, temp)))
    case (Mov, Regs2(rd, rs)) => Some(Plain([IType(RV32I_OP_IMM, rd, 0, rs, 0)]))
    case (Inc, Reg(r)) => Some(Plain([IType(RV32I_OP_IMM, r, 0, r, 1)]))
    case (Load(f3), Regs2Imm(dst, src, imm)) => Some(Plain([IType(RV32I_LOAD, dst, f3, src, imm)]))
    case (Store(f3), Regs2Imm(dst, src, imm)) => Some(Plain([SType(f3, dst, src, S64(imm))]))
    case (BranchIf(f3), Regs2Named(r1, r2, symbol)) => Some(Waiting(symbol, Branch(f3, r1, r2)))
    case (FarCall, RegNamed(r, symbol)) => Some(Waiting(symbol, Reference.FarCall(r)))
    case (Call, Named(symbol, rd)) => Some(Waiting(symbol, Jump(rd)))
    case (Call, RegImm(rd, imm)) => Some(Plain([JType(rd, S64(imm))]))
    case (Jalr, Regs2Imm(rd, rs1, imm)) => Some(Plain([IType(RV32I_JALR, rd, 0, rs1, imm)]))
    case (Ret, NoOperands) => Some(Plain([IType(RV32I_JALR, 0, 0, 1, 0)]))
    case (Jmp, Named(symbol, rd)) => Some(Waiting(symbol, Jump(rd)))
    case (Arithmetic(opcode, f3), RegImm(r, imm)) => Some(Plain([IType(opcode, r, f3, r, imm)]))
    case (Arithmetic(opcode, f3), Regs2(r, r2)) => Some(Plain([RType(RegisterForm(opcode), r, f3, r, r2, 0)]))
    case (Arithmetic(opcode, f3), Regs3(r, r2, r3)) => Some(Plain([RType(RegisterForm(opcode), r, f3, r2, r3, 0)]))
    case (RegisterOnly(opcode, f3, f7), Regs2(r, r2)) => Some(Plain([RType(opcode, r, f3, r, r2, f7)]))
    case (RegisterOnly(opcode, f3, f7), Regs3(r, r2, r3)) => Some(Plain([RType(opcode, r, f3, r2, r3, f7)]))
    case (Syscall, Imm(imm)) => Some(Plain([IType(RV32I_OP_IMM, 17, 0, 0, imm), IType(RV32I_SYSTEM, 0, 0, 0, 0)]))
    case (Ecall, NoOperands) => Some(Plain([IType(RV32I_SYSTEM, 0, 0, 0, 0)]))
    case (Ebreak, NoOperands) => Some(Plain([IType(RV32I_SYSTEM, 0, 0, 0, 1)]))
    case (Wfi, NoOperands) => Some(Plain([IType(RV32I_SYSTEM, 0, 0, 0, 0x105)]))
    case (System, Imm2(f3, imm)) => Some(Plain([IType(RV32I_SYSTEM, 0, f3 % 8, 0, imm)]))
    case _ => None
  }

  function OpcodeItem(op: Opcode, operands: Operands): Option<Item> {
    var g :- Generate(op, operands);
    Some(CodeItem(g))
  }

  function CodeItem(g: Generated): Item {
    match g
    case Plain(words) => Block(4, true, Bytes(CodeOutput, CodeBytes(words)))
    case Waiting(symbol, ref) => Refer(symbol, ref)
  }

  // ---- Pseudo-ops and directives ------------------------------------------------------------------

  function Low64(v: u128): u64 {
    v % 0x1_0000_0000_0000_0000
  }

  /** `times * sizeof(T)`, at 64 bits. */
  function Times(v: u128, size: unit): u64 {
    var product: int := Low64(v) * (size as int);
    product % 0x1_0000_0000_0000_0000
  }

  /** `db` and `resb` neither align nor flush labels; the wider forms do both. */
  function SizedBlock(size: unit, payload: Payload): Item {
    if size == 1 then Block(0, false, payload) else Block(size, true, payload)
  }

  function PseudoItem(op: PseudoOp, argument: Argument, blobs: map<string, seq<byte>>): Option<Item> {
    match (op, argument)
    case (Data(size), ConstantArgument(v)) => Some(SizedBlock(size, Bytes(DataOutput, LittleEndian(Low64(v), size))))
    case (Reserve(size), ConstantArgument(v)) => Some(SizedBlock(size, Zeros(Times(v, size))))
    case (Incbin, TextArgument(file)) =>
      if file in blobs then Some(Block(1, true, Bytes(DataOutput, blobs[file]))) else None
    case _ => None
  }

  function DirectiveItem(kind: DirectiveKind, argument: Argument): Option<Item> {
    match (kind, argument)
    case (AlignDirective, ConstantArgument(v)) => Some(Align(Low64(v)))
    case (EndFuncDirective, SymbolArgument(symbol)) => Some(Remark(symbol, EndFunc))
    case (FinishLabels, NoArgument) => Some(Block(0, true, Nothing))
    case (GlobalDirective, SymbolArgument(symbol)) => Some(Global(symbol))
    case (SectionDirective, SectionArgument(section)) => Some(Switch(section))
    case (OrgDirective, ConstantArgument(v)) => Some(Org(v))
    case (ExecOnlyDirective, NoArgument) => Some(ExecOnly)
    case (ReadOnlyDirective, NoArgument) => Some(ReadOnly)
    case (TypeDirective, TypeArgument(symbol, info)) =>
      Some(Remark(symbol, TypeNote(if info == "object" then STT_OBJECT else STT_FUNC)))
    case (SizeDirective, SymbolArgument(symbol)) => Some(Refer(symbol, SizeOf))
    case (StringDirective, TextArgument(text)) => Some(Block(0, true, Bytes(DataOutput, StringBytes(text) + [0])))
    case (StrlenDirective, TextArgument(text)) => Some(Block(4, true, Bytes(DataOutput, LittleEndian(|text|, 4))))
    case (AsciiDirective, TextArgument(text)) => Some(Block(0, true, Bytes(DataOutput, StringBytes(text))))
    case (UnknownDirective, NoArgument) => Some(Block(0, false, Nothing)) // only prints a message
    case _ => None
  }

  /** The item of a statement other than `.include`; nothing if its handler throws. */
  function ItemOf(statement: Statement, blobs: map<string, seq<byte>>): Option<Item> {
    match statement
    case LabelStatement(name) => Some(NewLabel(name))
    case OpcodeStatement(op, operands) => OpcodeItem(op, operands)
    case PseudoStatement(op, argument) => PseudoItem(op, argument, blobs)
    case DirectiveStatement(kind, argument) => DirectiveItem(kind, argument)
  }

  // ---- Programs -----------------------------------------------------------------------------------

  datatype Files = Files(sources: map<string, seq<Token>>, blobs: map<string, seq<byte>>)

  /** The file a statement includes. */
  function IncludedFile(statement: Statement): Option<string> {
    if statement.DirectiveStatement? && statement.kind == IncludeDirective && statement.argument.TextArgument?
    then Some(statement.argument.text) else None
  }

  /** The items of the tokens from `i` on, with includes nested at most `depth` deep. */
  function ItemsFrom(ts: seq<Token>, i: nat, depth: nat, files: Files): Option<seq<Item>>
    decreases depth, |ts| - i
  {
    if i >= |ts| then Some([])
    else
      match ParseStatement(ts, i)
      case Fail => None
      case At(statement, j) =>
        StatementAdvances(ts, i);
        match IncludedFile(statement)
        case Some(file) =>
          if file !in files.sources || depth == 0 then None
          else
            var inner :- ItemsFrom(files.sources[file], 0, depth - 1, files);
            var rest :- ItemsFrom(ts, j, depth, files);
            Some(inner + rest)
        case None =>
          var item :- ItemOf(statement, files.blobs);
          var rest :- ItemsFrom(ts, j, depth, files);
          Some([item] + rest)
  }
}
