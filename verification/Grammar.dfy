/**
 Statements: what each handler of `assemble`, `directive`, the opcode table and the pseudo-op table reads
 from the tokens (src/assemble.cpp:25-55, src/directive.cpp, src/opcodes.cpp, src/pseudo_ops.cpp). What a
 statement means is in module Items.
*/
module Grammar {
  import opened Words
  import opened Instructions
  import opened Tokens
  import opened Constants

  datatype DirectiveKind =
    | AlignDirective | EndFuncDirective | FinishLabels | GlobalDirective | IncludeDirective | SectionDirective
    | OrgDirective | ExecOnlyDirective | ReadOnlyDirective | TypeDirective | SizeDirective
    | StringDirective | StrlenDirective | AsciiDirective | UnknownDirective

  /** Operands of an opcode. An absent displacement is 0 and an absent link register its default. */
  datatype Operands =
    | NoOperands
    | Reg(a: reg)
    | Regs2(a: reg, b: reg)
    | Regs3(a: reg, b: reg, c: reg)
    | RegImm(a: reg, imm: u128)
    | Regs2Imm(a: reg, b: reg, imm: u128)
    | Imm(imm: u128)
    | Imm2(first: u128, second: u128)
    | Named(symbol: string, a: reg)
    | RegNamed(a: reg, symbol: string)
    | Regs2Named(a: reg, b: reg, symbol: string)

  /** The argument of a directive or pseudo-op. */
  datatype Argument =
    | NoArgument
    | ConstantArgument(value: u128)
    | SymbolArgument(symbol: string)
    | TypeArgument(symbol: string, info: string)
    | TextArgument(text: string)
    | SectionArgument(section: string)

  datatype Statement =
    | LabelStatement(name: string)
    | OpcodeStatement(op: Opcode, operands: Operands)
    | PseudoStatement(pseudo: PseudoOp, argument: Argument)
    | DirectiveStatement(kind: DirectiveKind, argument: Argument)

  // ---- Opcodes ------------------------------------------------------------------------------------

  /** A trailing register, or the default. */
  function OptionalRegister(ts: seq<Token>, i: nat, default: reg): (reg, nat) {
    if AtRegister(ts, i) then (ts[i].body.r, i + 1) else (default, i)
  }

  /** A constant chain, if one stands here. */
  function OptionalImmediate(ts: seq<Token>, i: nat): Parsed<u128> {
    if AtConstant(ts, i) then Resolve(ts, i) else At(0, i)
  }

  function ParseReg(ts: seq<Token>, i: nat): Parsed<Operands> {
    var (a, i1) :- NextRegister(ts, i);
    At(Reg(a), i1)
  }

  function ParseRegs2(ts: seq<Token>, i: nat): Parsed<Operands> {
    var (a, i1) :- NextRegister(ts, i);
    var (b, i2) :- NextRegister(ts, i1);
    At(Regs2(a, b), i2)
  }

  /** Two registers, or three. */
  function ParseRegs(ts: seq<Token>, i: nat): Parsed<Operands> {
    var (a, i1) :- NextRegister(ts, i);
    var (b, i2) :- NextRegister(ts, i1);
    if AtRegister(ts, i2) then At(Regs3(a, b, ts[i2].body.r), i2 + 1) else At(Regs2(a, b), i2)
  }

  function ParseRegImm(ts: seq<Token>, i: nat): Parsed<Operands> {
    var (a, i1) :- NextRegister(ts, i);
    var (imm, i2) :- Resolve(ts, i1);
    At(RegImm(a, imm), i2)
  }

  function ParseRegs2Imm(ts: seq<Token>, i: nat): Parsed<Operands> {
    var (a, i1) :- NextRegister(ts, i);
    var (b, i2) :- NextRegister(ts, i1);
    var (imm, i3) :- Resolve(ts, i2);
    At(Regs2Imm(a, b, imm), i3)
  }

  function ParseRegNamed(ts: seq<Token>, i: nat): Parsed<Operands> {
    var (a, i1) :- NextRegister(ts, i);
    var (symbol, i2) :- NextSymbol(ts, i1);
    At(RegNamed(a, symbol), i2)
  }

  function ParseRegs2Named(ts: seq<Token>, i: nat): Parsed<Operands> {
    var (a, i1) :- NextRegister(ts, i);
    var (b, i2) :- NextRegister(ts, i1);
    var (symbol, i3) :- NextSymbol(ts, i2);
    At(Regs2Named(a, b, symbol), i3)
  }

  function ParseNamed(ts: seq<Token>, i: nat): Parsed<Operands> {
    var (symbol, i1) :- NextSymbol(ts, i);
    At(Named(symbol, 0), i1)
  }

  /** `call` and `jal`: a label or a displacement, then an optional link register. */
  function ParseCall(ts: seq<Token>, i: nat): Parsed<Operands> {
    if AtSymbol(ts, i) then
      var (rd, i1) := OptionalRegister(ts, i + 1, 1);
      At(Named(ts[i].body.name, rd), i1)
    else
      var (imm, i1) :- NextConstant(ts, i);
      var (rd, i2) := OptionalRegister(ts, i1, 1);
      At(RegImm(rd, imm), i2)
  }

  /** `jalr`: source register, displacement and link register, each optional. */
  function ParseJalr(ts: seq<Token>, i: nat): Parsed<Operands> {
    var (rs1, i1) := OptionalRegister(ts, i, 0);
    var (imm, i2) := if AtConstant(ts, i1) then (ts[i1].body.constant, i1 + 1) else (0, i1);
    var (rd, i3) := OptionalRegister(ts, i2, 0);
    At(Regs2Imm(rd, rs1, imm), i3)
  }

  function ParseLoad(ts: seq<Token>, i: nat): Parsed<Operands> {
    var (dst, i1) :- NextRegister(ts, i);
    var (imm, i2) :- OptionalImmediate(ts, i1);
    var (src, i3) :- NextRegister(ts, i2);
    At(Regs2Imm(dst, src, imm), i3)
  }

  function ParseStore(ts: seq<Token>, i: nat): Parsed<Operands> {
    var (dst, i1) :- NextRegister(ts, i);
    var (src, i2) :- NextRegister(ts, i1);
    var (imm, i3) :- OptionalImmediate(ts, i2);
    At(Regs2Imm(dst, src, imm), i3)
  }

  /** The bounds check of `op_imm_helper`. */
  predicate ImmediateFits(imm: u128) {
    -2048 <= S64(imm) <= 0x7FF
  }

  function ParseArithmetic(ts: seq<Token>, i: nat): Parsed<Operands> {
    var (a, i1) :- NextRegister(ts, i);
    if AtConstant(ts, i1) then
      var (imm, i2) :- Resolve(ts, i1);
      if ImmediateFits(imm) then At(RegImm(a, imm), i2) else Fail
    else
      ParseRegs(ts, i)
  }

  function ParseImm(ts: seq<Token>, i: nat): Parsed<Operands> {
    var (imm, i1) :- Resolve(ts, i);
    At(Imm(imm), i1)
  }

  function ParseImm2(ts: seq<Token>, i: nat): Parsed<Operands> {
    var (first, i1) :- Resolve(ts, i);
    var (second, i2) :- Resolve(ts, i1);
    At(Imm2(first, second), i2)
  }

  function ParseOperands(op: Opcode, ts: seq<Token>, i: nat): Parsed<Operands> {
    match op
    case Nop => At(NoOperands, i)
    case Set => ParseRegs2Imm(ts, i)
    case Li => ParseRegImm(ts, i)
    case LoadAddress => ParseRegNamed(ts, i)
    case LoadAddressWide => ParseRegs2Named(ts, i)
    case Mov => ParseRegs2(ts, i)
    case Inc => ParseReg(ts, i)
    case Load(_) => ParseLoad(ts, i)
    case Ldu => Fail
    case Store(_) => ParseStore(ts, i)
    case BranchIf(_) => ParseRegs2Named(ts, i)
    case FarCall => ParseRegNamed(ts, i)
    case Call => ParseCall(ts, i)
    case Jalr => ParseJalr(ts, i)
    case Ret => At(NoOperands, i)
    case Jmp => ParseNamed(ts, i)
    case Arithmetic(_, _) => ParseArithmetic(ts, i)
    case RegisterOnly(_, _, _) => ParseRegs(ts, i)
    case Syscall => ParseImm(ts, i)
    case Ecall => At(NoOperands, i)
    case Ebreak => At(NoOperands, i)
    case Wfi => At(NoOperands, i)
    case System => ParseImm2(ts, i)
  }

  // ---- Pseudo-ops and directives ------------------------------------------------------------------

  function ConstantArg(ts: seq<Token>, i: nat): Parsed<Argument> {
    var (value, i1) :- NextConstant(ts, i);
    At(ConstantArgument(value), i1)
  }

  function SymbolArg(ts: seq<Token>, i: nat): Parsed<Argument> {
    var (symbol, i1) :- NextSymbol(ts, i);
    At(SymbolArgument(symbol), i1)
  }

  /** The symbol types that `.type` knows. */
  predicate KnownType(info: string) {
    info == "object" || info == "func" || info == "function"
  }

  function TypeArg(ts: seq<Token>, i: nat): Parsed<Argument> {
    var (symbol, i1) :- NextSymbol(ts, i);
    var (info, i2) :- NextSymbol(ts, i1);
    if KnownType(info) then At(TypeArgument(symbol, info), i2) else Fail
  }

  function TextArg(ts: seq<Token>, i: nat): Parsed<Argument> {
    var (text, i1) :- NextText(ts, i);
    At(TextArgument(text), i1)
  }

  function SectionArg(ts: seq<Token>, i: nat): Parsed<Argument> {
    var (section, i1) :- NextDirective(ts, i);
    At(SectionArgument(section), i1)
  }

  function ParsePseudo(op: PseudoOp, ts: seq<Token>, i: nat): Parsed<Argument> {
    if op.Incbin? then TextArg(ts, i) else ConstantArg(ts, i)
  }

  function DirectiveOf(name: string): DirectiveKind {
    if name == ".align" then AlignDirective
    else if name == ".endfunc" then EndFuncDirective
    else if name == ".finish_labels" then FinishLabels
    else if name == ".global" then GlobalDirective
    else if name == ".include" then IncludeDirective
    else if name == ".section" then SectionDirective
    else if name == ".org" then OrgDirective
    else if name == ".execonly" then ExecOnlyDirective
    else if name == ".readonly" then ReadOnlyDirective
    else if name == ".type" then TypeDirective
    else if name == ".size" then SizeDirective
    else if name == ".string" then StringDirective
    else if name == ".strlen" then StrlenDirective
    else if name == ".ascii" then AsciiDirective
    else UnknownDirective
  }

  function ParseArgument(kind: DirectiveKind, ts: seq<Token>, i: nat): Parsed<Argument> {
    match kind
    case AlignDirective => ConstantArg(ts, i)
    case EndFuncDirective => SymbolArg(ts, i)
    case FinishLabels => At(NoArgument, i)
    case GlobalDirective => SymbolArg(ts, i)
    case IncludeDirective => TextArg(ts, i)
    case SectionDirective => SectionArg(ts, i)
    case OrgDirective => ConstantArg(ts, i)
    case ExecOnlyDirective => At(NoArgument, i)
    case ReadOnlyDirective => At(NoArgument, i)
    case TypeDirective => TypeArg(ts, i)
    case SizeDirective => SymbolArg(ts, i)
    case StringDirective => TextArg(ts, i)
    case StrlenDirective => TextArg(ts, i)
    case AsciiDirective => TextArg(ts, i)
    case UnknownDirective => At(NoArgument, i)
  }

  // ---- Statements -----------------------------------------------------------------------------------

  /** The tokens that `assemble` accepts at the start of a statement. */
  predicate StartsStatement(t: Token) {
    t.body.Directive? || t.body.Label? || t.body.Op? || t.body.Pseudo?
  }

  function ParseStatement(ts: seq<Token>, i: nat): Parsed<Statement>
    requires i < |ts|
  {
    match ts[i].body
    case Directive(name) =>
      var (argument, i1) :- ParseArgument(DirectiveOf(name), ts, i + 1);
      At(DirectiveStatement(DirectiveOf(name), argument), i1)
    case Label(name) => At(LabelStatement(name), i + 1)
    case Op(op) =>
      var (operands, i1) :- ParseOperands(op, ts, i + 1);
      At(OpcodeStatement(op, operands), i1)
    case Pseudo(op) =>
      var (argument, i1) :- ParsePseudo(op, ts, i + 1);
      At(PseudoStatement(op, argument), i1)
    case _ => Fail
  }

  lemma OperandsAdvance(op: Opcode, ts: seq<Token>, i: nat)
    requires i <= |ts|
    ensures var r := ParseOperands(op, ts, i); r.At? ==> i <= r.next <= |ts|
  {
    forall k: nat
      ensures var r := Resolve(ts, k); r.At? ==> k < r.next <= |ts|
    {
      ResolveAdvances(ts, k);
    }
  }

  lemma StatementAdvances(ts: seq<Token>, i: nat)
    requires i < |ts|
    ensures var r := ParseStatement(ts, i); r.At? ==> i < r.next <= |ts|
  {
    if ts[i].body.Op? {
      OperandsAdvance(ts[i].body.op, ts, i + 1);
    }
  }

  // ---- Locality -------------------------------------------------------------------------------------

  /** Nothing at `j` could continue a statement: it is the end, or a token that starts the next one. */
  predicate Boundary(ts: seq<Token>, j: nat) {
    j < |ts| ==> StartsStatement(ts[j])
  }

  /** A constant chain whose last token is copied and followed by nothing that continues it. */
  lemma ImmediateLocal(ts: seq<Token>, us: seq<Token>, i: nat, j: nat, d: int)
    requires i <= |ts| && Resolve(ts, i).At? && Resolve(ts, i).next <= j
    requires Copied(ts, i, j, us, d)
    requires Resolve(ts, i).next == j ==> Boundary(us, j + d)
    ensures var r := Resolve(ts, i); i < r.next && Resolve(us, i + d) == At(r.value, r.next + d)
  {
    var k := Resolve(ts, i).next;
    ResolveAdvances(ts, i);
    ResolveEnds(ts, i);
    if k < j {
      assert us[k + d] == ts[k];
    }
    ResolveLocal(ts, us, i, d);
  }

  /** A chain stops only where it cannot go on. */
  lemma ResolveEnds(ts: seq<Token>, i: nat)
    requires Resolve(ts, i).At?
    ensures var j := Resolve(ts, i).next; !AtConstant(ts, j) && !AtOperator(ts, j)
  {
    var r := Resolve(ts, i);
    ResolveMeaning(ts, i, r.value, r.next);
    RunEndStops(ts, i + 1);
  }

  lemma {:induction false} RunEndStops(ts: seq<Token>, i: nat)
    ensures !AtConstant(ts, RunEnd(ts, i)) && !AtOperator(ts, RunEnd(ts, i))
    decreases |ts| - i
  {
    if AtConstant(ts, i) || AtOperator(ts, i) {
      RunEndStops(ts, i + 1);
    }
  }

  /** What every parser here promises: it reads its own tokens and the type of the next one. */
  ghost predicate Local<T>(r: Parsed<T>, r': Parsed<T>, d: int) {
    r.At? ==> r'.At? && r'.value == r.value && r'.next == r.next + d
  }

  ghost predicate CopiedTo(ts: seq<Token>, i: nat, j: nat, us: seq<Token>, d: int) {
    Copied(ts, i, j, us, d) && Boundary(us, j + d)
  }

  /** The first four tokens of a statement, where they are copied. */
  lemma CopiedTokens(ts: seq<Token>, i: nat, j: nat, us: seq<Token>, d: int)
    requires Copied(ts, i, j, us, d)
    ensures i < j ==> us[i + d] == ts[i]
    ensures i + 1 < j ==> us[i + 1 + d] == ts[i + 1]
    ensures i + 2 < j ==> us[i + 2 + d] == ts[i + 2]
  {
  }

  lemma RegistersLocal(ts: seq<Token>, us: seq<Token>, i: nat, d: int)
    requires 0 <= i + d
    ensures ParseReg(ts, i).At? && CopiedTo(ts, i, ParseReg(ts, i).next, us, d) ==>
              Local(ParseReg(ts, i), ParseReg(us, i + d), d)
    ensures ParseRegs2(ts, i).At? && CopiedTo(ts, i, ParseRegs2(ts, i).next, us, d) ==>
              Local(ParseRegs2(ts, i), ParseRegs2(us, i + d), d)
    ensures ParseRegs(ts, i).At? && CopiedTo(ts, i, ParseRegs(ts, i).next, us, d) ==>
              Local(ParseRegs(ts, i), ParseRegs(us, i + d), d)
  {
    if ParseReg(ts, i).At? && CopiedTo(ts, i, ParseReg(ts, i).next, us, d) {
      CopiedTokens(ts, i, ParseReg(ts, i).next, us, d);
    }
    if ParseRegs2(ts, i).At? && CopiedTo(ts, i, ParseRegs2(ts, i).next, us, d) {
      CopiedTokens(ts, i, ParseRegs2(ts, i).next, us, d);
    }
    if ParseRegs(ts, i).At? && CopiedTo(ts, i, ParseRegs(ts, i).next, us, d) {
      CopiedTokens(ts, i, ParseRegs(ts, i).next, us, d);
    }
  }

  lemma NamedLocal(op: Opcode, ts: seq<Token>, us: seq<Token>, i: nat, d: int)
    requires op.LoadAddress? || op.LoadAddressWide? || op.BranchIf? || op.FarCall? || op.Jmp?
    requires ParseOperands(op, ts, i).At? && CopiedTo(ts, i, ParseOperands(op, ts, i).next, us, d)
    ensures Local(ParseOperands(op, ts, i), ParseOperands(op, us, i + d), d)
  {
    CopiedTokens(ts, i, ParseOperands(op, ts, i).next, us, d);
  }

  lemma CallLocal(ts: seq<Token>, us: seq<Token>, i: nat, d: int)
    requires ParseCall(ts, i).At? && CopiedTo(ts, i, ParseCall(ts, i).next, us, d)
    ensures Local(ParseCall(ts, i), ParseCall(us, i + d), d)
  {
    CopiedTokens(ts, i, ParseCall(ts, i).next, us, d);
  }

  lemma JalrLocal(ts: seq<Token>, us: seq<Token>, i: nat, d: int)
    requires CopiedTo(ts, i, ParseJalr(ts, i).next, us, d)
    ensures Local(ParseJalr(ts, i), ParseJalr(us, i + d), d)
  {
    CopiedTokens(ts, i, ParseJalr(ts, i).next, us, d);
  }

  /** The opcodes with a constant chain among their operands. */
  predicate HasChain(op: Opcode) {
    op.Set? || op.Li? || op.Load? || op.Store? || op.Arithmetic? || op.Syscall? || op.System?
  }

  lemma ChainedLocal(op: Opcode, ts: seq<Token>, us: seq<Token>, i: nat, d: int)
    requires HasChain(op) && i <= |ts|
    requires ParseOperands(op, ts, i).At? && CopiedTo(ts, i, ParseOperands(op, ts, i).next, us, d)
    ensures Local(ParseOperands(op, ts, i), ParseOperands(op, us, i + d), d)
  {
    match op
    case Set => Regs2ImmLocal(ts, us, i, d);
    case Li => RegImmLocal(ts, us, i, d);
    case Load(_) => LoadLocal(ts, us, i, d);
    case Store(_) => StoreLocal(ts, us, i, d);
    case Arithmetic(_, _) => ArithmeticLocal(ts, us, i, d);
    case Syscall => ImmediateLocal(ts, us, i, ParseImm(ts, i).next, d);
    case System => Imm2Local(ts, us, i, d);
  }

  lemma Regs2ImmLocal(ts: seq<Token>, us: seq<Token>, i: nat, d: int)
    requires ParseRegs2Imm(ts, i).At? && CopiedTo(ts, i, ParseRegs2Imm(ts, i).next, us, d)
    ensures Local(ParseRegs2Imm(ts, i), ParseRegs2Imm(us, i + d), d)
  {
    CopiedTokens(ts, i, ParseRegs2Imm(ts, i).next, us, d);
    ResolveAdvances(ts, i + 2);
    ImmediateLocal(ts, us, i + 2, ParseRegs2Imm(ts, i).next, d);
  }

  lemma RegImmLocal(ts: seq<Token>, us: seq<Token>, i: nat, d: int)
    requires ParseRegImm(ts, i).At? && CopiedTo(ts, i, ParseRegImm(ts, i).next, us, d)
    ensures Local(ParseRegImm(ts, i), ParseRegImm(us, i + d), d)
  {
    CopiedTokens(ts, i, ParseRegImm(ts, i).next, us, d);
    ResolveAdvances(ts, i + 1);
    ImmediateLocal(ts, us, i + 1, ParseRegImm(ts, i).next, d);
  }

  lemma LoadLocal(ts: seq<Token>, us: seq<Token>, i: nat, d: int)
    requires ParseLoad(ts, i).At? && CopiedTo(ts, i, ParseLoad(ts, i).next, us, d)
    ensures Local(ParseLoad(ts, i), ParseLoad(us, i + d), d)
  {
    var j := ParseLoad(ts, i).next;
    CopiedTokens(ts, i, j, us, d);
    if AtConstant(ts, i + 1) {
      ResolveAdvances(ts, i + 1);
      ImmediateLocal(ts, us, i + 1, j, d);
    }
    assert us[j - 1 + d] == ts[j - 1];
  }

  lemma StoreLocal(ts: seq<Token>, us: seq<Token>, i: nat, d: int)
    requires ParseStore(ts, i).At? && CopiedTo(ts, i, ParseStore(ts, i).next, us, d)
    ensures Local(ParseStore(ts, i), ParseStore(us, i + d), d)
  {
    CopiedTokens(ts, i, ParseStore(ts, i).next, us, d);
    if AtConstant(ts, i + 2) {
      ResolveAdvances(ts, i + 2);
      ImmediateLocal(ts, us, i + 2, ParseStore(ts, i).next, d);
    }
  }

  lemma ArithmeticLocal(ts: seq<Token>, us: seq<Token>, i: nat, d: int)
    requires ParseArithmetic(ts, i).At? && CopiedTo(ts, i, ParseArithmetic(ts, i).next, us, d)
    ensures Local(ParseArithmetic(ts, i), ParseArithmetic(us, i + d), d)
  {
    CopiedTokens(ts, i, ParseArithmetic(ts, i).next, us, d);
    if AtConstant(ts, i + 1) {
      ResolveAdvances(ts, i + 1);
      ImmediateLocal(ts, us, i + 1, ParseArithmetic(ts, i).next, d);
    } else {
      RegistersLocal(ts, us, i, d);
    }
  }

  lemma Imm2Local(ts: seq<Token>, us: seq<Token>, i: nat, d: int)
    requires i <= |ts| && ParseImm2(ts, i).At? && CopiedTo(ts, i, ParseImm2(ts, i).next, us, d)
    ensures Local(ParseImm2(ts, i), ParseImm2(us, i + d), d)
  {
    var i1, j := Resolve(ts, i).next, ParseImm2(ts, i).next;
    ResolveAdvances(ts, i);
    ResolveAdvances(ts, i1);
    ImmediateLocal(ts, us, i, j, d);
    ImmediateLocal(ts, us, i1, j, d);
  }

  lemma OperandsLocal(op: Opcode, ts: seq<Token>, us: seq<Token>, i: nat, d: int)
    requires i <= |ts|
    requires ParseOperands(op, ts, i).At? && CopiedTo(ts, i, ParseOperands(op, ts, i).next, us, d)
    ensures Local(ParseOperands(op, ts, i), ParseOperands(op, us, i + d), d)
  {
    if HasChain(op) {
      ChainedLocal(op, ts, us, i, d);
    } else if op.Mov? || op.Inc? || op.RegisterOnly? {
      RegistersLocal(ts, us, i, d);
    } else if op.Call? {
      CallLocal(ts, us, i, d);
    } else if op.Jalr? {
      JalrLocal(ts, us, i, d);
    } else if !(op.Nop? || op.Ret? || op.Ecall? || op.Ebreak? || op.Wfi?) {
      NamedLocal(op, ts, us, i, d);
    }
  }

  /** A statement parses the same wherever its tokens are copied, if the next token starts a statement. */
  lemma StatementLocal(ts: seq<Token>, us: seq<Token>, i: nat, d: int)
    requires i < |ts| && ParseStatement(ts, i).At?
    requires CopiedTo(ts, i, ParseStatement(ts, i).next, us, d)
    ensures i + d < |us| && Local(ParseStatement(ts, i), ParseStatement(us, i + d), d)
  {
    StatementAdvances(ts, i);
    assert us[i + d] == ts[i];
    if ts[i].body.Op? {
      OpcodeLocal(ts, us, i, d);
    } else if ts[i].body.Directive? {
      DirectiveLocal(ts, us, i, d);
    } else if ts[i].body.Pseudo? {
      PseudoLocal(ts[i].body.pseudo, ts, us, i + 1, d);
    }
  }

  lemma OpcodeLocal(ts: seq<Token>, us: seq<Token>, i: nat, d: int)
    requires i < |ts| && ts[i].body.Op? && ParseStatement(ts, i).At?
    requires CopiedTo(ts, i, ParseStatement(ts, i).next, us, d) && i < ParseStatement(ts, i).next
    ensures i + d < |us| && Local(ParseStatement(ts, i), ParseStatement(us, i + d), d)
  {
    var op := ts[i].body.op;
    assert us[i + d] == ts[i];
    OperandsAdvance(op, ts, i + 1);
    OperandsLocal(op, ts, us, i + 1, d);
    assert i + d + 1 == i + 1 + d;
  }

  lemma DirectiveLocal(ts: seq<Token>, us: seq<Token>, i: nat, d: int)
    requires i < |ts| && ts[i].body.Directive? && ParseStatement(ts, i).At?
    requires CopiedTo(ts, i, ParseStatement(ts, i).next, us, d) && i < ParseStatement(ts, i).next
    ensures i + d < |us| && Local(ParseStatement(ts, i), ParseStatement(us, i + d), d)
  {
    assert us[i + d] == ts[i];
    ArgumentLocal(DirectiveOf(ts[i].body.name), ts, us, i + 1, d);
    assert i + d + 1 == i + 1 + d;
  }

  lemma ArgumentLocal(kind: DirectiveKind, ts: seq<Token>, us: seq<Token>, i: nat, d: int)
    requires ParseArgument(kind, ts, i).At? && Copied(ts, i, ParseArgument(kind, ts, i).next, us, d)
    ensures Local(ParseArgument(kind, ts, i), ParseArgument(kind, us, i + d), d)
  {
    CopiedTokens(ts, i, ParseArgument(kind, ts, i).next, us, d);
  }

  lemma PseudoLocal(op: PseudoOp, ts: seq<Token>, us: seq<Token>, i: nat, d: int)
    requires ParsePseudo(op, ts, i).At? && Copied(ts, i, ParsePseudo(op, ts, i).next, us, d)
    ensures Local(ParsePseudo(op, ts, i), ParsePseudo(op, us, i + d), d)
  {
    CopiedTokens(ts, i, ParsePseudo(op, ts, i).next, us, d);
  }

  /** Inside a statement, only the last token can be a directive name. */
  lemma InnerDirective(ts: seq<Token>, i: nat, k: nat)
    requires i < |ts| && ParseStatement(ts, i).At? && i < k < ParseStatement(ts, i).next
    requires k < |ts| && ts[k].body.Directive?
    ensures k + 1 == ParseStatement(ts, i).next && ts[i].body.Directive?
  {
    if ts[i].body.Op? {
      OperandTokens(ts[i].body.op, ts, i + 1, k);
    }
  }

  lemma OperandTokens(op: Opcode, ts: seq<Token>, i: nat, k: nat)
    requires ParseOperands(op, ts, i).At? && i <= k < ParseOperands(op, ts, i).next
    ensures k < |ts| && !ts[k].body.Directive?
  {
    if HasChain(op) {
      ChainedTokens(op, ts, i, k);
    }
  }

  lemma ChainedTokens(op: Opcode, ts: seq<Token>, i: nat, k: nat)
    requires HasChain(op) && ParseOperands(op, ts, i).At? && i <= k < ParseOperands(op, ts, i).next
    ensures k < |ts| && !ts[k].body.Directive?
  {
    match op
    case Set => ChainTokens(ts, i + 2, k);
    case Li => ChainTokens(ts, i + 1, k);
    case Load(_) => ChainTokens(ts, i + 1, k);
    case Store(_) => ChainTokens(ts, i + 2, k);
    case Arithmetic(_, _) => ChainTokens(ts, i + 1, k);
    case Syscall => ChainTokens(ts, i, k);
    case System =>
      ChainTokens(ts, i, k);
      ChainTokens(ts, Resolve(ts, i).next, k);
  }

  lemma ChainTokens(ts: seq<Token>, c: nat, k: nat)
    ensures Resolve(ts, c).At? && c <= k < Resolve(ts, c).next ==> AtConstant(ts, k) || AtOperator(ts, k)
  {
    if Resolve(ts, c).At? && c <= k < Resolve(ts, c).next {
      ResolveMeaning(ts, c, Resolve(ts, c).value, Resolve(ts, c).next);
      if k > c {
        RunTokens(ts, c + 1, k);
      }
    }
  }

  lemma {:induction false} RunTokens(ts: seq<Token>, i: nat, k: nat)
    requires i <= k < RunEnd(ts, i)
    ensures AtConstant(ts, k) || AtOperator(ts, k)
    decreases |ts| - i
  {
    if i < k {
      RunTokens(ts, i + 1, k);
    }
  }
}
