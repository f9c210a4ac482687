/**
 The assembler object (src/assembler.hpp, src/assemble.cpp, src/directive.cpp, src/opcodes.cpp,
 src/pseudo_ops.cpp), with the fields the source has. Each method is proved against the functions of module
 State; `View` is the value of the object that they are about.
*/
module Assembling {
  import opened Words
  import opened Results
  import opened Instructions
  import opened Immediates
  import opened WideConstants
  import opened References
  import opened Tokens
  import opened Constants
  import opened Grammar
  import opened Items
  import opened Layout
  import opened State
  import opened Sections
  import opened Patching
  import S = State
  import T = Tokens

  lemma BindNone(symbols: map<string, S.Symbol>, at: Location)
    ensures Bind(symbols, [], at) == symbols
  {
  }

  lemma BindNext(symbols: map<string, S.Symbol>, names: seq<string>, name: string, at: Location)
    ensures Bind(symbols, names + [name], at) ==
      var bound := Bind(symbols, names, at); if name in bound then bound else bound[name := S.Symbol(at, 0, 0)]
  {
  }

  lemma FindFrom(vs: seq<SectionValue>, i: nat, name: string)
    requires i < |vs| && vs[i].name != name
    ensures FindSection(vs[i..], name) == 1 + FindSection(vs[i + 1..], name)
  {
    assert vs[i..][1..] == vs[i + 1..];
  }

  /** What a handler returns at once, and what it schedules. */
  function Returned(g: Generated): seq<u32>
    requires g.Waiting? ==> !g.ref.SizeOf?
  {
    match g
    case Plain(words) => words
    case Waiting(_, ref) => PlaceholderCode(ref)
  }

  function Scheduling(st: State, g: Generated): State
    requires Proper(st)
  {
    match g
    case Plain(_) => st
    case Waiting(symbol, ref) => S.Schedule(st, symbol, PatchAt(KindOf(ref), Here(st), Here(st)))
  }

  /** A handler that read its operands at `i` and stopped at `j`, leading from `st` to `st'`. */
  ghost predicate Handled(op: Opcode, ts: seq<Token>, i: nat, j: nat, st: State, st': State, ok: bool, words: seq<u32>)
    requires Proper(st)
  {
    var r := ParseOperands(op, ts, i);
    && (ok <==> r.At?)
    && (ok ==> j == r.next && Generate(op, r.value).Some?
               && words == Returned(Generate(op, r.value).value) && st' == Scheduling(st, Generate(op, r.value).value))
  }

  /** One statement with that item, if it has one. */
  function StatementStep(item: Option<Item>, st: State): (r: Result<State>)
    requires Proper(st)
    ensures r.Ok? ==> Proper(r.value)
  {
    if item.None? then Thrown else S.Step(st, item.value)
  }

  /** A state and a position in the tokens. */
  datatype Point = Point(state: State, next: nat)

  /** An opcode, a directive or a pseudo-op whose operands start at `i`. */
  function OpcodeResult(op: Opcode, ts: seq<Token>, i: nat, st: State): (p: Result<Point>)
    requires Proper(st)
    ensures p.Ok? ==> Proper(p.value.state)
  {
    var r := ParseOperands(op, ts, i);
    if r.Fail? then Thrown
    else
      var st' :- StatementStep(OpcodeItem(op, r.value), st);
      Ok(Point(st', r.next))
  }

  function DirectiveResult(kind: DirectiveKind, ts: seq<Token>, i: nat, st: State): (p: Result<Point>)
    requires Proper(st)
    ensures p.Ok? ==> Proper(p.value.state)
  {
    var r := ParseArgument(kind, ts, i);
    if r.Fail? then Thrown
    else
      var st' :- StatementStep(DirectiveItem(kind, r.value), st);
      Ok(Point(st', r.next))
  }

  function PseudoResult(op: PseudoOp, ts: seq<Token>, i: nat, st: State, files: Files): (p: Result<Point>)
    requires Proper(st)
    ensures p.Ok? ==> Proper(p.value.state)
  {
    var r := ParsePseudo(op, ts, i);
    if r.Fail? then Thrown
    else
      var st' :- StatementStep(PseudoItem(op, r.value, files.blobs), st);
      Ok(Point(st', r.next))
  }

  /** The statement at `i`, other than `.include`. */
  function TokenResult(ts: seq<Token>, i: nat, st: State, files: Files): (p: Result<Point>)
    requires Proper(st) && i < |ts|
    ensures p.Ok? ==> Proper(p.value.state)
  {
    match ts[i].body
    case Directive(name) => DirectiveResult(DirectiveOf(name), ts, i + 1, st)
    case Label(name) => Ok(Point(S.Step(st, NewLabel(name)).value, i + 1))
    case Op(op) => OpcodeResult(op, ts, i + 1, st)
    case Pseudo(op) => PseudoResult(op, ts, i + 1, st, files)
    case _ => Thrown
  }

  /** The rest of a token list, with its includes. */
  function RunFrom(ts: seq<Token>, i: nat, depth: nat, files: Files, st: State): (r: Result<State>)
    requires Proper(st)
    ensures r.Ok? ==> Proper(r.value)
  {
    match ItemsFrom(ts, i, depth, files)
    case None => Thrown
    case Some(items) => Exec(st, items)
  }

  lemma {:induction false} ExecConcat(st: State, a: seq<Item>, b: seq<Item>)
    requires Proper(st)
    ensures Exec(st, a + b) == if Exec(st, a).Thrown? then Thrown else Exec(Exec(st, a).value, b)
    decreases |a|
  {
    if a == [] {
      assert a + b == b;
    } else {
      assert (a + b)[0] == a[0] && (a + b)[1..] == a[1..] + b;
      if S.Step(st, a[0]).Ok? {
        ExecConcat(S.Step(st, a[0]).value, a[1..], b);
      }
    }
  }

  lemma ExecFirst(st: State, item: Item, rest: seq<Item>)
    requires Proper(st)
    ensures Exec(st, [item] + rest) == if S.Step(st, item).Thrown? then Thrown else Exec(S.Step(st, item).value, rest)
  {
    assert ([item] + rest)[1..] == rest;
  }

  predicate IsInclude(t: Token) {
    t.body.Directive? && DirectiveOf(t.body.name) == IncludeDirective
  }

  /** A statement other than `.include`, by its parts. */
  lemma RunStatement(ts: seq<Token>, i: nat, depth: nat, files: Files, st: State)
    requires Proper(st) && i < |ts| && !IsInclude(ts[i])
    ensures var r := ParseStatement(ts, i);
      RunFrom(ts, i, depth, files, st) ==
        if r.Fail? then Thrown
        else
          var step := StatementStep(ItemOf(r.value, files.blobs), st);
          if step.Thrown? then Thrown else RunFrom(ts, r.next, depth, files, step.value)
  {
    var r := ParseStatement(ts, i);
    if r.At? {
      assert IncludedFile(r.value).None?;
      var item, rest := ItemOf(r.value, files.blobs), ItemsFrom(ts, r.next, depth, files);
      if item.Some? && rest.Some? {
        ExecFirst(st, item.value, rest.value);
      }
    }
  }

  lemma TokenStatement(ts: seq<Token>, i: nat, st: State, files: Files)
    requires Proper(st) && i < |ts|
    ensures var r := ParseStatement(ts, i);
      TokenResult(ts, i, st, files) ==
        if r.Fail? then Thrown
        else
          var step := StatementStep(ItemOf(r.value, files.blobs), st);
          if step.Thrown? then Thrown else Ok(Point(step.value, r.next))
  {
  }

  /** A run goes on after a statement from where its handler stopped. */
  lemma RunToken(ts: seq<Token>, i: nat, depth: nat, files: Files, st: State)
    requires Proper(st) && i < |ts| && !IsInclude(ts[i])
    ensures var p := TokenResult(ts, i, st, files);
      && (p.Ok? ==> i < p.value.next <= |ts|)
      && RunFrom(ts, i, depth, files, st) ==
           if p.Thrown? then Thrown else RunFrom(ts, p.value.next, depth, files, p.value.state)
  {
    RunStatement(ts, i, depth, files, st);
    TokenStatement(ts, i, st, files);
    StatementAdvances(ts, i);
  }

  /** `.include` runs the file in between. */
  lemma RunInclude(ts: seq<Token>, i: nat, depth: nat, files: Files, st: State)
    requires Proper(st) && i < |ts| && IsInclude(ts[i])
    ensures var p := IncludeResult(ts, i + 1, depth, files, st);
      && (p.Ok? ==> p.value.next == i + 2 <= |ts|)
      && RunFrom(ts, i, depth, files, st) ==
           if p.Thrown? then Thrown else RunFrom(ts, i + 2, depth, files, p.value.state)
  {
    var text := T.NextText(ts, i + 1);
    if text.At? {
      IncludeParsed(ts, i);
      if text.value in files.sources && depth > 0 {
        var inner := ItemsFrom(files.sources[text.value], 0, depth - 1, files);
        var rest := ItemsFrom(ts, i + 2, depth, files);
        if inner.Some? && rest.Some? {
          ExecConcat(st, inner.value, rest.value);
        }
      }
    }
  }

  /** The operand of `.include` at `i`, and the file it names. */
  function IncludeResult(ts: seq<Token>, i: nat, depth: nat, files: Files, st: State): (p: Result<Point>)
    requires Proper(st)
    ensures p.Ok? ==> Proper(p.value.state)
  {
    var text := T.NextText(ts, i);
    if text.Fail? || text.value !in files.sources || depth == 0 then Thrown
    else
      var inner :- RunFrom(files.sources[text.value], 0, depth - 1, files, st);
      Ok(Point(inner, text.next))
  }

  /** The statement at `i`. */
  function StatementResult(ts: seq<Token>, i: nat, depth: nat, files: Files, st: State): (p: Result<Point>)
    requires Proper(st) && i < |ts|
    ensures p.Ok? ==> Proper(p.value.state)
  {
    if IsInclude(ts[i]) then IncludeResult(ts, i + 1, depth, files, st) else TokenResult(ts, i, st, files)
  }

  /** The rest of a token list ends in `r`. The quantifier keeps proofs about one statement from looking further. */
  ghost predicate Leads(ts: seq<Token>, i: nat, depth: nat, files: Files, st: State, r: Result<State>)
    requires Proper(st)
  {
    forall d: nat :: d == depth ==> RunFrom(ts, i, d, files, st) == r
  }

  /** A run goes on after a statement from where its handler stopped. */
  lemma LeadsOn(ts: seq<Token>, i: nat, depth: nat, files: Files, st: State, r: Result<State>)
    requires Proper(st) && i < |ts| && Leads(ts, i, depth, files, st, r)
    ensures var p := StatementResult(ts, i, depth, files, st);
      && (p.Thrown? ==> r.Thrown?)
      && (p.Ok? ==> i < p.value.next <= |ts| && Leads(ts, p.value.next, depth, files, p.value.state, r))
  {
    if IsInclude(ts[i]) {
      RunInclude(ts, i, depth, files, st);
    } else {
      RunToken(ts, i, depth, files, st);
    }
    assert RunFrom(ts, i, depth, files, st) == r;
  }

  lemma LeadsToEnd(ts: seq<Token>, i: nat, depth: nat, files: Files, st: State, r: Result<State>)
    requires Proper(st) && i >= |ts| && Leads(ts, i, depth, files, st, r)
    ensures r == Ok(st)
  {
    assert RunFrom(ts, i, depth, files, st) == Ok(st);
  }

  lemma IncludeParsed(ts: seq<Token>, i: nat)
    requires i < |ts| && IsInclude(ts[i]) && T.NextText(ts, i + 1).At?
    ensures var r := ParseStatement(ts, i);
      r.At? && r.next == i + 2 && IncludedFile(r.value) == Some(T.NextText(ts, i + 1).value)
  {
  }

  /** What is left of an opcode after aligning and running its handler. */
  lemma OpcodeRest(op: Opcode, operands: Operands, st: State)
    requires Proper(st) && Generate(op, operands).Some?
    ensures var aligned := S.AlignWithLabels(st, 4); var g := Generate(op, operands).value;
      StatementStep(OpcodeItem(op, operands), st) ==
        if aligned.Thrown? then Thrown
        else Emit(Scheduling(aligned.value, g), Bytes(CodeOutput, CodeBytes(Returned(g))))
  {
    CodeRest(Generate(op, operands).value, st);
  }

  lemma CodeRest(g: Generated, st: State)
    requires Proper(st) && (g.Waiting? ==> !g.ref.SizeOf?)
    ensures var aligned := S.AlignWithLabels(st, 4);
      S.Step(st, CodeItem(g)) ==
        if aligned.Thrown? then Thrown
        else Emit(Scheduling(aligned.value, g), Bytes(CodeOutput, CodeBytes(Returned(g))))
  {
  }

  lemma NeverAligned(op: Opcode, ts: seq<Token>, i: nat, st: State)
    requires Proper(st) && S.AlignWithLabels(st, 4).Thrown?
    ensures OpcodeResult(op, ts, i, st).Thrown?
  {
    var r := ParseOperands(op, ts, i);
    if r.At? && Generate(op, r.value).Some? {
      OpcodeRest(op, r.value, st);
    }
  }

  /** What a handler that succeeded has read and done. */
  lemma HandledOperands(op: Opcode, ts: seq<Token>, i: nat, j: nat, st: State, st': State, words: seq<u32>)
    returns (operands: Operands, g: Generated)
    requires Proper(st) && Handled(op, ts, i, j, st, st', true, words)
    ensures ParseOperands(op, ts, i) == At(operands, j) && Generate(op, operands) == Some(g)
    ensures words == Returned(g) && |words| > 0 && Proper(st') && st' == Scheduling(st, g)
  {
    operands := ParseOperands(op, ts, i).value;
    g := Generate(op, operands).value;
    GeneratedWords(op, operands);
  }

  lemma OpcodeFrom(op: Opcode, ts: seq<Token>, i: nat, j: nat, operands: Operands, st: State, step: Result<State>)
    requires Proper(st) && ParseOperands(op, ts, i) == At(operands, j)
    requires StatementStep(OpcodeItem(op, operands), st) == step
    ensures OpcodeResult(op, ts, i, st) == if step.Thrown? then Thrown else Ok(Point(step.value, j))
  {
  }

  /** An opcode whose alignment gave `st1` and whose handler gave `st2`, or failed. */
  lemma OpcodeDone(op: Opcode, ts: seq<Token>, i: nat, j: nat, st: State, st1: State, st2: State, ok: bool,
                   words: seq<u32>)
    requires Proper(st) && S.AlignWithLabels(st, 4) == Ok(st1) && Handled(op, ts, i, j, st1, st2, ok, words)
    ensures !ok ==> OpcodeResult(op, ts, i, st).Thrown?
    ensures ok ==> |words| > 0 && Proper(st2)
    ensures ok ==> var r := Emit(st2, Bytes(CodeOutput, CodeBytes(words)));
      OpcodeResult(op, ts, i, st) == if r.Thrown? then Thrown else Ok(Point(r.value, j))
  {
    if ok {
      var operands, g := HandledOperands(op, ts, i, j, st1, st2, words);
      OpcodeRest(op, operands, st);
      OpcodeFrom(op, ts, i, j, operands, st, Emit(st2, Bytes(CodeOutput, CodeBytes(words))));
    }
  }

  /** What is left of `.size` after aligning. */
  lemma SizeRest(symbol: string, st: State)
    requires Proper(st)
    ensures var aligned := S.AlignWithLabels(st, 4);
      S.Step(st, Refer(symbol, SizeOf)) ==
        if aligned.Thrown? then Thrown
        else Emit(S.Schedule(aligned.value, symbol, PatchAt(SizeKind, Here(aligned.value), Here(st))),
                  Bytes(DataOutput, [0, 0, 0, 0]))
  {
  }

  /** What `.size` comes to, with its symbol. */
  lemma SizeResult(ts: seq<Token>, i: nat, st: State, p: Parsed<string>)
    requires Proper(st) && p == T.NextSymbol(ts, i)
    ensures p.Fail? ==> DirectiveResult(SizeDirective, ts, i, st).Thrown?
    ensures p.At? ==> DirectiveResult(SizeDirective, ts, i, st) == Placed(S.Step(st, Refer(p.value, SizeOf)), p.next)
  {
  }

  /** A step and the position after it. */
  function Placed(step: Result<State>, j: nat): Result<Point> {
    if step.Thrown? then Thrown else Ok(Point(step.value, j))
  }

  // ---- Running the schedule -----------------------------------------------------------------------------------

  lemma {:induction false} RunEntriesConcat(st: State, a: seq<Entry>, b: seq<Entry>)
    ensures RunEntries(st, a + b) ==
      if RunEntries(st, a).Thrown? then Thrown else RunEntries(RunEntries(st, a).value, b)
    decreases |a|
  {
    if a == [] {
      assert a + b == b;
    } else {
      assert (a + b)[0] == a[0] && (a + b)[1..] == a[1..] + b;
      var next := S.RunFixup(st, a[0].symbol, a[0].fixup);
      if next.Ok? {
        RunEntriesConcat(next.value, a[1..], b);
      }
    }
  }

  lemma RunOneEntry(st: State, e: Entry)
    ensures RunEntries(st, [e]) == S.RunFixup(st, e.symbol, e.fixup)
  {
    assert [e][1..] == [];
  }

  lemma {:induction false} EntriesConcat(a: seq<string>, b: seq<string>, schedule: map<string, seq<Fixup>>)
    ensures Entries(a + b, schedule) == Entries(a, schedule) + Entries(b, schedule)
    decreases |a|
  {
    if a == [] {
      assert a + b == b;
      assert [] + Entries(b, schedule) == Entries(b, schedule);
    } else {
      assert (a + b)[0] == a[0] && (a + b)[1..] == a[1..] + b;
      EntriesConcat(a[1..], b, schedule);
      var first := if a[0] in schedule then EntriesFor(a[0], schedule[a[0]]) else [];
      ConcatAssociative(first, Entries(a[1..], schedule), Entries(b, schedule));
    }
  }

  lemma EntriesOfOne(n: string, schedule: map<string, seq<Fixup>>)
    requires n in schedule
    ensures Entries([n], schedule) == EntriesFor(n, schedule[n])
  {
    assert [n][1..] == [];
    assert EntriesFor(n, schedule[n]) + [] == EntriesFor(n, schedule[n]);
  }

  /** Every set can be enumerated. */
  lemma Enumeration(keys: set<string>) returns (names: seq<string>)
    ensures Enumerates(names, keys)
    decreases |keys|
  {
    if keys == {} {
      names := [];
    } else {
      var n :| n in keys;
      var rest := Enumeration(keys - {n});
      names := [n] + rest;
    }
  }

  lemma EnumeratesConcat(a: seq<string>, b: seq<string>, x: set<string>, y: set<string>)
    requires Enumerates(a, x) && Enumerates(b, y) && x !! y
    ensures Enumerates(a + b, x + y)
  {
    forall i, j | 0 <= i < j < |a + b|
      ensures (a + b)[i] != (a + b)[j]
    {
      if i < |a| <= j {
        assert a[i] in x && b[j - |a|] in y;
      }
    }
  }

  /** The fixups of one more symbol. */
  lemma NextSymbolRuns(st: State, st1: State, names: seq<string>, n: string, schedule: map<string, seq<Fixup>>)
    requires RunEntries(st, Entries(names, schedule)) == Ok(st1) && n in schedule
    ensures RunEntries(st, Entries(names + [n], schedule)) == RunEntries(st1, EntriesFor(n, schedule[n]))
  {
    EntriesConcat(names, [n], schedule);
    EntriesOfOne(n, schedule);
    RunEntriesConcat(st, Entries(names, schedule), EntriesFor(n, schedule[n]));
  }

  /** A failure stays one, whatever symbols come after it. */
  lemma FailsOn(st: State, names: seq<string>, rest: seq<string>, schedule: map<string, seq<Fixup>>)
    requires RunEntries(st, Entries(names, schedule)).Thrown?
    ensures RunEntries(st, Entries(names + rest, schedule)).Thrown?
  {
    EntriesConcat(names, rest, schedule);
    RunEntriesConcat(st, Entries(names, schedule), Entries(rest, schedule));
  }

  lemma EntriesForPrefix(n: string, fixups: seq<Fixup>, k: nat, st: State, st1: State)
    requires k < |fixups| && RunEntries(st, EntriesFor(n, fixups[..k])) == Ok(st1)
    ensures RunEntries(st, EntriesFor(n, fixups[..k + 1])) == S.RunFixup(st1, n, fixups[k])
    ensures S.RunFixup(st1, n, fixups[k]).Thrown? ==> RunEntries(st, EntriesFor(n, fixups)).Thrown?
  {
    var es, e, rest := EntriesFor(n, fixups[..k]), Entry(n, fixups[k]), EntriesFor(n, fixups[k + 1..]);
    assert EntriesFor(n, fixups[..k + 1]) == es + [e];
    RunEntriesConcat(st, es, [e]);
    RunOneEntry(st1, e);
    assert EntriesFor(n, fixups) == (es + [e]) + rest;
    RunEntriesConcat(st, es + [e], rest);
  }

  /** The state after a fixup that writes bytes, given the buffer after it. */
  function WithPatch(st: State, name: string, kind: Kind, section: nat, now: seq<byte>, size: u32): State
    requires section < |st.sections| && name in st.symbols
  {
    st.(sections := st.sections[section := st.sections[section].(output := now)],
        symbols := if kind.SizeKind? then st.symbols[name := st.symbols[name].(size := size)] else st.symbols)
  }

  predicate PatchInRange(st: State, kind: Kind, at: Location, before: Location) {
    && at.section < |st.sections| && before.section < |st.sections|
    && at.offset + Width(kind) <= |st.sections[at.section].output|
  }

  lemma NoPatch(st: State, name: string, kind: Kind, at: Location, before: Location)
    requires !PatchInRange(st, kind, at, before)
    ensures S.RunFixup(st, name, PatchAt(kind, at, before)).Thrown?
  {
  }

  lemma PatchResult(st: State, name: string, kind: Kind, at: Location, before: Location, pc: u128, target: u128,
                    origin: u128, now: seq<byte>)
    requires name in st.symbols && st.symbols[name].at.section < |st.sections|
    requires at.section < |st.sections| && before.section < |st.sections|
    requires at.offset + Width(kind) <= |st.sections[at.section].output|
    requires target == AddressOf(st.sections, st.symbols[name].at)
    requires pc == AddressOf(st.sections, at) && origin == AddressOf(st.sections, before)
    requires !Rejects(kind, pc, target) ==>
               Patches(kind, at.offset, pc, target, origin, st.sections[at.section].output, now)
    ensures S.RunFixup(st, name, PatchAt(kind, at, before)) ==
      if Rejects(kind, pc, target) then Thrown
      else Ok(WithPatch(st, name, kind, at.section, now, SizeValue(pc, target, origin)))
  {
    assert Width(kind) > 0;
  }

  /** The first `i` sections have their base addresses. */
  ghost predicate PlacedUpTo(o: Options, st: State, values: seq<SectionValue>, i: nat) {
    && i <= |st.sections| == |values|
    && (forall k :: 0 <= k < i ==>
          values[k] == st.sections[k].(base := BaseOf(o, Extents(st.sections), k), based := true))
    && (forall k :: i <= k < |values| ==> values[k] == st.sections[k])
  }

  lemma PlacedNext(o: Options, st: State, values: seq<SectionValue>, i: nat, c: Cursor)
    requires PlacedUpTo(o, st, values, i) && i < |values| && c == Before(o, Extents(st.sections), i)
    ensures PlacedUpTo(o, st, values[i := values[i].(base := BaseFrom(o, c, ExtentOf(values[i])), based := true)],
                       i + 1)
    ensures Before(o, Extents(st.sections), i + 1) == Advance(o, c, ExtentOf(values[i]))
  {
  }

  lemma AllPlaced(o: Options, st: State, values: seq<SectionValue>)
    requires PlacedUpTo(o, st, values, |values|)
    ensures values == ResolveBases(o, st).sections
  {
  }

  lemma GeneratedWords(op: Opcode, operands: Operands)
    requires Generate(op, operands).Some?
    ensures |Returned(Generate(op, operands).value)| > 0
  {
    if op.Set? {
      SetWords(operands.a, operands.b, operands.imm);
    }
  }

  lemma SetWords(dst: reg, temp: reg, x: u128)
    ensures |SetCode(dst, temp, x)| > 0
  {
    assert Lanes(false, dst, temp, x, 0)
        == Lanes(false, dst, temp, x, 1) + LoadLane(false, temp, SignedLane(x, 0))
           + Joining(dst, temp, High(x, 1) != 0);
  }

  lemma CodePrefix(output: seq<byte>, words: seq<u32>, k: nat)
    requires k < |words|
    ensures output + CodeBytes(words[..k + 1]) == output + CodeBytes(words[..k]) + Emitted(words[k])
    ensures |CodeBytes(words[..k + 1])| == |CodeBytes(words[..k])| + |Emitted(words[k])|
    ensures |CodeBytes(words[..k + 1])| <= |CodeBytes(words)|
  {
    assert words[..k + 1] == words[..k] + [words[k]];
    CodeBytesConcat(words[..k], [words[k]]);
    assert [words[k]][1..] == [];
    assert Emitted(words[k]) + [] == Emitted(words[k]);
    CodeBytesConcat(words[..k + 1], words[k + 1..]);
    assert words[..k + 1] + words[k + 1..] == words;
    ConcatAssociative(output, CodeBytes(words[..k]), Emitted(words[k]));
  }

  /** The state when `k` instructions have been added. */
  ghost predicate CodeAdded(st: State, words: seq<u32>, k: nat, values: seq<SectionValue>)
    requires Proper(st) && k <= |words|
  {
    var s, code := S.Current(st), CodeBytes(words[..k]);
    && |s.output| + |code| <= MAX_SIZE
    && values == st.sections[st.current := s.(output := s.output + code, code := s.code || k > 0)]
  }

  lemma CodeNotYet(st: State, words: seq<u32>)
    requires Proper(st) && |S.Current(st).output| <= MAX_SIZE
    ensures CodeAdded(st, words, 0, st.sections)
  {
    var s := S.Current(st);
    assert words[..0] == [] && s.output + CodeBytes(words[..0]) == s.output;
    assert st.sections[st.current := s] == st.sections;
  }

  /** One more instruction. */
  lemma CodeNext(st: State, words: seq<u32>, k: nat, values: seq<SectionValue>)
    requires Proper(st) && k < |words| && CodeAdded(st, words, k, values)
    ensures |values| == |st.sections|
    ensures var r := Emit(st.(sections := values), Bytes(CodeOutput, Emitted(words[k])));
      && (r.Ok? ==> CodeAdded(st, words, k + 1, r.value.sections) && r.value == st.(sections := r.value.sections))
      && (r.Thrown? ==> Emit(st, Bytes(CodeOutput, CodeBytes(words))).Thrown?)
  {
    var s, code, e := S.Current(st), CodeBytes(words[..k]), Emitted(words[k]);
    CodePrefix(s.output, words, k);
    EmitOne(st, values, s.(output := s.output + code, code := s.code || k > 0), e);
  }

  /** Emitting behind a replaced current section. */
  lemma EmitOne(st: State, values: seq<SectionValue>, s: SectionValue, e: seq<byte>)
    requires Proper(st) && values == st.sections[st.current := s]
    ensures Emit(st.(sections := values), Bytes(CodeOutput, e))
         == if |s.output| + |e| > MAX_SIZE then Thrown
            else Ok(st.(sections := st.sections[st.current := s.(output := s.output + e, code := true)]))
  {
    var s' := s.(output := s.output + e, code := true);
    assert values[st.current := s'] == st.sections[st.current := s'];
  }

  lemma CodeDone(st: State, words: seq<u32>, k: nat, values: seq<SectionValue>)
    requires Proper(st) && k == |words| > 0 && CodeAdded(st, words, k, values)
    ensures Emit(st, Bytes(CodeOutput, CodeBytes(words))) == Ok(st.(sections := values))
  {
    assert words[..k] == words;
  }

  class Assembler {
    const options: Options
    const files: Files
    var tokens: seq<Token>
    var index: nat
    var sections: seq<Section>
    var current: Section
    var lookup: map<string, S.Symbol>
    var schedule: map<string, seq<Fixup>>
    var globals: set<string>
    ghost var values: seq<SectionValue>
    ghost var repr: set<Section>

    /** Sections know their place in the order of creation, one of them is current, and `values` is up to date. */
    ghost predicate Valid()
      reads `sections, `current, `values, `repr, repr
    {
      && |values| == |sections|
      && (forall i :: 0 <= i < |sections| ==> sections[i] in repr)
      && (forall i :: 0 <= i < |sections| ==>
            sections[i].index == i && sections[i].Value() == values[i] && |values[i].output| <= MAX_SIZE)
      && current.index < |sections| && sections[current.index] == current
    }

    /** The section is one of this assembler's. */
    ghost predicate Holds(s: Section)
      reads `sections
    {
      s.index < |sections| && sections[s.index] == s
    }

    ghost function View(): State
      reads `current, `lookup, `schedule, `globals, `values
    {
      State(values, current.index, lookup, schedule, globals)
    }

    constructor (options: Options, files: Files)
      ensures Valid() && View() == Initial(options) && this.options == options && this.files == files
      ensures fresh(repr)
      ensures tokens == [] && index == 0
    {
      this.options, this.files, tokens, index := options, files, [], 0;
      lookup, schedule, globals := map[], map[], {};
      var text := new Section(".text", 0);
      sections, current := [text], text;
      new;
      text.SetBaseAddress(options.base);
      values, repr := [text.Value()], {text};
    }

    // ---- Sections and symbols -----------------------------------------------------------------------------

    /** Looks a section up by its name. */
    method FindNamed(name: string) returns (i: nat)
      requires Valid()
      ensures i == FindSection(values, name)
    {
      i := 0;
      assert values[0..] == values;
      while i < |sections| && sections[i].name != name
        invariant i <= |sections|
        invariant FindSection(values, name) == i + FindSection(values[i..], name)
      {
        FindFrom(values, i, name);
        i := i + 1;
      }
      if i < |sections| {
        assert values[i..][0] == values[i];
      } else {
        assert values[i..] == [];
      }
    }

    /** The section of that name, created when it is new, becomes the current one. */
    method SetSection(name: string)
      requires Valid()
      modifies `sections, `current, `values, `repr
      ensures Valid() && Proper(old(View())) && S.Step(old(View()), Switch(name)) == Ok(View())
      ensures fresh(repr - old(repr))
    {
      var i := FindNamed(name);
      if i < |sections| {
        current := sections[i];
      } else {
        var section := new Section(name, |sections|);
        sections, current, values := sections + [section], section, values + [EmptySection(name)];
        repr := repr + {section};
      }
    }

    /** A symbol that exists keeps its first binding. */
    method AddSymbolHere(name: string)
      requires Valid()
      modifies `lookup
      ensures Valid() && View() == old(View()).(symbols := lookup)
      ensures lookup
           == if name in old(lookup) then old(lookup) else old(lookup)[name := S.Symbol(CurrentLocation(), 0, 0)]
    {
      if name !in lookup {
        lookup := lookup[name := S.Symbol(CurrentLocation(), 0, 0)];
      }
    }

    /** The loop of `align_with_labels`. */
    method AddSymbolsHere(names: seq<string>)
      requires Valid()
      modifies `lookup
      ensures lookup == Bind(old(lookup), names, CurrentLocation())
    {
      var k := 0;
      BindNone(lookup, CurrentLocation());
      while k < |names|
        invariant k <= |names| && lookup == Bind(old(lookup), names[..k], CurrentLocation())
      {
        BindNext(old(lookup), names[..k], names[k], CurrentLocation());
        assert names[..k + 1] == names[..k] + [names[k]];
        AddSymbolHere(names[k]);
        k := k + 1;
      }
      assert names[..k] == names;
    }

    /** Bind the queued labels of `s` to where the current section ends. */
    method BindLabels(s: Section)
      requires Valid() && Holds(s)
      modifies `lookup, `values, s`queue
      ensures Valid() && s.index < |sections| && Proper(old(View())) && View() == Flush(old(View()), s.index)
    {
      AddSymbolsHere(s.queue);
      s.queue, values := [], values[s.index := values[s.index].(queue := [])];
    }

    /** Align section `s`, then bind its labels. */
    method AlignWithLabels(s: Section, alignment: u64) returns (ok: bool)
      requires Valid() && Holds(s) && (s == current || alignment <= 1)
      modifies `lookup, `values, s`output, s`queue
      ensures Proper(old(View())) && (ok ==> Valid())
      ensures s == current ==> (ok <==> S.AlignWithLabels(old(View()), alignment).Ok?)
      ensures s == current && ok ==> View() == S.AlignWithLabels(old(View()), alignment).value
      ensures alignment <= 1 ==> ok && s.index < |values| && View() == Flush(old(View()), s.index)
    {
      if alignment > 1 {
        ok := s.Align(alignment);
        if !ok {
          return;
        }
        values := values[s.index := s.Value()];
      }
      ok := true;
      BindLabels(s);
    }

    method Schedule(symbol: string, f: Fixup)
      requires Valid()
      modifies `schedule
      ensures Valid() && Proper(View()) && View() == S.Schedule(old(View()), symbol, f)
    {
      schedule := schedule[symbol := (if symbol in schedule then schedule[symbol] else []) + [f]];
    }

    /** `current_location()`. */
    function CurrentLocation(): Location
      reads `current, current`output
    {
      Location(current.index, |current.output|)
    }

    /** A lambda that captures the current location only. */
    method ScheduleHere(symbol: string, kind: Kind)
      requires Valid()
      modifies `schedule
      ensures Valid() && Proper(old(View()))
      ensures View() == S.Schedule(old(View()), symbol, PatchAt(kind, Here(old(View())), Here(old(View()))))
    {
      Schedule(symbol, PatchAt(kind, CurrentLocation(), CurrentLocation()));
    }

    // ---- The token cursor -----------------------------------------------------------------------------------

    method NextRegister() returns (ok: bool, r: reg)
      modifies `index
      ensures var p := T.NextRegister(tokens, old(index)); (ok <==> p.At?) && (ok ==> r == p.value && index == p.next)
    {
      ok, r := AtRegister(tokens, index), 0;
      if ok {
        r := tokens[index].body.r;
      }
      index := index + 1;
    }

    method NextConstant() returns (ok: bool, value: u128)
      modifies `index
      ensures var p := T.NextConstant(tokens, old(index));
        (ok <==> p.At?) && (ok ==> value == p.value && index == p.next)
    {
      ok, value := AtConstant(tokens, index), 0;
      if ok {
        value := tokens[index].body.constant;
      }
      index := index + 1;
    }

    method NextSymbol() returns (ok: bool, name: string)
      modifies `index
      ensures var p := T.NextSymbol(tokens, old(index)); (ok <==> p.At?) && (ok ==> name == p.value && index == p.next)
    {
      ok, name := AtSymbol(tokens, index), "";
      if ok {
        name := tokens[index].body.name;
      }
      index := index + 1;
    }

    method NextText() returns (ok: bool, text: string)
      modifies `index
      ensures var p := T.NextText(tokens, old(index)); (ok <==> p.At?) && (ok ==> text == p.value && index == p.next)
    {
      ok, text := index < |tokens| && tokens[index].body.Text?, "";
      if ok {
        text := tokens[index].body.value;
      }
      index := index + 1;
    }

    method NextDirective() returns (ok: bool, name: string)
      modifies `index
      ensures var p := T.NextDirective(tokens, old(index));
        (ok <==> p.At?) && (ok ==> name == p.value && index == p.next)
    {
      ok, name := index < |tokens| && tokens[index].body.Directive?, "";
      if ok {
        name := tokens[index].body.name;
      }
      index := index + 1;
    }

    /** The loop of `resolve_constants`: `op` is set once and stays, `negated` is used up by the next constant. */
    method ResolveConstants() returns (ok: bool, sum: u128)
      modifies `index
      ensures var p := Resolve(tokens, old(index)); (ok <==> p.At?) && (ok ==> sum == p.value && index == p.next)
    {
      ok, sum := NextConstant();
      if !ok {
        return;
      }
      ghost var start, first := index, sum;
      var op: Option<BinaryOp>, negated := None, false;
      while AtConstant(tokens, index) || AtOperator(tokens, index)
        invariant Chain(tokens, index, op, negated, sum) == Chain(tokens, start, None, false, first)
        decreases |tokens| - index
      {
        if AtConstant(tokens, index) {
          var value: u128 := tokens[index].body.constant;
          if negated {
            negated, value := false, Complement(value);
          }
          if op.None? {
            return false, sum;
          }
          var result := Apply(op.value, sum, value);
          if result.None? {
            return false, sum;
          }
          sum := result.value;
        } else if tokens[index].body.name == "~" {
          negated := !negated;
        } else {
          if op.Some? || BinaryOpOf(tokens[index].body.name).None? {
            return false, sum;
          }
          op := BinaryOpOf(tokens[index].body.name);
        }
        index := index + 1;
      }
    }

    // ---- Opcode handlers ------------------------------------------------------------------------------------

    /** A register and a label. */
    method ReadRegNamed() returns (ok: bool, a: reg, name: string)
      modifies `index
      ensures var p := ParseRegNamed(tokens, old(index));
        (ok <==> p.At?) && (ok ==> p.value == RegNamed(a, name) && index == p.next)
    {
      name := "";
      ok, a := NextRegister();
      if ok {
        ok, name := NextSymbol();
      }
    }

    /** Two registers and a label. */
    method ReadRegs2Named() returns (ok: bool, a: reg, b: reg, name: string)
      modifies `index
      ensures var p := ParseRegs2Named(tokens, old(index));
        (ok <==> p.At?) && (ok ==> p.value == Regs2Named(a, b, name) && index == p.next)
    {
      b, name := 0, "";
      ok, a := NextRegister();
      if ok {
        ok, b := NextRegister();
      }
      if ok {
        ok, name := NextSymbol();
      }
    }

    /** A register, if one comes next. */
    method TrailingRegister(default: reg) returns (r: reg)
      modifies `index
      ensures (r, index) == OptionalRegister(tokens, old(index), default)
    {
      r := default;
      if AtRegister(tokens, index) {
        var ok: bool;
        ok, r := NextRegister();
      }
    }

    method OpLi() returns (ok: bool, words: seq<u32>)
      requires Valid()
      modifies `index
      ensures Valid() && Handled(Li, tokens, old(index), index, old(View()), View(), ok, words)
    {
      words := [];
      var rd: reg;
      ok, rd := NextRegister();
      if !ok {
        return;
      }
      var imm: u128;
      ok, imm := ResolveConstants();
      if !ok {
        return;
      }
      words := BuildUint32([], rd, S32(imm));
      assert [] + LoadImm(rd, S32(imm)) == LoadImm(rd, S32(imm));
    }

    method OpSet() returns (ok: bool, words: seq<u32>)
      requires Valid()
      modifies `index
      ensures Valid() && Handled(Set, tokens, old(index), index, old(View()), View(), ok, words)
    {
      words := [];
      var dst: reg;
      ok, dst := NextRegister();
      if !ok {
        return;
      }
      var temp: reg;
      ok, temp := NextRegister();
      if !ok {
        return;
      }
      var imm: u128;
      ok, imm := ResolveConstants();
      if !ok {
        return;
      }
      words := BuildSet(dst, temp, imm);
    }

    method OpLa() returns (ok: bool, words: seq<u32>)
      requires Valid()
      modifies `index, `schedule
      ensures Valid() && Handled(LoadAddress, tokens, old(index), index, old(View()), View(), ok, words)
    {
      words := [];
      var rd: reg, name: string;
      ok, rd, name := ReadRegNamed();
      if !ok {
        return;
      }
      ScheduleHere(name, LaKind);
      words := [UType(RV32I_LUI, rd, 0), IType(RV32I_OP_IMM, rd, 0, rd, 0)];
    }

    method OpLaq() returns (ok: bool, words: seq<u32>)
      requires Valid()
      modifies `index, `schedule
      ensures Valid() && Handled(LoadAddressWide, tokens, old(index), index, old(View()), View(), ok, words)
    {
      words := [];
      var dst: reg, temp: reg, name: string;
      ok, dst, temp, name := ReadRegs2Named();
      if !ok {
        return;
      }
      ScheduleHere(name, LaqKind);
      words := BuildLaqPlaceholder(dst, temp);
    }

    method LoadHelper(f3: funct3) returns (ok: bool, words: seq<u32>)
      requires Valid()
      modifies `index
      ensures Valid() && Handled(Load(f3), tokens, old(index), index, old(View()), View(), ok, words)
    {
      words := [];
      var dst: reg;
      ok, dst := NextRegister();
      if !ok {
        return;
      }
      var imm: u128 := 0;
      if AtConstant(tokens, index) {
        ok, imm := ResolveConstants();
        if !ok {
          return;
        }
      }
      var src: reg;
      ok, src := NextRegister();
      if !ok {
        return;
      }
      words := [IType(RV32I_LOAD, dst, f3, src, imm)];
    }

    method StoreHelper(f3: funct3) returns (ok: bool, words: seq<u32>)
      requires Valid()
      modifies `index
      ensures Valid() && Handled(Store(f3), tokens, old(index), index, old(View()), View(), ok, words)
    {
      words := [];
      var dst: reg;
      ok, dst := NextRegister();
      if !ok {
        return;
      }
      var src: reg;
      ok, src := NextRegister();
      if !ok {
        return;
      }
      var imm: u128 := 0;
      if AtConstant(tokens, index) {
        ok, imm := ResolveConstants();
        if !ok {
          return;
        }
      }
      words := [SType(f3, dst, src, S64(imm))];
    }

    method BranchHelper(f3: funct3) returns (ok: bool, words: seq<u32>)
      requires Valid()
      modifies `index, `schedule
      ensures Valid() && Handled(BranchIf(f3), tokens, old(index), index, old(View()), View(), ok, words)
    {
      words := [];
      var r1: reg, r2: reg, name: string;
      ok, r1, r2, name := ReadRegs2Named();
      if !ok {
        return;
      }
      ScheduleHere(name, BranchKind);
      words := [BType(f3, r1, r2, 0)];
    }

    method OpFarCall() returns (ok: bool, words: seq<u32>)
      requires Valid()
      modifies `index, `schedule
      ensures Valid() && Handled(Opcode.FarCall, tokens, old(index), index, old(View()), View(), ok, words)
    {
      words := [];
      var r: reg, name: string;
      ok, r, name := ReadRegNamed();
      if !ok {
        return;
      }
      ScheduleHere(name, FarCallKind);
      words := [UType(RV32I_LUI, r, 0), IType(RV32I_JALR, 1, 0, r, 0)];
    }

    method OpCall() returns (ok: bool, words: seq<u32>)
      requires Valid()
      modifies `index, `schedule
      ensures Valid() && Handled(Call, tokens, old(index), index, old(View()), View(), ok, words)
    {
      words := [];
      if AtSymbol(tokens, index) {
        var name: string;
        ok, name := NextSymbol();
        ScheduleHere(name, JumpKind);
        var rd := TrailingRegister(1);
        words := [JType(rd, 0)];
      } else {
        var imm: u128;
        ok, imm := NextConstant();
        if !ok {
          return;
        }
        var rd := TrailingRegister(1);
        words := [JType(rd, S64(imm))];
      }
    }

    method OpJalr() returns (ok: bool, words: seq<u32>)
      requires Valid()
      modifies `index
      ensures Valid() && Handled(Jalr, tokens, old(index), index, old(View()), View(), ok, words)
    {
      var rs1 := TrailingRegister(0);
      var imm: u128 := 0;
      if AtConstant(tokens, index) {
        ok, imm := NextConstant();
      }
      var rd := TrailingRegister(0);
      ok, words := true, [IType(RV32I_JALR, rd, 0, rs1, imm)];
    }

    method OpJmp() returns (ok: bool, words: seq<u32>)
      requires Valid()
      modifies `index, `schedule
      ensures Valid() && Handled(Jmp, tokens, old(index), index, old(View()), View(), ok, words)
    {
      words := [];
      var name: string;
      ok, name := NextSymbol();
      if !ok {
        return;
      }
      ScheduleHere(name, JumpKind);
      words := [JType(0, 0)];
    }

    method ImmHelper(opcode: opcode7, f3: funct3) returns (ok: bool, words: seq<u32>)
      requires Valid()
      modifies `index
      ensures Valid() && Handled(Arithmetic(opcode, f3), tokens, old(index), index, old(View()), View(), ok, words)
    {
      words := [];
      var r: reg;
      ok, r := NextRegister();
      if !ok {
        return;
      }
      if AtConstant(tokens, index) {
        var imm: u128;
        ok, imm := ResolveConstants();
        if !ok || S64(imm) > 0x7FF || S64(imm) < -2048 {
          return false, [];
        }
        words := [IType(opcode, r, f3, r, imm)];
      } else {
        var r2: reg;
        ok, r2 := NextRegister();
        if !ok {
          return;
        }
        if AtRegister(tokens, index) {
          var r3: reg;
          ok, r3 := NextRegister();
          words := [RType(RegisterForm(opcode), r, f3, r2, r3, 0)];
        } else {
          words := [RType(RegisterForm(opcode), r, f3, r, r2, 0)];
        }
      }
    }

    method F7Helper(opcode: opcode7, f3: funct3, f7: funct7) returns (ok: bool, words: seq<u32>)
      requires Valid()
      modifies `index
      ensures Valid()
      ensures Handled(RegisterOnly(opcode, f3, f7), tokens, old(index), index, old(View()), View(), ok, words)
    {
      words := [];
      var r: reg;
      ok, r := NextRegister();
      if !ok {
        return;
      }
      var r2: reg;
      ok, r2 := NextRegister();
      if !ok {
        return;
      }
      if AtRegister(tokens, index) {
        var r3: reg;
        ok, r3 := NextRegister();
        words := [RType(opcode, r, f3, r2, r3, f7)];
      } else {
        words := [RType(opcode, r, f3, r, r2, f7)];
      }
    }

    method OpMov() returns (ok: bool, words: seq<u32>)
      requires Valid()
      modifies `index
      ensures Valid() && Handled(Mov, tokens, old(index), index, old(View()), View(), ok, words)
    {
      words := [];
      var rd: reg;
      ok, rd := NextRegister();
      if !ok {
        return;
      }
      var rs: reg;
      ok, rs := NextRegister();
      if !ok {
        return;
      }
      words := [IType(RV32I_OP_IMM, rd, 0, rs, 0)];
    }

    method OpInc() returns (ok: bool, words: seq<u32>)
      requires Valid()
      modifies `index
      ensures Valid() && Handled(Inc, tokens, old(index), index, old(View()), View(), ok, words)
    {
      words := [];
      var r: reg;
      ok, r := NextRegister();
      if !ok {
        return;
      }
      words := [IType(RV32I_OP_IMM, r, 0, r, 1)];
    }

    method OpSyscall() returns (ok: bool, words: seq<u32>)
      requires Valid()
      modifies `index
      ensures Valid() && Handled(Syscall, tokens, old(index), index, old(View()), View(), ok, words)
    {
      words := [];
      var imm: u128;
      ok, imm := ResolveConstants();
      if !ok {
        return;
      }
      words := [IType(RV32I_OP_IMM, 17, 0, 0, imm), IType(RV32I_SYSTEM, 0, 0, 0, 0)];
    }

    method OpSystem() returns (ok: bool, words: seq<u32>)
      requires Valid()
      modifies `index
      ensures Valid() && Handled(System, tokens, old(index), index, old(View()), View(), ok, words)
    {
      words := [];
      var f3: u128;
      ok, f3 := ResolveConstants();
      if !ok {
        return;
      }
      var imm: u128;
      ok, imm := ResolveConstants();
      if !ok {
        return;
      }
      words := [IType(RV32I_SYSTEM, 0, f3 % 8, 0, imm)];
    }

    /** `token.opcode->handler(*this)`. */
    method Handle(op: Opcode) returns (ok: bool, words: seq<u32>)
      requires Valid()
      modifies `index, `schedule
      ensures Valid() && Handled(op, tokens, old(index), index, old(View()), View(), ok, words)
    {
      match op {
        case Nop => ok, words := true, [IType(RV32I_OP_IMM, 0, 0, 0, 0)];
        case Set => ok, words := OpSet();
        case Li => ok, words := OpLi();
        case LoadAddress => ok, words := OpLa();
        case LoadAddressWide => ok, words := OpLaq();
        case Mov => ok, words := OpMov();
        case Inc => ok, words := OpInc();
        case Load(f3) => ok, words := LoadHelper(f3);
        case Ldu => ok, words := false, [];
        case Store(f3) => ok, words := StoreHelper(f3);
        case BranchIf(f3) => ok, words := BranchHelper(f3);
        case FarCall => ok, words := OpFarCall();
        case Call => ok, words := OpCall();
        case Jalr => ok, words := OpJalr();
        case Ret => ok, words := true, [IType(RV32I_JALR, 0, 0, 1, 0)];
        case Jmp => ok, words := OpJmp();
        case Arithmetic(opcode, f3) => ok, words := ImmHelper(opcode, f3);
        case RegisterOnly(opcode, f3, f7) => ok, words := F7Helper(opcode, f3, f7);
        case Syscall => ok, words := OpSyscall();
        case Ecall => ok, words := true, [IType(RV32I_SYSTEM, 0, 0, 0, 0)];
        case Ebreak => ok, words := true, [IType(RV32I_SYSTEM, 0, 0, 0, 1)];
        case Wfi => ok, words := true, [IType(RV32I_SYSTEM, 0, 0, 0, 0x105)];
        case System => ok, words := OpSystem();
      }
    }

    // ---- Emitting -------------------------------------------------------------------------------------------

    method AddOutput(kind: OutputType, bytes: seq<byte>) returns (ok: bool)
      requires Valid()
      modifies `values, current`output, current`code, current`data
      ensures Proper(old(View())) && (ok ==> Valid())
      ensures ok <==> Emit(old(View()), Bytes(kind, bytes)).Ok?
      ensures ok ==> View() == Emit(old(View()), Bytes(kind, bytes)).value
    {
      ok := current.AddOutput(kind, bytes);
      values := values[current.index := current.Value()];
    }

    method AllocateHere(count: u64) returns (ok: bool)
      requires Valid()
      modifies `values, current`output, current`resv
      ensures Proper(old(View())) && (ok ==> Valid())
      ensures ok <==> Emit(old(View()), Zeros(count)).Ok?
      ensures ok ==> View() == Emit(old(View()), Zeros(count)).value
    {
      ok := current.Allocate(count);
      values := values[current.index := current.Value()];
    }

    /** The loop of `assemble` over the instructions of a handler. */
    method AddCode(words: seq<u32>) returns (ok: bool)
      requires Valid() && |words| > 0
      modifies `values, current`output, current`code, current`data
      ensures Proper(old(View())) && (ok ==> Valid())
      ensures ok <==> Emit(old(View()), Bytes(CodeOutput, CodeBytes(words))).Ok?
      ensures ok ==> View() == Emit(old(View()), Bytes(CodeOutput, CodeBytes(words))).value
    {
      ghost var st := View();
      CodeNotYet(st, words);
      var k := 0;
      while k < |words|
        invariant 0 <= k <= |words| && Valid() && View() == st.(sections := values)
        invariant CodeAdded(st, words, k, values)
      {
        CodeNext(st, words, k, values);
        ok := AddOutput(CodeOutput, Emitted(words[k]));
        if !ok {
          return;
        }
        k := k + 1;
      }
      CodeDone(st, words, k, values);
      ok := true;
    }

    // ---- Statements -----------------------------------------------------------------------------------------

    /** `TK_OPCODE`: align, run the handler, add its instructions. */
    method OpcodeToken(op: Opcode) returns (ok: bool)
      requires Valid()
      modifies `index, `lookup, `schedule, `values, current
      ensures Proper(old(View())) && (ok ==> Valid())
      ensures var r := OpcodeResult(op, tokens, old(index), old(View()));
        (ok <==> r.Ok?) && (ok ==> r.value == Point(View(), index))
    {
      ok := AlignWithLabels(current, 4);
      if !ok {
        NeverAligned(op, tokens, old(index), old(View()));
        return;
      }
      ghost var st1 := View();
      var words: seq<u32>;
      ok, words := Handle(op);
      OpcodeDone(op, tokens, old(index), index, old(View()), st1, View(), ok, words);
      if ok {
        ok := AddCode(words);
      }
    }

    /** Data after alignment and labels. */
    method AlignedOutput(alignment: u64, bytes: seq<byte>) returns (ok: bool)
      requires Valid()
      modifies `lookup, `values, current
      ensures Proper(old(View())) && (ok ==> Valid())
      ensures var r := S.Step(old(View()), Block(alignment, true, Bytes(DataOutput, bytes)));
        (ok <==> r.Ok?) && (ok ==> r.value == View())
    {
      ok := AlignWithLabels(current, alignment);
      if ok {
        ok := AddOutput(DataOutput, bytes);
      }
    }

    /** Reserved space after alignment and labels. */
    method AlignedAllocate(alignment: u64, count: u64) returns (ok: bool)
      requires Valid()
      modifies `lookup, `values, current
      ensures Proper(old(View())) && (ok ==> Valid())
      ensures var r := S.Step(old(View()), Block(alignment, true, Zeros(count)));
        (ok <==> r.Ok?) && (ok ==> r.value == View())
    {
      ok := AlignWithLabels(current, alignment);
      if ok {
        ok := AllocateHere(count);
      }
    }

    method DirectiveAlign() returns (ok: bool)
      requires Valid()
      modifies `index, `values, current`output
      ensures Proper(old(View())) && (ok ==> Valid())
      ensures var r := DirectiveResult(AlignDirective, tokens, old(index), old(View()));
        (ok <==> r.Ok?) && (ok ==> r.value == Point(View(), index))
    {
      var value: u128;
      ok, value := NextConstant();
      if !ok {
        return;
      }
      ok := current.Align(value % 0x1_0000_0000_0000_0000);
      values := values[current.index := current.Value()];
    }

    method DirectiveEndFunc() returns (ok: bool)
      requires Valid()
      modifies `index, `schedule
      ensures Proper(old(View())) && (ok ==> Valid())
      ensures var r := DirectiveResult(EndFuncDirective, tokens, old(index), old(View()));
        (ok <==> r.Ok?) && (ok ==> r.value == Point(View(), index))
    {
      var symbol: string;
      ok, symbol := NextSymbol();
      if !ok {
        return;
      }
      Schedule(symbol, SetEnd(CurrentLocation()));
    }

    method DirectiveFinishLabels() returns (ok: bool)
      requires Valid()
      modifies `lookup, `values, current
      ensures Proper(old(View())) && (ok ==> Valid())
      ensures var r := DirectiveResult(FinishLabels, tokens, old(index), old(View()));
        (ok <==> r.Ok?) && (ok ==> r.value == Point(View(), index))
    {
      ok := AlignWithLabels(current, 0);
    }

    method DirectiveGlobal() returns (ok: bool)
      requires Valid()
      modifies `index, `globals
      ensures Proper(old(View())) && (ok ==> Valid())
      ensures var r := DirectiveResult(GlobalDirective, tokens, old(index), old(View()));
        (ok <==> r.Ok?) && (ok ==> r.value == Point(View(), index))
    {
      var symbol: string;
      ok, symbol := NextSymbol();
      if !ok {
        return;
      }
      globals := globals + {symbol};
    }

    method DirectiveSection() returns (ok: bool)
      requires Valid()
      modifies `index, `sections, `current, `values, `repr
      ensures Proper(old(View())) && (ok ==> Valid())
      ensures var r := DirectiveResult(SectionDirective, tokens, old(index), old(View()));
        (ok <==> r.Ok?) && (ok ==> r.value == Point(View(), index))
      ensures fresh(repr - old(repr))
    {
      var name: string;
      ok, name := NextDirective();
      if !ok {
        return;
      }
      SetSection(name);
    }

    method DirectiveOrg() returns (ok: bool)
      requires Valid()
      modifies `index, `values, current
      ensures Proper(old(View())) && (ok ==> Valid())
      ensures var r := DirectiveResult(OrgDirective, tokens, old(index), old(View()));
        (ok <==> r.Ok?) && (ok ==> r.value == Point(View(), index))
    {
      var value: u128;
      ok, value := NextConstant();
      if !ok {
        return;
      }
      if |current.output| > 0 {
        return false;
      }
      current.SetBaseAddress(value);
      values := values[current.index := current.Value()];
    }

    method DirectiveExecOnly() returns (ok: bool)
      requires Valid()
      modifies `values, current
      ensures Proper(old(View())) && (ok ==> Valid())
      ensures var r := DirectiveResult(ExecOnlyDirective, tokens, old(index), old(View()));
        (ok <==> r.Ok?) && (ok ==> r.value == Point(View(), index))
    {
      current.MakeExecOnly();
      values := values[current.index := current.Value()];
      ok := true;
    }

    method DirectiveReadOnly() returns (ok: bool)
      requires Valid()
      modifies `values, current
      ensures Proper(old(View())) && (ok ==> Valid())
      ensures var r := DirectiveResult(ReadOnlyDirective, tokens, old(index), old(View()));
        (ok <==> r.Ok?) && (ok ==> r.value == Point(View(), index))
    {
      current.MakeReadOnly();
      values := values[current.index := current.Value()];
      ok := true;
    }

    method DirectiveType() returns (ok: bool)
      requires Valid()
      modifies `index, `schedule
      ensures Proper(old(View())) && (ok ==> Valid())
      ensures var r := DirectiveResult(TypeDirective, tokens, old(index), old(View()));
        (ok <==> r.Ok?) && (ok ==> r.value == Point(View(), index))
    {
      var symbol: string;
      ok, symbol := NextSymbol();
      if !ok {
        return;
      }
      var info: string;
      ok, info := NextSymbol();
      if !ok {
        return;
      }
      if info == "object" {
        Schedule(symbol, SetType(STT_OBJECT));
      } else if info == "func" || info == "function" {
        Schedule(symbol, SetType(STT_FUNC));
      } else {
        ok := false;
      }
    }

    /** The length is filled in later. */
    method DirectiveSize() returns (ok: bool)
      requires Valid()
      modifies `index, `lookup, `schedule, `values, current
      ensures Proper(old(View())) && (ok ==> Valid())
      ensures var r := DirectiveResult(SizeDirective, tokens, old(index), old(View()));
        (ok <==> r.Ok?) && (ok ==> r.value == Point(View(), index))
    {
      SizeResult(tokens, index, View(), T.NextSymbol(tokens, index));
      var symbol: string;
      ok, symbol := NextSymbol();
      if !ok {
        return;
      }
      var before := CurrentLocation();
      SizeRest(symbol, View());
      ok := AlignWithLabels(current, 4);
      if !ok {
        return;
      }
      Schedule(symbol, PatchAt(SizeKind, CurrentLocation(), before));
      ok := AddOutput(DataOutput, [0, 0, 0, 0]);
    }

    method DirectiveString() returns (ok: bool)
      requires Valid()
      modifies `index, `lookup, `values, current
      ensures Proper(old(View())) && (ok ==> Valid())
      ensures var r := DirectiveResult(StringDirective, tokens, old(index), old(View()));
        (ok <==> r.Ok?) && (ok ==> r.value == Point(View(), index))
    {
      var text: string;
      ok, text := NextText();
      if !ok {
        return;
      }
      ok := AlignedOutput(0, StringBytes(text) + [0]);
    }

    method DirectiveStrlen() returns (ok: bool)
      requires Valid()
      modifies `index, `lookup, `values, current
      ensures Proper(old(View())) && (ok ==> Valid())
      ensures var r := DirectiveResult(StrlenDirective, tokens, old(index), old(View()));
        (ok <==> r.Ok?) && (ok ==> r.value == Point(View(), index))
    {
      var text: string;
      ok, text := NextText();
      if !ok {
        return;
      }
      ok := AlignedOutput(4, LittleEndian(|text|, 4));
    }

    method DirectiveAscii() returns (ok: bool)
      requires Valid()
      modifies `index, `lookup, `values, current
      ensures Proper(old(View())) && (ok ==> Valid())
      ensures var r := DirectiveResult(AsciiDirective, tokens, old(index), old(View()));
        (ok <==> r.Ok?) && (ok ==> r.value == Point(View(), index))
    {
      var text: string;
      ok, text := NextText();
      if !ok {
        return;
      }
      ok := AlignedOutput(0, StringBytes(text));
    }

    /** `directive`, but for `.include`. */
    method Directive(name: string) returns (ok: bool)
      requires Valid() && DirectiveOf(name) != IncludeDirective
      modifies `index, `sections, `current, `lookup, `schedule, `globals, `values, `repr, current
      ensures Proper(old(View())) && (ok ==> Valid())
      ensures var r := DirectiveResult(DirectiveOf(name), tokens, old(index), old(View()));
        (ok <==> r.Ok?) && (ok ==> r.value == Point(View(), index))
      ensures fresh(repr - old(repr))
    {
      match DirectiveOf(name) {
        case AlignDirective => ok := DirectiveAlign();
        case EndFuncDirective => ok := DirectiveEndFunc();
        case FinishLabels => ok := DirectiveFinishLabels();
        case GlobalDirective => ok := DirectiveGlobal();
        case SectionDirective => ok := DirectiveSection();
        case OrgDirective => ok := DirectiveOrg();
        case ExecOnlyDirective => ok := DirectiveExecOnly();
        case ReadOnlyDirective => ok := DirectiveReadOnly();
        case TypeDirective => ok := DirectiveType();
        case SizeDirective => ok := DirectiveSize();
        case StringDirective => ok := DirectiveString();
        case StrlenDirective => ok := DirectiveStrlen();
        case AsciiDirective => ok := DirectiveAscii();
        case UnknownDirective => ok := true;
      }
    }

    method PseudoData(size: unit) returns (ok: bool)
      requires Valid()
      modifies `index, `lookup, `values, current
      ensures Proper(old(View())) && (ok ==> Valid())
      ensures var r := PseudoResult(Data(size), tokens, old(index), old(View()), files);
        (ok <==> r.Ok?) && (ok ==> r.value == Point(View(), index))
    {
      var value: u128;
      ok, value := NextConstant();
      if !ok {
        return;
      }
      if size == 1 {
        ok := AddOutput(DataOutput, LittleEndian(Low64(value), size));
      } else {
        ok := AlignedOutput(size, LittleEndian(Low64(value), size));
      }
    }

    method PseudoReserve(size: unit) returns (ok: bool)
      requires Valid()
      modifies `index, `lookup, `values, current
      ensures Proper(old(View())) && (ok ==> Valid())
      ensures var r := PseudoResult(Reserve(size), tokens, old(index), old(View()), files);
        (ok <==> r.Ok?) && (ok ==> r.value == Point(View(), index))
    {
      var value: u128;
      ok, value := NextConstant();
      if !ok {
        return;
      }
      if size == 1 {
        ok := AllocateHere(Times(value, size));
      } else {
        ok := AlignedAllocate(size, Times(value, size));
      }
    }

    method PseudoIncbin() returns (ok: bool)
      requires Valid()
      modifies `index, `lookup, `values, current
      ensures Proper(old(View())) && (ok ==> Valid())
      ensures var r := PseudoResult(Incbin, tokens, old(index), old(View()), files);
        (ok <==> r.Ok?) && (ok ==> r.value == Point(View(), index))
    {
      var text: string;
      ok, text := NextText();
      if !ok {
        return;
      }
      if text !in files.blobs {
        return false;
      }
      ok := AlignedOutput(1, files.blobs[text]);
    }

    /** `token.pseudoop->handler(*this)`. */
    method PseudoToken(op: PseudoOp) returns (ok: bool)
      requires Valid()
      modifies `index, `lookup, `values, current
      ensures Proper(old(View())) && (ok ==> Valid())
      ensures var r := PseudoResult(op, tokens, old(index), old(View()), files);
        (ok <==> r.Ok?) && (ok ==> r.value == Point(View(), index))
    {
      match op {
        case Data(size) => ok := PseudoData(size);
        case Reserve(size) => ok := PseudoReserve(size);
        case Incbin => ok := PseudoIncbin();
      }
    }

    /** One token that starts a statement other than `.include`, with the cursor behind it. */
    method Token(body: Body) returns (ok: bool)
      requires Valid() && 0 < index <= |tokens| && tokens[index - 1].body == body && !IsInclude(tokens[index - 1])
      modifies `index, `sections, `current, `lookup, `schedule, `globals, `values, `repr, current
      ensures Proper(old(View())) && (ok ==> Valid())
      ensures var p := TokenResult(tokens, old(index) - 1, old(View()), files);
        (ok <==> p.Ok?) && (ok ==> p.value == Point(View(), index))
      ensures fresh(repr - old(repr))
    {
      match body {
        case Directive(name) => ok := Directive(name);
        case Label(name) =>
          current.AddLabelSoon(name);
          values := values[current.index := current.Value()];
          ok := true;
        case Op(op) => ok := OpcodeToken(op);
        case Pseudo(op) => ok := PseudoToken(op);
        case _ => ok := false;
      }
    }

    /** `.include`: the tokens of the file, then back to these. */
    method Include(depth: nat) returns (ok: bool)
      requires Valid()
      modifies this, repr
      ensures Proper(old(View())) && (ok ==> Valid())
      ensures (ok <==> old(IncludeResult(tokens, index, depth, files, View())).Ok?)
      ensures ok ==> old(IncludeResult(tokens, index, depth, files, View())).value == Point(View(), index)
      ensures ok ==> tokens == old(tokens)
      ensures fresh(repr - old(repr))
      decreases depth, 0
    {
      var name: string;
      ok, name := NextText();
      if !ok || name !in files.sources || depth == 0 {
        return false;
      }
      ok := Assemble(files.sources[name], depth - 1);
    }

    /** One round of the loop of `assemble`. */
    method Statement(depth: nat) returns (ok: bool)
      requires Valid() && index < |tokens|
      modifies this, repr
      ensures Proper(old(View())) && (ok ==> Valid() && tokens == old(tokens))
      ensures ok <==> old(StatementResult(tokens, index, depth, files, View())).Ok?
      ensures ok ==> old(StatementResult(tokens, index, depth, files, View())).value == Point(View(), index)
      ensures fresh(repr - old(repr))
      decreases depth, 1
    {
      var token := tokens[index];
      index := index + 1;
      if IsInclude(token) {
        ok := Include(depth);
      } else {
        ok := Token(token.body);
      }
    }

    /** The loop of `assemble`. */
    method Run(depth: nat, ghost r: Result<State>) returns (ok: bool)
      requires Valid() && index <= |tokens| && Leads(tokens, index, depth, files, View(), r)
      modifies this, repr
      ensures (ok ==> Valid()) && (ok <==> r.Ok?) && (ok ==> r.value == View())
      ensures fresh(repr - old(repr))
      decreases depth, 2
    {
      while index < |tokens|
        invariant Valid() && tokens == old(tokens) && index <= |tokens|
        invariant Leads(tokens, index, depth, files, View(), r)
        invariant fresh(repr - old(repr))
        decreases |tokens| - index
      {
        LeadsOn(tokens, index, depth, files, View(), r);
        ok := Statement(depth);
        if !ok {
          return;
        }
      }
      LeadsToEnd(tokens, index, depth, files, View(), r);
      ok := true;
    }

    /** `assemble`: runs a token list and restores the cursor. */
    method Assemble(ts: seq<Token>, depth: nat) returns (ok: bool)
      requires Valid()
      modifies this, repr
      ensures Proper(old(View())) && (ok ==> Valid())
      ensures var r := RunFrom(ts, 0, depth, files, old(View())); (ok <==> r.Ok?) && (ok ==> r.value == View())
      ensures ok ==> tokens == old(tokens) && index == old(index)
      ensures fresh(repr - old(repr))
      decreases depth, 3
    {
      var prevTokens, prevIndex := tokens, index;
      tokens, index := ts, 0;
      ok := Run(depth, RunFrom(ts, 0, depth, files, View()));
      if ok {
        tokens, index := prevTokens, prevIndex;
      }
    }

    // ---- finish ---------------------------------------------------------------------------------------------

    /** The labels that are still queued. */
    method FlushLabels()
      requires Valid()
      modifies `lookup, `values, repr
      ensures Valid() && Proper(old(View())) && View() == FlushAll(old(View()), |sections|)
    {
      ghost var st := View();
      var i := 0;
      while i < |sections|
        invariant i <= |sections| == |st.sections| && Valid() && View() == FlushAll(st, i)
      {
        var ok := AlignWithLabels(sections[i], 1);
        i := i + 1;
      }
    }

    /** One round of the loop of `resolve_base_addresses`. */
    method PlaceSection(i: nat, before: u128, executable: bool, readonly: bool)
      returns (address: u128, wasExecutable: bool, wasReadonly: bool)
      requires Valid() && i < |sections|
      modifies `values, sections[i]
      ensures Valid() && View() == old(View()).(sections := values)
      ensures var c, e := Cursor(before, executable, readonly), ExtentOf(old(values)[i]);
        && Cursor(address, wasExecutable, wasReadonly) == Advance(options, c, e)
        && values == old(values)[i := old(values)[i].(base := BaseFrom(options, c, e), based := true)]
    {
      var s := sections[i];
      var e := Extent(|s.output|, s.code, s.readonly, s.based, s.base);
      var base: u128;
      base, address, wasExecutable, wasReadonly := PlaceExtent(options, e, before, executable, readonly);
      s.SetBaseAddress(base);
      values := values[i := s.Value()];
    }

    /** Base addresses, in the order in which the sections were created. */
    method ResolveBaseAddresses()
      requires Valid()
      modifies `values, repr
      ensures Valid() && View() == ResolveBases(options, old(View()))
    {
      ghost var st := View();
      var address, wasExecutable, wasReadonly := options.base, false, false;
      var i := 0;
      while i < |sections|
        invariant i <= |sections| && Valid() && View() == st.(sections := values)
        invariant Cursor(address, wasExecutable, wasReadonly) == Before(options, Extents(st.sections), i)
        invariant PlacedUpTo(options, st, values, i)
      {
        PlacedNext(options, st, values, i, Cursor(address, wasExecutable, wasReadonly));
        address, wasExecutable, wasReadonly := PlaceSection(i, address, wasExecutable, wasReadonly);
        i := i + 1;
      }
      AllPlaced(options, st, values);
    }

    /** `address()` of a location. */
    method AddressAt(at: Location) returns (address: u128)
      requires Valid() && at.section < |sections|
      ensures address == AddressOf(values, at)
    {
      var sum: int := sections[at.section].base + at.offset;
      address := Wrap(sum);
    }

    /** The bytes of a fixup, written in place. */
    method PatchSection(kind: Kind, at: Location, pc: u128, target: u128, origin: u128) returns (ok: bool,
                        ghost now: seq<byte>)
      requires Valid() && at.section < |sections| && at.offset + Width(kind) <= |values[at.section].output|
      modifies `values, sections[at.section]
      ensures ok <==> !Rejects(kind, pc, target)
      ensures ok ==> Valid() && View() == old(View()).(sections := values)
      ensures ok ==> Patches(kind, at.offset, pc, target, origin, old(values)[at.section].output, now)
      ensures ok ==> values == old(values)[at.section := old(values)[at.section].(output := now)]
    {
      var s := sections[at.section];
      ok := ApplyFixup(s, at.offset, kind, pc, target, origin);
      now := s.output;
      values := values[at.section := s.Value()];
    }

    /** A fixup that writes bytes. */
    method RunPatch(name: string, kind: Kind, at: Location, before: Location) returns (ok: bool)
      requires Valid() && name in lookup && lookup[name].at.section < |sections|
      modifies `lookup, `values, repr
      ensures ok ==> Valid()
      ensures var r := S.RunFixup(old(View()), name, PatchAt(kind, at, before));
        (ok <==> r.Ok?) && (ok ==> r.value == View())
    {
      if at.section >= |sections| || before.section >= |sections|
         || at.offset + Width(kind) > |sections[at.section].output| {
        NoPatch(View(), name, kind, at, before);
        return false;
      }
      ghost var st, pc, target, origin, now := View(), 0, 0, 0, [];
      ok, pc, target, origin, now := PatchNow(name, kind, at, before);
      PatchResult(st, name, kind, at, before, pc, target, origin, now);
    }

    method SetSize(name: string, size: nat)
      requires Valid() && name in lookup
      modifies `lookup
      ensures Valid() && View() == old(View()).(symbols := old(lookup)[name := old(lookup)[name].(size := size)])
    {
      lookup := lookup[name := lookup[name].(size := size)];
    }

    method PatchNow(name: string, kind: Kind, at: Location, before: Location)
      returns (ok: bool, ghost pc: u128, ghost target: u128, ghost origin: u128, ghost now: seq<byte>)
      requires Valid() && name in lookup && lookup[name].at.section < |sections|
      requires PatchInRange(View(), kind, at, before)
      modifies `lookup, `values, repr
      ensures ok ==> Valid()
      ensures pc == AddressOf(old(values), at) && origin == AddressOf(old(values), before)
      ensures target == AddressOf(old(values), old(lookup)[name].at) && (ok <==> !Rejects(kind, pc, target))
      ensures ok ==> Patches(kind, at.offset, pc, target, origin, old(values)[at.section].output, now)
      ensures ok ==> View() == WithPatch(old(View()), name, kind, at.section, now, SizeValue(pc, target, origin))
    {
      var t := AddressAt(lookup[name].at);
      var p := AddressAt(at);
      var b := AddressAt(before);
      pc, target, origin := p, t, b;
      ok, now := PatchSection(kind, at, p, t, b);
      if ok && kind.SizeKind? {
        SetSize(name, SizeValue(p, t, b));
      }
    }

    /** One scheduled lambda. */
    method RunFixup(name: string, f: Fixup) returns (ok: bool)
      requires Valid()
      modifies `lookup, `values, repr
      ensures ok ==> Valid()
      ensures var r := S.RunFixup(old(View()), name, f); (ok <==> r.Ok?) && (ok ==> r.value == View())
    {
      if name !in lookup || lookup[name].at.section >= |sections| {
        return false;
      }
      match f {
        case SetType(t) =>
          lookup := lookup[name := lookup[name].(symbolType := t)];
          ok := true;
        case SetEnd(at) =>
          if at.section >= |sections| {
            return false;
          }
          var end := AddressAt(at);
          var start := AddressAt(lookup[name].at);
          var size: int := (end as int) - start;
          lookup := lookup[name := lookup[name].(size := size % 0x1_0000_0000_0000_0000, symbolType := STT_FUNC)];
          ok := true;
        case PatchAt(kind, at, before) =>
          ok := RunPatch(name, kind, at, before);
      }
    }

    /** The inner loop of `finish_scheduled_work`: the lambdas of one symbol. */
    method RunAll(name: string, fixups: seq<Fixup>) returns (ok: bool)
      requires Valid()
      modifies `lookup, `values, repr
      ensures ok ==> Valid()
      ensures var r := RunEntries(old(View()), EntriesFor(name, fixups)); (ok <==> r.Ok?) && (ok ==> r.value == View())
    {
      ghost var st := View();
      var k := 0;
      assert EntriesFor(name, fixups[..0]) == [];
      while k < |fixups|
        invariant k <= |fixups| && Valid()
        invariant RunEntries(st, EntriesFor(name, fixups[..k])) == Ok(View())
      {
        EntriesForPrefix(name, fixups, k, st, View());
        ok := RunFixup(name, fixups[k]);
        if !ok {
          return;
        }
        k := k + 1;
      }
      assert fixups[..k] == fixups;
      ok := true;
    }

    /** `finish_scheduled_work`. The symbols come in some order; `names` says which. */
    method FinishScheduledWork() returns (ok: bool, ghost names: seq<string>)
      requires Valid()
      modifies `lookup, `values, repr
      ensures Enumerates(names, schedule.Keys) && (ok ==> Valid())
      ensures var r := RunEntries(old(View()), Entries(names, schedule)); (ok <==> r.Ok?) && (ok ==> r.value == View())
    {
      ghost var st := View();
      var todo := schedule.Keys;
      names := [];
      while todo != {}
        invariant Valid() && todo <= schedule.Keys && Enumerates(names, schedule.Keys - todo)
        invariant RunEntries(st, Entries(names, schedule)) == Ok(View())
        decreases todo
      {
        var n :| n in todo;
        NextSymbolRuns(st, View(), names, n, schedule);
        EnumeratesConcat(names, [n], schedule.Keys - todo, {n});
        ok := RunAll(n, schedule[n]);
        names, todo := names + [n], todo - {n};
        assert schedule.Keys - todo == schedule.Keys - (todo + {n}) + {n};
        if !ok {
          ghost var rest := Enumeration(todo);
          EnumeratesConcat(names, rest, schedule.Keys - todo, todo);
          assert schedule.Keys - todo + todo == schedule.Keys;
          FailsOn(st, names, rest, schedule);
          names := names + rest;
          return;
        }
      }
      assert schedule.Keys - todo == schedule.Keys;
      ok := true;
    }

    method Finish() returns (ok: bool, ghost names: seq<string>)
      requires Valid()
      modifies `lookup, `values, repr
      ensures Enumerates(names, schedule.Keys) && Proper(old(View())) && (ok ==> Valid())
      ensures var r := S.Finish(options, old(View()), names); (ok <==> r.Ok?) && (ok ==> r.value == View())
    {
      FlushLabels();
      ResolveBaseAddresses();
      ok, names := FinishScheduledWork();
    }
  }
}
