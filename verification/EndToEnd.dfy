/**
 From source to execution: what the processor does when it fetches the bytes that the assembler wrote for
 an item that names a label, at the address where they ended up.
*/
module EndToEnd {
  import opened Words
  import opened Results
  import opened Instructions
  import opened Immediates
  import opened WideConstants
  import opened References
  import opened Reach
  import opened Tokens
  import opened Grammar
  import opened Items
  import opened Layout
  import opened State
  import opened TwoPass
  import opened Refinement
  import opened Planning
  import opened Equivalence
  import opened LabelBinding
  import I = Instructions
  import Machine

  // ---- Fetching -----------------------------------------------------------------------------------------

  /** The instruction at an address, if it is in the section. */
  function Fetch(s: SectionValue, a: u128): Option<u32> {
    var offset := Wrap(a - s.base);
    if offset + 4 <= |s.output| then Some(Word4(s.output[offset..offset + 4])) else None
  }

  /** `n` instructions, fetched one by one at the program counter. */
  function RunIn(s: SectionValue, m: Machine.Core, n: nat): Option<Machine.Core>
    decreases n
  {
    if n == 0 then Some(m)
    else
      var w :- Fetch(s, m.pc);
      var m1 :- Machine.Step(m, w);
      RunIn(s, m1, n - 1)
  }

  /** Running `n` instructions from memory leads from `m` to `m'`. */
  ghost predicate RunsIn(s: SectionValue, m: Machine.Core, n: nat, m': Machine.Core) {
    forall c: Machine.Core :: c == m ==> RunIn(s, c, n) == Some(m')
  }

  /** Not a jump or branch. */
  predicate Straight(w: u32) {
    I.Opcode(w) != RV32I_JAL && I.Opcode(w) != RV32I_JALR && I.Opcode(w) != RV32I_BRANCH
  }

  ghost predicate StraightLine(code: seq<u32>) {
    FullLength(code) && forall i :: 0 <= i < |code| ==> Straight(code[i])
  }

  lemma StraightAdvances(m: Machine.Core, w: u32)
    requires Straight(w) && Machine.Step(m, w).Some?
    ensures Machine.Step(m, w).value.pc == Wrap(m.pc + 4)
  {
  }

  /** Where the bytes of code lie at the program counter, fetching finds the first instruction. */
  lemma FetchesFirst(s: SectionValue, pc: u128, w: u32, rest: seq<byte>, offset: nat)
    requires offset + 4 + |rest| <= |s.output| && offset < P128
    requires pc == Wrap(s.base + offset) && s.output[offset..offset + 4 + |rest|] == Bytes4(w) + rest
    ensures Fetch(s, pc) == Some(w) && s.output[offset + 4..offset + 4 + |rest|] == rest
  {
    WrapAdd(s.base + offset, 0 - (s.base as int));
    ModUnique(offset, P128, 0, offset);
    var bytes := s.output[offset..offset + 4 + |rest|];
    assert s.output[offset..offset + 4] == bytes[..4] == Bytes4(w);
    assert s.output[offset + 4..offset + 4 + |rest|] == bytes[4..] == rest;
    Word4RoundTrip(w);
  }

  lemma RunsInNone(s: SectionValue, m: Machine.Core)
    ensures RunsIn(s, m, 0, m)
  {
  }

  lemma RunInStep(s: SectionValue, m: Machine.Core, n: nat, w: u32, m1: Machine.Core, m': Machine.Core)
    requires Fetch(s, m.pc) == Some(w) && Machine.Step(m, w) == Some(m1) && RunIn(s, m1, n) == Some(m')
    ensures RunIn(s, m, n + 1) == Some(m')
  {
  }

  lemma RunsInStep(s: SectionValue, m: Machine.Core, n: nat, w: u32, m1: Machine.Core, m': Machine.Core)
    requires Fetch(s, m.pc) == Some(w) && Machine.Step(m, w) == Some(m1) && RunsIn(s, m1, n, m')
    ensures RunsIn(s, m, n + 1, m')
  {
    assert RunIn(s, m1, n) == Some(m');
    RunInStep(s, m, n, w, m1, m');
  }

  lemma RunFirst(m: Machine.Core, code: seq<u32>, m': Machine.Core) returns (m1: Machine.Core)
    requires code != [] && StraightLine(code) && Machine.Runs(m, code, m')
    ensures Machine.Step(m, code[0]) == Some(m1) && Machine.Runs(m1, code[1..], m') && m1.pc == Wrap(m.pc + 4)
    ensures StraightLine(code[1..])
  {
    assert Machine.Run(m, code) == Some(m');
    StraightAdvances(m, code[0]);
    m1 := Machine.Step(m, code[0]).value;
  }

  lemma CodeFirst(code: seq<u32>)
    requires code != [] && FullLength(code)
    ensures CodeBytes(code) == Bytes4(code[0]) + CodeBytes(code[1..])
  {
    assert Emitted(code[0]) == Bytes4(code[0]);
  }

  lemma NextPlace(base: u128, offset: nat, pc: u128)
    requires pc == Wrap(base + offset)
    ensures Wrap(pc + 4) == Wrap(base + (offset + 4))
  {
    WrapAdd(base + offset, 4);
  }

  /** The bytes lie in the section, at the address `pc`. */
  ghost predicate Installed(s: SectionValue, offset: nat, pc: u128, bytes: seq<byte>) {
    |s.output| <= MAX_SIZE && pc == Wrap(s.base + offset) && LiesAt(s.output, offset, bytes)
  }

  lemma InstalledFirst(s: SectionValue, offset: nat, pc: u128, w: u32, rest: seq<byte>)
    requires Installed(s, offset, pc, Bytes4(w) + rest)
    ensures Fetch(s, pc) == Some(w) && Installed(s, offset + 4, Wrap(pc + 4), rest)
  {
    FetchesFirst(s, pc, w, rest, offset);
    NextPlace(s.base, offset, pc);
  }

  /** Executing straight-line code from memory is executing the list of its instructions. */
  lemma {:induction false} InstalledRuns(s: SectionValue, offset: nat, m: Machine.Core, code: seq<u32>,
                                         m': Machine.Core)
    requires StraightLine(code) && Installed(s, offset, m.pc, CodeBytes(code)) && Machine.Runs(m, code, m')
    ensures RunsIn(s, m, |code|, m')
    decreases |code|
  {
    if code == [] {
      assert Machine.Run(m, []) == Some(m');
      RunsInNone(s, m);
    } else {
      CodeFirst(code);
      InstalledFirst(s, offset, m.pc, code[0], CodeBytes(code[1..]));
      var m1 := RunFirst(m, code, m');
      InstalledRuns(s, offset + 4, m1, code[1..], m');
      RunsInStep(s, m, |code[1..]|, code[0], m1, m');
    }
  }

  /** A single instruction, which may jump. */
  lemma InstalledOne(s: SectionValue, offset: nat, m: Machine.Core, w: u32, m': Machine.Core)
    requires w % 4 == 3 && Installed(s, offset, m.pc, CodeBytes([w])) && Machine.Step(m, w) == Some(m')
    ensures RunsIn(s, m, 1, m')
  {
    CodeFirst([w]);
    assert CodeBytes([w][1..]) == [];
    InstalledFirst(s, offset, m.pc, w, []);
    RunsInNone(s, m');
    RunsInStep(s, m, 0, w, m', m');
  }

  // ---- The bytes of an item -------------------------------------------------------------------------------

  lemma ContentLength(item: Item, s: nat, size: nat, start: nat, fin: Final)
    ensures |Content(item, s, size, start, fin)| == LengthOf(item)
  {
    if item.Refer? {
      PatchIsFinal(item.ref, FinalAddress(fin, Location(s, start)), Target(fin, item.symbol),
                   FinalAddress(fin, Location(s, size)));
    }
  }

  lemma LiesBehind(whole: seq<byte>, chunk: seq<byte>, bytes: seq<byte>, at: int, c: seq<byte>)
    requires whole == chunk + bytes && LiesAt(bytes, at - |chunk|, c)
    ensures LiesAt(whole, at, c)
  {
    assert whole[at..at + |c|] == bytes[at - |chunk|..at - |chunk| + |c|];
  }

  // The next three predicates speak of `Content`, `Encoded` and `PlanAll` under a quantifier, so that the
  // induction over the items does not look into any of them.

  /** `c` is the content of an item that starts at `start`, `q` being the layout in front of it. */
  ghost predicate IsContent(q: Plan, item: Item, fin: Final, start: nat, c: seq<byte>)
    requires Placed(q)
  {
    var size := q.sections[q.current].size;
    forall x :: x == item ==> start == Start(size, x) && c == Content(x, q.current, size, start, fin)
  }

  /** `e` is what the items add to section `s`. */
  ghost predicate Adds(items: seq<Item>, p: Plan, s: nat, fin: Final, e: seq<byte>)
    requires Placed(p)
  {
    forall x :: x == items ==> Encoded(x, p, s, fin) == e
  }

  /** The items can be laid out. */
  ghost predicate LaysOut(items: seq<Item>, p: Plan)
    requires Placed(p)
  {
    forall x :: x == items ==> PlanAll(p, x).Some?
  }

  lemma LayoutTail(items: seq<Item>, p: Plan) returns (p1: Plan)
    requires Placed(p) && items != [] && LaysOut(items, p)
    ensures PlanStep(p, items[0]) == Some(p1) && Placed(p1) && LaysOut(items[1..], p1)
  {
    assert PlanAll(p, items).Some?;
    p1 := PlanStep(p, items[0]).value;
  }

  /** The first item's bytes, and those of the rest. */
  lemma AddsTail(items: seq<Item>, p: Plan, s: nat, fin: Final, e: seq<byte>, p1: Plan) returns (chunk: seq<byte>,
                 rest: seq<byte>)
    requires Placed(p) && items != [] && PlanStep(p, items[0]) == Some(p1) && Adds(items, p, s, fin, e)
    ensures e == chunk + rest && |chunk| == SizeAt(p1, s) - SizeAt(p, s) && Adds(items[1..], p1, s, fin, rest)
  {
    var size := p.sections[p.current].size;
    assert Encoded(items, p, s, fin) == e;
    rest := Encoded(items[1..], p1, s, fin);
    chunk :=
      if s == p.current then Padding(size, items[0]) + Content(items[0], s, size, Start(size, items[0]), fin) else [];
    PlanStepGrows(p, items[0]);
    ContentLength(items[0], p.current, size, Start(size, items[0]), fin);
  }

  lemma ContentFirst(items: seq<Item>, p: Plan, fin: Final, start: nat, c: seq<byte>, e: seq<byte>, p1: Plan)
    requires Placed(p) && items != [] && PlanStep(p, items[0]) == Some(p1)
    requires IsContent(p, items[0], fin, start, c) && Adds(items, p, p.current, fin, e)
    ensures LiesAt(e, start - SizeAt(p, p.current), c)
  {
    var size := p.sections[p.current].size;
    assert start == Start(size, items[0]) && c == Content(items[0], p.current, size, start, fin);
    assert e == Encoded(items, p, p.current, fin);
    PlanStepGrows(p, items[0]);
    if !items[0].Switch? {
      ContentAtHead(Padding(size, items[0]), c, Encoded(items[1..], p1, p.current, fin));
    }
  }

  lemma ContentAtHead(padding: seq<byte>, c: seq<byte>, rest: seq<byte>)
    ensures LiesAt(padding + c + rest, |padding|, c)
  {
    assert (padding + c + rest)[|padding|..|padding| + |c|] == c;
  }

  lemma PlanAtTail(items: seq<Item>, p: Plan, i: nat, p1: Plan)
    requires Placed(p) && 0 < i < |items| && PlanStep(p, items[0]) == Some(p1)
    ensures PlanAt(items, p, i) == PlanAt(items[1..], p1, i - 1)
    ensures items[i] == items[1..][i - 1]
  {
  }

  /** The second pass puts every item where the first pass said. */
  lemma {:induction false} ContentAt(items: seq<Item>, p: Plan, i: nat, fin: Final, q: Plan, item: Item, start: nat,
                                     c: seq<byte>, e: seq<byte>)
    requires Placed(p) && Placed(q) && LaysOut(items, p) && i < |items| && q == PlanAt(items, p, i) && item == items[i]
    requires IsContent(q, item, fin, start, c) && Adds(items, p, q.current, fin, e)
    ensures LiesAt(e, start - SizeAt(p, q.current), c)
    decreases i
  {
    var p1 := LayoutTail(items, p);
    if i == 0 {
      ContentFirst(items, p, fin, start, c, e, p1);
    } else {
      var chunk, rest := AddsTail(items, p, q.current, fin, e, p1);
      PlanAtTail(items, p, i, p1);
      ContentAt(items[1..], p1, i - 1, fin, q, item, start, c, rest);
      LiesBehind(e, chunk, rest, start - SizeAt(p, q.current), c);
    }
  }

  // ---- Accepted programs ----------------------------------------------------------------------------------

  /** The two-pass assembler accepts the program, and `r` is what the one-pass assembler makes of it. */
  ghost predicate Accepted(o: Options, items: seq<Item>, names: seq<string>, r: State) {
    && Enumerates(names, Mentioned(items)) && TwoPassAssemble(o, items).Some?
    && OnePass(o, items, names) == Ok(r)
  }

  /** Item `i` refers to a label; `at` is where it starts, and `pc` and `target` are the final addresses. */
  ghost predicate RefersAt(o: Options, items: seq<Item>, names: seq<string>, r: State, i: nat, symbol: string,
                           ref: Reference, at: Location, pc: u128, target: u128)
  {
    && Accepted(o, items, names, r)
    && i < |items| && items[i] == Refer(symbol, ref) && at == StartAt(items, InitialPlan(o), i)
    && at.section < |r.sections| && pc == AddressOf(r.sections, at)
    && symbol in r.symbols && r.symbols[symbol].at.section < |r.sections|
    && target == AddressOf(r.sections, r.symbols[symbol].at)
  }

  lemma {:induction false} PlanAtGrows(items: seq<Item>, p: Plan, i: nat)
    requires Placed(p) && PlanAll(p, items).Some? && i < |items|
    ensures var q := PlanAt(items, p, i); var end := PlanAll(p, items).value;
      && PlanStep(q, items[i]).Some? && |q.sections| <= |end.sections|
      && forall s: nat :: SizeAt(PlanStep(q, items[i]).value, s) <= SizeAt(end, s)
    decreases i
  {
    var p1 := PlanStep(p, items[0]).value;
    PlanStepGrows(p, items[0]);
    PlanGrows(p1, items[1..]);
    if i > 0 {
      assert items[i] == items[1..][i - 1];
      PlanAtGrows(items[1..], p1, i - 1);
    }
  }

  lemma {:induction false} ResolvedAt(items: seq<Item>, p: Plan, i: nat, fin: Final)
    requires Placed(p) && PlanAll(p, items).Some? && i < |items| && Resolved(items, p, fin) && items[i].Refer?
    ensures items[i].symbol in fin.symbols
    ensures !Rejects(KindOf(items[i].ref), FinalAddress(fin, StartAt(items, p, i)), Target(fin, items[i].symbol))
    decreases i
  {
    if i > 0 {
      assert items[i] == items[1..][i - 1];
      ResolvedAt(items[1..], PlanStep(p, items[0]).value, i - 1, fin);
    }
  }

  /** Every reference of an accepted program has a place and a target, and no fixup complained about it. */
  lemma ReferenceResolved(o: Options, items: seq<Item>, names: seq<string>, r: State, i: nat, symbol: string,
                          ref: Reference)
    returns (at: Location, pc: u128, target: u128)
    requires Accepted(o, items, names, r) && i < |items| && items[i] == Refer(symbol, ref)
    ensures RefersAt(o, items, names, r, i, symbol, ref, at, pc, target)
    ensures !Rejects(KindOf(ref), pc, target)
    ensures pc == FinalAddress(TwoPassAssemble(o, items).value.final, at)
    ensures target == Target(TwoPassAssemble(o, items).value.final, symbol)
  {
    var p, linked := InitialPlan(o), TwoPassAssemble(o, items).value;
    OnePassIsTwoPass(o, items, names);
    at := StartAt(items, p, i);
    PlanAtGrows(items, p, i);
    ResolvedAt(items, p, i, linked.final);
    FinalAddresses(o, items, names, r, at);
    LabelsDomain(o, items, symbol);
    FirstInRange(items, p, symbol, {});
    FinalAddresses(o, items, names, r, linked.final.symbols[symbol]);
    pc := AddressOf(r.sections, at);
    target := AddressOf(r.sections, r.symbols[symbol].at);
  }

  lemma FinalAddresses(o: Options, items: seq<Item>, names: seq<string>, r: State, at: Location)
    requires Accepted(o, items, names, r) && at.section < |TwoPassAssemble(o, items).value.plan.sections|
    ensures at.section < |r.sections|
    ensures AddressOf(r.sections, at) == FinalAddress(TwoPassAssemble(o, items).value.final, at)
  {
    OnePassIsTwoPass(o, items, names);
    AgreeAddress(r, TwoPassAssemble(o, items).value, at);
  }

  /** The finished section holds the second pass. */
  lemma FinishedSection(o: Options, items: seq<Item>, names: seq<string>, r: State, s: nat)
    requires Accepted(o, items, names, r) && s < |TwoPassAssemble(o, items).value.plan.sections|
    ensures s < |r.sections|
    ensures r.sections[s].output
         == Encoded(items, InitialPlan(o), s, TwoPassAssemble(o, items).value.final)
  {
    OnePassIsTwoPass(o, items, names);
  }

  /** A whole section has every item's content where the first pass put it. */
  lemma ContentInSection(o: Options, items: seq<Item>, i: nat, q: Plan, fin: Final, start: nat, c: seq<byte>,
                         e: seq<byte>)
    requires PlanAll(InitialPlan(o), items).Some? && i < |items|
    requires q == PlanAt(items, InitialPlan(o), i) && IsContent(q, items[i], fin, start, c)
    requires e == Encoded(items, InitialPlan(o), q.current, fin)
    ensures LiesAt(e, start, c)
  {
    ContentAt(items, InitialPlan(o), i, fin, q, items[i], start, c, e);
    StartsEmpty(o, q.current);
  }

  /** So does the finished section. */
  lemma FinishedContent(o: Options, items: seq<Item>, names: seq<string>, r: State, i: nat, q: Plan, fin: Final,
                        start: nat, c: seq<byte>)
    requires Accepted(o, items, names, r) && i < |items|
    requires q == PlanAt(items, InitialPlan(o), i) && fin == TwoPassAssemble(o, items).value.final
    requires IsContent(q, items[i], fin, start, c)
    ensures q.current < |r.sections|
    ensures LiesAt(r.sections[q.current].output, start, c)
  {
    PlanAtGrows(items, InitialPlan(o), i);
    FinishedSection(o, items, names, r, q.current);
    ContentInSection(o, items, i, q, fin, start, c, r.sections[q.current].output);
  }

  lemma StartsEmpty(o: Options, s: nat)
    ensures SizeAt(InitialPlan(o), s) == 0
  {
  }

  lemma ReferenceContent(q: Plan, item: Item, fin: Final, at: Location, pc: u128, target: u128)
    requires Placed(q) && item.Refer? && !item.ref.SizeOf?
    requires at == Location(q.current, Start(q.sections[q.current].size, item))
    requires pc == FinalAddress(fin, at) && target == Target(fin, item.symbol)
    ensures IsContent(q, item, fin, at.offset, CodeBytes(FinalCode(item.ref, pc, target)))
  {
  }

  /** The code of a reference, as it lies in the finished section. */
  lemma ReferenceCode(o: Options, items: seq<Item>, names: seq<string>, r: State, i: nat, symbol: string,
                      ref: Reference, at: Location, pc: u128, target: u128)
    requires RefersAt(o, items, names, r, i, symbol, ref, at, pc, target) && !ref.SizeOf?
    ensures LiesAt(r.sections[at.section].output, at.offset, CodeBytes(FinalCode(ref, pc, target)))
  {
    var at', pc', target' := ReferenceResolved(o, items, names, r, i, symbol, ref);
    var q, fin := PlanAt(items, InitialPlan(o), i), TwoPassAssemble(o, items).value.final;
    ReferenceContent(q, items[i], fin, at, pc, target);
    FinishedContent(o, items, names, r, i, q, fin, at.offset, CodeBytes(FinalCode(ref, pc, target)));
  }

  // ---- Executing references -------------------------------------------------------------------------------

  lemma SectionBounded(o: Options, items: seq<Item>, names: seq<string>, r: State, s: nat)
    requires Accepted(o, items, names, r) && s < |r.sections|
    ensures |r.sections[s].output| <= MAX_SIZE
  {
    OnePassIsTwoPass(o, items, names);
    InitialPlanned(o);
    RunPlanned(Initial(o), items);
    var st, linked := Exec(Initial(o), items).value, TwoPassAssemble(o, items).value;
    assert PlannedOf(r.sections[s]).size == linked.plan.sections[s].size == |st.sections[s].output|;
  }

  /** The finished section has the code of a reference at its address. */
  lemma ReferenceInstalled(o: Options, items: seq<Item>, names: seq<string>, r: State, i: nat, symbol: string,
                           ref: Reference, at: Location, pc: u128, target: u128)
    requires RefersAt(o, items, names, r, i, symbol, ref, at, pc, target) && !ref.SizeOf?
    ensures Installed(r.sections[at.section], at.offset, pc, CodeBytes(FinalCode(ref, pc, target)))
    ensures !Rejects(KindOf(ref), pc, target)
  {
    var at', pc', target' := ReferenceResolved(o, items, names, r, i, symbol, ref);
    ReferenceCode(o, items, names, r, i, symbol, ref, at, pc, target);
    SectionBounded(o, items, names, r, at.section);
    InstalledThere(r.sections, at, pc, CodeBytes(FinalCode(ref, pc, target)));
  }

  lemma InstalledThere(sections: seq<SectionValue>, at: Location, pc: u128, bytes: seq<byte>)
    requires at.section < |sections| && pc == AddressOf(sections, at)
    requires |sections[at.section].output| <= MAX_SIZE && LiesAt(sections[at.section].output, at.offset, bytes)
    ensures Installed(sections[at.section], at.offset, pc, bytes)
  {
  }

  lemma StraightU(op: opcode7, rd: reg, v: int)
    requires op == RV32I_LUI || op == RV32I_AUIPC
    ensures Straight(UType(op, rd, v)) && UType(op, rd, v) % 4 == 3
  {
    UTypeFields(op, rd, v);
    UTypeLength(op, rd, v);
  }

  lemma StraightI(rd: reg, f3: funct3, rs1: reg, v: int)
    ensures Straight(IType(RV32I_OP_IMM, rd, f3, rs1, v)) && IType(RV32I_OP_IMM, rd, f3, rs1, v) % 4 == 3
  {
    ITypeFields(RV32I_OP_IMM, rd, f3, rs1, v);
    ITypeLength(RV32I_OP_IMM, rd, f3, rs1, v);
  }

  lemma StraightPair(rd: reg, v: int32)
    ensures StraightLine(FullPair(rd, v))
  {
    StraightU(RV32I_LUI, rd, Upper(v));
    StraightI(rd, 0, rd, v);
  }

  lemma StraightConcat(a: seq<u32>, b: seq<u32>)
    requires StraightLine(a) && StraightLine(b)
    ensures StraightLine(a + b)
  {
  }

  lemma StraightLa(rd: reg, pc: u128, target: u128)
    ensures StraightLine(LaCode(rd, pc, target)) && |LaCode(rd, pc, target)| == 2
  {
    var diff := S64(target - pc);
    if RelativelyClose(diff) {
      StraightU(RV32I_AUIPC, rd, Upper(diff));
      StraightI(rd, 0, rd, diff);
    } else {
      StraightPair(rd, S32(target));
    }
  }

  lemma StraightR(rd: reg, rs1: reg, rs2: reg, w: u32)
    requires w == RType(RV32I_OP, rd, 0, rs1, rs2, 0)
    ensures Straight(w) && w % 4 == 3
  {
    RTypeFields(RV32I_OP, rd, 0, rs1, rs2, 0);
    LowTwoBits(w);
  }

  lemma StraightJoining(dst: reg, temp: reg)
    ensures StraightLine(Joining(dst, temp, true))
  {
    StraightI(dst, 1, dst, 32);
    StraightR(dst, dst, temp, AddTo(dst, temp));
    StraightTwo(ShiftLeft32(dst), AddTo(dst, temp));
  }

  lemma StraightTwo(a: u32, b: u32)
    requires Straight(a) && Straight(b) && a % 4 == 3 && b % 4 == 3
    ensures StraightLine([a] + [b])
  {
  }

  lemma {:induction false} StraightLanes(dst: reg, temp: reg, x: u128, n: lane)
    ensures StraightLine(Lanes(true, dst, temp, x, n))
    decreases 3 - n
  {
    if n == 3 {
      StraightPair(dst, SignedLane(x, 3));
    } else {
      StraightLanes(dst, temp, x, n + 1);
      StraightPair(temp, SignedLane(x, n));
      StraightJoining(dst, temp);
      var upper := Lanes(true, dst, temp, x, n + 1);
      StraightConcat(upper, FullPair(temp, SignedLane(x, n)));
      StraightConcat(upper + FullPair(temp, SignedLane(x, n)), Joining(dst, temp, true));
    }
  }

  // ---- Installed references ---------------------------------------------------------------------------------

  lemma LaInstalled(s: SectionValue, offset: nat, rd: reg, target: u128, m: Machine.Core) returns (m': Machine.Core)
    requires Installed(s, offset, m.pc, CodeBytes(FinalCode(La(rd), m.pc, target)))
    ensures RunsIn(s, m, 2, m')
    ensures Machine.Read(m', rd) == target <==> if rd == 0 then target == 0 else LaExact(m.pc, target)
    ensures forall r: reg :: r != rd ==> Machine.Read(m', r) == Machine.Read(m, r)
  {
    m' := LaLoadsLabel(m, rd, target);
    StraightLa(rd, m.pc, target);
    InstalledRuns(s, offset, m, LaCode(rd, m.pc, target), m');
  }

  lemma LaqInstalled(s: SectionValue, offset: nat, dst: reg, temp: reg, target: u128, m: Machine.Core)
    returns (m': Machine.Core)
    requires Installed(s, offset, m.pc, CodeBytes(FinalCode(Laq(dst, temp), m.pc, target)))
    ensures RunsIn(s, m, 14, m')
    ensures Machine.Read(m', dst) == target <==> AddressExact(dst, temp, target)
    ensures forall r: reg :: r != dst && r != temp ==> Machine.Read(m', r) == Machine.Read(m, r)
  {
    m' := LaqLoadsAddress(m, dst, temp, target);
    StraightLanes(dst, temp, target, 0);
    LaqFullLength(dst, temp, target);
    InstalledRuns(s, offset, m, LaqCode(dst, temp, target), m');
  }

  lemma FullBranch(f3: funct3, rs1: reg, rs2: reg, d: int)
    ensures BType(f3, rs1, rs2, d) % 4 == 3
  {
    BTypeBits(f3, rs1, rs2, d);
    LowTwoBits(BType(f3, rs1, rs2, d));
  }

  lemma FullJump(rd: reg, d: int)
    ensures JType(rd, d) % 4 == 3
  {
    JTypeBits(rd, d);
    LowTwoBits(JType(rd, d));
  }

  lemma BranchInstalled(s: SectionValue, offset: nat, f3: funct3, rs1: reg, rs2: reg, target: u128, m: Machine.Core)
    returns (m': Machine.Core)
    requires f3 != 2 && f3 != 3 && Installed(s, offset, m.pc, CodeBytes(FinalCode(Branch(f3, rs1, rs2), m.pc, target)))
    ensures RunsIn(s, m, 1, m') && m'.regs == m.regs
    ensures var taken := Machine.Taken(f3, Machine.Read(m, rs1), Machine.Read(m, rs2));
      && (taken ==> (m'.pc == target <==> InBranchRange(Distance(m.pc, target))))
      && (!taken ==> m'.pc == Wrap(m.pc + 4))
  {
    var w := BType(f3, rs1, rs2, S32(target - m.pc));
    m' := BranchLands(m, f3, rs1, rs2, target);
    FullBranch(f3, rs1, rs2, S32(target - m.pc));
    InstalledOne(s, offset, m, w, m');
  }

  lemma JumpInstalled(s: SectionValue, offset: nat, rd: reg, target: u128, m: Machine.Core) returns (m': Machine.Core)
    requires !Rejects(JumpKind, m.pc, target)
    requires Installed(s, offset, m.pc, CodeBytes(FinalCode(Jump(rd), m.pc, target)))
    ensures RunsIn(s, m, 1, m') && m'.regs == Machine.Write(m, rd, m.pc + 4).regs
    ensures var d := Distance(m.pc, target); m'.pc == target <==> d % 2 == 0 && -2048 <= d <= 2047
  {
    var w := JType(rd, S64(target - m.pc));
    m' := AcceptedJumpLands(m, rd, target);
    FullJump(rd, S64(target - m.pc));
    InstalledOne(s, offset, m, w, m');
  }

  lemma FarCallWords(rd: reg, target: u128, w: u32, w': u32)
    requires w == UType(RV32I_LUI, rd, target / 0x1000) && w' == IType(RV32I_JALR, 1, 0, rd, target)
    ensures Straight(w) && w % 4 == 3 && w' % 4 == 3
    ensures forall pc: u128 :: FinalCode(Reference.FarCall(rd), pc, target) == [w, w']
  {
    StraightU(RV32I_LUI, rd, target / 0x1000);
    ITypeLength(RV32I_JALR, 1, 0, rd, target);
  }

  lemma FarCallInstalled(s: SectionValue, offset: nat, rd: reg, target: u128, w: u32, w': u32, m: Machine.Core)
    returns (m': Machine.Core)
    requires w == UType(RV32I_LUI, rd, target / 0x1000) && w' == IType(RV32I_JALR, 1, 0, rd, target)
    requires Installed(s, offset, m.pc, CodeBytes([w, w']))
    ensures RunsIn(s, m, 2, m') && (m'.pc == target <==> FarCallExact(rd, target))
    ensures Machine.Read(m', 1) == Wrap(m.pc + 8)
    ensures forall q: reg :: q != rd && q != 1 ==> Machine.Read(m', q) == Machine.Read(m, q)
  {
    var m1;
    m1, m' := FarCallLands(m, rd, target);
    FarCallWords(rd, target, w, w');
    PairInstalled(s, offset, m, w, w', m1, m');
  }

  /** Two instructions, the second of which may jump. */
  lemma PairInstalled(s: SectionValue, offset: nat, m: Machine.Core, w: u32, w': u32, m1: Machine.Core,
                      m': Machine.Core)
    requires w % 4 == 3 && w' % 4 == 3 && Straight(w) && Installed(s, offset, m.pc, CodeBytes([w, w']))
    requires Machine.Step(m, w) == Some(m1) && Machine.Step(m1, w') == Some(m')
    ensures RunsIn(s, m, 2, m')
  {
    CodeFirst([w, w']);
    assert [w, w'][1..] == [w'];
    InstalledFirst(s, offset, m.pc, w, CodeBytes([w']));
    StraightAdvances(m, w);
    InstalledOne(s, offset + 4, m1, w', m');
    RunsInStep(s, m, 1, w, m1, m');
  }

  // ---- References in accepted programs ------------------------------------------------------------------------

  /**
   `la` in an accepted program: fetched and executed where it ended up, it loads the final address of its
   label exactly when that is in reach.
  */
  lemma LaReaches(o: Options, items: seq<Item>, names: seq<string>, r: State, i: nat, symbol: string, rd: reg,
                  at: Location, pc: u128, target: u128, m: Machine.Core) returns (m': Machine.Core)
    requires RefersAt(o, items, names, r, i, symbol, La(rd), at, pc, target) && m.pc == pc
    ensures RunsIn(r.sections[at.section], m, 2, m')
    ensures Machine.Read(m', rd) == target <==> if rd == 0 then target == 0 else LaExact(pc, target)
    ensures forall r: reg :: r != rd ==> Machine.Read(m', r) == Machine.Read(m, r)
  {
    ReferenceInstalled(o, items, names, r, i, symbol, La(rd), at, pc, target);
    m' := LaInstalled(r.sections[at.section], at.offset, rd, target, m);
  }

  /** `laq`: fourteen instructions that load the full 128-bit address exactly when its low lanes allow it. */
  lemma LaqReaches(o: Options, items: seq<Item>, names: seq<string>, r: State, i: nat, symbol: string, dst: reg,
                   temp: reg, at: Location, pc: u128, target: u128, m: Machine.Core) returns (m': Machine.Core)
    requires RefersAt(o, items, names, r, i, symbol, Laq(dst, temp), at, pc, target)
    requires m.pc == pc
    ensures RunsIn(r.sections[at.section], m, 14, m')
    ensures Machine.Read(m', dst) == target <==> AddressExact(dst, temp, target)
    ensures forall r: reg :: r != dst && r != temp ==> Machine.Read(m', r) == Machine.Read(m, r)
  {
    ReferenceInstalled(o, items, names, r, i, symbol, Laq(dst, temp), at, pc, target);
    m' := LaqInstalled(r.sections[at.section], at.offset, dst, temp, target, m);
  }

  /** A branch: taken, it goes to its label exactly when that is an even distance in range away. */
  lemma BranchReaches(o: Options, items: seq<Item>, names: seq<string>, r: State, i: nat, symbol: string, f3: funct3,
                      rs1: reg, rs2: reg, at: Location, pc: u128, target: u128, m: Machine.Core)
    returns (m': Machine.Core)
    requires RefersAt(o, items, names, r, i, symbol, Branch(f3, rs1, rs2), at, pc, target)
    requires f3 != 2 && f3 != 3 && m.pc == pc
    ensures RunsIn(r.sections[at.section], m, 1, m') && m'.regs == m.regs
    ensures var taken := Machine.Taken(f3, Machine.Read(m, rs1), Machine.Read(m, rs2));
      && (taken ==> (m'.pc == target <==> InBranchRange(Distance(pc, target))))
      && (!taken ==> m'.pc == Wrap(pc + 4))
  {
    ReferenceInstalled(o, items, names, r, i, symbol, Branch(f3, rs1, rs2), at, pc, target);
    m' := BranchInstalled(r.sections[at.section], at.offset, f3, rs1, rs2, target, m);
  }

  /** A jump or call: it goes to its label exactly when that is as near as the bounds check believes, and even. */
  lemma JumpReaches(o: Options, items: seq<Item>, names: seq<string>, r: State, i: nat, symbol: string, rd: reg,
                    at: Location, pc: u128, target: u128, m: Machine.Core) returns (m': Machine.Core)
    requires RefersAt(o, items, names, r, i, symbol, Jump(rd), at, pc, target) && m.pc == pc
    ensures RunsIn(r.sections[at.section], m, 1, m')
    ensures m'.regs == Machine.Write(m, rd, pc + 4).regs
    ensures var d := Distance(pc, target); m'.pc == target <==> d % 2 == 0 && -2048 <= d <= 2047
  {
    ReferenceInstalled(o, items, names, r, i, symbol, Jump(rd), at, pc, target);
    m' := JumpFrom(r.sections[at.section], at.offset, rd, pc, target, m);
  }

  lemma JumpFrom(s: SectionValue, offset: nat, rd: reg, pc: u128, target: u128, m: Machine.Core)
    returns (m': Machine.Core)
    requires m.pc == pc && !Rejects(KindOf(Jump(rd)), pc, target)
    requires Installed(s, offset, pc, CodeBytes(FinalCode(Jump(rd), pc, target)))
    ensures RunsIn(s, m, 1, m') && m'.regs == Machine.Write(m, rd, pc + 4).regs
    ensures var d := Distance(pc, target); m'.pc == target <==> d % 2 == 0 && -2048 <= d <= 2047
  {
    m' := JumpInstalled(s, offset, rd, target, m);
  }

  /** `farcall`: it goes to its label exactly when that is even, 32-bit, and needs no rounding. */
  lemma FarCallReaches(o: Options, items: seq<Item>, names: seq<string>, r: State, i: nat, symbol: string, rd: reg,
                       at: Location, pc: u128, target: u128, m: Machine.Core) returns (m': Machine.Core)
    requires RefersAt(o, items, names, r, i, symbol, Reference.FarCall(rd), at, pc, target) && m.pc == pc
    ensures RunsIn(r.sections[at.section], m, 2, m') && (m'.pc == target <==> FarCallExact(rd, target))
    ensures Machine.Read(m', 1) == Wrap(pc + 8)
    ensures forall q: reg :: q != rd && q != 1 ==> Machine.Read(m', q) == Machine.Read(m, q)
  {
    ReferenceInstalled(o, items, names, r, i, symbol, Reference.FarCall(rd), at, pc, target);
    var w, w' := UType(RV32I_LUI, rd, target / 0x1000), IType(RV32I_JALR, 1, 0, rd, target);
    FarCallWords(rd, target, w, w');
    m' := FarCallInstalled(r.sections[at.section], at.offset, rd, target, w, w', m);
  }

  // ---- Constants in accepted programs -----------------------------------------------------------------------

  /** Item `i` is a block of plain instructions at `at`, with final address `pc`. */
  ghost predicate HasCode(o: Options, items: seq<Item>, names: seq<string>, r: State, i: nat, words: seq<u32>,
                          at: Location, pc: u128)
  {
    && Accepted(o, items, names, r)
    && i < |items| && items[i] == Block(4, true, Bytes(CodeOutput, CodeBytes(words)))
    && at == StartAt(items, InitialPlan(o), i)
    && at.section < |r.sections| && pc == AddressOf(r.sections, at)
  }

  lemma CodeContent(q: Plan, item: Item, fin: Final, start: nat, words: seq<u32>)
    requires Placed(q) && item == Block(4, true, Bytes(CodeOutput, CodeBytes(words)))
    requires start == Start(q.sections[q.current].size, item)
    ensures IsContent(q, item, fin, start, CodeBytes(words))
  {
  }

  /** The finished section has a block of instructions at its address. */
  lemma CodeInstalled(o: Options, items: seq<Item>, names: seq<string>, r: State, i: nat, words: seq<u32>,
                      at: Location, pc: u128)
    requires HasCode(o, items, names, r, i, words, at, pc)
    ensures Installed(r.sections[at.section], at.offset, pc, CodeBytes(words))
  {
    var q, fin := PlanAt(items, InitialPlan(o), i), TwoPassAssemble(o, items).value.final;
    CodeContent(q, items[i], fin, at.offset, words);
    FinishedContent(o, items, names, r, i, q, fin, at.offset, CodeBytes(words));
    SectionBounded(o, items, names, r, at.section);
  }

  lemma StraightLoad(rd: reg, v: int32)
    ensures StraightLine(LoadImm(rd, v))
  {
    StraightPair(rd, v);
    StraightU(RV32I_LUI, rd, Upper(v));
    StraightI(rd, 0, 0, v);
  }

  lemma StraightSetJoining(dst: reg, temp: reg, shift: bool)
    ensures StraightLine(Joining(dst, temp, shift))
  {
    StraightJoining(dst, temp);
    StraightR(dst, dst, temp, AddTo(dst, temp));
    if !shift {
      assert [] + [AddTo(dst, temp)] == [AddTo(dst, temp)];
    }
  }

  lemma {:induction false} StraightSetLanes(dst: reg, temp: reg, x: u128, n: lane)
    ensures StraightLine(Lanes(false, dst, temp, x, n))
    decreases 3 - n
  {
    if n == 3 {
      StraightLoad(dst, SignedLane(x, 3));
    } else {
      StraightSetLanes(dst, temp, x, n + 1);
      StraightLoad(temp, SignedLane(x, n));
      StraightSetJoining(dst, temp, High(x, n + 1) != 0);
      var upper := Lanes(false, dst, temp, x, n + 1);
      StraightConcat(upper, LoadImm(temp, SignedLane(x, n)));
      StraightConcat(upper + LoadImm(temp, SignedLane(x, n)), Joining(dst, temp, High(x, n + 1) != 0));
    }
  }

  lemma StraightSet(dst: reg, temp: reg, x: u128)
    ensures StraightLine(SetCode(dst, temp, x))
  {
    if x < 0x1_0000_0000 {
      StraightLoad(dst, S32(x));
    } else {
      StraightSetLanes(dst, temp, x, 0);
    }
  }

  /**
   `set` in an accepted program: fetched and executed where it ended up, it loads its constant exactly when
   the low lanes allow it, and changes no other register but the temporary.
  */
  lemma SetReaches(o: Options, items: seq<Item>, names: seq<string>, r: State, i: nat, dst: reg, temp: reg, imm: u128,
                   words: seq<u32>, at: Location, pc: u128, m: Machine.Core) returns (m': Machine.Core)
    requires Generate(Set, Regs2Imm(dst, temp, imm)) == Some(Plain(words))
    requires HasCode(o, items, names, r, i, words, at, pc) && m.pc == pc
    ensures RunsIn(r.sections[at.section], m, |words|, m')
    ensures Machine.Read(m', dst) == imm <==> SetExact(dst, temp, imm)
    ensures forall q: reg :: q != dst && q != temp ==> Machine.Read(m', q) == Machine.Read(m, q)
  {
    CodeInstalled(o, items, names, r, i, words, at, pc);
    m' := SetInstalled(r.sections[at.section], at.offset, dst, temp, imm, m);
  }

  lemma SetInstalled(s: SectionValue, offset: nat, dst: reg, temp: reg, imm: u128,
                     m: Machine.Core) returns (m': Machine.Core)
    requires Installed(s, offset, m.pc, CodeBytes(SetCode(dst, temp, imm)))
    ensures RunsIn(s, m, |SetCode(dst, temp, imm)|, m')
    ensures Machine.Read(m', dst) == imm <==> SetExact(dst, temp, imm)
    ensures forall q: reg :: q != dst && q != temp ==> Machine.Read(m', q) == Machine.Read(m, q)
  {
    m' := SetLoadsConstant(m, dst, temp, imm);
    StraightSet(dst, temp, imm);
    InstalledRuns(s, offset, m, SetCode(dst, temp, imm), m');
  }

  /**
   How much of its constant `li` leaves: always the low 32 bits; their signed value up to 0x7FFFF7FF; and the
   constant itself, whether its 64 bits are read as a signed number or all its 128 bits count, exactly within
   those limits.
  */
  ghost predicate LoadsLow(imm: u128, v: u128) {
    && v % 0x1_0000_0000 == imm % 0x1_0000_0000
    && (v == Wrap(S32(imm)) <==> S32(imm) <= 0x7FFF_F7FF)
    && (v == Wrap(S64(imm)) <==> -0x8000_0800 <= S64(imm) <= 0x7FFF_F7FF)
    && (v == imm <==> -0x8000_0800 <= S128(imm) <= 0x7FFF_F7FF)
  }

  /** `li` in an accepted program: what it leaves of its constant, and that it changes no other register. */
  lemma LiReaches(o: Options, items: seq<Item>, names: seq<string>, r: State, i: nat, rd: reg, imm: u128,
                  words: seq<u32>, at: Location, pc: u128, m: Machine.Core) returns (m': Machine.Core)
    requires Generate(Li, RegImm(rd, imm)) == Some(Plain(words)) && HasCode(o, items, names, r, i, words, at, pc)
    requires m.pc == pc
    ensures RunsIn(r.sections[at.section], m, |words|, m')
    ensures if rd == 0 then Machine.Read(m', rd) == 0 else LoadsLow(imm, Machine.Read(m', rd))
    ensures forall q: reg :: q != rd ==> Machine.Read(m', q) == Machine.Read(m, q)
  {
    CodeInstalled(o, items, names, r, i, words, at, pc);
    m' := LiInstalled(r.sections[at.section], at.offset, rd, S32(imm), m);
    LiValue(imm, Wrap(Loaded(S32(imm))));
  }

  lemma LiValue(imm: u128, v: u128)
    requires v == Wrap(Loaded(S32(imm)))
    ensures LoadsLow(imm, v)
  {
    LowWord(imm);
    LoadImmExact(S32(imm));
    WrapLow(Loaded(S32(imm)));
    AbsoluteExact(imm);
    Signed64(imm);
    AbsoluteExact(Wrap(S64(imm)));
  }

  lemma Signed64(imm: u128)
    ensures S32(Wrap(S64(imm))) == S32(imm) && S128(Wrap(S64(imm))) == S64(imm)
  {
    var x := S64(imm);
    SignedUnique(Wrap(x), x);
    TruncatedDistance(Wrap(x));
    var q := (imm - x) / P64;
    assert imm == x + P64 * q;
    SameResidue(x, 0x1_0000_0000 * q, 0x1_0000_0000);
  }

  lemma LiInstalled(s: SectionValue, offset: nat, rd: reg, v: int32, m: Machine.Core) returns (m': Machine.Core)
    requires Installed(s, offset, m.pc, CodeBytes(LoadImm(rd, v)))
    ensures RunsIn(s, m, |LoadImm(rd, v)|, m')
    ensures Machine.Read(m', rd) == if rd == 0 then 0 else Wrap(Loaded(v))
    ensures forall q: reg :: q != rd ==> Machine.Read(m', q) == Machine.Read(m, q)
  {
    m' := After(m, |LoadImm(rd, v)|, rd, Loaded(v));
    LoadImmRuns(m, rd, v);
    StraightLoad(rd, v);
    InstalledRuns(s, offset, m, LoadImm(rd, v), m');
  }

  /** A constant that `li` accepts and loses: 2^32 comes out as 0. */
  lemma LiDropsHighBits(rd: reg, imm: u128, words: seq<u32>, m: Machine.Core) returns (m': Machine.Core)
    requires imm == 0x1_0000_0000 && Generate(Li, RegImm(rd, imm)) == Some(Plain(words))
    ensures Machine.Runs(m, words, m') && Machine.Read(m', rd) == 0
  {
    var v := S32(imm);
    m' := After(m, |LoadImm(rd, v)|, rd, Loaded(v));
    LoadImmRuns(m, rd, v);
  }

  lemma WrapLow(x: int)
    ensures Wrap(x) % 0x1_0000_0000 == x % 0x1_0000_0000
  {
    var q := x / P128;
    assert x == Wrap(x) + P128 * q;
    SameResidue(Wrap(x), 0x1_0000_0000_0000_0000_0000_0000 * q, 0x1_0000_0000);
  }

  // ---- Labels on instructions of the same section -----------------------------------------------------------

  /** An item whose bytes are instructions. */
  predicate IsInstruction(item: Item) {
    (item.Refer? && !item.ref.SizeOf?) || (item.Block? && item.flushes && item.alignment == 4)
  }

  lemma StartAligned(size: nat, item: Item)
    requires IsInstruction(item) && size <= MAX_SIZE
    ensures Start(size, item) % 4 == 0
  {
    assert Pow2(2) == 4;
    AlignPow2(size, 2, 0);
  }

  /** Two addresses in one section are as far apart as their offsets. */
  lemma OffsetDistance(base: u128, a: nat, b: nat)
    requires a <= MAX_SIZE && b <= MAX_SIZE
    ensures Distance(Wrap(base + a), Wrap(base + b)) == b - a
    ensures S64(Wrap(base + b) - Wrap(base + a)) == b - a
  {
    var q: int := (base + a) / P128 - (base + b) / P128;
    var x: int := (Wrap(base + b) as int) - Wrap(base + a);
    assert x == b - a + P128 * q;
    SignedOf(x, b - a, q);
  }

  lemma SignedOf(x: int, d: int, q: int)
    requires x == d + P128 * q && -0x8000_0000_0000_0000 <= d < 0x8000_0000_0000_0000
    ensures S128(x) == d && S64(x) == d
  {
    SameResidue(d, q, P128);
    SameResidue(d, P64 * q, P64);
    assert P64 * (P64 * q) == P128 * q;
  }

  /** An instruction of an accepted program starts at a multiple of four inside its section. */
  lemma InstructionPlace(o: Options, items: seq<Item>, k: nat)
    requires PlanAll(InitialPlan(o), items).Some? && k < |items| && IsInstruction(items[k])
    ensures StartAt(items, InitialPlan(o), k).offset <= MAX_SIZE && StartAt(items, InitialPlan(o), k).offset % 4 == 0
  {
    var q := PlanAt(items, InitialPlan(o), k);
    PlanAtGrows(items, InitialPlan(o), k);
    StartAligned(q.sections[q.current].size, items[k]);
  }

  /** A label that an instruction binds lies at a multiple of four in the section of that instruction. */
  lemma LabelOnInstruction(o: Options, items: seq<Item>, names: seq<string>, r: State, symbol: string, k: nat)
    requires Accepted(o, items, names, r) && k < |items| && IsInstruction(items[k])
    requires BindsFirst(items, InitialPlan(o), symbol, {}, k)
    ensures symbol in r.symbols && r.symbols[symbol].at.section == SectionAt(items, InitialPlan(o), k)
    ensures OnInstruction(r.symbols[symbol].at)
  {
    LabelBound(o, items, names, symbol);
    InstructionPlace(o, items, k);
  }

  predicate OnInstruction(at: Location) {
    at.offset <= MAX_SIZE && at.offset % 4 == 0
  }

  lemma ReferenceOnInstruction(o: Options, items: seq<Item>, names: seq<string>, r: State, i: nat, symbol: string,
                               ref: Reference, at: Location, pc: u128, target: u128)
    requires RefersAt(o, items, names, r, i, symbol, ref, at, pc, target) && !ref.SizeOf?
    ensures OnInstruction(at)
  {
    InstructionPlace(o, items, i);
  }

  lemma MultiplesDiffer(a: nat, b: nat)
    requires a % 4 == 0 && b % 4 == 0
    ensures (b - a) % 4 == 0
  {
    ModUnique(b - a, 4, b / 4 - a / 4, 0);
  }

  lemma AddressDistance(sections: seq<SectionValue>, at: Location, to: Location, pc: u128, target: u128)
    requires at.section == to.section < |sections| && OnInstruction(at) && OnInstruction(to)
    requires pc == AddressOf(sections, at) && target == AddressOf(sections, to)
    ensures Distance(pc, target) == to.offset - at.offset == S64(target - pc) && (to.offset - at.offset) % 4 == 0
  {
    OffsetDistance(sections[at.section].base, at.offset, to.offset);
    MultiplesDiffer(at.offset, to.offset);
  }

  /** Inside a section, the distance to such a label is the difference of the offsets, a multiple of four. */
  lemma SectionDistance(o: Options, items: seq<Item>, names: seq<string>, r: State, i: nat, symbol: string,
                        ref: Reference, at: Location, pc: u128, target: u128, to: Location)
    requires RefersAt(o, items, names, r, i, symbol, ref, at, pc, target) && !ref.SizeOf?
    requires r.symbols[symbol].at == to && to.section == at.section && OnInstruction(to)
    ensures Distance(pc, target) == to.offset - at.offset == S64(target - pc) && (to.offset - at.offset) % 4 == 0
  {
    ReferenceOnInstruction(o, items, names, r, i, symbol, ref, at, pc, target);
    AddressDistance(r.sections, at, to, pc, target);
  }

  /** An accepted jump to an instruction of its own section always lands there. */
  lemma JumpWithinSection(o: Options, items: seq<Item>, names: seq<string>, r: State, i: nat, symbol: string, rd: reg,
                          at: Location, pc: u128, target: u128, to: Location,
                          m: Machine.Core) returns (m': Machine.Core)
    requires RefersAt(o, items, names, r, i, symbol, Jump(rd), at, pc, target) && m.pc == pc
    requires r.symbols[symbol].at == to && to.section == at.section && OnInstruction(to)
    ensures RunsIn(r.sections[at.section], m, 1, m') && m'.pc == target
  {
    JumpIsNear(o, items, names, r, i, symbol, rd, at, pc, target, to);
    m' := JumpReaches(o, items, names, r, i, symbol, rd, at, pc, target, m);
  }

  lemma JumpIsNear(o: Options, items: seq<Item>, names: seq<string>, r: State, i: nat, symbol: string, rd: reg,
                   at: Location, pc: u128, target: u128, to: Location)
    requires RefersAt(o, items, names, r, i, symbol, Jump(rd), at, pc, target)
    requires r.symbols[symbol].at == to && to.section == at.section && OnInstruction(to)
    ensures var d := Distance(pc, target); d % 2 == 0 && -2048 <= d <= 2047
  {
    ReferenceInstalled(o, items, names, r, i, symbol, Jump(rd), at, pc, target);
    SectionDistance(o, items, names, r, i, symbol, Jump(rd), at, pc, target, to);
    NearJump(pc, target, to.offset - at.offset);
  }

  lemma NearJump(pc: u128, target: u128, d: int)
    requires !Rejects(JumpKind, pc, target) && S64(target - pc) == d && d % 4 == 0
    ensures d % 2 == 0 && -2048 <= d <= 2047
  {
    FourIsEven(d);
  }

  lemma FourIsEven(d: int)
    requires d % 4 == 0
    ensures d % 2 == 0
  {
    ModUnique(d, 2, 2 * (d / 4), 0);
  }

  lemma NearBranch(d: int)
    requires d % 4 == 0
    ensures InBranchRange(d) <==> -0x1000 <= d <= 0xFFC
  {
    FourIsEven(d);
    assert d == 4 * (d / 4);
  }

  /** A taken branch to an instruction of its own section lands there exactly within 4 KiB. */
  lemma BranchWithinSection(o: Options, items: seq<Item>, names: seq<string>, r: State, i: nat, symbol: string,
                            f3: funct3, rs1: reg, rs2: reg, at: Location, pc: u128, target: u128, to: Location,
                            m: Machine.Core) returns (m': Machine.Core)
    requires RefersAt(o, items, names, r, i, symbol, Branch(f3, rs1, rs2), at, pc, target) && m.pc == pc
    requires r.symbols[symbol].at == to && to.section == at.section && OnInstruction(to)
    requires f3 != 2 && f3 != 3 && Machine.Taken(f3, Machine.Read(m, rs1), Machine.Read(m, rs2))
    ensures RunsIn(r.sections[at.section], m, 1, m')
    ensures m'.pc == target <==> -0x1000 <= to.offset - at.offset <= 0xFFC
  {
    SectionDistance(o, items, names, r, i, symbol, Branch(f3, rs1, rs2), at, pc, target, to);
    m' := BranchReaches(o, items, names, r, i, symbol, f3, rs1, rs2, at, pc, target, m);
    NearBranch(to.offset - at.offset);
  }
}
