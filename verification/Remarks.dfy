/**
 Whole runs of fixups: their order over the symbols, and what the remarks about one symbol (`.type`,
 `.endfunc`, `.size`) make of its type and size.
*/
module Remarks {
  import opened Results
  import opened References
  import opened Items
  import opened Layout
  import opened State
  import opened Fixups
  import opened TwoPass
  import opened Planning
  import opened Refinement
  import opened Equivalence
  import L = Labels

  // ---- Order --------------------------------------------------------------------------------------------------

  /**
   For every run: whatever permutation of the scheduled fixups is executed, even one that mixes the symbols,
   the outcome is that of `finish`.
  */
  lemma AnyOrder(o: Options, items: seq<Item>, names: seq<string>, es: seq<Entry>)
    requires Enumerates(names, Mentioned(items)) && PlanAll(InitialPlan(o), items).Some? && Exec(Initial(o), items).Ok?
    requires multiset(es) == multiset(Entries(names, Exec(Initial(o), items).value.schedule))
    ensures var r := RunEntries(Unpatched(o, Exec(Initial(o), items).value), es);
      && (r.Ok? <==> OnePass(o, items, names).Ok?)
      && (r.Ok? ==> SameOutcome(OnePass(o, items, names).value, r.value))
  {
    var st := Exec(Initial(o), items).value;
    RunSchedule(o, items, names);
    OrderIrrelevant(Unpatched(o, st), Entries(names, st.schedule), es);
  }

  // ---- Types and sizes ----------------------------------------------------------------------------------------

  /** A symbol after one remark about it, with the addresses of the two-pass assembler. */
  function Remarked(fin: Final, symbol: Symbol, f: Fixup): Symbol {
    var start := FinalAddress(fin, symbol.at);
    match f
    case SetType(t) => symbol.(symbolType := t)
    case SetEnd(at) =>
      symbol.(size := ((FinalAddress(fin, at) as int) - start) % 0x1_0000_0000_0000_0000, symbolType := STT_FUNC)
    case PatchAt(kind, at, before) =>
      if kind.SizeKind? then symbol.(size := SizeValue(FinalAddress(fin, at), start, FinalAddress(fin, before)))
      else symbol
  }

  /** A symbol after all remarks about it, in the order of the program. */
  function AllRemarked(fin: Final, symbol: Symbol, remarks: seq<Fixup>): Symbol
    decreases |remarks|
  {
    if remarks == [] then symbol else AllRemarked(fin, Remarked(fin, symbol, remarks[0]), remarks[1..])
  }

  lemma MatchesKept(a: State, b: State, fin: Final)
    requires MatchesFinal(a, fin) && SameAddresses(a, b)
    ensures MatchesFinal(b, fin)
  {
  }

  /** One fixup changes its own symbol only. */
  lemma FixupRemarks(st: State, e: Entry, fin: Final, n: string)
    requires MatchesFinal(st, fin) && RunFixup(st, e.symbol, e.fixup).Ok? && n in st.symbols
    ensures n in RunFixup(st, e.symbol, e.fixup).value.symbols
    ensures RunFixup(st, e.symbol, e.fixup).value.symbols[n]
         == if e.symbol == n then Remarked(fin, st.symbols[n], e.fixup) else st.symbols[n]
  {
    AddressMatches(st, fin, st.symbols[e.symbol].at);
    match e.fixup {
      case SetType(_) =>
      case SetEnd(at) => AddressMatches(st, fin, at);
      case PatchAt(_, at, before) =>
        AddressMatches(st, fin, at);
        AddressMatches(st, fin, before);
    }
  }

  /** Of a whole schedule, only the remarks about a symbol count, in their order. */
  lemma {:induction false} EntriesRemark(st: State, es: seq<Entry>, fin: Final, n: string)
    requires MatchesFinal(st, fin) && RunEntries(st, es).Ok? && n in st.symbols
    ensures n in RunEntries(st, es).value.symbols
    ensures RunEntries(st, es).value.symbols[n] == AllRemarked(fin, st.symbols[n], Only(es, n))
    decreases |es|
  {
    if es == [] {
      assert Only(es, n) == [];
    } else {
      var e := es[0];
      var st1 := RunFixup(st, e.symbol, e.fixup).value;
      RunFixupEffect(st, e);
      FixupRemarks(st, e, fin, n);
      MatchesKept(st, st1, fin);
      EntriesRemark(st1, es[1..], fin, n);
      OnlyFirst(fin, st.symbols[n], es, n);
    }
  }

  lemma OnlyFirst(fin: Final, symbol: Symbol, es: seq<Entry>, n: string)
    requires es != []
    ensures AllRemarked(fin, symbol, Only(es, n))
         == AllRemarked(fin, if es[0].symbol == n then Remarked(fin, symbol, es[0].fixup) else symbol, Only(es[1..], n))
  {
    var rest := Only(es[1..], n);
    if es[0].symbol == n {
      assert Only(es, n)[0] == es[0].fixup && Only(es, n)[1..] == rest;
    } else {
      assert Only(es, n) == rest;
    }
  }

  lemma {:induction false} OnlyFor(n: string, fixups: seq<Fixup>, m: string)
    ensures Only(EntriesFor(n, fixups), m) == if m == n then fixups else []
    decreases |fixups|
  {
    if fixups == [] {
      assert EntriesFor(n, fixups) == [];
    } else {
      assert EntriesFor(n, fixups)[1..] == EntriesFor(n, fixups[1..]);
      OnlyFor(n, fixups[1..], m);
      assert fixups == [fixups[0]] + fixups[1..];
    }
  }

  /** The schedule, symbol by symbol in any order, has each symbol's remarks in the order of the program. */
  lemma {:induction false} OnlyEntries(names: seq<string>, schedule: map<string, seq<Fixup>>, m: string)
    requires forall i, j :: 0 <= i < j < |names| ==> names[i] != names[j]
    ensures Only(Entries(names, schedule), m) == if m in names && m in schedule then schedule[m] else []
    decreases |names|
  {
    if names == [] {
      assert Entries(names, schedule) == [];
    } else {
      var n, rest := names[0], names[1..];
      var first := if n in schedule then EntriesFor(n, schedule[n]) else [];
      forall i, j | 0 <= i < j < |rest|
        ensures rest[i] != rest[j]
      {
        assert rest[i] == names[i + 1] && rest[j] == names[j + 1];
      }
      OnlyEntries(rest, schedule, m);
      OnlyConcat(first, Entries(rest, schedule), m);
      if n in schedule {
        OnlyFor(n, schedule[n], m);
      }
      assert names == [n] + rest;
    }
  }

  // ---- Symbols of a run ---------------------------------------------------------------------------------------

  lemma StepUnremarked(st: State, item: Item)
    requires Bounded(st) && PlanStep(PlanOf(st), item).Some? && L.Unremarked(st)
    ensures Step(st, item).Ok? && L.Unremarked(Step(st, item).value)
  {
    StepPlanned(st, item);
    if !item.Switch? {
      StepEffect(st, item);
    }
  }

  /** Until `finish`, symbols only have a location. */
  lemma {:induction false} RunUnremarked(st: State, items: seq<Item>)
    requires Bounded(st) && PlanAll(PlanOf(st), items).Some? && L.Unremarked(st)
    ensures Exec(st, items).Ok? && L.Unremarked(Exec(st, items).value)
    decreases |items|
  {
    if items != [] {
      StepPlanned(st, items[0]);
      StepUnremarked(st, items[0]);
      RunUnremarked(Step(st, items[0]).value, items[1..]);
    }
  }

  lemma UnpatchedSymbol(o: Options, items: seq<Item>, n: string)
    requires PlanAll(InitialPlan(o), items).Some? && Exec(Initial(o), items).Ok?
    requires n in Unpatched(o, Exec(Initial(o), items).value).symbols
    ensures n in Labels(o, items)
    ensures Unpatched(o, Exec(Initial(o), items).value).symbols[n] == Symbol(Labels(o, items)[n], 0, 0)
  {
    var st := Exec(Initial(o), items).value;
    InitialPlanned(o);
    RunUnremarked(Initial(o), items);
    L.FlushAllEffect(st, |st.sections|);
    UnpatchedSymbols(o, items, n);
  }

  /**
   Types and sizes: in an accepted program, each symbol ends with the type and size that its own remarks give
   it, in the order of the program and at the final addresses, whatever the order of the symbols.
  */
  lemma SymbolsRemarked(o: Options, items: seq<Item>, names: seq<string>, n: string)
    requires Enumerates(names, Mentioned(items)) && TwoPassAssemble(o, items).Some?
    ensures OnePass(o, items, names).Ok?
    ensures n in OnePass(o, items, names).value.symbols ==>
      var fin := TwoPassAssemble(o, items).value.final;
      && n in fin.symbols
      && OnePass(o, items, names).value.symbols[n]
           == AllRemarked(fin, Symbol(fin.symbols[n], 0, 0), Only(Log(items, InitialPlan(o)), n))
  {
    OnePassIsTwoPass(o, items, names);
    if n in OnePass(o, items, names).value.symbols {
      var plan, st := PlanAll(InitialPlan(o), items).value, Exec(Initial(o), items).value;
      RunRemarked(o, items, names, n, plan, st, TwoPassAssemble(o, items).value.final);
    }
  }

  lemma RunRemarked(o: Options, items: seq<Item>, names: seq<string>, n: string, plan: Plan, st: State, fin: Final)
    requires Enumerates(names, Mentioned(items)) && PlanAll(InitialPlan(o), items) == Some(plan)
    requires Exec(Initial(o), items) == Ok(st) && fin == FinalOf(o, items, plan)
    requires Finish(o, st, names).Ok? && n in Finish(o, st, names).value.symbols
    ensures n in fin.symbols
    ensures Finish(o, st, names).value.symbols[n]
         == AllRemarked(fin, Symbol(fin.symbols[n], 0, 0), Only(Log(items, InitialPlan(o)), n))
  {
    var x, es := Unpatched(o, st), Entries(names, st.schedule);
    UnpatchedMatches(o, items, plan);
    RunSchedule(o, items, names);
    RunEntriesEffect(x, es);
    UnpatchedSymbol(o, items, n);
    EntriesRemark(x, es, fin, n);
    OnlyEntries(names, st.schedule, n);
    RunHolds(o, items);
    RunMentions(Initial(o), items);
  }
}
