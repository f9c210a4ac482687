/** The main theorem: one pass with back-patching is two passes. */
module Equivalence {
  import opened Words
  import opened Instructions
  import opened Results
  import opened References
  import opened Items
  import opened Layout
  import opened State
  import opened Fixups
  import opened TwoPass
  import opened Planning
  import opened Refinement
  import L = Labels

  // ---- The schedule, by symbol and by time ------------------------------------------------------------------

  lemma {:induction false} OnlyMembers(log: seq<Entry>, n: string, f: Fixup)
    ensures f in Only(log, n) <==> Entry(n, f) in log
    decreases |log|
  {
    if log != [] {
      OnlyMembers(log[1..], n, f);
      assert log == [log[0]] + log[1..];
    }
  }

  lemma {:induction false} EntriesMembers(names: seq<string>, schedule: map<string, seq<Fixup>>, e: Entry)
    ensures e in Entries(names, schedule)
       <==> e.symbol in names && e.symbol in schedule && e.fixup in schedule[e.symbol]
    decreases |names|
  {
    if names != [] {
      EntriesMembers(names[1..], schedule, e);
      assert names == [names[0]] + names[1..];
      if names[0] in schedule {
        ForMembers(names[0], schedule[names[0]], e);
      }
    }
  }

  lemma ForMembers(n: string, fixups: seq<Fixup>, e: Entry)
    ensures e in EntriesFor(n, fixups) <==> e.symbol == n && e.fixup in fixups
  {
    var es := EntriesFor(n, fixups);
    if e.symbol == n && e.fixup in fixups {
      var i :| 0 <= i < |fixups| && fixups[i] == e.fixup;
      assert es[i] == e;
    }
  }

  lemma InLogApart(log: seq<Entry>, a: Entry, b: Entry)
    requires PairwiseApart(log) && a in log && b in log && a != b
    ensures Apart(a.fixup, b.fixup)
  {
    var i :| 0 <= i < |log| && log[i] == a;
    var j :| 0 <= j < |log| && log[j] == b;
    if i < j {
      assert Apart(log[i].fixup, log[j].fixup);
    } else {
      assert Apart(log[j].fixup, log[i].fixup);
    }
  }

  lemma TailApart(log: seq<Entry>)
    requires log != [] && PairwiseApart(log)
    ensures PairwiseApart(log[1..])
    ensures forall e :: e in log[1..] ==> Apart(log[0].fixup, e.fixup)
  {
    var rest := log[1..];
    forall i, j | 0 <= i < j < |rest|
      ensures Apart(rest[i].fixup, rest[j].fixup)
    {
      assert Apart(log[i + 1].fixup, log[j + 1].fixup);
    }
    forall e | e in rest
      ensures Apart(log[0].fixup, e.fixup)
    {
      var k :| 0 <= k < |rest| && rest[k] == e;
      assert Apart(log[0].fixup, log[k + 1].fixup);
    }
  }

  lemma {:induction false} OnlyApart(log: seq<Entry>, n: string)
    requires PairwiseApart(log)
    ensures PairwiseApart(EntriesFor(n, Only(log, n)))
    decreases |log|
  {
    if log != [] {
      TailApart(log);
      OnlyApart(log[1..], n);
      var later := EntriesFor(n, Only(log[1..], n));
      if log[0].symbol == n {
        forall j | 0 <= j < |later|
          ensures Apart(log[0].fixup, later[j].fixup)
        {
          OnlyMembers(log[1..], n, later[j].fixup);
        }
        ConcatApart([log[0]], later);
        assert EntriesFor(n, Only(log, n)) == [log[0]] + later;
      } else {
        assert Only(log, n) == Only(log[1..], n);
      }
    }
  }

  lemma ConcatApart(a: seq<Entry>, b: seq<Entry>)
    requires PairwiseApart(a) && PairwiseApart(b)
    requires forall i, j :: 0 <= i < |a| && 0 <= j < |b| ==> Apart(a[i].fixup, b[j].fixup)
    ensures PairwiseApart(a + b)
  {
    var c := a + b;
    forall i, j | 0 <= i < j < |c|
      ensures Apart(c[i].fixup, c[j].fixup)
    {
      if j < |a| {
        assert Apart(a[i].fixup, a[j].fixup);
      } else if i >= |a| {
        assert Apart(b[i - |a|].fixup, b[j - |a|].fixup);
      }
    }
  }

  /** The schedule holds exactly the log, by symbol. */
  ghost predicate Holds(schedule: map<string, seq<Fixup>>, log: seq<Entry>) {
    forall n :: Only(log, n) == if n in schedule then schedule[n] else []
  }

  lemma HeldEntry(names: seq<string>, schedule: map<string, seq<Fixup>>, log: seq<Entry>, e: Entry)
    requires Holds(schedule, log)
    ensures e in Entries(names, schedule) <==> e.symbol in names && e in log
  {
    EntriesMembers(names, schedule, e);
    OnlyMembers(log, e.symbol, e.fixup);
  }

  /** In whatever order the symbols come, the scheduled fixups own disjoint bytes. */
  lemma {:induction false} EntriesApart(names: seq<string>, schedule: map<string, seq<Fixup>>, log: seq<Entry>)
    requires Holds(schedule, log) && PairwiseApart(log)
    requires forall i, j :: 0 <= i < j < |names| ==> names[i] != names[j]
    ensures PairwiseApart(Entries(names, schedule))
    decreases |names|
  {
    if names != [] {
      var n, rest := names[0], names[1..];
      var first := if n in schedule then EntriesFor(n, schedule[n]) else [];
      var later := Entries(rest, schedule);
      assert forall i :: 0 <= i < |rest| ==> rest[i] == names[i + 1];
      EntriesApart(rest, schedule, log);
      OnlyApart(log, n);
      forall i, j | 0 <= i < |first| && 0 <= j < |later|
        ensures Apart(first[i].fixup, later[j].fixup)
      {
        HeldEntry(rest, schedule, log, later[j]);
        OnlyMembers(log, n, first[i].fixup);
        assert n !in rest;
        InLogApart(log, first[i], later[j]);
      }
      ConcatApart(first, later);
    }
  }

  lemma StepMentions(st: State, item: Item)
    requires Proper(st) && Step(st, item).Ok?
    ensures Step(st, item).value.schedule.Keys
         == st.schedule.Keys + (if item.Remark? || item.Refer? then {item.symbol} else {})
  {
  }

  /** The keys of the schedule are the symbols the program mentions. */
  lemma {:induction false} RunMentions(st: State, items: seq<Item>)
    requires Proper(st) && Exec(st, items).Ok?
    ensures Exec(st, items).value.schedule.Keys == st.schedule.Keys + Mentioned(items)
    decreases |items|
  {
    if items == [] {
      assert Mentioned(items) == {};
    } else {
      StepMentions(st, items[0]);
      RunMentions(Step(st, items[0]).value, items[1..]);
      assert items == [items[0]] + items[1..];
      assert Mentioned(items)
          == (if items[0].Remark? || items[0].Refer? then {items[0].symbol} else {}) + Mentioned(items[1..]);
    }
  }

  lemma {:induction false} LogMentions(items: seq<Item>, p: Plan, e: Entry)
    requires Placed(p) && e in Log(items, p)
    ensures e.symbol in Mentioned(items)
    decreases |items|
  {
    var here := Logged(items[0], p.current, p.sections[p.current].size);
    if e in here {
      assert items[0] in items;
    } else {
      LogMentions(items[1..], PlanStep(p, items[0]).value, e);
      var item :| item in items[1..] && (item.Remark? || item.Refer?) && item.symbol == e.symbol;
      assert item in items;
    }
  }

  // ---- Acceptance -------------------------------------------------------------------------------------------

  predicate EntryResolved(e: Entry, fin: Final) {
    && e.symbol in fin.symbols
    && (e.fixup.PatchAt? ==> !Rejects(e.fixup.kind, FinalAddress(fin, e.fixup.at), Target(fin, e.symbol)))
  }

  ghost predicate AllResolved(log: seq<Entry>, fin: Final) {
    forall i :: 0 <= i < |log| ==> EntryResolved(log[i], fin)
  }

  lemma ResolvedConcat(a: seq<Entry>, b: seq<Entry>, fin: Final)
    ensures AllResolved(a + b, fin) <==> AllResolved(a, fin) && AllResolved(b, fin)
  {
    if AllResolved(a + b, fin) {
      forall i | 0 <= i < |a| ensures EntryResolved(a[i], fin) { assert (a + b)[i] == a[i]; }
      forall i | 0 <= i < |b| ensures EntryResolved(b[i], fin) { assert (a + b)[|a| + i] == b[i]; }
    }
  }

  /** The second pass accepts exactly what every scheduled fixup accepts. */
  lemma {:induction false} ResolvedLog(items: seq<Item>, p: Plan, fin: Final)
    requires Placed(p) && PlanAll(p, items).Some?
    ensures Resolved(items, p, fin) <==> AllResolved(Log(items, p), fin)
    decreases |items|
  {
    if items != [] {
      var p1, here := PlanStep(p, items[0]).value, Logged(items[0], p.current, p.sections[p.current].size);
      ResolvedLog(items[1..], p1, fin);
      ResolvedConcat(here, Log(items[1..], p1), fin);
      if items[0].Remark? || items[0].Refer? {
        assert AllResolved(here, fin) <==> EntryResolved(here[0], fin);
      } else {
        assert here == [];
      }
    }
  }

  /** The state before the fixups has the addresses that the first pass found. */
  ghost predicate MatchesFinal(st: State, fin: Final) {
    && |fin.bases| == |st.sections| && st.symbols.Keys == fin.symbols.Keys
    && (forall s :: 0 <= s < |st.sections| ==> st.sections[s].base == fin.bases[s])
    && (forall n :: n in st.symbols ==> st.symbols[n].at == fin.symbols[n] && fin.symbols[n].section < |st.sections|)
  }

  lemma AddressMatches(st: State, fin: Final, at: Location)
    requires MatchesFinal(st, fin) && at.section < |st.sections|
    ensures AddressOf(st.sections, at) == FinalAddress(fin, at)
  {
  }

  lemma RunnableMatches(st: State, fin: Final, e: Entry)
    requires MatchesFinal(st, fin) && InRange(st, e.fixup)
    ensures Runnable(st, e) <==> EntryResolved(e, fin)
  {
    if e.symbol in fin.symbols {
      AddressMatches(st, fin, st.symbols[e.symbol].at);
      if e.fixup.PatchAt? {
        AddressMatches(st, fin, e.fixup.at);
      }
    }
  }

  // ---- Before the fixups ------------------------------------------------------------------------------------

  /** A label is bound exactly if it is pending already or still to come. */
  lemma {:induction false} FirstDomain(items: seq<Item>, p: Plan, name: string, pending: set<nat>)
    requires Placed(p) && PlanAll(p, items).Some?
    ensures First(items, p, name, pending).Some? <==> pending != {} || NewLabel(name) in items
    decreases |items|
  {
    if items != [] && !(Flushes(items[0]) && p.current in pending) {
      assert items == [items[0]] + items[1..];
      FirstDomain(items[1..], PlanStep(p, items[0]).value, name,
                  if items[0] == NewLabel(name) then pending + {p.current} else pending);
    }
  }

  /** A label is bound inside its section or at its end. */
  lemma {:induction false} FirstInRange(items: seq<Item>, p: Plan, name: string, pending: set<nat>)
    requires Placed(p) && PlanAll(p, items).Some? && First(items, p, name, pending).Some?
    ensures var at := First(items, p, name, pending).value;
      at.section < |PlanAll(p, items).value.sections| && at.offset <= SizeAt(PlanAll(p, items).value, at.section)
    decreases |items|
  {
    if items != [] {
      PlanGrows(PlanStep(p, items[0]).value, items[1..]);
      PlanStepGrows(p, items[0]);
      if !(Flushes(items[0]) && p.current in pending) {
        FirstInRange(items[1..], PlanStep(p, items[0]).value, name,
                     if items[0] == NewLabel(name) then pending + {p.current} else pending);
      }
    }
  }

  lemma LabelsDomain(o: Options, items: seq<Item>, n: string)
    requires PlanAll(InitialPlan(o), items).Some?
    ensures n in Labels(o, items) <==> First(items, InitialPlan(o), n, {}).Some?
  {
    FirstDomain(items, InitialPlan(o), n, {});
  }

  /** The state in which `finish` starts to run the fixups. */
  function Unpatched(o: Options, st: State): (r: State)
    requires Proper(st)
    ensures |r.sections| == |st.sections|
  {
    ResolveBases(o, FlushAll(st, |st.sections|))
  }

  function FinalOf(o: Options, items: seq<Item>, plan: Plan): Final {
    Final(BasesOf(o, plan), Labels(o, items))
  }

  /** Bases, flags and bytes before the fixups. */
  lemma UnpatchedSections(o: Options, st: State, s: nat)
    requires Proper(st) && s < |st.sections|
    ensures var x := Unpatched(o, st);
      && x.sections[s].base == BasesOf(o, PlanOf(st))[s] && x.sections[s].output == st.sections[s].output
      && PlannedOf(x.sections[s]) == PlanOf(st).sections[s].(based := true, base := BasesOf(o, PlanOf(st))[s])
  {
    var f := FlushAll(st, |st.sections|);
    L.FlushAllEffect(st, |st.sections|);
    assert Extents(f.sections) == Extents(st.sections);
    BasesPlanned(o, st);
  }

  lemma UnpatchedSymbols(o: Options, items: seq<Item>, n: string)
    requires PlanAll(InitialPlan(o), items).Some? && Exec(Initial(o), items).Ok?
    ensures var x := Unpatched(o, Exec(Initial(o), items).value); var fin := Labels(o, items);
      && (n in x.symbols <==> n in fin)
      && (n in x.symbols ==> x.symbols[n].at == fin[n] && fin[n].section < |x.sections|)
  {
    InitialPlanned(o);
    RunPlanned(Initial(o), items);
    L.LabelsAgree(Initial(o), items, n);
    LabelsDomain(o, items, n);
    assert L.Pending(Initial(o), n) == {};
    if First(items, InitialPlan(o), n, {}).Some? {
      FirstInRange(items, InitialPlan(o), n, {});
    }
  }

  lemma UnpatchedMatches(o: Options, items: seq<Item>, plan: Plan)
    requires PlanAll(InitialPlan(o), items) == Some(plan) && Exec(Initial(o), items).Ok?
    ensures MatchesFinal(Unpatched(o, Exec(Initial(o), items).value), FinalOf(o, items, plan))
  {
    var st := Exec(Initial(o), items).value;
    InitialPlanned(o);
    RunPlanned(Initial(o), items);
    forall s | 0 <= s < |st.sections|
      ensures Unpatched(o, st).sections[s].base == BasesOf(o, plan)[s]
    {
      UnpatchedSections(o, st, s);
    }
    forall n: string
      ensures var x := Unpatched(o, st); var fin := Labels(o, items);
        && (n in x.symbols <==> n in fin)
        && (n in x.symbols ==> x.symbols[n].at == fin[n] && fin[n].section < |x.sections|)
    {
      UnpatchedSymbols(o, items, n);
    }
  }

  // ---- After the fixups ---------------------------------------------------------------------------------------

  /** The same but for the bytes and the symbols. */
  ghost predicate SameFrame(a: State, b: State) {
    && b.current == a.current && b.schedule == a.schedule && b.globals == a.globals
    && |b.sections| == |a.sections|
    && forall s :: 0 <= s < |a.sections| ==> PlannedOf(b.sections[s]) == PlannedOf(a.sections[s])
  }

  lemma PatchKeeps(st: State, s: nat, r: State)
    requires s < |st.sections| == |r.sections| && |r.sections[s].output| == |st.sections[s].output|
    requires r.sections == st.sections[s := st.sections[s].(output := r.sections[s].output)]
    requires r.current == st.current && r.schedule == st.schedule && r.globals == st.globals
    ensures SameFrame(st, r)
  {
  }

  lemma RunFixupKeeps(st: State, e: Entry)
    requires RunFixup(st, e.symbol, e.fixup).Ok?
    ensures SameFrame(st, RunFixup(st, e.symbol, e.fixup).value)
  {
    var r := RunFixup(st, e.symbol, e.fixup).value;
    if e.fixup.PatchAt? {
      PatchKeeps(st, e.fixup.at.section, r);
    }
  }

  /** Fixups change bytes and symbol attributes only. */
  lemma {:induction false} RunEntriesKeeps(st: State, entries: seq<Entry>)
    requires RunEntries(st, entries).Ok?
    ensures SameFrame(st, RunEntries(st, entries).value)
    decreases |entries|
  {
    if entries != [] {
      RunFixupKeeps(st, entries[0]);
      RunEntriesKeeps(RunFixup(st, entries[0].symbol, entries[0].fixup).value, entries[1..]);
    }
  }

  /** What the fixups of a log make of one section. */
  lemma PatchedRewritten(st: State, es: seq<Entry>, r: State, log: seq<Entry>, fin: Final, s: nat)
    requires AllRunnable(st, es) && AllPatched(st, es, r) && MatchesFinal(st, fin) && s < |st.sections|
    requires forall e :: e in es <==> e in log
    ensures Rewritten(st.sections[s].output, r.sections[s].output, s, 0, log, fin)
  {
    var x, y := st.sections[s].output, r.sections[s].output;
    forall i | 0 <= i < |log|
      ensures RegionRewritten(x, y, s, log[i], fin)
    {
      var e := log[i];
      assert e in es;
      var j :| 0 <= j < |es| && es[j] == e;
      assert Runnable(st, es[j]);
      if e.fixup.PatchAt? && e.fixup.at.section == s {
        AddressMatches(st, fin, e.fixup.at);
        AddressMatches(st, fin, e.fixup.before);
        AddressMatches(st, fin, st.symbols[e.symbol].at);
      }
    }
    forall k | 0 <= k < |x| && NotOwned(log, s, k)
      ensures y[k] == x[k]
    {
      NotOwnedEither(log, es, s, k);
    }
  }

  /** The linked program as the one-pass assembler leaves it. */
  ghost predicate Agree(r: State, linked: Linked) {
    && |r.sections| == |linked.outputs| == |linked.plan.sections| == |linked.final.bases|
    && (forall s :: 0 <= s < |r.sections| ==>
          && r.sections[s].output == linked.outputs[s]
          && PlannedOf(r.sections[s]) == linked.plan.sections[s].(based := true, base := linked.final.bases[s]))
    && r.symbols.Keys == linked.final.symbols.Keys
    && (forall n :: n in r.symbols ==> r.symbols[n].at == linked.final.symbols[n])
  }

  /** Agreeing states have the addresses of the two passes. */
  lemma AgreeAddress(r: State, linked: Linked, at: Location)
    requires Agree(r, linked) && at.section < |r.sections|
    ensures AddressOf(r.sections, at) == FinalAddress(linked.final, at)
  {
    assert PlannedOf(r.sections[at.section]).base == linked.final.bases[at.section];
  }

  /** The log of a run and the state before the fixups. */
  lemma RunHolds(o: Options, items: seq<Item>)
    requires PlanAll(InitialPlan(o), items).Some? && Exec(Initial(o), items).Ok?
    ensures Holds(Exec(Initial(o), items).value.schedule, Log(items, InitialPlan(o)))
  {
    InitialPlanned(o);
    forall n: string
      ensures ScheduledFor(Exec(Initial(o), items).value, n) == Only(Log(items, InitialPlan(o)), n)
    {
      RunScheduled(Initial(o), items, n);
    }
  }

  /** All the scheduled entries of a run: they own disjoint bytes, are in range, and are those of the log. */
  lemma RunSchedule(o: Options, items: seq<Item>, names: seq<string>)
    requires PlanAll(InitialPlan(o), items).Some? && Exec(Initial(o), items).Ok?
    requires Enumerates(names, Mentioned(items))
    ensures var st := Exec(Initial(o), items).value; var es := Entries(names, st.schedule);
      && PairwiseApart(es)
      && (forall e :: e in es <==> e in Log(items, InitialPlan(o)))
      && (forall e :: e in es ==> InRange(Unpatched(o, st), e.fixup))
  {
    var st, log := Exec(Initial(o), items).value, Log(items, InitialPlan(o));
    InitialPlanned(o);
    RunPlanned(Initial(o), items);
    RunHolds(o, items);
    LogApart(items, InitialPlan(o));
    EntriesApart(names, st.schedule, log);
    LogWithin(items, InitialPlan(o));
    forall e: Entry
      ensures e in Entries(names, st.schedule) <==> e in log
      ensures e in log ==> InRange(Unpatched(o, st), e.fixup)
    {
      HeldEntry(names, st.schedule, log, e);
      if e in log {
        LogMentions(items, InitialPlan(o), e);
        UnpatchedInRange(o, st, e, InitialPlan(o));
      }
    }
  }

  lemma UnpatchedInRange(o: Options, st: State, e: Entry, p: Plan)
    requires Proper(st) && Within(e, p, PlanOf(st))
    ensures InRange(Unpatched(o, st), e.fixup)
  {
    forall s | 0 <= s < |st.sections|
      ensures Unpatched(o, st).sections[s].output == st.sections[s].output
    {
      UnpatchedSections(o, st, s);
    }
  }

  /** The fixups of a run all succeed exactly when the second pass accepts. */
  lemma RunnableResolved(o: Options, items: seq<Item>, names: seq<string>, plan: Plan)
    requires PlanAll(InitialPlan(o), items) == Some(plan) && Exec(Initial(o), items).Ok?
    requires Enumerates(names, Mentioned(items))
    ensures var st := Exec(Initial(o), items).value;
      AllRunnable(Unpatched(o, st), Entries(names, st.schedule))
      <==> Resolved(items, InitialPlan(o), FinalOf(o, items, plan))
  {
    var st, log, fin := Exec(Initial(o), items).value, Log(items, InitialPlan(o)), FinalOf(o, items, plan);
    var es := Entries(names, st.schedule);
    RunSchedule(o, items, names);
    UnpatchedMatches(o, items, plan);
    ResolvedLog(items, InitialPlan(o), fin);
    forall e: Entry
      ensures e in es ==> (Runnable(Unpatched(o, st), e) <==> EntryResolved(e, fin))
    {
      if e in es {
        RunnableMatches(Unpatched(o, st), fin, e);
      }
    }
    assert AllRunnable(Unpatched(o, st), es) <==> forall e :: e in es ==> Runnable(Unpatched(o, st), e);
    assert AllResolved(log, fin) <==> forall e :: e in log ==> EntryResolved(e, fin);
  }

  /** The bytes of one section at the end. */
  lemma SectionEncoded(o: Options, items: seq<Item>, names: seq<string>, plan: Plan, r: State, s: nat)
    requires PlanAll(InitialPlan(o), items) == Some(plan) && Exec(Initial(o), items).Ok?
    requires Enumerates(names, Mentioned(items)) && s < |plan.sections|
    requires Finish(o, Exec(Initial(o), items).value, names) == Ok(r)
    ensures SameAddresses(Unpatched(o, Exec(Initial(o), items).value), r) && |r.sections| == |plan.sections|
    ensures r.sections[s].output == Encoded(items, InitialPlan(o), s, FinalOf(o, items, plan))
  {
    var st, fin, p := Exec(Initial(o), items).value, FinalOf(o, items, plan), InitialPlan(o);
    var x, es := Unpatched(o, st), Entries(names, st.schedule);
    RunSchedule(o, items, names);
    RunEntriesEffect(x, es);
    InitialPlanned(o);
    RunPlanned(Initial(o), items);
    UnpatchedMatches(o, items, plan);
    UnpatchedSections(o, st, s);
    PatchedRewritten(x, es, r, Log(items, p), fin, s);
    RunOutput(Initial(o), items, s);
    WholeSection(items, p, s, x.sections[s].output, r.sections[s].output, fin);
  }

  /** A section that starts empty. */
  lemma WholeSection(items: seq<Item>, p: Plan, s: nat, x: seq<byte>, r: seq<byte>, fin: Final)
    requires Placed(p) && PlanAll(p, items).Some? && SizeAt(p, s) == 0
    requires x == [] + Raw(items, p, s) && Rewritten(x, r, s, 0, Log(items, p), fin)
    ensures r == Encoded(items, p, s, fin)
  {
    assert x[0..] == x == Raw(items, p, s);
    RunRewritten(items, p, s, x, r, fin);
    assert r[0..] == r;
  }

  /**
   One pass is two passes. A program is accepted by the one-pass assembler without any buffer size wrapping
   around exactly when the two-pass assembler accepts it; and then every section holds the bytes of the
   second pass and lies at its base address, and every symbol is where the first pass put it. This holds in
   whatever order the scheduled symbols are visited.
  */
  lemma OnePassIsTwoPass(o: Options, items: seq<Item>, names: seq<string>)
    requires Enumerates(names, Mentioned(items))
    ensures OnePass(o, items, names).Ok? && WrapFree(Initial(o), items) <==> TwoPassAssemble(o, items).Some?
    ensures TwoPassAssemble(o, items).Some? ==> Agree(OnePass(o, items, names).value, TwoPassAssemble(o, items).value)
  {
    InitialPlanned(o);
    RunPlanned(Initial(o), items);
    if PlanAll(InitialPlan(o), items).Some? {
      var plan := PlanAll(InitialPlan(o), items).value;
      var st := Exec(Initial(o), items).value;
      RunnableResolved(o, items, names, plan);
      RunSchedule(o, items, names);
      RunEntriesEffect(Unpatched(o, st), Entries(names, st.schedule));
      if TwoPassAssemble(o, items).Some? {
        LinkedAgree(o, items, names, plan);
      }
    }
  }

  lemma LinkedAgree(o: Options, items: seq<Item>, names: seq<string>, plan: Plan)
    requires PlanAll(InitialPlan(o), items) == Some(plan) && Exec(Initial(o), items).Ok?
    requires PlanOf(Exec(Initial(o), items).value) == plan
    requires Enumerates(names, Mentioned(items)) && TwoPassAssemble(o, items).Some?
    requires Finish(o, Exec(Initial(o), items).value, names).Ok?
    ensures Agree(Finish(o, Exec(Initial(o), items).value, names).value, TwoPassAssemble(o, items).value)
  {
    var st, linked := Exec(Initial(o), items).value, TwoPassAssemble(o, items).value;
    var r := Finish(o, st, names).value;
    UnpatchedMatches(o, items, plan);
    RunSchedule(o, items, names);
    RunEntriesEffect(Unpatched(o, st), Entries(names, st.schedule));
    RunEntriesKeeps(Unpatched(o, st), Entries(names, st.schedule));
    forall s | 0 <= s < |plan.sections|
      ensures r.sections[s].output == linked.outputs[s]
      ensures PlannedOf(r.sections[s]) == plan.sections[s].(based := true, base := linked.final.bases[s])
    {
      SectionEncoded(o, items, names, plan, r, s);
      UnpatchedSections(o, st, s);
    }
  }

  /** For programs of sane items, nothing can wrap: acceptance and result are those of two passes. */
  lemma SaneOnePassIsTwoPass(o: Options, items: seq<Item>, names: seq<string>)
    requires Enumerates(names, Mentioned(items)) && forall item :: item in items ==> Sane(item)
    ensures OnePass(o, items, names).Ok? <==> TwoPassAssemble(o, items).Some?
    ensures OnePass(o, items, names).Ok? ==> Agree(OnePass(o, items, names).value, TwoPassAssemble(o, items).value)
  {
    InitialPlanned(o);
    SaneRuns(Initial(o), items);
    OnePassIsTwoPass(o, items, names);
  }

  // ---- What wrap-around does ------------------------------------------------------------------------------------

  /** `.size x`, `.align 0`, four bytes of data, and the label `x:` after them. */
  function Overwritten(data: seq<byte>): seq<Item> {
    [Refer("x", SizeOf), Align(0), Block(0, false, Bytes(DataOutput, data)), NewLabel("x")]
  }

  /** The fixup of `.size` overwrites whatever four bytes it finds. */
  lemma SizePatched(bytes: seq<byte>)
    requires |bytes| == 4
    ensures Patch(SizeKind, bytes, 0, 4, 0) == [0, 0, 0, 0]
  {
    var a := WordTo(0, SizeValue(0, 4, 0));
    assert [a][1..] == [];
    assert Assign(bytes, a) == Bytes4(0);
    assert AssignAll(bytes, [a]) == Assign(bytes, a);
    assert Assignments(SizeKind, 0, 4, 0) == [a];
  }

  const SIZE_FIXUP: Fixup := PatchAt(SizeKind, Location(0, 0), Location(0, 0))

  /** The states of the run after `.size x`. */
  function Holding(o: Options, output: seq<byte>, queue: seq<string>): (st: State)
    ensures Proper(st)
  {
    State([SectionValue(".text", output, false, true, false, false, false, true, o.base, queue)], 0,
          map[], map["x" := [SIZE_FIXUP]], {})
  }

  lemma OverwrittenFirst(o: Options)
    ensures Step(Initial(o), Refer("x", SizeOf)) == Ok(Holding(o, Placeholder(SizeOf), []))
  {
    var st := Initial(o);
    assert SizeHere(st) == 0;
    AlignEmpty(SizeHere(st), 4);
    SizeOfEmpty(st, Refer("x", SizeOf));
  }

  /** `.size` at the start of a program. */
  lemma SizeOfEmpty(st: State, item: Item)
    requires Bounded(st) && item == Refer("x", SizeOf) && |st.sections| == 1 && st.sections[0].queue == []
    requires st.symbols == map[] && st.schedule == map[] && SizeHere(st) == 0 == Start(SizeHere(st), item)
    ensures Step(st, item) == Ok(State([st.sections[0].(data := true, output := Placeholder(SizeOf))], 0, map[],
                                       map["x" := [SIZE_FIXUP]], st.globals))
  {
    StepEffect(st, item);
    OneLogged(st.schedule, Entry("x", SIZE_FIXUP));
    assert Logged(item, 0, 0) == [Entry("x", SIZE_FIXUP)];
    assert [] + [SIZE_FIXUP] == [SIZE_FIXUP];
    assert SectionAfter(Current(st), item).output == Placeholder(SizeOf);
    assert SymbolsAfter(st, item) == map[];
    assert StateAfter(st, item).sections == [st.sections[0].(data := true, output := Placeholder(SizeOf))];
  }

  lemma OverwrittenSecond(o: Options, placeholder: seq<byte>, alignment: u64)
    requires |placeholder| == 4 && alignment == 0
    ensures Step(Holding(o, placeholder, []), Align(alignment)) == Ok(Holding(o, [], []))
  {
    AlignZero(|placeholder|, alignment);
    assert placeholder[..0] == [];
    var r := Step(Holding(o, placeholder, []), Align(alignment)).value;
    assert r.sections == Holding(o, [], []).sections;
  }

  lemma OverwrittenRest(o: Options, data: seq<byte>)
    requires |data| == 4
    ensures Step(Holding(o, [], []), Block(0, false, Bytes(DataOutput, data))) == Ok(Holding(o, data, []))
    ensures Step(Holding(o, data, []), NewLabel("x")) == Ok(Holding(o, data, ["x"]))
  {
    assert [] + data == data;
    assert [] + ["x"] == ["x"];
    var r := Step(Holding(o, [], []), Block(0, false, Bytes(DataOutput, data))).value;
    assert r.sections == Holding(o, data, []).sections;
    var r' := Step(Holding(o, data, []), NewLabel("x")).value;
    assert r'.sections == Holding(o, data, ["x"]).sections;
  }

  /** The state before `finish`. */
  lemma OverwrittenRun(o: Options, data: seq<byte>)
    requires |data| == 4
    ensures Exec(Initial(o), Overwritten(data)) == Ok(Holding(o, data, ["x"]))
  {
    OverwrittenFirst(o);
    OverwrittenSecond(o, Placeholder(SizeOf), 0);
    OverwrittenRest(o, data);
    FourSteps(Initial(o), Overwritten(data), Holding(o, Placeholder(SizeOf), []), Holding(o, [], []),
              Holding(o, data, []), Holding(o, data, ["x"]));
  }

  /** What `finish` makes of it. */
  lemma OverwrittenFinish(o: Options, data: seq<byte>, names: seq<string>)
    requires o.base == 0 && |data| == 4 && names == ["x"]
    ensures var r := Finish(o, Holding(o, data, ["x"]), names);
            r.Ok? && |r.value.sections| == 1 && r.value.sections[0].output == Placeholder(SizeOf)
  {
    var st := Holding(o, data, ["x"]);
    assert Entries(names, st.schedule) == [Entry("x", SIZE_FIXUP)] by {
      assert names[1..] == [];
      assert EntriesFor("x", [SIZE_FIXUP]) == [Entry("x", SIZE_FIXUP)];
    }
    OverwrittenUnpatched(o, data);
    OverwrittenPatched(Unpatched(o, st), data, Entry("x", SIZE_FIXUP));
    OneEntry(Unpatched(o, st), Entry("x", SIZE_FIXUP));
  }

  lemma OverwrittenPatched(x: State, data: seq<byte>, e: Entry)
    requires |x.sections| == 1 && x.sections[0].output == data && |data| == 4 && x.sections[0].base == 0
    requires e == Entry("x", SIZE_FIXUP) && "x" in x.symbols && x.symbols["x"].at == Location(0, 4)
    ensures var r := RunFixup(x, e.symbol, e.fixup);
            r.Ok? && |r.value.sections| == 1 && r.value.sections[0].output == Placeholder(SizeOf)
  {
    SizePatched(data);
    assert data[..0] + Patch(SizeKind, data, 0, 4, 0) + data[4..] == Patch(SizeKind, data, 0, 4, 0);
    assert data[0..4] == data;
  }

  lemma OverwrittenUnpatched(o: Options, data: seq<byte>)
    requires o.base == 0 && |data| == 4
    ensures var x := Unpatched(o, Holding(o, data, ["x"]));
      && |x.sections| == 1 && x.sections[0].output == data && x.sections[0].base == 0
      && "x" in x.symbols && x.symbols["x"].at == Location(0, 4)
  {
    var st := Holding(o, data, ["x"]);
    UnpatchedSections(o, st, 0);
    L.FlushAllEffect(st, 1);
    assert st.sections[0].queue[0] == "x";
  }

  lemma OneEntry(st: State, e: Entry)
    ensures RunEntries(st, [e]) == RunFixup(st, e.symbol, e.fixup)
  {
    assert [e][1..] == [];
  }

  lemma FourSteps(s0: State, items: seq<Item>, s1: State, s2: State, s3: State, s4: State)
    requires |items| == 4 && Proper(s0) && Proper(s1) && Proper(s2) && Proper(s3)
    requires Step(s0, items[0]) == Ok(s1) && Step(s1, items[1]) == Ok(s2)
    requires Step(s2, items[2]) == Ok(s3) && Step(s3, items[3]) == Ok(s4)
    ensures Exec(s0, items) == Ok(s4)
  {
    var t1 := items[1..];
    var t2 := t1[1..];
    var t3 := t2[1..];
    assert t1[0] == items[1] && t2[0] == items[2] && t3[0] == items[3] && t3[1..] == [];
    assert Exec(s3, t3) == Ok(s4);
    assert Exec(s2, t2) == Ok(s4);
    assert Exec(s1, t1) == Ok(s4);
  }

  lemma OverwrittenRejected(o: Options, items: seq<Item>, alignment: u64)
    requires |items| > 1 && items[0] == Refer("x", SizeOf) && items[1] == Align(alignment) && alignment == 0
    ensures TwoPassAssemble(o, items).None?
  {
    var p := InitialPlan(o);
    if PlanStep(p, items[0]).Some? {
      PlanStepGrows(p, items[0]);
      NeverShrinks(PlanStep(p, items[0]).value, items[1]);
    }
    SecondRejected(p, items);
  }

  lemma SecondRejected(p: Plan, items: seq<Item>)
    requires Placed(p) && |items| > 1
    requires PlanStep(p, items[0]).Some? ==> PlanStep(PlanStep(p, items[0]).value, items[1]).None?
    ensures PlanAll(p, items).None?
  {
    assert items[1..][0] == items[1];
  }

  /** The first pass does not let a section shrink. */
  lemma NeverShrinks(p: Plan, item: Item)
    requires Placed(p) && item.Align? && item.to == 0 && 0 < SizeAt(p, p.current) <= MAX_SIZE
    ensures PlanStep(p, item).None?
  {
    AlignZero(SizeAt(p, p.current), item.to);
  }

  /**
   Without the condition the theorem fails: `.align 0` wraps around and empties the buffer, and the fixup of
   the discarded `.size` then rewrites the data that came after it. The program is accepted all the same.
  */
  lemma WrapOverwritesData(o: Options, data: seq<byte>)
    requires o.base == 0 && |data| == 4
    ensures var r := OnePass(o, Overwritten(data), ["x"]);
            r.Ok? && |r.value.sections| == 1 && r.value.sections[0].output == [0, 0, 0, 0]
    ensures TwoPassAssemble(o, Overwritten(data)).None?
  {
    OverwrittenRun(o, data);
    OverwrittenFinish(o, data, ["x"]);
    OverwrittenRejected(o, Overwritten(data), 0);
  }
}
