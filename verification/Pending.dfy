/**
 The states between items (src/assembler.hpp:99-104, src/assemble.cpp:35-41, src/section.cpp:21-36): as long as no
 size wraps around, buffers only grow, and every scheduled fixup finds the placeholder that its item emitted.
*/
module Pending {
  import opened Words
  import opened Results
  import opened References
  import opened Items
  import opened Layout
  import opened State
  import opened TwoPass
  import opened Planning
  import opened Refinement
  import opened Equivalence

  /** Nothing of any buffer is lost. */
  ghost predicate Grown(a: State, b: State) {
    |a.sections| <= |b.sections| && forall s: nat :: OutputAt(a, s) <= OutputAt(b, s)
  }

  /** The output holds the placeholder of a reference of that kind at `at`, aligned like an instruction. */
  ghost predicate HasPlaceholder(output: seq<byte>, kind: Kind, at: nat) {
    && at % 4 == 0 && at + Width(kind) <= |output|
    && exists ref :: KindOf(ref) == kind && output[at..at + Width(kind)] == Placeholder(ref)
  }

  /** What a scheduled fixup will need, and find untouched. */
  ghost predicate Waits(st: State, f: Fixup) {
    match f
    case SetType(_) => true
    case SetEnd(at) => at.section < |st.sections| && at.offset <= |OutputAt(st, at.section)|
    case PatchAt(kind, at, before) =>
      && at.section == before.section < |st.sections| && before.offset <= at.offset
      && HasPlaceholder(OutputAt(st, at.section), kind, at.offset)
  }

  ghost predicate AllWait(st: State) {
    forall n: string, f :: f in ScheduledFor(st, n) ==> Waits(st, f)
  }

  lemma PlaceholderKept(x: seq<byte>, y: seq<byte>, kind: Kind, at: nat)
    requires x <= y && HasPlaceholder(x, kind, at)
    ensures HasPlaceholder(y, kind, at)
  {
    assert y[at..at + Width(kind)] == x[at..at + Width(kind)];
  }

  lemma WaitsKept(a: State, b: State, f: Fixup)
    requires Grown(a, b) && Waits(a, f)
    ensures Waits(b, f)
  {
    if f.PatchAt? {
      PlaceholderKept(OutputAt(a, f.at.section), OutputAt(b, f.at.section), f.kind, f.at.offset);
    }
  }

  /** The placeholder behind the padding. */
  lemma PlaceholderBehind(x: seq<byte>, padding: seq<byte>, y: seq<byte>, ref: Reference, at: nat)
    requires y == x + (padding + Placeholder(ref)) && at == |x| + |padding| && at % 4 == 0
    ensures HasPlaceholder(y, KindOf(ref), at)
  {
    PlaceholderWidth(ref);
    assert y[at..at + Width(KindOf(ref))] == Placeholder(ref);
  }

  lemma StepGrows(st: State, item: Item)
    requires Bounded(st) && PlanStep(PlanOf(st), item).Some?
    ensures Step(st, item).Ok? && Grown(st, Step(st, item).value)
  {
    StepPlanned(st, item);
    PlanStepGrows(PlanOf(st), item);
    var r := Step(st, item).value;
    forall s: nat
      ensures OutputAt(st, s) <= OutputAt(r, s)
    {
      StepOutput(st, item, s);
    }
  }

  /** What an item schedules finds what the item emits. */
  lemma LoggedWaits(st: State, item: Item, e: Entry, r: State)
    requires Bounded(st) && PlanStep(PlanOf(st), item).Some? && Step(st, item) == Ok(r) && Grown(st, r)
    requires e in Logged(item, st.current, SizeHere(st))
    ensures Waits(r, e.fixup)
  {
    var s, size := st.current, SizeHere(st);
    if item.Refer? {
      StepOutput(st, item, s);
      assert size <= Start(size, item);
      RoundedToWords(size, Start(size, item));
      PlaceholderBehind(OutputAt(st, s), Padding(size, item), OutputAt(r, s), item.ref, Start(size, item));
    }
  }

  /** A reference starts at a multiple of 4. */
  lemma RoundedToWords(size: nat, start: nat)
    requires size <= MAX_SIZE && start == AlignedSize(size, 4)
    ensures start % 4 == 0
  {
    assert Pow2(2) == 4;
    AlignPow2(size, 2, 0);
  }

  lemma {:induction false} InOnly(log: seq<Entry>, n: string, f: Fixup)
    requires f in Only(log, n)
    ensures Entry(n, f) in log
    decreases |log|
  {
    if log[0] != Entry(n, f) {
      InOnly(log[1..], n, f);
    }
  }

  /** The step of the invariant. */
  lemma StepWaits(st: State, item: Item)
    requires Bounded(st) && PlanStep(PlanOf(st), item).Some? && AllWait(st)
    ensures Step(st, item).Ok? && Grown(st, Step(st, item).value) && AllWait(Step(st, item).value)
  {
    StepGrows(st, item);
    var r, log := Step(st, item).value, Logged(item, st.current, SizeHere(st));
    forall n: string, f | f in ScheduledFor(r, n)
      ensures Waits(r, f)
    {
      StepScheduled(st, item, n);
      if f in ScheduledFor(st, n) {
        WaitsKept(st, r, f);
      } else {
        InOnly(log, n, f);
        LoggedWaits(st, item, Entry(n, f), r);
      }
    }
  }

  lemma {:induction false} RunWaits(st: State, items: seq<Item>)
    requires Bounded(st) && PlanAll(PlanOf(st), items).Some? && AllWait(st)
    ensures Exec(st, items).Ok? && Grown(st, Exec(st, items).value) && AllWait(Exec(st, items).value)
    decreases |items|
  {
    if items != [] {
      StepPlanned(st, items[0]);
      StepWaits(st, items[0]);
      RunWaits(Step(st, items[0]).value, items[1..]);
    }
  }

  lemma {:induction false} RunSplit(st: State, items: seq<Item>, m: nat)
    requires Bounded(st) && PlanAll(PlanOf(st), items).Some? && m <= |items|
    ensures PlanAll(PlanOf(st), items[..m]).Some? && Exec(st, items[..m]).Ok?
    ensures var mid := Exec(st, items[..m]).value;
      && Bounded(mid) && PlanAll(PlanOf(mid), items[m..]).Some? && Exec(mid, items[m..]) == Exec(st, items)
    decreases m
  {
    if m == 0 {
      assert items[..m] == [] && items[m..] == items;
    } else {
      StepPlanned(st, items[0]);
      RunSplit(Step(st, items[0]).value, items[1..], m - 1);
      assert items[..m][0] == items[0] && items[..m][1..] == items[1..][..m - 1] && items[m..] == items[1..][m - 1..];
    }
  }

  /**
   Every fixup is in range: in every state between items of a run whose sizes do not wrap around, each scheduled
   fixup finds the untouched placeholder of its item at an aligned place, and from there on buffers only grow.
  */
  lemma FixupsWait(o: Options, items: seq<Item>, m: nat)
    requires PlanAll(InitialPlan(o), items).Some? && m <= |items|
    ensures Exec(Initial(o), items[..m]).Ok? && Exec(Initial(o), items).Ok?
    ensures AllWait(Exec(Initial(o), items[..m]).value)
    ensures Grown(Exec(Initial(o), items[..m]).value, Exec(Initial(o), items).value)
  {
    InitialPlanned(o);
    RunSplit(Initial(o), items, m);
    RunWaits(Initial(o), items[..m]);
    RunWaits(Exec(Initial(o), items[..m]).value, items[m..]);
  }

  /** `.align 0` behind a reference takes its bytes away. */
  lemma AlignZeroLoses(o: Options, items: seq<Item>, alignment: u64)
    requires items == [Refer("x", SizeOf), Align(alignment)] && alignment == 0
    ensures Exec(Initial(o), items).Ok? && !AllWait(Exec(Initial(o), items).value)
  {
    PlaceholderWidth(SizeOf);
    OverwrittenFirst(o);
    OverwrittenSecond(o, Placeholder(SizeOf), alignment);
    TwoSteps(Initial(o), items, Holding(o, Placeholder(SizeOf), []), Holding(o, [], []));
    NothingToFind(o, Holding(o, [], []));
  }

  lemma NothingToFind(o: Options, r: State)
    requires r == Holding(o, [], [])
    ensures !AllWait(r)
  {
    assert ScheduledFor(r, "x") == [SIZE_FIXUP];
    assert !Waits(r, SIZE_FIXUP) by {
      assert OutputAt(r, 0) == [];
    }
    assert SIZE_FIXUP in ScheduledFor(r, "x");
  }

  lemma TwoSteps(s0: State, items: seq<Item>, s1: State, s2: State)
    requires |items| == 2 && Proper(s0) && Proper(s1)
    requires Step(s0, items[0]) == Ok(s1) && Step(s1, items[1]) == Ok(s2)
    ensures Exec(s0, items) == Ok(s2)
  {
    var t := items[1..];
    assert t[0] == items[1] && t[1..] == [];
    assert Exec(s1, t) == Ok(s2);
  }
}
