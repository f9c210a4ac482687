/**
 The one-pass assembler is a two-pass assembler: with every fixup run, in whatever order, its sections hold
 what the second pass would have written with all addresses known.
*/
module Refinement {
  import opened Words
  import opened Results
  import opened References
  import opened Items
  import opened Layout
  import opened State
  import opened Fixups
  import opened TwoPass
  import opened Planning
  import opened Instructions

  // ---- The schedule ---------------------------------------------------------------------------------------

  /** Everything a program schedules, in program order. */
  function Log(items: seq<Item>, p: Plan): seq<Entry>
    requires Placed(p)
    decreases |items|
  {
    if items == [] || PlanStep(p, items[0]).None? then []
    else Logged(items[0], p.current, p.sections[p.current].size) + Log(items[1..], PlanStep(p, items[0]).value)
  }

  lemma {:induction false} OnlyConcat(a: seq<Entry>, b: seq<Entry>, n: string)
    ensures Only(a + b, n) == Only(a, n) + Only(b, n)
    decreases |a|
  {
    if a == [] {
      assert a + b == b;
    } else {
      assert (a + b)[0] == a[0] && (a + b)[1..] == a[1..] + b;
      OnlyConcat(a[1..], b, n);
      ConcatAssociative(if a[0].symbol == n then [a[0].fixup] else [], Only(a[1..], n), Only(b, n));
    }
  }

  lemma OnlyOne(e: Entry, n: string)
    ensures Only([e], n) == if e.symbol == n then [e.fixup] else []
  {
    assert [e][1..] == [];
  }

  /** What one step adds to the schedule. */
  lemma StepScheduled(st: State, item: Item, n: string)
    requires Bounded(st) && PlanStep(PlanOf(st), item).Some?
    ensures Step(st, item).Ok?
    ensures ScheduledFor(Step(st, item).value, n)
         == ScheduledFor(st, n) + Only(Logged(item, st.current, SizeHere(st)), n)
  {
    StepPlanned(st, item);
    if !item.Switch? {
      StepEffect(st, item);
      var log := Logged(item, st.current, SizeHere(st));
      if log != [] {
        assert log == [log[0]];
        OnlyOne(log[0], n);
        OneLogged(st.schedule, log[0]);
      }
    }
  }

  /** For every symbol, the schedule holds exactly its part of the log, in order. */
  lemma {:induction false} RunScheduled(st: State, items: seq<Item>, n: string)
    requires Bounded(st) && PlanAll(PlanOf(st), items).Some?
    ensures Exec(st, items).Ok?
    ensures ScheduledFor(Exec(st, items).value, n) == ScheduledFor(st, n) + Only(Log(items, PlanOf(st)), n)
    decreases |items|
  {
    if items == [] {
      assert ScheduledFor(st, n) + [] == ScheduledFor(st, n);
    } else {
      var item := items[0];
      StepPlanned(st, item);
      var st1 := Step(st, item).value;
      StepScheduled(st, item, n);
      RunScheduled(st1, items[1..], n);
      var here, rest := Logged(item, st.current, SizeHere(st)), Log(items[1..], PlanOf(st1));
      OnlyConcat(here, rest, n);
      ConcatAssociative(ScheduledFor(st, n), Only(here, n), Only(rest, n));
    }
  }

  // ---- Where the fixups are ---------------------------------------------------------------------------------

  function SizeAt(p: Plan, s: nat): nat {
    if s < |p.sections| then p.sections[s].size else 0
  }

  /** The locations of an entry lie in what is laid out between two plans. */
  ghost predicate Within(e: Entry, lo: Plan, hi: Plan) {
    match e.fixup
    case SetType(_) => true
    case SetEnd(at) => at.section < |hi.sections|
    case PatchAt(kind, at, before) =>
      && at.section < |hi.sections| && before.section < |hi.sections|
      && SizeAt(lo, at.section) <= at.offset && at.offset + Width(kind) <= SizeAt(hi, at.section)
  }

  lemma PlanStepGrows(p: Plan, item: Item)
    requires Placed(p) && PlanStep(p, item).Some?
    ensures |p.sections| <= |PlanStep(p, item).value.sections|
    ensures forall s: nat :: SizeAt(p, s) <= SizeAt(PlanStep(p, item).value, s)
    ensures forall s: nat :: s != p.current ==> SizeAt(PlanStep(p, item).value, s) == SizeAt(p, s)
    ensures SizeAt(PlanStep(p, item).value, p.current) == Stop(SizeAt(p, p.current), item)
  {
  }

  lemma {:induction false} PlanGrows(p: Plan, items: seq<Item>)
    requires Placed(p) && PlanAll(p, items).Some?
    ensures |p.sections| <= |PlanAll(p, items).value.sections|
    ensures forall s: nat :: SizeAt(p, s) <= SizeAt(PlanAll(p, items).value, s)
    decreases |items|
  {
    if items != [] {
      PlanStepGrows(p, items[0]);
      PlanGrows(PlanStep(p, items[0]).value, items[1..]);
    }
  }

  /** Every fixup of a run is in range at its end, and at or after where the run began. */
  lemma {:induction false} LogWithin(items: seq<Item>, p: Plan)
    requires Placed(p) && PlanAll(p, items).Some?
    ensures forall i :: 0 <= i < |Log(items, p)| ==> Within(Log(items, p)[i], p, PlanAll(p, items).value)
    decreases |items|
  {
    if items != [] {
      var p1 := PlanStep(p, items[0]).value;
      PlanStepGrows(p, items[0]);
      PlanGrows(p1, items[1..]);
      LogWithin(items[1..], p1);
    }
  }

  /** The fixups of a run own disjoint bytes. */
  lemma {:induction false} LogApart(items: seq<Item>, p: Plan)
    requires Placed(p) && PlanAll(p, items).Some?
    ensures PairwiseApart(Log(items, p))
    decreases |items|
  {
    if items != [] {
      var p1 := PlanStep(p, items[0]).value;
      PlanStepGrows(p, items[0]);
      LogWithin(items[1..], p1);
      LogApart(items[1..], p1);
    }
  }

  // ---- Bytes --------------------------------------------------------------------------------------------------

  /** The bytes the one-pass assembler adds to section `s` before any fixup. */
  function Raw(items: seq<Item>, p: Plan, s: nat): seq<byte>
    requires Placed(p)
    decreases |items|
  {
    if items == [] || PlanStep(p, items[0]).None? then []
    else
      (if s == p.current then Padding(p.sections[p.current].size, items[0]) + RawContent(items[0]) else [])
      + Raw(items[1..], PlanStep(p, items[0]).value, s)
  }

  function OutputAt(st: State, s: nat): seq<byte> {
    if s < |st.sections| then st.sections[s].output else []
  }

  lemma StepOutput(st: State, item: Item, s: nat)
    requires Bounded(st) && PlanStep(PlanOf(st), item).Some?
    ensures Step(st, item).Ok?
    ensures OutputAt(Step(st, item).value, s) == OutputAt(st, s) +
              if s == st.current then Padding(SizeHere(st), item) + RawContent(item) else []
  {
    StepPlanned(st, item);
    assert OutputAt(st, s) + [] == OutputAt(st, s);
    if item.Switch? {
      assert Padding(SizeHere(st), item) + RawContent(item) == [];
    } else {
      StepEffect(st, item);
      ConcatAssociative(OutputAt(st, s), Padding(SizeHere(st), item), RawContent(item));
    }
  }

  lemma {:induction false} RunOutput(st: State, items: seq<Item>, s: nat)
    requires Bounded(st) && PlanAll(PlanOf(st), items).Some?
    ensures Exec(st, items).Ok?
    ensures OutputAt(Exec(st, items).value, s) == OutputAt(st, s) + Raw(items, PlanOf(st), s)
    decreases |items|
  {
    if items == [] {
      assert OutputAt(st, s) + [] == OutputAt(st, s);
    } else {
      StepPlanned(st, items[0]);
      StepOutput(st, items[0], s);
      RunOutput(Step(st, items[0]).value, items[1..], s);
      var chunk := if s == st.current then Padding(SizeHere(st), items[0]) + RawContent(items[0]) else [];
      var rest := Raw(items[1..], PlanOf(Step(st, items[0]).value), s);
      ConcatAssociative(OutputAt(st, s), chunk, rest);
    }
  }

  /** `r` is the part of section `s` from `from` on with the fixups of the log applied to it. */
  ghost predicate Rewritten(x: seq<byte>, r: seq<byte>, s: nat, from: nat, log: seq<Entry>, fin: Final) {
    && |r| == |x|
    && (forall i :: 0 <= i < |log| ==> RegionRewritten(x, r, s, log[i], fin))
    && (forall k :: from <= k < |x| && NotOwned(log, s, k) ==> r[k] == x[k])
  }

  ghost predicate RegionRewritten(x: seq<byte>, r: seq<byte>, s: nat, e: Entry, fin: Final) {
    e.fixup.PatchAt? && e.fixup.at.section == s ==>
      var a, b := e.fixup.at.offset, e.fixup.at.offset + Width(e.fixup.kind);
      && b <= |x| && b <= |r|
      && r[a..b] == Patch(e.fixup.kind, x[a..b], FinalAddress(fin, e.fixup.at), Target(fin, e.symbol),
                          FinalAddress(fin, e.fixup.before))
  }

  /** The padding in front of an item stays, and the item's own bytes become its encoding at the final addresses. */
  lemma ItemRewritten(x: seq<byte>, r: seq<byte>, s: nat, size: nat, start: nat, stop: nat, item: Item, fin: Final)
    requires size <= start <= stop <= |x| == |r| && start == Start(size, item) && stop == Stop(size, item)
    requires x[start..stop] == RawContent(item)
    requires forall i :: 0 <= i < |Logged(item, s, size)| ==> RegionRewritten(x, r, s, Logged(item, s, size)[i], fin)
    requires forall k :: size <= k < stop && NotOwned(Logged(item, s, size), s, k) ==> r[k] == x[k]
    ensures r[size..start] == x[size..start]
    ensures r[start..stop] == Content(item, s, size, start, fin)
  {
    var log := Logged(item, s, size);
    forall k | size <= k < start
      ensures r[k] == x[k]
    {
      assert NotOwned(log, s, k);
    }
    if item.Refer? {
      ReferenceRewritten(x, r, s, size, start, item, fin);
    } else {
      forall k | start <= k < stop
        ensures r[k] == x[k]
      {
        assert NotOwned(log, s, k);
      }
      assert Content(item, s, size, start, fin) == RawContent(item);
    }
  }

  lemma ReferenceRewritten(x: seq<byte>, r: seq<byte>, s: nat, size: nat, start: nat, item: Item, fin: Final)
    requires item.Refer? && start == Start(size, item) && Stop(size, item) <= |x| == |r|
    requires x[start..Stop(size, item)] == RawContent(item)
    requires RegionRewritten(x, r, s, Logged(item, s, size)[0], fin)
    ensures r[start..Stop(size, item)] == Content(item, s, size, start, fin)
  {
    var before := Logged(item, s, size)[0].fixup.before;
    PatchIsFinal(item.ref, FinalAddress(fin, Location(s, start)), Target(fin, item.symbol), FinalAddress(fin, before));
    assert FinalBytes(item.ref, FinalAddress(fin, Location(s, start)), Target(fin, item.symbol),
                      FinalAddress(fin, before))
        == Content(item, s, size, start, fin);
  }

  lemma RewrittenRest(x: seq<byte>, r: seq<byte>, s: nat, from: nat, from': nat, here: seq<Entry>, rest: seq<Entry>,
                      fin: Final)
    requires Rewritten(x, r, s, from, here + rest, fin) && from <= from'
    requires forall k :: from' <= k < |x| ==> NotOwned(here, s, k)
    ensures Rewritten(x, r, s, from', rest, fin)
  {
    forall i | 0 <= i < |rest|
      ensures RegionRewritten(x, r, s, rest[i], fin)
    {
      assert (here + rest)[|here| + i] == rest[i];
    }
    forall k | from' <= k < |x| && NotOwned(rest, s, k)
      ensures r[k] == x[k]
    {
      assert NotOwned(here, s, k);
      assert NotOwned(here + rest, s, k);
    }
  }

  lemma RewrittenHere(x: seq<byte>, r: seq<byte>, s: nat, from: nat, stop: nat, here: seq<Entry>, rest: seq<Entry>,
                      fin: Final)
    requires Rewritten(x, r, s, from, here + rest, fin) && stop <= |x|
    requires forall k :: from <= k < stop ==> NotOwned(rest, s, k)
    ensures forall i :: 0 <= i < |here| ==> RegionRewritten(x, r, s, here[i], fin)
    ensures forall k :: from <= k < stop && NotOwned(here, s, k) ==> r[k] == x[k]
  {
    forall i | 0 <= i < |here|
      ensures RegionRewritten(x, r, s, here[i], fin)
    {
      assert (here + rest)[i] == here[i];
    }
    forall k | from <= k < stop && NotOwned(here, s, k)
      ensures r[k] == x[k]
    {
      assert NotOwned(rest, s, k);
      assert NotOwned(here + rest, s, k);
    }
  }

  lemma OwnsAbove(items: seq<Item>, p: Plan, s: nat, k: nat)
    requires Placed(p) && PlanAll(p, items).Some? && k < SizeAt(p, s)
    ensures NotOwned(Log(items, p), s, k)
  {
    LogWithin(items, p);
    forall i | 0 <= i < |Log(items, p)|
      ensures !Owns(Log(items, p)[i].fixup, s, k)
    {
      assert Within(Log(items, p)[i], p, PlanAll(p, items).value);
    }
  }

  lemma OwnsHere(item: Item, s: nat, size: nat, s': nat, k: nat)
    requires s != s' || k >= Stop(size, item) || k < Start(size, item)
    ensures NotOwned(Logged(item, s, size), s', k)
  {
  }

  /** The bytes of one section from the plan's end on. */
  ghost predicate BytesFrom(items: seq<Item>, p: Plan, s: nat, x: seq<byte>, r: seq<byte>, fin: Final)
    requires Placed(p)
  {
    && SizeAt(p, s) <= |x| && x[SizeAt(p, s)..] == Raw(items, p, s)
    && Rewritten(x, r, s, SizeAt(p, s), Log(items, p), fin)
  }

  /** An item in another section. */
  lemma RewrittenElsewhere(items: seq<Item>, p: Plan, s: nat, x: seq<byte>, r: seq<byte>, fin: Final)
    requires Placed(p) && items != [] && PlanStep(p, items[0]).Some? && s != p.current
    requires BytesFrom(items, p, s, x, r, fin)
    ensures BytesFrom(items[1..], PlanStep(p, items[0]).value, s, x, r, fin)
    ensures Encoded(items, p, s, fin) == Encoded(items[1..], PlanStep(p, items[0]).value, s, fin)
  {
    var p1, size := PlanStep(p, items[0]).value, p.sections[p.current].size;
    PlanStepGrows(p, items[0]);
    forall k: nat | SizeAt(p, s) <= k < |x|
      ensures NotOwned(Logged(items[0], p.current, size), s, k)
    {
      OwnsHere(items[0], p.current, size, s, k);
    }
    RewrittenRest(x, r, s, SizeAt(p, s), SizeAt(p, s), Logged(items[0], p.current, size), Log(items[1..], p1), fin);
    assert [] + Raw(items[1..], p1, s) == Raw(items[1..], p1, s);
    assert [] + Encoded(items[1..], p1, s, fin) == Encoded(items[1..], p1, s, fin);
  }

  /** An item in this section: where its bytes are. */
  lemma ChunkHere(items: seq<Item>, p: Plan, x: seq<byte>)
    requires Placed(p) && items != [] && PlanStep(p, items[0]).Some? && SizeAt(p, p.current) <= |x|
    requires x[SizeAt(p, p.current)..] == Raw(items, p, p.current)
    ensures var size := p.sections[p.current].size; var start, stop := Start(size, items[0]), Stop(size, items[0]);
      && size <= start <= stop <= |x| && stop == SizeAt(PlanStep(p, items[0]).value, p.current)
      && x[size..start] == Padding(size, items[0]) && x[start..stop] == RawContent(items[0])
      && x[stop..] == Raw(items[1..], PlanStep(p, items[0]).value, p.current)
  {
    var size := p.sections[p.current].size;
    PlanStepGrows(p, items[0]);
    RawLength(items[0]);
    SplitChunk(x, size, Start(size, items[0]), Stop(size, items[0]), Padding(size, items[0]), RawContent(items[0]),
               Raw(items[1..], PlanStep(p, items[0]).value, p.current));
  }

  /** The items after it. */
  lemma RewrittenAfter(items: seq<Item>, p: Plan, x: seq<byte>, r: seq<byte>, fin: Final)
    requires Placed(p) && items != [] && PlanStep(p, items[0]).Some?
    requires BytesFrom(items, p, p.current, x, r, fin)
    ensures BytesFrom(items[1..], PlanStep(p, items[0]).value, p.current, x, r, fin)
  {
    var item, s, p1, size := items[0], p.current, PlanStep(p, items[0]).value, p.sections[p.current].size;
    ChunkHere(items, p, x);
    forall k: nat | Stop(size, item) <= k < |x|
      ensures NotOwned(Logged(item, s, size), s, k)
    {
      OwnsHere(item, s, size, s, k);
    }
    RewrittenRest(x, r, s, size, Stop(size, item), Logged(item, s, size), Log(items[1..], p1), fin);
  }

  /** The item itself. */
  lemma RewrittenThere(items: seq<Item>, p: Plan, x: seq<byte>, r: seq<byte>, fin: Final)
    requires Placed(p) && items != [] && PlanAll(p, items).Some?
    requires BytesFrom(items, p, p.current, x, r, fin)
    ensures var size := p.sections[p.current].size; var stop := Stop(size, items[0]);
      && size <= stop <= |r| && stop == SizeAt(PlanStep(p, items[0]).value, p.current)
      && r[size..stop] == Padding(size, items[0]) + Content(items[0], p.current, size, Start(size, items[0]), fin)
  {
    var item, s, p1, size := items[0], p.current, PlanStep(p, items[0]).value, p.sections[p.current].size;
    var start, stop := Start(size, item), Stop(size, item);
    ChunkHere(items, p, x);
    forall k: nat | size <= k < stop
      ensures NotOwned(Log(items[1..], p1), s, k)
    {
      OwnsAbove(items[1..], p1, s, k);
    }
    RewrittenHere(x, r, s, size, stop, Logged(item, s, size), Log(items[1..], p1), fin);
    ItemRewritten(x, r, s, size, start, stop, item, fin);
    SplitAt(r, size, start, stop);
  }

  lemma SplitAt<T>(r: seq<T>, a: nat, b: nat, c: nat)
    requires a <= b <= c <= |r|
    ensures r[a..c] == r[a..b] + r[b..c]
  {
  }

  lemma SplitChunk(x: seq<byte>, size: nat, start: nat, stop: nat, padding: seq<byte>, content: seq<byte>,
                   rest: seq<byte>)
    requires size <= |x| && start == size + |padding| && stop == start + |content|
    requires x[size..] == padding + content + rest
    ensures stop <= |x| && x[size..start] == padding && x[start..stop] == content && x[stop..] == rest
  {
    assert |x[size..]| == |padding| + |content| + |rest|;
    assert x[size..start] == x[size..][..|padding|];
    assert x[start..stop] == x[size..][|padding|..|padding| + |content|];
    assert x[stop..] == x[size..][|padding| + |content|..];
  }

  /** With its fixups applied, each section holds the encoding of its items at the final addresses. */
  lemma {:induction false} RunRewritten(items: seq<Item>, p: Plan, s: nat, x: seq<byte>, r: seq<byte>, fin: Final)
    requires Placed(p) && PlanAll(p, items).Some? && BytesFrom(items, p, s, x, r, fin)
    ensures r[SizeAt(p, s)..] == Encoded(items, p, s, fin)
    decreases |items|
  {
    if items == [] {
      assert |x[SizeAt(p, s)..]| == 0;
    } else if s == p.current {
      RewrittenThere(items, p, x, r, fin);
      RewrittenAfter(items, p, x, r, fin);
      RunRewritten(items[1..], PlanStep(p, items[0]).value, s, x, r, fin);
      SplitAt(r, SizeAt(p, s), Stop(SizeAt(p, s), items[0]), |r|);
    } else {
      RewrittenElsewhere(items, p, s, x, r, fin);
      PlanStepGrows(p, items[0]);
      RunRewritten(items[1..], PlanStep(p, items[0]).value, s, x, r, fin);
    }
  }
}
