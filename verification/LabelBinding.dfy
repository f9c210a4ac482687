/** What looking ahead means: the first of all possible bindings of a label (src/assemble.cpp:32-36, 61-66, 147-152). */
module LabelBinding {
  import opened Results
  import opened Items
  import opened Layout
  import opened State
  import opened TwoPass
  import opened Equivalence

  /** The layout in front of item `m`. */
  function PlanAt(items: seq<Item>, p: Plan, m: nat): (r: Plan)
    requires Placed(p) && m <= |items|
    ensures Placed(r)
    decreases m
  {
    if m == 0 || PlanStep(p, items[0]).None? then p
    else PlanAt(items[1..], PlanStep(p, items[0]).value, m - 1)
  }

  /** The section that item `m` is in, and where it starts there. */
  function SectionAt(items: seq<Item>, p: Plan, m: nat): nat
    requires Placed(p) && m <= |items|
  {
    PlanAt(items, p, m).current
  }

  function StartAt(items: seq<Item>, p: Plan, m: nat): Location
    requires Placed(p) && m < |items|
  {
    var q := PlanAt(items, p, m);
    Location(q.current, Start(q.sections[q.current].size, items[m]))
  }

  /** Before item `m`, the label occurs in the section `s`, or was pending there from the start. */
  ghost predicate Waiting(items: seq<Item>, p: Plan, name: string, pending: set<nat>, m: nat, s: nat)
    requires Placed(p) && m <= |items|
  {
    s in pending || exists k :: 0 <= k < m && items[k] == NewLabel(name) && SectionAt(items, p, k) == s
  }

  /** Item `m` could bind the label: it flushes a section that the label occurs in before it. */
  ghost predicate Binds(items: seq<Item>, p: Plan, name: string, pending: set<nat>, m: nat)
    requires Placed(p) && m < |items|
  {
    Flushes(items[m]) && Waiting(items, p, name, pending, m, SectionAt(items, p, m))
  }

  /** Item `m` is the first that could bind the label. */
  ghost predicate BindsFirst(items: seq<Item>, p: Plan, name: string, pending: set<nat>, m: nat)
    requires Placed(p) && m < |items|
  {
    Binds(items, p, name, pending, m) && forall k :: 0 <= k < m ==> !Binds(items, p, name, pending, k)
  }

  function PendingAfter(item: Item, p: Plan, name: string, pending: set<nat>): set<nat> {
    if item == NewLabel(name) then pending + {p.current} else pending
  }

  lemma WaitingTail(items: seq<Item>, p: Plan, name: string, pending: set<nat>, m: nat, s: nat)
    requires Placed(p) && 0 < m <= |items| && PlanStep(p, items[0]).Some?
    ensures Waiting(items, p, name, pending, m, s)
       <==> Waiting(items[1..], PlanStep(p, items[0]).value, name, PendingAfter(items[0], p, name, pending), m - 1, s)
  {
    var rest, p1, pending' := items[1..], PlanStep(p, items[0]).value, PendingAfter(items[0], p, name, pending);
    if Waiting(items, p, name, pending, m, s) && s !in pending' {
      var k :| 0 <= k < m && items[k] == NewLabel(name) && SectionAt(items, p, k) == s;
      assert rest[k - 1] == NewLabel(name) && SectionAt(rest, p1, k - 1) == s;
    }
    if Waiting(rest, p1, name, pending', m - 1, s) && s !in pending {
      if s in pending' {
        assert items[0] == NewLabel(name) && SectionAt(items, p, 0) == s;
      } else {
        var k :| 0 <= k < m - 1 && rest[k] == NewLabel(name) && SectionAt(rest, p1, k) == s;
        assert items[k + 1] == NewLabel(name) && SectionAt(items, p, k + 1) == s;
      }
    }
  }

  lemma BindsTail(items: seq<Item>, p: Plan, name: string, pending: set<nat>, m: nat)
    requires Placed(p) && 0 < m < |items| && PlanStep(p, items[0]).Some?
    ensures Binds(items, p, name, pending, m)
       <==> Binds(items[1..], PlanStep(p, items[0]).value, name, PendingAfter(items[0], p, name, pending), m - 1)
  {
    WaitingTail(items, p, name, pending, m, SectionAt(items, p, m));
  }

  lemma {:induction false} BoundByFirst(items: seq<Item>, p: Plan, name: string, pending: set<nat>, m: nat)
    requires Placed(p) && m < |items| && PlanAll(p, items).Some? && BindsFirst(items, p, name, pending, m)
    ensures First(items, p, name, pending) == Some(StartAt(items, p, m))
    decreases m
  {
    if m > 0 {
      var p1, pending' := PlanStep(p, items[0]).value, PendingAfter(items[0], p, name, pending);
      BindsTail(items, p, name, pending, m);
      forall k | 0 <= k < m - 1
        ensures !Binds(items[1..], p1, name, pending', k)
      {
        BindsTail(items, p, name, pending, k + 1);
      }
      BoundByFirst(items[1..], p1, name, pending', m - 1);
      assert !Binds(items, p, name, pending, 0);
    }
  }

  lemma {:induction false} BoundAtEnd(items: seq<Item>, p: Plan, name: string, pending: set<nat>)
    requires Placed(p) && PlanAll(p, items).Some?
    requires forall m :: 0 <= m < |items| ==> !Binds(items, p, name, pending, m)
    requires pending != {} || NewLabel(name) in items
    ensures var end := PlanAll(p, items).value;
      First(items, p, name, pending) == Some(Location(end.current, end.sections[end.current].size))
    decreases |items|
  {
    if items != [] {
      var p1, pending' := PlanStep(p, items[0]).value, PendingAfter(items[0], p, name, pending);
      forall m | 0 <= m < |items[1..]|
        ensures !Binds(items[1..], p1, name, pending', m)
      {
        BindsTail(items, p, name, pending, m + 1);
      }
      assert !Binds(items, p, name, pending, 0);
      assert items == [items[0]] + items[1..];
      BoundAtEnd(items[1..], p1, name, pending');
    }
  }

  /**
   Label binding. In an accepted program, the first item that flushes a section in which the label occurs
   before it gives the label its own aligned offset, and later occurrences change nothing. A label that no
   item binds gets the end of the section that is current at the end, even if it occurs in another one.
  */
  lemma LabelBound(o: Options, items: seq<Item>, names: seq<string>, name: string)
    requires Enumerates(names, Mentioned(items)) && TwoPassAssemble(o, items).Some?
    ensures OnePass(o, items, names).Ok?
    ensures var r, p := OnePass(o, items, names).value, InitialPlan(o); var end := PlanAll(p, items).value;
      && (name in r.symbols <==> NewLabel(name) in items)
      && (forall m :: 0 <= m < |items| && BindsFirst(items, p, name, {}, m) ==>
            name in r.symbols && r.symbols[name].at == StartAt(items, p, m))
      && (NewLabel(name) in items && (forall m :: 0 <= m < |items| ==> !Binds(items, p, name, {}, m)) ==>
            r.symbols[name].at == Location(end.current, end.sections[end.current].size))
  {
    var p := InitialPlan(o);
    OnePassIsTwoPass(o, items, names);
    FirstDomain(items, p, name, {});
    LabelsDomain(o, items, name);
    forall m | 0 <= m < |items| && BindsFirst(items, p, name, {}, m)
      ensures First(items, p, name, {}) == Some(StartAt(items, p, m))
    {
      BoundByFirst(items, p, name, {}, m);
    }
    if NewLabel(name) in items && forall m :: 0 <= m < |items| ==> !Binds(items, p, name, {}, m) {
      BoundAtEnd(items, p, name, {});
    }
  }
}
