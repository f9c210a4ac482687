/**
 What sections are after a program: their names, flags and base addresses, from the items in them
 (src/assemble.cpp:118-131, src/section.cpp:4-31, src/section.hpp:32-33, src/directive.cpp:30-45).
*/
module Flags {
  import opened Words
  import opened Results
  import opened References
  import opened Items
  import opened Layout
  import opened State
  import opened TwoPass
  import opened Planning
  import opened Refinement
  import opened Equivalence
  import opened LabelBinding
  import opened EndToEnd

  // ---- Flags ------------------------------------------------------------------------------------------------

  datatype Flag = IsCode | IsData | IsReserved | IsExecOnly | IsReadOnly

  predicate HasFlag(p: Plan, s: nat, flag: Flag) {
    s < |p.sections| &&
    match flag
    case IsCode => p.sections[s].code
    case IsData => p.sections[s].data
    case IsReserved => p.sections[s].resv
    case IsExecOnly => p.sections[s].execonly
    case IsReadOnly => p.sections[s].readonly
  }

  /** Items that give a section a flag: instructions, data, reserved space, and the two directives. */
  predicate Gives(item: Item, flag: Flag) {
    match flag
    case IsCode =>
      (item.Refer? && !item.ref.SizeOf?) || (item.Block? && item.payload.Bytes? && item.payload.kind.CodeOutput?)
    case IsData =>
      (item.Refer? && item.ref.SizeOf?) || (item.Block? && item.payload.Bytes? && item.payload.kind.DataOutput?)
    case IsReserved => item.Block? && item.payload.Zeros?
    case IsExecOnly => item.ExecOnly?
    case IsReadOnly => item.ReadOnly?
  }

  lemma FlagStep(p: Plan, item: Item, s: nat, flag: Flag)
    requires Placed(p) && PlanStep(p, item).Some?
    ensures HasFlag(PlanStep(p, item).value, s, flag) <==> HasFlag(p, s, flag) || (s == p.current && Gives(item, flag))
  {
  }

  /** Some item in the section gives the flag. */
  ghost predicate GivenIn(items: seq<Item>, p: Plan, s: nat, flag: Flag)
    requires Placed(p)
  {
    exists i :: 0 <= i < |items| && SectionAt(items, p, i) == s && Gives(items[i], flag)
  }

  lemma GivenFirst(items: seq<Item>, p: Plan, s: nat, flag: Flag)
    requires Placed(p) && items != [] && PlanStep(p, items[0]).Some?
    ensures GivenIn(items, p, s, flag) <==>
              (s == p.current && Gives(items[0], flag)) || GivenIn(items[1..], PlanStep(p, items[0]).value, s, flag)
  {
    var rest, p1 := items[1..], PlanStep(p, items[0]).value;
    if GivenIn(items, p, s, flag) {
      var i :| 0 <= i < |items| && SectionAt(items, p, i) == s && Gives(items[i], flag);
      if i > 0 {
        assert SectionAt(rest, p1, i - 1) == s && Gives(rest[i - 1], flag);
      }
    }
    if s == p.current && Gives(items[0], flag) {
      assert SectionAt(items, p, 0) == s;
    }
    if GivenIn(rest, p1, s, flag) {
      var i :| 0 <= i < |rest| && SectionAt(rest, p1, i) == s && Gives(rest[i], flag);
      assert SectionAt(items, p, i + 1) == s && Gives(items[i + 1], flag);
    }
  }

  lemma {:induction false} FlagRun(items: seq<Item>, p: Plan, s: nat, flag: Flag)
    requires Placed(p) && PlanAll(p, items).Some?
    ensures HasFlag(PlanAll(p, items).value, s, flag) <==> HasFlag(p, s, flag) || GivenIn(items, p, s, flag)
    decreases |items|
  {
    if items != [] {
      FlagStep(p, items[0], s, flag);
      GivenFirst(items, p, s, flag);
      FlagRun(items[1..], PlanStep(p, items[0]).value, s, flag);
    }
  }

  /** In an accepted program, a section has exactly the flags that the items in it give. */
  lemma SectionFlags(o: Options, items: seq<Item>, names: seq<string>, r: State, s: nat)
    requires Accepted(o, items, names, r) && s < |r.sections|
    ensures r.sections[s].code <==> GivenIn(items, InitialPlan(o), s, IsCode)
    ensures r.sections[s].data <==> GivenIn(items, InitialPlan(o), s, IsData)
    ensures r.sections[s].resv <==> GivenIn(items, InitialPlan(o), s, IsReserved)
    ensures r.sections[s].execonly <==> GivenIn(items, InitialPlan(o), s, IsExecOnly)
    ensures r.sections[s].readonly <==> GivenIn(items, InitialPlan(o), s, IsReadOnly)
  {
    FinishedPlan(o, items, names, r, s);
    FlagRun(items, InitialPlan(o), s, IsCode);
    FlagRun(items, InitialPlan(o), s, IsData);
    FlagRun(items, InitialPlan(o), s, IsReserved);
    FlagRun(items, InitialPlan(o), s, IsExecOnly);
    FlagRun(items, InitialPlan(o), s, IsReadOnly);
  }

  /** The finished section is the planned one, with a base address. */
  lemma FinishedPlan(o: Options, items: seq<Item>, names: seq<string>, r: State, s: nat)
    requires Accepted(o, items, names, r) && s < |r.sections|
    ensures var linked := TwoPassAssemble(o, items).value;
      && PlanAll(InitialPlan(o), items) == Some(linked.plan) && |linked.plan.sections| == |r.sections|
      && PlannedOf(r.sections[s]) == linked.plan.sections[s].(based := true, base := linked.final.bases[s])
      && linked.final.bases == BasesOf(o, linked.plan)
  {
    OnePassIsTwoPass(o, items, names);
  }

  // ---- Base addresses ---------------------------------------------------------------------------------------

  /** `.org` items in a section. */
  predicate OrgIn(items: seq<Item>, p: Plan, s: nat, i: nat)
    requires Placed(p) && i < |items|
  {
    items[i].Org? && SectionAt(items, p, i) == s
  }

  /** The last one. */
  ghost predicate LastOrg(items: seq<Item>, p: Plan, s: nat, i: nat)
    requires Placed(p)
  {
    i < |items| && OrgIn(items, p, s, i) && forall k :: i < k < |items| ==> !OrgIn(items, p, s, k)
  }

  predicate BasedAt(p: Plan, s: nat, address: u128) {
    s < |p.sections| && p.sections[s].based && p.sections[s].base == address
  }

  lemma BaseStep(p: Plan, item: Item, s: nat, address: u128)
    requires Placed(p) && PlanStep(p, item).Some?
    ensures item == Org(address) && s == p.current ==> BasedAt(PlanStep(p, item).value, s, address)
    ensures !(item.Org? && s == p.current) && BasedAt(p, s, address) ==> BasedAt(PlanStep(p, item).value, s, address)
  {
  }

  lemma {:induction false} BaseStays(items: seq<Item>, p: Plan, s: nat, address: u128)
    requires Placed(p) && PlanAll(p, items).Some? && BasedAt(p, s, address)
    requires forall k :: 0 <= k < |items| ==> !OrgIn(items, p, s, k)
    ensures BasedAt(PlanAll(p, items).value, s, address)
    decreases |items|
  {
    if items != [] {
      var p1 := PlanStep(p, items[0]).value;
      assert !OrgIn(items, p, s, 0);
      BaseStep(p, items[0], s, address);
      forall k | 0 <= k < |items[1..]|
        ensures !OrgIn(items[1..], p1, s, k)
      {
        assert !OrgIn(items, p, s, k + 1);
      }
      BaseStays(items[1..], p1, s, address);
    }
  }

  lemma {:induction false} LastOrgCounts(items: seq<Item>, p: Plan, s: nat, i: nat)
    requires Placed(p) && PlanAll(p, items).Some? && LastOrg(items, p, s, i)
    ensures BasedAt(PlanAll(p, items).value, s, items[i].address)
    decreases i
  {
    var p1, rest := PlanStep(p, items[0]).value, items[1..];
    forall k | i <= k < |rest|
      ensures !OrgIn(rest, p1, s, k)
    {
      assert !OrgIn(items, p, s, k + 1);
    }
    if i == 0 {
      BaseStep(p, items[0], s, items[0].address);
      BaseStays(rest, p1, s, items[0].address);
    } else {
      assert OrgIn(items, p, s, i) && OrgIn(rest, p1, s, i - 1);
      LastOrgCounts(rest, p1, s, i - 1);
    }
  }

  lemma BasedKept(o: Options, items: seq<Item>, names: seq<string>, r: State, s: nat, address: u128)
    requires Accepted(o, items, names, r) && s < |r.sections|
    requires BasedAt(TwoPassAssemble(o, items).value.plan, s, address)
    ensures r.sections[s].base == address
  {
    FinishedPlan(o, items, names, r, s);
    var plan := TwoPassAssemble(o, items).value.plan;
    KeepsBase(o, PlannedExtents(plan), s);
    assert PlannedOf(r.sections[s]).base == BasesOf(o, plan)[s];
  }

  /** A section ends up where the last `.org` in it says, and `.text` without one at the configured base. */
  lemma OrgCounts(o: Options, items: seq<Item>, names: seq<string>, r: State, s: nat, i: nat)
    requires Accepted(o, items, names, r) && s < |r.sections|
    ensures LastOrg(items, InitialPlan(o), s, i) ==> r.sections[s].base == items[i].address
    ensures s == 0 && (forall k :: 0 <= k < |items| ==> !OrgIn(items, InitialPlan(o), s, k)) ==>
              r.sections[s].base == o.base
  {
    FinishedPlan(o, items, names, r, s);
    if LastOrg(items, InitialPlan(o), s, i) {
      LastOrgCounts(items, InitialPlan(o), s, i);
      BasedKept(o, items, names, r, s, items[i].address);
    }
    if s == 0 && forall k :: 0 <= k < |items| ==> !OrgIn(items, InitialPlan(o), s, k) {
      BaseStays(items, InitialPlan(o), s, o.base);
      BasedKept(o, items, names, r, s, o.base);
    }
  }

  // ---- Names ------------------------------------------------------------------------------------------------

  ghost predicate Distinct(p: Plan) {
    forall i, j :: 0 <= i < j < |p.sections| ==> p.sections[i].name != p.sections[j].name
  }

  /** Sections keep their names and places. */
  ghost predicate NamesKept(p: Plan, q: Plan) {
    |p.sections| <= |q.sections| && forall i :: 0 <= i < |p.sections| ==> q.sections[i].name == p.sections[i].name
  }

  lemma {:induction false} FoundByName(sections: seq<PlannedSection>, name: string)
    ensures var i := FindPlanned(sections, name);
      && (i < |sections| ==> sections[i].name == name)
      && (i == |sections| ==> forall k :: 0 <= k < |sections| ==> sections[k].name != name)
    decreases |sections|
  {
    if sections != [] && sections[0].name != name {
      FoundByName(sections[1..], name);
      assert forall k :: 0 < k < |sections| ==> sections[k] == sections[1..][k - 1];
    }
  }

  /** `.section` goes to the section of that name, or makes one; anything else stays where it is. */
  lemma NamesStep(p: Plan, item: Item)
    requires Placed(p) && PlanStep(p, item).Some? && Distinct(p)
    ensures var q := PlanStep(p, item).value;
      && Distinct(q) && NamesKept(p, q)
      && (item.Switch? ==> q.sections[q.current].name == item.section)
      && (!item.Switch? ==> q.current == p.current && |q.sections| == |p.sections|)
  {
    if item.Switch? {
      FoundByName(p.sections, item.section);
    }
  }

  lemma {:induction false} NamesRun(items: seq<Item>, p: Plan)
    requires Placed(p) && PlanAll(p, items).Some? && Distinct(p)
    ensures Distinct(PlanAll(p, items).value) && NamesKept(p, PlanAll(p, items).value)
    decreases |items|
  {
    if items != [] {
      NamesStep(p, items[0]);
      NamesRun(items[1..], PlanStep(p, items[0]).value);
    }
  }

  /** Where the items behind item `i` are. */
  lemma {:induction false} CurrentSection(items: seq<Item>, p: Plan, i: nat)
    requires Placed(p) && PlanAll(p, items).Some? && Distinct(p) && i < |items|
    ensures var q, q1 := PlanAt(items, p, i), PlanAt(items, p, i + 1);
      && (items[i].Switch? ==> q1.sections[q1.current].name == items[i].section)
      && (!items[i].Switch? ==> q1.current == q.current)
    decreases i
  {
    NamesStep(p, items[0]);
    if i > 0 {
      assert items[i] == items[1..][i - 1];
      CurrentSection(items[1..], PlanStep(p, items[0]).value, i - 1);
    }
  }

  /** An accepted program has one section for each name, the first of them `.text`. */
  lemma SectionsNamed(o: Options, items: seq<Item>, names: seq<string>, r: State)
    requires Accepted(o, items, names, r)
    ensures |r.sections| > 0 && r.sections[0].name == ".text"
    ensures forall i, j :: 0 <= i < j < |r.sections| ==> r.sections[i].name != r.sections[j].name
  {
    var plan := TwoPassAssemble(o, items).value.plan;
    NamesRun(items, InitialPlan(o));
    OnePassIsTwoPass(o, items, names);
    forall s | 0 <= s < |r.sections|
      ensures r.sections[s].name == plan.sections[s].name
    {
      FinishedPlan(o, items, names, r, s);
      assert PlannedOf(r.sections[s]).name == plan.sections[s].name;
    }
  }
}
