/**
 Which programs are accepted, item by item: what has to fit, which names have to exist, and which jumps have to
 look near (src/assemble.cpp:179-191, src/section.cpp:21-36, src/directive.cpp:35-38, src/opcodes.cpp:10-19).
*/
module Acceptance {
  import opened Words
  import opened Results
  import opened References
  import opened Reach
  import opened Items
  import opened Layout
  import opened State
  import opened TwoPass
  import opened Planning
  import opened Equivalence
  import opened LabelBinding

  // ---- Sizes ------------------------------------------------------------------------------------------------

  /** Item `i` fits: its section does not shrink or outgrow a vector, and has no bytes before `.org`. */
  ghost predicate Laid(items: seq<Item>, p: Plan, i: nat)
    requires Placed(p) && i < |items|
  {
    var q := PlanAt(items, p, i);
    var size := q.sections[q.current].size;
    items[i].Switch? ||
    (&& size <= Start(size, items[i]) && Start(size, items[i]) + LengthOf(items[i]) <= 0x7FFF_FFFF_FFFF_FFFF
     && (items[i].Org? ==> size == 0))
  }

  ghost predicate AllLaid(items: seq<Item>, p: Plan)
    requires Placed(p)
  {
    forall i :: 0 <= i < |items| ==> Laid(items, p, i)
  }

  lemma LaidFirst(items: seq<Item>, p: Plan)
    requires Placed(p) && items != []
    ensures Laid(items, p, 0) <==> PlanStep(p, items[0]).Some?
  {
  }

  lemma LaidTail(items: seq<Item>, p: Plan, i: nat)
    requires Placed(p) && i + 1 < |items| && PlanStep(p, items[0]).Some?
    ensures Laid(items, p, i + 1) <==> Laid(items[1..], PlanStep(p, items[0]).value, i)
  {
  }

  /** The first pass lays a program out exactly if every item fits. */
  lemma {:induction false} PlanExactly(items: seq<Item>, p: Plan)
    requires Placed(p)
    ensures PlanAll(p, items).Some? <==> AllLaid(items, p)
    decreases |items|
  {
    if items != [] {
      LaidFirst(items, p);
      if PlanStep(p, items[0]).Some? {
        var p1 := PlanStep(p, items[0]).value;
        PlanExactly(items[1..], p1);
        forall i | 0 <= i < |items[1..]|
          ensures Laid(items, p, i + 1) <==> Laid(items[1..], p1, i)
        {
          LaidTail(items, p, i);
        }
        assert AllLaid(items, p) <==> AllLaid(items[1..], p1) by {
          if AllLaid(items[1..], p1) {
            forall i | 0 <= i < |items|
              ensures Laid(items, p, i)
            {
              if i > 0 {
                assert Laid(items[1..], p1, i - 1);
              }
            }
          }
          if AllLaid(items, p) {
            forall i | 0 <= i < |items[1..]|
              ensures Laid(items[1..], p1, i)
            {
              assert Laid(items, p, i + 1);
            }
          }
        }
      }
    }
  }

  /** A reference starts at the next multiple of 4. */
  lemma ReferenceStart(size: nat, item: Item)
    requires item.Refer? && size <= 0x7FFF_FFFF_FFFF_FFFF
    ensures RoundsUp(size, Start(size, item), 4)
  {
    AlignFour(size, 4);
  }

  lemma AlignFour(size: nat, alignment: u64)
    requires alignment == 4 && size <= 0x7FFF_FFFF_FFFF_FFFF
    ensures RoundsUp(size, AlignedSize(size, alignment), 4)
  {
    assert Pow2(2) == 4;
    AlignPow2(size, 2, 0);
  }

  /** Data and code start at the next multiple of their alignment, if they have one. */
  lemma BlockStart(size: nat, k: nat, item: Item)
    requires item.Block? && size <= 0x7FFF_FFFF_FFFF_FFFF
    ensures !item.flushes || item.alignment <= 1 ==> Start(size, item) == size
    ensures item.flushes && k < 64 && item.alignment == Pow2(k) ==> RoundsUp(size, Start(size, item), item.alignment)
  {
    if item.flushes && k < 64 && item.alignment == Pow2(k) {
      AlignPow2(size, k, 0);
    }
  }

  // ---- Names and jumps ----------------------------------------------------------------------------------------

  /** Item `i` is resolved: the symbol it names exists, and the label of a jump looks near. */
  ghost predicate Settled(items: seq<Item>, p: Plan, fin: Final, i: nat)
    requires Placed(p) && i < |items|
  {
    && (items[i].Remark? || items[i].Refer? ==> items[i].symbol in fin.symbols)
    && (items[i].Refer? && items[i].ref.Jump? ==>
          LooksNear(FinalAddress(fin, StartAt(items, p, i)), Target(fin, items[i].symbol)))
  }

  ghost predicate AllSettled(items: seq<Item>, p: Plan, fin: Final)
    requires Placed(p)
  {
    forall i :: 0 <= i < |items| ==> Settled(items, p, fin, i)
  }

  lemma SettledTail(items: seq<Item>, p: Plan, fin: Final, i: nat)
    requires Placed(p) && i + 1 < |items| && PlanStep(p, items[0]).Some?
    ensures Settled(items, p, fin, i + 1) <==> Settled(items[1..], PlanStep(p, items[0]).value, fin, i)
  {
  }

  lemma SettledFirst(items: seq<Item>, p: Plan, fin: Final)
    requires Placed(p) && items != [] && PlanStep(p, items[0]).Some?
    ensures Resolved(items, p, fin) <==>
              Settled(items, p, fin, 0) && Resolved(items[1..], PlanStep(p, items[0]).value, fin)
  {
    if items[0].Refer? {
      RejectsExactly(KindOf(items[0].ref), FinalAddress(fin, StartAt(items, p, 0)), Target(fin, items[0].symbol));
    }
  }

  lemma {:induction false} ResolvedExactly(items: seq<Item>, p: Plan, fin: Final)
    requires Placed(p) && PlanAll(p, items).Some?
    ensures Resolved(items, p, fin) <==> AllSettled(items, p, fin)
    decreases |items|
  {
    if items != [] {
      var p1 := PlanStep(p, items[0]).value;
      SettledFirst(items, p, fin);
      ResolvedExactly(items[1..], p1, fin);
      SettledAll(items, p, fin, p1);
    }
  }

  lemma SettledAll(items: seq<Item>, p: Plan, fin: Final, p1: Plan)
    requires Placed(p) && items != [] && PlanStep(p, items[0]) == Some(p1)
    ensures AllSettled(items, p, fin) <==> Settled(items, p, fin, 0) && AllSettled(items[1..], p1, fin)
  {
    forall i | 0 <= i < |items[1..]|
      ensures Settled(items, p, fin, i + 1) <==> Settled(items[1..], p1, fin, i)
    {
      SettledTail(items, p, fin, i);
    }
    if AllSettled(items, p, fin) {
      forall i | 0 <= i < |items[1..]|
        ensures Settled(items[1..], p1, fin, i)
      {
        assert Settled(items, p, fin, i + 1);
      }
    }
    if Settled(items, p, fin, 0) && AllSettled(items[1..], p1, fin) {
      forall i | 0 <= i < |items|
        ensures Settled(items, p, fin, i)
      {
        if i > 0 {
          assert Settled(items[1..], p1, fin, i - 1);
        }
      }
    }
  }

  // ---- Programs -----------------------------------------------------------------------------------------------

  ghost predicate AllNamed(items: seq<Item>) {
    forall i :: 0 <= i < |items| && (items[i].Remark? || items[i].Refer?) ==> NewLabel(items[i].symbol) in items
  }

  /** The final address of item `i`, and of a label. */
  function AddressAt(o: Options, items: seq<Item>, plan: Plan, i: nat): u128
    requires i < |items|
  {
    FinalAddress(FinalOf(o, items, plan), StartAt(items, InitialPlan(o), i))
  }

  function LabelAddress(o: Options, items: seq<Item>, plan: Plan, symbol: string): u128 {
    Target(FinalOf(o, items, plan), symbol)
  }

  ghost predicate JumpsLookNear(o: Options, items: seq<Item>, plan: Plan) {
    forall i :: 0 <= i < |items| && items[i].Refer? && items[i].ref.Jump? ==>
      LooksNear(AddressAt(o, items, plan, i), LabelAddress(o, items, plan, items[i].symbol))
  }

  lemma NamedExactly(o: Options, items: seq<Item>, plan: Plan)
    requires PlanAll(InitialPlan(o), items) == Some(plan)
    ensures AllSettled(items, InitialPlan(o), FinalOf(o, items, plan)) <==>
              AllNamed(items) && JumpsLookNear(o, items, plan)
  {
    var p, fin := InitialPlan(o), FinalOf(o, items, plan);
    forall n: string
      ensures n in fin.symbols <==> NewLabel(n) in items
    {
      LabelsDomain(o, items, n);
      FirstDomain(items, p, n, {});
    }
    if AllSettled(items, p, fin) {
      forall i | 0 <= i < |items|
        ensures items[i].Remark? || items[i].Refer? ==> NewLabel(items[i].symbol) in items
        ensures items[i].Refer? && items[i].ref.Jump? ==>
                  LooksNear(AddressAt(o, items, plan, i), LabelAddress(o, items, plan, items[i].symbol))
      {
        assert Settled(items, p, fin, i);
      }
    }
    if AllNamed(items) && JumpsLookNear(o, items, plan) {
      forall i | 0 <= i < |items|
        ensures Settled(items, p, fin, i)
      {
      }
    }
  }

  /**
   Acceptance: a program is accepted exactly if every item fits, every name that is referred to or described is
   a label of the program, and every jump to a label looks near at the final addresses.
  */
  lemma AcceptedExactly(o: Options, items: seq<Item>)
    ensures TwoPassAssemble(o, items).Some? <==>
              && AllLaid(items, InitialPlan(o)) && AllNamed(items)
              && PlanAll(InitialPlan(o), items).Some?
              && JumpsLookNear(o, items, PlanAll(InitialPlan(o), items).value)
  {
    PlanExactly(items, InitialPlan(o));
    if PlanAll(InitialPlan(o), items).Some? {
      var plan := PlanAll(InitialPlan(o), items).value;
      ResolvedExactly(items, InitialPlan(o), FinalOf(o, items, plan));
      NamedExactly(o, items, plan);
    }
  }

  /** So a program whose items fit, whose names exist and whose jumps go no further than 2 KiB is accepted. */
  lemma NearJumpsAccepted(o: Options, items: seq<Item>, names: seq<string>, plan: Plan)
    requires Enumerates(names, Mentioned(items)) && AllLaid(items, InitialPlan(o)) && AllNamed(items)
    requires PlanAll(InitialPlan(o), items) == Some(plan)
    requires forall i :: 0 <= i < |items| && items[i].Refer? && items[i].ref.Jump? ==>
               -2048 <= Distance(AddressAt(o, items, plan, i), LabelAddress(o, items, plan, items[i].symbol)) <= 2047
    ensures TwoPassAssemble(o, items).Some? && OnePass(o, items, names).Ok?
  {
    forall i | 0 <= i < |items| && items[i].Refer? && items[i].ref.Jump?
      ensures LooksNear(AddressAt(o, items, plan, i), LabelAddress(o, items, plan, items[i].symbol))
    {
      NearLooksNear(AddressAt(o, items, plan, i), LabelAddress(o, items, plan, items[i].symbol));
    }
    AcceptedExactly(o, items);
    OnePassIsTwoPass(o, items, names);
  }
}
