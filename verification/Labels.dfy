/**
 Label binding. The one-pass assembler queues labels per section and binds them when a later item flushes
 the queue. That is the same as looking ahead from each label, the first binding winning.
*/
module Labels {
  import opened Results
  import opened Items
  import opened State
  import opened TwoPass
  import opened Planning

  /** The sections in whose queue the label is. */
  function Pending(st: State, name: string): set<nat> {
    set s: nat | s < |st.sections| && name in st.sections[s].queue
  }

  /** Where a label is bound, now or by the rest of the program. */
  function Binding(st: State, items: seq<Item>, name: string): Option<Location>
    requires Proper(st)
  {
    if name in st.symbols then Some(st.symbols[name].at)
    else First(items, PlanOf(st), name, Pending(st, name))
  }

  /** Symbols that only have a location so far. */
  ghost predicate Unremarked(st: State) {
    forall n :: n in st.symbols ==> st.symbols[n].symbolType == 0 && st.symbols[n].size == 0
  }

  lemma PendingElsewhere(st: State, r: State, name: string)
    requires Proper(st) && |r.sections| == |st.sections|
    requires forall s :: 0 <= s < |st.sections| ==>
               (name in r.sections[s].queue <==> name in st.sections[s].queue)
    ensures Pending(r, name) == Pending(st, name)
  {
  }

  lemma PendingAdded(st: State, r: State, name: string)
    requires Proper(st) && |r.sections| == |st.sections| && name in r.sections[st.current].queue
    requires forall s :: 0 <= s < |st.sections| && s != st.current ==> r.sections[s] == st.sections[s]
    ensures Pending(r, name) == Pending(st, name) + {st.current}
  {
  }

  lemma SwitchKeepsBinding(st: State, items: seq<Item>, name: string)
    requires Bounded(st) && items != [] && items[0].Switch?
    ensures Step(st, items[0]).Ok?
    ensures Binding(Step(st, items[0]).value, items[1..], name) == Binding(st, items, name)
  {
    SwitchPlanned(st, items[0]);
    var r := Step(st, items[0]).value;
    assert Pending(r, name) == Pending(st, name);
  }

  /** Taking a step does not change where a label is bound. */
  lemma StepKeepsBinding(st: State, items: seq<Item>, name: string)
    requires Bounded(st) && items != [] && PlanStep(PlanOf(st), items[0]).Some?
    ensures Step(st, items[0]).Ok?
    ensures Binding(Step(st, items[0]).value, items[1..], name) == Binding(st, items, name)
  {
    var item := items[0];
    StepPlanned(st, item);
    if item.Switch? {
      SwitchKeepsBinding(st, items, name);
    } else {
      StepEffect(st, item);
      var r := StateAfter(st, item);
      if name !in st.symbols {
        if item == NewLabel(name) {
          PendingAdded(st, r, name);
        } else if !(Flushes(item) && st.current in Pending(st, name)) {
          PendingElsewhere(st, r, name);
        }
      }
    }
  }

  /**
   `finish` binds every label still queued, in whatever order the sections come, to where the current section
   ends.
  */
  lemma {:induction false} FlushAllEffect(st: State, n: nat)
    requires Proper(st) && n <= |st.sections|
    ensures var r := FlushAll(st, n);
      && r.schedule == st.schedule && r.globals == st.globals
      && (forall s :: 0 <= s < |st.sections| ==>
            r.sections[s] == if s < n then st.sections[s].(queue := []) else st.sections[s])
      && (forall name :: name in r.symbols <==>
            name in st.symbols || exists s :: 0 <= s < n && name in st.sections[s].queue)
      && (forall name :: name in r.symbols ==>
            r.symbols[name] == if name in st.symbols then st.symbols[name] else Symbol(Here(st), 0, 0))
  {
    if n > 0 {
      FlushAllEffect(st, n - 1);
    }
  }

  lemma PendingExists(st: State, name: string)
    ensures Pending(st, name) != {} <==> exists s :: 0 <= s < |st.sections| && name in st.sections[s].queue
  {
    if s :| 0 <= s < |st.sections| && name in st.sections[s].queue {
      assert s in Pending(st, name);
    }
  }

  /** Every label of a run ends up where looking ahead says. */
  lemma {:induction false} LabelsAgree(st: State, items: seq<Item>, name: string)
    requires Bounded(st) && PlanAll(PlanOf(st), items).Some?
    ensures Exec(st, items).Ok?
    ensures var end := Exec(st, items).value; var r := FlushAll(end, |end.sections|);
      && (name in r.symbols <==> Binding(st, items, name).Some?)
      && (name in r.symbols ==> r.symbols[name].at == Binding(st, items, name).value)
    decreases |items|
  {
    RunPlanned(st, items);
    if items == [] {
      FlushAllEffect(st, |st.sections|);
      PendingExists(st, name);
    } else {
      StepPlanned(st, items[0]);
      StepKeepsBinding(st, items, name);
      LabelsAgree(Step(st, items[0]).value, items[1..], name);
    }
  }
}
