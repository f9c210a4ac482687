/** The first pass predicts the layout of the one-pass assembler, as long as no size wraps around. */
module Planning {
  import opened Words
  import opened Results
  import opened References
  import opened Items
  import opened Layout
  import opened State
  import opened TwoPass

  /** A state without bytes, labels and fixups. */
  function PlannedOf(s: SectionValue): PlannedSection {
    PlannedSection(s.name, |s.output|, s.code, s.data, s.resv, s.execonly, s.readonly, s.based, s.base)
  }

  function PlanOf(st: State): (p: Plan)
    ensures |p.sections| == |st.sections| && p.current == st.current
  {
    Plan(seq(|st.sections|, i requires 0 <= i < |st.sections| => PlannedOf(st.sections[i])), st.current)
  }

  /** A size computation of the item wraps around 2^64, which shortens the buffer. */
  predicate Wraps(size: nat, item: Item) {
    Start(size, item) < size
    || (item.Block? && item.payload.Zeros? && Start(size, item) <= MAX_SIZE
        && Stop(size, item) >= 0x1_0000_0000_0000_0000)
  }

  /** No size wraps around in a run, up to the first exception. */
  predicate WrapFree(st: State, items: seq<Item>)
    requires Proper(st)
    decreases |items|
  {
    items == [] ||
    (&& !Wraps(|Current(st).output|, items[0])
     && (Step(st, items[0]).Ok? ==> WrapFree(Step(st, items[0]).value, items[1..])))
  }

  /** Items that cannot wrap whatever the size: alignments from 1 to 2^63, at most 2^63 reserved bytes. */
  predicate Sane(item: Item) {
    match item
    case Align(to) => 1 <= to <= 0x8000_0000_0000_0000
    case Block(alignment, _, payload) =>
      alignment <= 0x8000_0000_0000_0000 && (payload.Zeros? ==> payload.count <= 0x8000_0000_0000_0000)
    case _ => true
  }

  lemma SaneAlignment(size: nat, alignment: u64)
    requires size <= MAX_SIZE && 1 <= alignment <= 0x8000_0000_0000_0000
    ensures size <= AlignedSize(size, alignment)
  {
    AlignGrows(size, alignment);
    ModUnique(alignment - 1, P64, 0, alignment - 1);
  }

  lemma SaneNeverWraps(size: nat, item: Item)
    requires size <= MAX_SIZE && Sane(item)
    ensures !Wraps(size, item)
  {
    match item {
      case Align(to) => SaneAlignment(size, to);
      case Block(alignment, _, _) => if alignment > 1 { SaneAlignment(size, alignment); }
      case Refer(_, _) => SaneAlignment(size, 4);
      case _ =>
    }
  }

  // ---- One step -----------------------------------------------------------------------------------------

  lemma FindSame(sections: seq<SectionValue>, planned: seq<PlannedSection>, name: string)
    requires |planned| == |sections| && forall i :: 0 <= i < |sections| ==> planned[i] == PlannedOf(sections[i])
    ensures FindPlanned(planned, name) == FindSection(sections, name)
  {
    if sections != [] && sections[0].name != name {
      FindSame(sections[1..], planned[1..], name);
    }
  }

  /** Aligning a buffer, when the new size does not wrap. */
  lemma AlignOutput(s: SectionValue, alignment: u64)
    requires |s.output| <= AlignedSize(|s.output|, alignment)
    ensures AlignSection(s, alignment).Ok? <==> AlignedSize(|s.output|, alignment) <= MAX_SIZE
    ensures var r := AlignSection(s, alignment);
            r.Ok? ==> r.value == s.(output := s.output + Repeat(AlignedSize(|s.output|, alignment) - |s.output|))
  {
    if AlignedSize(|s.output|, alignment) == |s.output| {
      assert s.output[..|s.output|] == s.output;
      assert s.output + Repeat(0) == s.output;
    }
  }

  lemma AllocateOutput(s: SectionValue, count: u64)
    requires |s.output| + count < 0x1_0000_0000_0000_0000
    ensures Allocate(s, count).Ok? <==> |s.output| + count <= MAX_SIZE
    ensures var r := Allocate(s, count); r.Ok? ==> r.value == s.(output := s.output + Repeat(count), resv := true)
  {
    assert ReservedSize(|s.output|, count) == |s.output| + count;
    if count == 0 {
      assert s.output[..|s.output|] == s.output;
      assert s.output + Repeat(0) == s.output;
    }
  }

  /** No buffer is larger than a vector can be. */
  ghost predicate Bounded(st: State) {
    Proper(st) && forall i :: 0 <= i < |st.sections| ==> |st.sections[i].output| <= MAX_SIZE
  }

  function SizeHere(st: State): nat
    requires Proper(st)
  {
    |Current(st).output|
  }

  /** The bytes an item emits before its label is known. */
  function RawContent(item: Item): seq<byte> {
    match item
    case Block(_, _, payload) => PayloadBytes(payload)
    case Refer(_, ref) => Placeholder(ref)
    case _ => []
  }

  /** What an item schedules. */
  function Logged(item: Item, s: nat, size: nat): seq<Entry> {
    match item
    case Remark(symbol, EndFunc) => [Entry(symbol, SetEnd(Location(s, size)))]
    case Remark(symbol, TypeNote(t)) => [Entry(symbol, SetType(t))]
    case Refer(symbol, ref) =>
      var at := Location(s, Start(size, item));
      [Entry(symbol, PatchAt(KindOf(ref), at, if ref.SizeOf? then Location(s, size) else at))]
    case _ => []
  }

  /** The fixups of one symbol, in order. */
  function Only(log: seq<Entry>, symbol: string): seq<Fixup>
    decreases |log|
  {
    if log == [] then []
    else (if log[0].symbol == symbol then [log[0].fixup] else []) + Only(log[1..], symbol)
  }

  function QueueAfter(queue: seq<string>, item: Item): seq<string> {
    if item.NewLabel? then queue + [item.name] else if Flushes(item) then [] else queue
  }

  /** What an item other than `.section` does to the section it is in. */
  function SectionAfter(s: SectionValue, item: Item): SectionValue {
    var planned := Marked(PlannedOf(s), item);
    SectionValue(planned.name, s.output + Padding(|s.output|, item) + RawContent(item),
                 planned.code, planned.data, planned.resv, planned.execonly, planned.readonly,
                 planned.based, planned.base, QueueAfter(s.queue, item))
  }

  function SymbolsAfter(st: State, item: Item): map<string, Symbol>
    requires Proper(st)
  {
    if Flushes(item) then Bind(st.symbols, Current(st).queue, Location(st.current, Start(SizeHere(st), item)))
    else st.symbols
  }

  function ScheduleAfter(schedule: map<string, seq<Fixup>>, log: seq<Entry>): map<string, seq<Fixup>>
    decreases |log|
  {
    if log == [] then schedule
    else
      var e := log[0];
      ScheduleAfter(schedule[e.symbol := (if e.symbol in schedule then schedule[e.symbol] else []) + [e.fixup]],
                    log[1..])
  }

  /** An item other than `.section` that does not wrap, in one line: the one-pass assembler without its branches. */
  function StateAfter(st: State, item: Item): (r: State)
    requires Proper(st)
    ensures Proper(r)
  {
    State(st.sections[st.current := SectionAfter(Current(st), item)], st.current, SymbolsAfter(st, item),
          ScheduleAfter(st.schedule, Logged(item, st.current, SizeHere(st))),
          if item.Global? then st.globals + {item.name} else st.globals)
  }

  predicate Plainly(item: Item) {
    !item.Switch? && !item.Align? && !item.Block? && !item.Refer?
  }

  lemma PlainStep(st: State, item: Item)
    requires Bounded(st) && Plainly(item)
    ensures Step(st, item).Ok? <==> Fits(SizeHere(st), item)
    ensures Step(st, item).Ok? ==> Step(st, item).value == StateAfter(st, item)
  {
    var s := Current(st);
    assert s.output + Padding(|s.output|, item) + RawContent(item) == s.output;
    assert st.sections[st.current := s] == st.sections;
    if item.Remark? {
      RemarkStep(st, item);
    }
  }

  lemma RemarkStep(st: State, item: Item)
    requires Bounded(st) && item.Remark?
    ensures Step(st, item) == Ok(st.(schedule := ScheduleAfter(st.schedule, Logged(item, st.current, SizeHere(st)))))
  {
    OneLogged(st.schedule, Logged(item, st.current, SizeHere(st))[0]);
  }

  lemma AlignStep(st: State, item: Item)
    requires Bounded(st) && item.Align? && !Wraps(SizeHere(st), item)
    ensures Step(st, item).Ok? <==> Fits(SizeHere(st), item)
    ensures Step(st, item).Ok? ==> Step(st, item).value == StateAfter(st, item)
  {
    var s := Current(st);
    AlignOutput(s, item.to);
    assert s.output + Padding(|s.output|, item) + [] == s.output + Padding(|s.output|, item);
  }

  /** Emitting a payload. */
  function WithPayload(s: SectionValue, payload: Payload): SectionValue {
    match payload
    case Bytes(kind, bytes) =>
      s.(output := s.output + bytes, code := s.code || kind.CodeOutput?, data := s.data || kind.DataOutput?)
    case Zeros(count) => s.(output := s.output + Repeat(count), resv := true)
    case Nothing => s
  }

  lemma EmitEffect(st: State, payload: Payload)
    requires Proper(st) && SizeHere(st) <= MAX_SIZE
    requires payload.Zeros? ==> SizeHere(st) + payload.count < 0x1_0000_0000_0000_0000
    ensures Emit(st, payload).Ok? <==> SizeHere(st) + PayloadLength(payload) <= MAX_SIZE
    ensures Emit(st, payload).Ok? ==> Emit(st, payload).value == WithCurrent(st, WithPayload(Current(st), payload))
  {
    if payload.Zeros? {
      AllocateOutput(Current(st), payload.count);
    }
    assert st.sections[st.current := Current(st)] == st.sections;
  }

  /** Aligning and flushing in front of a payload, when that does not shorten the section. */
  lemma FlushEffect(st: State, item: Item, alignment: u64)
    requires Bounded(st) && SizeHere(st) <= Start(SizeHere(st), item) && Flushes(item)
    requires alignment == if item.Refer? then 4 else item.alignment
    ensures var r := AlignWithLabels(st, alignment);
      && (r.Ok? <==> Start(SizeHere(st), item) <= MAX_SIZE)
      && (r.Ok? ==> r.value == Aligned(st, item))
  {
    var s := Current(st);
    if alignment > 1 {
      AlignOutput(s, alignment);
    } else {
      assert s.output + Repeat(0) == s.output;
    }
  }

  function Aligned(st: State, item: Item): (r: State)
    requires Proper(st)
    ensures Proper(r)
  {
    var s := Current(st);
    WithCurrent(st, s.(output := s.output + Padding(|s.output|, item), queue := [])).(symbols :=
      Bind(st.symbols, s.queue, Location(st.current, Start(|s.output|, item))))
  }

  lemma BlockStep(st: State, item: Item)
    requires Bounded(st) && item.Block? && !Wraps(SizeHere(st), item)
    ensures Step(st, item).Ok? <==> Fits(SizeHere(st), item)
    ensures Step(st, item).Ok? ==> Step(st, item).value == StateAfter(st, item)
  {
    var s := Current(st);
    if item.flushes {
      FlushEffect(st, item, item.alignment);
      if Start(SizeHere(st), item) <= MAX_SIZE {
        EmitEffect(Aligned(st, item), item.payload);
        PayloadSection(s, item, Current(Aligned(st, item)));
      }
    } else {
      EmitEffect(st, item.payload);
      assert s.output + Padding(|s.output|, item) == s.output;
      PayloadSection(s, item, s);
    }
  }

  lemma PayloadSection(s: SectionValue, item: Item, aligned: SectionValue)
    requires item.Block? && aligned.output == s.output + Padding(|s.output|, item)
    requires aligned == s.(output := aligned.output, queue := QueueAfter(s.queue, item))
    ensures WithPayload(aligned, item.payload) == SectionAfter(s, item)
  {
    assert RawContent(item) == PayloadBytes(item.payload);
    match item.payload {
      case Bytes(_, bytes) => assert WithPayload(aligned, item.payload).output == aligned.output + bytes;
      case Zeros(count) => assert WithPayload(aligned, item.payload).output == aligned.output + Repeat(count);
      case Nothing => assert aligned.output + [] == aligned.output;
    }
  }

  lemma ReferStep(st: State, item: Item)
    requires Bounded(st) && item.Refer? && !Wraps(SizeHere(st), item)
    ensures Step(st, item).Ok? <==> Fits(SizeHere(st), item)
    ensures Step(st, item).Ok? ==> Step(st, item).value == StateAfter(st, item)
  {
    var size := SizeHere(st);
    FlushEffect(st, item, 4);
    if Start(size, item) <= MAX_SIZE {
      var at := Location(st.current, Start(size, item));
      var before := if item.ref.SizeOf? then Here(st) else at;
      ReferenceEffect(Aligned(st, item), item.symbol, item.ref, before);
      var f := PatchAt(KindOf(item.ref), at, before);
      OneLogged(st.schedule, Entry(item.symbol, f));
    }
  }

  lemma OneLogged(schedule: map<string, seq<Fixup>>, e: Entry)
    ensures ScheduleAfter(schedule, [e])
         == schedule[e.symbol := (if e.symbol in schedule then schedule[e.symbol] else []) + [e.fixup]]
  {
    assert [e][1..] == [];
  }

  lemma ReferenceEffect(st: State, symbol: string, ref: Reference, before: Location)
    requires Proper(st) && SizeHere(st) <= MAX_SIZE
    ensures var r := EmitReference(st, symbol, ref, before); var s := Current(st);
      && (r.Ok? <==> SizeHere(st) + Width(KindOf(ref)) <= MAX_SIZE)
      && (r.Ok? ==> r.value == WithCurrent(Schedule(st, symbol, PatchAt(KindOf(ref), Here(st), before)),
            s.(output := s.output + Placeholder(ref), code := s.code || !ref.SizeOf?, data := s.data || ref.SizeOf?)))
  {
    PlaceholderWidth(ref);
  }

  /** One step without wrap-around: it succeeds exactly when its item fits, and this is all it does. */
  lemma StepEffect(st: State, item: Item)
    requires Bounded(st) && !item.Switch? && !Wraps(SizeHere(st), item)
    ensures Step(st, item).Ok? <==> Fits(SizeHere(st), item)
    ensures Step(st, item).Ok? ==> Step(st, item).value == StateAfter(st, item)
  {
    match item
    case Align(_) => AlignStep(st, item);
    case Block(_, _, _) => BlockStep(st, item);
    case Refer(_, _) => ReferStep(st, item);
    case _ => PlainStep(st, item);
  }

  // ---- The plan is the layout -----------------------------------------------------------------------------

  lemma RawLength(item: Item)
    ensures |RawContent(item)| == LengthOf(item)
  {
    if item.Refer? {
      PlaceholderWidth(item.ref);
    }
  }

  lemma SectionAfterPlanned(s: SectionValue, item: Item)
    requires |s.output| <= Start(|s.output|, item)
    ensures PlannedOf(SectionAfter(s, item)) == Marked(PlannedOf(s), item).(size := Stop(|s.output|, item))
  {
    RawLength(item);
    assert Marked(PlannedOf(s), item).size == |s.output|;
  }

  lemma PlanOfUpdated(st: State, r: State, s: SectionValue)
    requires Proper(st) && r.sections == st.sections[st.current := s] && r.current == st.current
    ensures PlanOf(r) == PlanOf(st).(sections := PlanOf(st).sections[st.current := PlannedOf(s)])
  {
    assert PlanOf(r).sections == PlanOf(st).sections[st.current := PlannedOf(s)];
  }

  lemma SwitchPlanned(st: State, item: Item)
    requires Bounded(st) && item.Switch?
    ensures Step(st, item).Ok? && Bounded(Step(st, item).value)
    ensures PlanStep(PlanOf(st), item) == Some(PlanOf(Step(st, item).value))
  {
    FindSame(st.sections, PlanOf(st).sections, item.section);
    var r := Step(st, item).value;
    if |r.sections| > |st.sections| {
      assert PlanOf(r).sections == PlanOf(st).sections + [EmptyPlanned(item.section)];
    } else {
      assert PlanOf(r).sections == PlanOf(st).sections;
    }
  }

  /**
   One step: the one-pass assembler takes it without wrap-around exactly when the first pass does, to the same
   layout.
  */
  lemma StepPlanned(st: State, item: Item)
    requires Bounded(st)
    ensures Step(st, item).Ok? && !Wraps(SizeHere(st), item) <==> PlanStep(PlanOf(st), item).Some?
    ensures PlanStep(PlanOf(st), item).Some? ==>
              Bounded(Step(st, item).value) && PlanOf(Step(st, item).value) == PlanStep(PlanOf(st), item).value
  {
    if item.Switch? {
      SwitchPlanned(st, item);
    } else if !Wraps(SizeHere(st), item) {
      StepEffect(st, item);
      if Fits(SizeHere(st), item) {
        SectionAfterPlanned(Current(st), item);
        PlanOfUpdated(st, StateAfter(st, item), SectionAfter(Current(st), item));
      }
    }
  }

  /** A whole run: it ends without exception or wrap-around exactly when the first pass does, with the same layout. */
  lemma {:induction false} RunPlanned(st: State, items: seq<Item>)
    requires Bounded(st)
    ensures Exec(st, items).Ok? && WrapFree(st, items) <==> PlanAll(PlanOf(st), items).Some?
    ensures PlanAll(PlanOf(st), items).Some? ==>
              Bounded(Exec(st, items).value) && PlanOf(Exec(st, items).value) == PlanAll(PlanOf(st), items).value
    decreases |items|
  {
    if items != [] {
      StepPlanned(st, items[0]);
      if PlanStep(PlanOf(st), items[0]).Some? {
        RunPlanned(Step(st, items[0]).value, items[1..]);
      }
    }
  }

  lemma InitialPlanned(o: Options)
    ensures Bounded(Initial(o)) && PlanOf(Initial(o)) == InitialPlan(o)
  {
    assert PlanOf(Initial(o)).sections == InitialPlan(o).sections;
  }

  /** Programs with sane items only never wrap around. */
  lemma {:induction false} SaneRuns(st: State, items: seq<Item>)
    requires Bounded(st) && forall item :: item in items ==> Sane(item)
    ensures WrapFree(st, items)
    decreases |items|
  {
    if items != [] {
      SaneNeverWraps(SizeHere(st), items[0]);
      StepPlanned(st, items[0]);
      if Step(st, items[0]).Ok? {
        SaneRuns(Step(st, items[0]).value, items[1..]);
      }
    }
  }

  /** Both assemblers lay the sections out at the same base addresses. */
  lemma BasesPlanned(o: Options, st: State)
    ensures BasesOf(o, PlanOf(st))
         == seq(|st.sections|, i requires 0 <= i < |st.sections| => BaseOf(o, Extents(st.sections), i))
  {
    assert PlannedExtents(PlanOf(st)) == Extents(st.sections);
  }
}
