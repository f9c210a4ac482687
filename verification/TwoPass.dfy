/**
 A two-pass assembler, the specification of the one-pass one. The first pass lays every item out without
 looking at bytes or addresses. With the layout, every base address and every label is known, and the
 second pass encodes each item once. There are no label queues, no placeholders and no fixups.
*/
module TwoPass {
  import opened Words
  import opened Results
  import opened References
  import opened Items
  import opened Layout
  import opened State

  // ---- First pass: sizes ------------------------------------------------------------------------------

  /** A section without its bytes. */
  datatype PlannedSection = PlannedSection(
    name: string, size: nat, code: bool, data: bool, resv: bool, execonly: bool, readonly: bool,
    based: bool, base: u128)

  datatype Plan = Plan(sections: seq<PlannedSection>, current: nat)

  /** Where an item starts in a section of that size: after its alignment. */
  function Start(size: nat, item: Item): nat {
    match item
    case Align(to) => AlignedSize(size, to)
    case Block(alignment, flushes, _) => if flushes && alignment > 1 then AlignedSize(size, alignment) else size
    case Refer(_, _) => AlignedSize(size, 4)
    case _ => size
  }

  function PayloadLength(payload: Payload): nat {
    match payload
    case Bytes(_, bytes) => |bytes|
    case Zeros(count) => count
    case Nothing => 0
  }

  function LengthOf(item: Item): nat {
    match item
    case Block(_, _, payload) => PayloadLength(payload)
    case Refer(_, ref) => Width(KindOf(ref))
    case _ => 0
  }

  function Stop(size: nat, item: Item): nat {
    Start(size, item) + LengthOf(item)
  }

  /** The item can be laid out: its section never shrinks, is never too large, and has no bytes before `.org`. */
  predicate Fits(size: nat, item: Item) {
    size <= Start(size, item) && Stop(size, item) <= MAX_SIZE && (item.Org? ==> size == 0)
  }

  /** The section with the flags and base address an item gives it. */
  function Marked(s: PlannedSection, item: Item): PlannedSection {
    match item
    case Org(address) => s.(based := true, base := address)
    case ExecOnly => s.(execonly := true)
    case ReadOnly => s.(readonly := true)
    case Block(_, _, Bytes(CodeOutput, _)) => s.(code := true)
    case Block(_, _, Bytes(DataOutput, _)) => s.(data := true)
    case Block(_, _, Zeros(_)) => s.(resv := true)
    case Refer(_, SizeOf) => s.(data := true)
    case Refer(_, _) => s.(code := true)
    case _ => s
  }

  function EmptyPlanned(name: string): PlannedSection {
    PlannedSection(name, 0, false, false, false, false, false, false, 0)
  }

  /** The first section of that name, or the number of sections. */
  function FindPlanned(sections: seq<PlannedSection>, name: string): (i: nat)
    ensures i <= |sections|
  {
    if sections == [] || sections[0].name == name then 0 else 1 + FindPlanned(sections[1..], name)
  }

  ghost predicate Placed(p: Plan) {
    p.current < |p.sections|
  }

  function PlanStep(p: Plan, item: Item): (r: Option<Plan>)
    requires Placed(p)
    ensures r.Some? ==> Placed(r.value)
  {
    if item.Switch? then
      var i := FindPlanned(p.sections, item.section);
      if i < |p.sections| then Some(p.(current := i))
      else Some(Plan(p.sections + [EmptyPlanned(item.section)], i))
    else
      var s := p.sections[p.current];
      if Fits(s.size, item)
      then Some(p.(sections := p.sections[p.current := Marked(s, item).(size := Stop(s.size, item))]))
      else None
  }

  function PlanAll(p: Plan, items: seq<Item>): (r: Option<Plan>)
    requires Placed(p)
    ensures r.Some? ==> Placed(r.value)
    decreases |items|
  {
    if items == [] then Some(p)
    else
      var p1 :- PlanStep(p, items[0]);
      PlanAll(p1, items[1..])
  }

  function InitialPlan(o: Options): (p: Plan)
    ensures Placed(p)
  {
    Plan([EmptyPlanned(".text").(based := true, base := o.base)], 0)
  }

  // ---- Labels -------------------------------------------------------------------------------------------

  /** The items that labels in front of them belong to. */
  predicate Flushes(item: Item) {
    item.Refer? || (item.Block? && item.flushes)
  }

  /**
   The location of a label, by looking ahead: wherever the first flushing item after a mention of the
   label, in the section of that mention, starts; and if there is none, the end of the section that is
   current at the end. `pending` are the sections that mention it without such an item yet.
  */
  function First(items: seq<Item>, p: Plan, name: string, pending: set<nat>): Option<Location>
    requires Placed(p)
    decreases |items|
  {
    if items == [] then
      if pending == {} then None else Some(Location(p.current, p.sections[p.current].size))
    else if Flushes(items[0]) && p.current in pending then
      Some(Location(p.current, Start(p.sections[p.current].size, items[0])))
    else
      var p1 :- PlanStep(p, items[0]);
      First(items[1..], p1, name, if items[0] == NewLabel(name) then pending + {p.current} else pending)
  }

  function LabelNames(items: seq<Item>): set<string> {
    set item | item in items && item.NewLabel? :: item.name
  }

  function Labels(o: Options, items: seq<Item>): map<string, Location> {
    map n | n in LabelNames(items) && First(items, InitialPlan(o), n, {}).Some? ::
      First(items, InitialPlan(o), n, {}).value
  }

  // ---- Second pass: bytes -------------------------------------------------------------------------------

  /** What the first pass found out. */
  datatype Final = Final(bases: seq<u128>, symbols: map<string, Location>)

  function FinalAddress(fin: Final, at: Location): u128 {
    Wrap((if at.section < |fin.bases| then fin.bases[at.section] else 0) + at.offset)
  }

  function Target(fin: Final, symbol: string): u128 {
    if symbol in fin.symbols then FinalAddress(fin, fin.symbols[symbol]) else 0
  }

  function PayloadBytes(payload: Payload): seq<byte> {
    match payload
    case Bytes(_, bytes) => bytes
    case Zeros(count) => Repeat(count)
    case Nothing => []
  }

  /** The bytes of an item that starts at `start` in section `s`, without its padding. */
  function Content(item: Item, s: nat, size: nat, start: nat, fin: Final): seq<byte> {
    match item
    case Block(_, _, payload) => PayloadBytes(payload)
    case Refer(symbol, ref) =>
      FinalBytes(ref, FinalAddress(fin, Location(s, start)), Target(fin, symbol), FinalAddress(fin, Location(s, size)))
    case _ => []
  }

  function Padding(size: nat, item: Item): seq<byte> {
    Repeat(if size <= Start(size, item) then Start(size, item) - size else 0)
  }

  /** The bytes that the items add to section `s`. */
  function Encoded(items: seq<Item>, p: Plan, s: nat, fin: Final): seq<byte>
    requires Placed(p)
    decreases |items|
  {
    if items == [] || PlanStep(p, items[0]).None? then []
    else
      var size := p.sections[p.current].size;
      (if s == p.current then Padding(size, items[0]) + Content(items[0], s, size, Start(size, items[0]), fin) else [])
      + Encoded(items[1..], PlanStep(p, items[0]).value, s, fin)
  }

  /** Every symbol that is referred to or described exists, and no jump is out of bounds. */
  predicate Resolved(items: seq<Item>, p: Plan, fin: Final)
    requires Placed(p)
    decreases |items|
  {
    items == [] || PlanStep(p, items[0]).None? ||
    (&& (items[0].Remark? ==> items[0].symbol in fin.symbols)
     && (items[0].Refer? ==>
           && items[0].symbol in fin.symbols
           && var start := Location(p.current, Start(p.sections[p.current].size, items[0]));
              !Rejects(KindOf(items[0].ref), FinalAddress(fin, start), Target(fin, items[0].symbol)))
     && Resolved(items[1..], PlanStep(p, items[0]).value, fin))
  }

  // ---- The assembler --------------------------------------------------------------------------------------

  datatype Linked = Linked(plan: Plan, final: Final, outputs: seq<seq<byte>>)

  function PlannedExtents(p: Plan): (es: seq<Extent>)
    ensures |es| == |p.sections|
  {
    seq(|p.sections|, i requires 0 <= i < |p.sections| =>
      var s := p.sections[i]; Extent(s.size, s.code, s.readonly, s.based, s.base))
  }

  function BasesOf(o: Options, p: Plan): (bases: seq<u128>)
    ensures |bases| == |p.sections|
  {
    seq(|p.sections|, i requires 0 <= i < |p.sections| => BaseOf(o, PlannedExtents(p), i))
  }

  function TwoPassAssemble(o: Options, items: seq<Item>): Option<Linked> {
    var plan :- PlanAll(InitialPlan(o), items);
    var fin := Final(BasesOf(o, plan), Labels(o, items));
    if Resolved(items, InitialPlan(o), fin)
    then Some(Linked(plan, fin, seq(|plan.sections|, s requires 0 <= s < |plan.sections| =>
                Encoded(items, InitialPlan(o), s, fin))))
    else None
  }
}
