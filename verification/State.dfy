/**
 What the assembler holds while it runs, and what one item does to it (src/section.cpp,
 src/assemble.cpp, src/directive.cpp, src/pseudo_ops.cpp). A section pointer is the section's index.
 Sizes are 64-bit: a large reservation or `.align 0` wraps around and shortens the buffer.
*/
module State {
  import opened Words
  import opened Results
  import opened References
  import opened Items
  import opened Layout

  datatype Location = Location(section: nat, offset: nat)

  datatype Symbol = Symbol(at: Location, symbolType: nat, size: nat)

  /** A scheduled lambda, by what it captured. */
  datatype Fixup =
    | PatchAt(kind: Kind, at: Location, before: Location)
    | SetEnd(at: Location)
    | SetType(symbolType: nat)

  datatype SectionValue = SectionValue(
    name: string, output: seq<byte>, code: bool, data: bool, resv: bool, execonly: bool, readonly: bool,
    based: bool, base: u128, queue: seq<string>)

  datatype State = State(
    sections: seq<SectionValue>, current: nat, symbols: map<string, Symbol>,
    schedule: map<string, seq<Fixup>>, globals: set<string>)

  /** There is always a current section. */
  ghost predicate Proper(st: State) {
    st.current < |st.sections|
  }

  // ---- Sizes ----------------------------------------------------------------------------------------

  /** `vector<uint8_t>::max_size()`: growing past it throws. */
  const MAX_SIZE: nat := 0x7FFF_FFFF_FFFF_FFFF

  function Mask(alignment: u64): u64 {
    ((alignment as int) - 1) % 0x1_0000_0000_0000_0000
  }

  /** `(size + (alignment - 1)) & ~(alignment - 1)`, at 64 bits. */
  function AlignedSize(size: nat, alignment: u64): nat {
    AndNot((size + Mask(alignment)) % 0x1_0000_0000_0000_0000, Mask(alignment))
  }

  function ReservedSize(size: nat, count: u64): nat {
    (size + count) % 0x1_0000_0000_0000_0000
  }

  function Repeat(n: nat): (zeros: seq<byte>)
    ensures |zeros| == n && forall i :: 0 <= i < n ==> zeros[i] == 0
  {
    seq(n, i => 0)
  }

  function Resize(output: seq<byte>, size: nat): Result<seq<byte>> {
    if size > MAX_SIZE then Thrown
    else if size <= |output| then Ok(output[..size])
    else Ok(output + Repeat(size - |output|))
  }

  /** Aligning grows the buffer exactly when the sum does not wrap; when it wraps, the buffer shrinks. */
  lemma AlignGrows(size: nat, alignment: u64)
    requires size <= MAX_SIZE
    ensures size <= AlignedSize(size, alignment) <==> size + Mask(alignment) < 0x1_0000_0000_0000_0000
    ensures size + Mask(alignment) < 0x1_0000_0000_0000_0000 ==> AlignedSize(size, alignment) <= size + Mask(alignment)
  {
    var sum := size + Mask(alignment);
    AndNotBounds(sum % P64, Mask(alignment));
    if sum >= P64 {
      ModUnique(sum, P64, 1, sum - P64);
    }
  }

  /** An empty buffer stays empty. */
  lemma AlignEmpty(size: nat, alignment: u64)
    requires size == 0
    ensures AlignedSize(size, alignment) == 0
  {
    ModUnique(Mask(alignment), P64, 0, Mask(alignment));
    AndNotSelf(Mask(alignment));
  }

  lemma {:induction false} AndNotSelf(m: nat)
    ensures AndNot(m, m) == 0
  {
    if m != 0 {
      AndNotSelf(m / 2);
    }
  }

  /** `.align 0` empties any buffer. */
  lemma AlignZero(size: nat, alignment: u64)
    requires alignment == 0 && size <= MAX_SIZE
    ensures AlignedSize(size, alignment) == 0
  {
    if size == 0 {
      AlignEmpty(size, alignment);
    } else {
      ModUnique(-1, P64, -1, P64 - 1);
      ModUnique(size + P64 - 1, P64, 1, size - 1);
      ModUnique(size - 1, P64, 0, size - 1);
      Pow2At64();
      AndNotPow2(size - 1, 64);
    }
  }

  /** For a power of two the result is the least multiple at or above the size. */
  lemma AlignPow2(size: nat, k: nat, multiple: int)
    requires size <= MAX_SIZE && k < 64 && Pow2(k) < 0x1_0000_0000_0000_0000
    ensures var r := AlignedSize(size, Pow2(k));
            && r % Pow2(k) == 0 && size <= r < size + Pow2(k)
            && (multiple % Pow2(k) == 0 && size <= multiple ==> r <= multiple)
  {
    var p := Pow2(k);
    SmallPow2(k);
    ModUnique(p - 1, P64, 0, p - 1);
    var x := size + p - 1;
    ModUnique(x, P64, 0, x);
    AndNotPow2(x, k);
    RemainderBelow(x, p);
    if multiple % p == 0 && size <= multiple {
      LeastMultiple(x, p, multiple);
    }
  }

  lemma {:induction false} SmallPow2(k: nat)
    requires k < 64
    ensures Pow2(k) <= 0x8000_0000_0000_0000
  {
    Pow2Sum(k, 63 - k);
    assert Pow2(63) == 0x8000_0000_0000_0000 by { Pow2At64(); assert Pow2(64) == 2 * Pow2(63); }
    MulAtLeast(Pow2(k), Pow2(63 - k));
  }

  /** The least multiple of `p` at or above the size. */
  predicate RoundsUp(size: nat, r: nat, p: nat) {
    p > 0 && r % p == 0 && size <= r < size + p
  }

  /** `.align` of a power of two, of which it takes 64 bits: right exactly below 2^64, or for an empty buffer. */
  lemma AlignDirectiveExact(size: nat, k: nat, v: u128, alignment: u64)
    requires size <= MAX_SIZE && k < 128 && v == Pow2(k) && alignment == v % 0x1_0000_0000_0000_0000
    ensures RoundsUp(size, AlignedSize(size, alignment), v) <==> size == 0 || k < 64
  {
    if k < 64 {
      SmallPow2(k);
      ModUnique(v, P64, 0, v);
      AlignPow2(size, k, 0);
    } else {
      Pow2Sum(64, k - 64);
      Pow2At64();
      ModUnique(v, P64, Pow2(k - 64), 0);
      AlignZero(size, alignment);
    }
  }

  // ---- Section operations -----------------------------------------------------------------------------

  function AlignSection(s: SectionValue, alignment: u64): Result<SectionValue> {
    var output :- Resize(s.output, AlignedSize(|s.output|, alignment));
    Ok(s.(output := output))
  }

  function Append(s: SectionValue, kind: OutputType, bytes: seq<byte>): Result<SectionValue> {
    if |s.output| + |bytes| > MAX_SIZE then Thrown
    else Ok(s.(output := s.output + bytes, code := s.code || kind.CodeOutput?, data := s.data || kind.DataOutput?))
  }

  function Allocate(s: SectionValue, count: u64): Result<SectionValue> {
    var output :- Resize(s.output, ReservedSize(|s.output|, count));
    Ok(s.(output := output, resv := true))
  }

  // ---- Assembler operations ---------------------------------------------------------------------------

  function Current(st: State): SectionValue
    requires Proper(st)
  {
    st.sections[st.current]
  }

  function WithCurrent(st: State, s: SectionValue): (r: State)
    requires Proper(st)
    ensures Proper(r)
  {
    st.(sections := st.sections[st.current := s])
  }

  /** `current_location()`. */
  function Here(st: State): Location
    requires Proper(st)
  {
    Location(st.current, |Current(st).output|)
  }

  /** `add_symbol_here` for each name: a symbol that exists keeps its first binding. */
  function Bind(symbols: map<string, Symbol>, names: seq<string>, at: Location): map<string, Symbol> {
    map n | n in symbols.Keys + (set m | m in names) :: if n in symbols then symbols[n] else Symbol(at, 0, 0)
  }

  /** Bind the labels queued in section `s`; they get the location of the current section. */
  function Flush(st: State, s: nat): (r: State)
    requires Proper(st) && s < |st.sections|
    ensures Proper(r) && |r.sections| == |st.sections|
  {
    st.(symbols := Bind(st.symbols, st.sections[s].queue, Here(st)),
        sections := st.sections[s := st.sections[s].(queue := [])])
  }

  /** `align_with_labels` on the current section. */
  function AlignWithLabels(st: State, alignment: u64): (r: Result<State>)
    requires Proper(st)
    ensures r.Ok? ==> Proper(r.value)
  {
    if alignment > 1 then
      var s :- AlignSection(Current(st), alignment);
      Ok(Flush(WithCurrent(st, s), st.current))
    else Ok(Flush(st, st.current))
  }

  function Schedule(st: State, symbol: string, f: Fixup): State {
    st.(schedule := st.schedule[symbol := ScheduledFor(st, symbol) + [f]])
  }

  function ScheduledFor(st: State, symbol: string): seq<Fixup> {
    if symbol in st.schedule then st.schedule[symbol] else []
  }

  /** The first section of that name, or the number of sections. */
  function FindSection(sections: seq<SectionValue>, name: string): (i: nat)
    ensures i <= |sections|
  {
    if sections == [] || sections[0].name == name then 0 else 1 + FindSection(sections[1..], name)
  }

  function EmptySection(name: string): SectionValue {
    SectionValue(name, [], false, false, false, false, false, false, 0, [])
  }

  function Emit(st: State, payload: Payload): (r: Result<State>)
    requires Proper(st)
    ensures r.Ok? ==> Proper(r.value)
  {
    match payload
    case Bytes(kind, bytes) =>
      var s :- Append(Current(st), kind, bytes);
      Ok(WithCurrent(st, s))
    case Zeros(count) =>
      var s :- Allocate(Current(st), count);
      Ok(WithCurrent(st, s))
    case Nothing => Ok(st)
  }

  /** The fixup and the bytes of a reference. Only `.size` knows where the section ended before its alignment. */
  function EmitReference(st: State, symbol: string, ref: Reference, before: Location): (r: Result<State>)
    requires Proper(st)
    ensures r.Ok? ==> Proper(r.value)
  {
    Emit(Schedule(st, symbol, PatchAt(KindOf(ref), Here(st), before)),
         Bytes(if ref.SizeOf? then DataOutput else CodeOutput, Placeholder(ref)))
  }

  function Step(st: State, item: Item): (r: Result<State>)
    requires Proper(st)
    ensures r.Ok? ==> Proper(r.value)
  {
    match item
    case NewLabel(name) => Ok(WithCurrent(st, Current(st).(queue := Current(st).queue + [name])))
    case Switch(name) =>
      var i := FindSection(st.sections, name);
      if i < |st.sections| then Ok(st.(current := i))
      else Ok(st.(sections := st.sections + [EmptySection(name)], current := i))
    case Org(address) =>
      if |Current(st).output| > 0 then Thrown else Ok(WithCurrent(st, Current(st).(base := address, based := true)))
    case ExecOnly => Ok(WithCurrent(st, Current(st).(execonly := true)))
    case ReadOnly => Ok(WithCurrent(st, Current(st).(readonly := true)))
    case Global(name) => Ok(st.(globals := st.globals + {name}))
    case Align(to) =>
      var s :- AlignSection(Current(st), to);
      Ok(WithCurrent(st, s))
    case Remark(symbol, EndFunc) => Ok(Schedule(st, symbol, SetEnd(Here(st))))
    case Remark(symbol, TypeNote(t)) => Ok(Schedule(st, symbol, SetType(t)))
    case Block(alignment, flushes, payload) =>
      if flushes then
        var st1 :- AlignWithLabels(st, alignment);
        Emit(st1, payload)
      else Emit(st, payload)
    case Refer(symbol, ref) =>
      var st1 :- AlignWithLabels(st, 4);
      EmitReference(st1, symbol, ref, if ref.SizeOf? then Here(st) else Here(st1))
  }

  /** A whole run. */
  function Exec(st: State, items: seq<Item>): (r: Result<State>)
    requires Proper(st)
    ensures r.Ok? ==> Proper(r.value)
    decreases |items|
  {
    if items == [] then Ok(st)
    else
      var st1 :- Step(st, items[0]);
      Exec(st1, items[1..])
  }

  /** The constructor: a `.text` section at the configured base. */
  function Initial(o: Options): (st: State)
    ensures Proper(st)
  {
    State([EmptySection(".text").(based := true, base := o.base)], 0, map[], map[], {})
  }

  // ---- finish -------------------------------------------------------------------------------------------

  /** Flush the queues of the first `n` sections. */
  function FlushAll(st: State, n: nat): (r: State)
    requires Proper(st) && n <= |st.sections|
    ensures Proper(r) && |r.sections| == |st.sections| && r.current == st.current
  {
    if n == 0 then st else Flush(FlushAll(st, n - 1), n - 1)
  }

  function ExtentOf(s: SectionValue): Extent {
    Extent(|s.output|, s.code, s.readonly, s.based, s.base)
  }

  function Extents(sections: seq<SectionValue>): (es: seq<Extent>)
    ensures |es| == |sections|
  {
    seq(|sections|, i requires 0 <= i < |sections| => ExtentOf(sections[i]))
  }

  function ResolveBases(o: Options, st: State): (r: State)
    ensures r.current == st.current && |r.sections| == |st.sections|
    ensures forall i :: 0 <= i < |st.sections| ==>
      r.sections[i] == st.sections[i].(base := BaseOf(o, Extents(st.sections), i), based := true)
  {
    st.(sections := seq(|st.sections|, i requires 0 <= i < |st.sections| =>
      st.sections[i].(base := BaseOf(o, Extents(st.sections), i), based := true)))
  }

  /** `address()` of a location. */
  function AddressOf(sections: seq<SectionValue>, at: Location): u128
    requires at.section < |sections|
  {
    Wrap(sections[at.section].base + at.offset)
  }

  /** One fixup for `symbol`. An access outside the buffer throws or is undefined; either way there is no result. */
  function RunFixup(st: State, name: string, f: Fixup): Result<State> {
    if name !in st.symbols || st.symbols[name].at.section >= |st.sections| then Thrown
    else
      var symbol := st.symbols[name];
      var target := AddressOf(st.sections, symbol.at);
      match f
      case SetType(t) => Ok(st.(symbols := st.symbols[name := symbol.(symbolType := t)]))
      case SetEnd(at) =>
        if at.section >= |st.sections| then Thrown
        else
          var end := AddressOf(st.sections, at);
          var size: nat := ((end as int) - target) % 0x1_0000_0000_0000_0000;
          Ok(st.(symbols := st.symbols[name := symbol.(size := size, symbolType := STT_FUNC)]))
      case PatchAt(kind, at, before) =>
        if at.section >= |st.sections| || before.section >= |st.sections| then Thrown
        else
          var output := st.sections[at.section].output;
          var pc, origin := AddressOf(st.sections, at), AddressOf(st.sections, before);
          if at.offset + Width(kind) > |output| || Rejects(kind, pc, target) then Thrown
          else
            var own := Patch(kind, output[at.offset..at.offset + Width(kind)], pc, target, origin);
            var patched := output[..at.offset] + own + output[at.offset + Width(kind)..];
            var st1 := st.(sections := st.sections[at.section := st.sections[at.section].(output := patched)]);
            if !kind.SizeKind? then Ok(st1)
            else Ok(st1.(symbols := st.symbols[name := symbol.(size := SizeValue(pc, target, origin))]))
  }

  /** A scheduled fixup with the symbol it waits for. */
  datatype Entry = Entry(symbol: string, fixup: Fixup)

  function RunEntries(st: State, entries: seq<Entry>): Result<State>
    decreases |entries|
  {
    if entries == [] then Ok(st)
    else
      var st1 :- RunFixup(st, entries[0].symbol, entries[0].fixup);
      RunEntries(st1, entries[1..])
  }

  function EntriesFor(name: string, fixups: seq<Fixup>): (es: seq<Entry>)
    ensures |es| == |fixups| && forall i :: 0 <= i < |fixups| ==> es[i] == Entry(name, fixups[i])
  {
    seq(|fixups|, i requires 0 <= i < |fixups| => Entry(name, fixups[i]))
  }

  /** The schedule in the order in which its keys are visited. */
  function Entries(names: seq<string>, schedule: map<string, seq<Fixup>>): seq<Entry> {
    if names == [] then []
    else (if names[0] in schedule then EntriesFor(names[0], schedule[names[0]]) else []) + Entries(names[1..], schedule)
  }

  /** The names of a set, each once. */
  ghost predicate Enumerates(names: seq<string>, keys: set<string>) {
    && (forall n :: n in names <==> n in keys)
    && (forall i, j :: 0 <= i < j < |names| ==> names[i] != names[j])
  }

  function Finish(o: Options, st: State, names: seq<string>): Result<State>
    requires Proper(st)
  {
    RunEntries(ResolveBases(o, FlushAll(st, |st.sections|)), Entries(names, st.schedule))
  }

  /** The one-pass assembler on a list of items; `names` are the scheduled symbols in map order. */
  function OnePass(o: Options, items: seq<Item>, names: seq<string>): Result<State> {
    var st :- Exec(Initial(o), items);
    Finish(o, st, names)
  }

  /** The symbols a program schedules something for. */
  function Mentioned(items: seq<Item>): set<string> {
    set item | item in items && (item.Remark? || item.Refer?) :: item.symbol
  }
}
