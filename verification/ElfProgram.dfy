/** The ELF file of an assembled program (src/main.cpp:36-44): what a reader of the file finds in it. */
module ElfProgram {
  import opened Words
  import opened Results
  import opened Tokens
  import opened Items
  import opened Layout
  import opened State
  import opened Fixups
  import opened TwoPass
  import opened Planning
  import opened Equivalence
  import opened Elf
  import opened ElfRead
  import R = ElfRead
  import S = State

  // ---- Every symbol lies in a section ---------------------------------------------------------------------

  ghost predicate SymbolsPlaced(st: S.State) {
    Proper(st) && forall n :: n in st.symbols ==> st.symbols[n].at.section < |st.sections|
  }

  lemma StepPlaces(st: S.State, item: Item)
    requires SymbolsPlaced(st) && Step(st, item).Ok?
    ensures SymbolsPlaced(Step(st, item).value)
  {
  }

  lemma {:induction false} RunPlaces(st: S.State, items: seq<Item>)
    requires SymbolsPlaced(st) && Exec(st, items).Ok?
    ensures SymbolsPlaced(Exec(st, items).value)
    decreases |items|
  {
    if items != [] {
      StepPlaces(st, items[0]);
      RunPlaces(Step(st, items[0]).value, items[1..]);
    }
  }

  lemma {:induction false} FlushPlaces(st: S.State, n: nat)
    requires SymbolsPlaced(st) && n <= |st.sections|
    ensures SymbolsPlaced(FlushAll(st, n))
    decreases n
  {
    if n > 0 {
      FlushPlaces(st, n - 1);
    }
  }

  lemma {:induction false} EntriesPlace(st: S.State, es: seq<Entry>)
    requires SymbolsPlaced(st) && RunEntries(st, es).Ok?
    ensures SymbolsPlaced(RunEntries(st, es).value)
    decreases |es|
  {
    if es != [] {
      RunFixupKeeps(st, es[0]);
      RunFixupEffect(st, es[0]);
      EntriesPlace(RunFixup(st, es[0].symbol, es[0].fixup).value, es[1..]);
    }
  }

  /** Every accepted program, even one whose sizes wrap around, leaves a state that can be written. */
  lemma AcceptedWritable(o: Options, items: seq<Item>, scheduled: seq<string>, r: S.State, names: seq<string>)
    requires OnePass(o, items, scheduled) == Ok(r) && Enumerates(names, r.symbols.Keys)
    ensures Writable(r.sections, r.symbols, names)
  {
    var st := Exec(Initial(o), items).value;
    RunPlaces(Initial(o), items);
    FlushPlaces(st, |st.sections|);
    EntriesPlace(Unpatched(o, st), Entries(scheduled, st.schedule));
  }

  // ---- The file of a program ------------------------------------------------------------------------------

  lemma NamesPlaced(sections: seq<SectionValue>, symbols: map<string, S.Symbol>, names: seq<string>)
    requires Writable(sections, symbols, names)
    ensures forall i :: 0 <= i < |names| ==> names[i] in symbols && symbols[names[i]].at.section < |sections|
  {
    forall i | 0 <= i < |names|
      ensures names[i] in symbols && symbols[names[i]].at.section < |sections|
    {
      assert names[i] in names;
    }
  }

  /** `Elf_Writer` on the state of an assembler. */
  function FileOf(w: width, entry: string, r: S.State, order: seq<nat>, names: seq<string>): Image
    requires Writable(r.sections, r.symbols, names) && ListsAll(order, |r.sections|) && entry in r.symbols
  {
    NamesPlaced(r.sections, r.symbols, names);
    Written(w, SECTION_NAMES, AddressOf(r.sections, r.symbols[entry].at), r.sections, order, r.symbols, names)
  }

  /** Entry `i` has the address and, with a string table of up to 4 GiB, the name exactly when that has no NUL. */
  ghost predicate Labelled(w: width, image: Image, i: nat, name: string, address: u128) {
    forall sym :: sym == SymAt(image.bytes, w, image.symtab, i) ==>
      && sym.Some? && sym.value.value == address % Pow256(w)
      && (image.strtab.size <= 0x1_0000_0000 ==>
            (StringAt(image.bytes, image.strtab, sym.value.name) == Some(StringBytes(name))
             <==> 0 !in StringBytes(name)))
  }

  ghost predicate HasLabel(w: width, image: Image, name: string, address: u128) {
    exists i :: 1 <= i < image.symtab.info && Labelled(w, image, i, name, address)
  }

  /** Some segment has the bytes, and their address to the width of the file. */
  ghost predicate HasBytes(w: width, image: Image, bytes: seq<byte>, base: u128) {
    exists i :: 0 <= i < |image.segments| && SegmentHas(w, image, image.segments[i], bytes, base)
  }

  ghost predicate SegmentHas(w: width, image: Image, g: Segment, bytes: seq<byte>, base: u128) {
    LiesAt(image.bytes, g.offset, bytes) && g.memorySize == |bytes| && g.address == base % Pow256(w)
  }

  /** The file holds the program that two passes link, and starts it at a label. */
  ghost predicate HoldsProgram(w: width, image: Image, linked: Linked, entry: string) {
    && entry in linked.final.symbols
    && image.entry == FinalAddress(linked.final, linked.final.symbols[entry]) % Pow256(w)
    && (forall n :: n in linked.final.symbols ==>
          HasLabel(w, image, n, FinalAddress(linked.final, linked.final.symbols[n])))
    && image.symtab.info == |linked.final.symbols| + 1
    && |linked.outputs| == |linked.final.bases| == |image.segments|
    && forall s :: 0 <= s < |linked.outputs| ==> HasBytes(w, image, linked.outputs[s], linked.final.bases[s])
  }

  lemma LabelInFile(w: width, image: Image, r: S.State, n: string, i: nat, address: u128)
    requires n in r.symbols && r.symbols[n].at.section < |r.sections|
    requires address == AddressOf(r.sections, r.symbols[n].at) && Describes(w, image, r.sections, r.symbols, i, n)
    ensures Labelled(w, image, i, n, address)
  {
    assert Matches(w, image, r.sections, r.symbols[n], n, SymAt(image.bytes, w, image.symtab, i));
  }

  lemma StoredInFile(w: width, image: Image, s: SectionValue)
    requires Stored(w, image, s)
    ensures HasBytes(w, image, s.output, s.base)
  {
    var i :| 0 <= i < |image.segments| && R.Holds(w, image.bytes, image.segments[i], s);
    assert SegmentHas(w, image, image.segments[i], s.output, s.base);
  }

  /**
   From source to file and back: reading the file of an accepted program gives one symbol for each of its labels,
   at the address that two passes give it, and for each of its sections a segment with the bytes and the base
   address that two passes give it. The symbols, the sections and the schedule may be visited in any order.
  */
  lemma ProgramInFile(w: width, o: Options, items: seq<Item>, scheduled: seq<string>, r: S.State, entry: string,
                      order: seq<nat>, names: seq<string>, linked: Linked)
    requires Enumerates(scheduled, Mentioned(items)) && TwoPassAssemble(o, items) == Some(linked)
    requires OnePass(o, items, scheduled) == Ok(r)
    requires Enumerates(names, r.symbols.Keys)
    requires ListsAll(order, |r.sections|) && entry in r.symbols
    ensures Writable(r.sections, r.symbols, names)
    ensures HoldsProgram(w, FileOf(w, entry, r, order, names), linked, entry)
  {
    AcceptedWritable(o, items, scheduled, r, names);
    OnePassIsTwoPass(o, items, scheduled);
    FileHolds(w, r, entry, order, names, linked, FileOf(w, entry, r, order, names));
  }

  lemma FileHolds(w: width, r: S.State, entry: string, order: seq<nat>, names: seq<string>, linked: Linked,
                  image: Image)
    requires Writable(r.sections, r.symbols, names)
    requires ListsAll(order, |r.sections|) && entry in r.symbols && image == FileOf(w, entry, r, order, names)
    requires Agree(r, linked)
    ensures HoldsProgram(w, image, linked, entry)
  {
    AgreeAddress(r, linked, r.symbols[entry].at);
    var address := AddressOf(r.sections, r.symbols[entry].at);
    NamesPlaced(r.sections, r.symbols, names);
    SymbolsReadBack(w, address, r.sections, order, r.symbols, names, image);
    FileTiled(w, address, r.sections, order, r.symbols, names, image);
    forall n | n in linked.final.symbols
      ensures HasLabel(w, image, n, FinalAddress(linked.final, linked.final.symbols[n]))
    {
      var i :| 1 <= i < image.symtab.info && Describes(w, image, r.sections, r.symbols, i, n);
      AgreeAddress(r, linked, r.symbols[n].at);
      LabelInFile(w, image, r, n, i, FinalAddress(linked.final, linked.final.symbols[n]));
    }
    forall s | 0 <= s < |linked.outputs|
      ensures HasBytes(w, image, linked.outputs[s], linked.final.bases[s])
    {
      StoredInFile(w, image, r.sections[s]);
      assert r.sections[s].base == PlannedOf(r.sections[s]).base;
    }
    assert |r.symbols| == |r.symbols.Keys| && |linked.final.symbols| == |linked.final.symbols.Keys|;
  }
}
