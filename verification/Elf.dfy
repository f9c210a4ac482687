/**
 Writing ELF files (src/elfwriter.cpp) and reading them back the way chapter 4 of the System V gABI describes
 the string and symbol tables. The fields of the headers are a record beside the bytes of the file; the header
 region of the file is left zero here.
*/
module Elf {
  import opened Words
  import opened Results
  import opened Tokens
  import opened State
  import S = State

  /** Bytes of an address: 8 for ELF64, 16 for ELF128. */
  type width = n: nat | n == 8 || n == 16 witness 8

  /** `sizeof(ElfData) + sizeof(Elf_Phdr) * n`: the ELF header, four section headers, and the program headers. */
  function HeaderSize(w: width, n: nat): nat {
    if w == 8 then 64 + 4 * 64 + 56 * n else 96 + 4 * 128 + 112 * n
  }

  /** `sh_offset`, `sh_size` and `sh_info`. */
  datatype Table = Table(offset: nat, size: nat, info: nat)

  datatype Segment = Segment(
    load: bool, readable: bool, writable: bool, executable: bool, offset: nat, address: nat,
    fileSize: nat, memorySize: nat)

  datatype Image = Image(
    entry: nat, bytes: seq<byte>, shstrtab: Table, strtab: Table, symtab: Table, segments: seq<Segment>)

  // ---- String tables ----------------------------------------------------------------------------------------

  /** An entry: the characters and a NUL. */
  function StringEntry(s: string): seq<byte> {
    StringBytes(s) + [0]
  }

  /** A NUL, then the entries. */
  function StringTable(names: seq<string>): seq<byte>
    decreases |names|
  {
    if names == [] then [0] else StringTable(names[..|names| - 1]) + StringEntry(names[|names| - 1])
  }

  lemma StringTableNext(names: seq<string>, k: nat)
    requires k < |names|
    ensures StringTable(names[..k + 1]) == StringTable(names[..k]) + StringEntry(names[k])
  {
    assert names[..k + 1][..k] == names[..k];
  }

  /** Where the `k`-th string begins. */
  function OffsetIn(names: seq<string>, k: nat): nat
    requires k < |names|
  {
    |StringTable(names[..k])|
  }

  /** The file while it is being written. */
  class Binary {
    var bytes: seq<byte>

    constructor (size: nat)
      ensures bytes == Repeat(size)
    {
      bytes := Repeat(size);
    }

    method Append(more: seq<byte>)
      modifies this
      ensures bytes == old(bytes) + more
    {
      bytes := bytes + more;
    }
  }

  class ElfStringSection {
    const bin: Binary
    const shOffset: nat
    var shSize: nat
    var namelist: map<string, nat>
    var offset: nat

    constructor (bin: Binary)
      modifies bin
      ensures this.bin == bin && shOffset == |old(bin.bytes)| && bin.bytes == old(bin.bytes) + [0]
      ensures shSize == 1 && offset == 1 && namelist == map[]
    {
      this.bin, shOffset := bin, |bin.bytes|;
      shSize, namelist, offset := 0, map[], 0;
      new;
      AppendNull();
    }

    method AppendNull()
      modifies this, bin
      ensures bin.bytes == old(bin.bytes) + [0] && shSize == old(shSize) + 1 && offset == old(offset) + 1
      ensures namelist == old(namelist)
    {
      bin.Append([0]);
      shSize, offset := shSize + 1, offset + 1;
    }

    method Add(str: string) returns (at: nat)
      modifies this, bin
      ensures bin.bytes == old(bin.bytes) + StringEntry(str)
      ensures shSize == old(shSize) + |str| + 1 && offset == old(offset) + |str| + 1
      ensures at == old(offset) && namelist == old(namelist)[str := at]
    {
      bin.Append(StringEntry(str));
      shSize := shSize + |str| + 1;
      at := offset;
      namelist := namelist[str := at];
      offset := offset + |str| + 1;
    }

    /** `namelist.at`: nothing for a string that was not added. */
    method Lookup(str: string) returns (at: Option<nat>)
      ensures at == if str in namelist then Some(namelist[str]) else None
    {
      at := if str in namelist then Some(namelist[str]) else None;
    }
  }

  // ---- Symbol tables --------------------------------------------------------------------------------------------

  datatype Sym = Sym(name: nat, info: byte, other: byte, shndx: nat, value: nat, size: nat)

  /** The bytes of an entry: 24 or 48, with padding in front of a 16-byte address. */
  function SymBytes(w: width, sym: Sym): (bytes: seq<byte>)
    ensures |bytes| == 3 * w
  {
    LittleEndian(sym.name, 4) + [sym.info, sym.other] + LittleEndian(sym.shndx, 2) + Repeat(w - 8)
    + LittleEndian(sym.value, w) + LittleEndian(sym.size, w)
  }

  const NO_SYMBOL: Sym := Sym(0, 0, 0, 0, 0, 0)

  /** `st_shndx` is SHN_UNDEF and `st_other` STV_DEFAULT; `st_info` is the type, whatever the binding. */
  function SymOf(name: nat, symbol: S.Symbol, address: u128): Sym {
    Sym(name, symbol.symbolType % 0x100, 0, 0, address, symbol.size)
  }

  class ElfSymSection {
    const bin: Binary
    const w: width
    const shOffset: nat
    var shSize: nat
    var shInfo: nat

    constructor (w: width, bin: Binary)
      modifies bin
      ensures this.bin == bin && this.w == w && shOffset == |old(bin.bytes)|
      ensures bin.bytes == old(bin.bytes) + SymBytes(w, NO_SYMBOL)
      ensures shSize == |SymBytes(w, NO_SYMBOL)| && shInfo == 1
    {
      this.bin, this.w, shOffset := bin, w, |bin.bytes|;
      shSize, shInfo := 0, 0;
      new;
      AddSym(NO_SYMBOL);
    }

    method AddSym(sym: Sym)
      modifies this, bin
      ensures bin.bytes == old(bin.bytes) + SymBytes(w, sym)
      ensures shSize == old(shSize) + |SymBytes(w, sym)| && shInfo == old(shInfo) + 1
    {
      bin.Append(SymBytes(w, sym));
      shSize, shInfo := shSize + |SymBytes(w, sym)|, shInfo + 1;
    }

    /** False when the name is in no string table. */
    method Add(name: string, symbol: S.Symbol, address: u128, str: ElfStringSection) returns (ok: bool)
      modifies this, bin
      ensures ok <==> name in old(str.namelist)
      ensures ok ==> bin.bytes == old(bin.bytes) + SymBytes(w, SymOf(old(str.namelist)[name], symbol, address))
      ensures ok ==> shSize == old(shSize) + |SymBytes(w, SymOf(old(str.namelist)[name], symbol, address))|
      ensures ok ==> shInfo == old(shInfo) + 1
    {
      var at := str.Lookup(name);
      ok := at.Some?;
      if ok {
        AddSym(SymOf(at.value, symbol, address));
      }
    }
  }

  // ---- The file -----------------------------------------------------------------------------------------------

  const SECTION_NAMES: seq<string> := [".shstrtab", ".symtab", ".strtab"]

  /** Every symbol lies in a section, and the names are all and only theirs. */
  ghost predicate Writable(sections: seq<SectionValue>, symbols: map<string, S.Symbol>, names: seq<string>) {
    && Enumerates(names, symbols.Keys)
    && forall n :: n in symbols ==> symbols[n].at.section < |sections|
  }

  /** The sections in map order: each of them once. */
  ghost predicate ListsAll(order: seq<nat>, n: nat) {
    && |order| == n && (forall i :: 0 <= i < |order| ==> order[i] < n)
    && forall s: nat :: s < n ==> s in order
  }

  /** The entry of the `k`-th symbol. */
  function EntryOf(sections: seq<SectionValue>, symbols: map<string, S.Symbol>, names: seq<string>, k: nat): Sym
    requires k < |names| && names[k] in symbols && symbols[names[k]].at.section < |sections|
  {
    SymOf(OffsetIn(names, k), symbols[names[k]], AddressOf(sections, symbols[names[k]].at))
  }

  /** The empty entry and the first `k` symbols. */
  function SymbolTable(w: width, sections: seq<SectionValue>, symbols: map<string, S.Symbol>, names: seq<string>,
                       k: nat)
    : seq<byte>
    requires k <= |names|
    requires forall i :: 0 <= i < |names| ==> names[i] in symbols && symbols[names[i]].at.section < |sections|
  {
    if k == 0 then SymBytes(w, NO_SYMBOL)
    else SymbolTable(w, sections, symbols, names, k - 1) + SymBytes(w, EntryOf(sections, symbols, names, k - 1))
  }

  /** The output of the first `k` sections in map order. */
  function SectionData(sections: seq<SectionValue>, order: seq<nat>, k: nat): seq<byte>
    requires k <= |order| && forall i :: 0 <= i < |order| ==> order[i] < |sections|
  {
    if k == 0 then [] else SectionData(sections, order, k - 1) + sections[order[k - 1]].output
  }

  /** The program header of a section whose data begins at `offset`. */
  function SegmentOf(w: width, s: SectionValue, offset: nat): Segment {
    var load := s.code || s.data;
    var readable := (!s.code || !s.execonly) && (s.data || s.resv);
    Segment(load, readable, readable && !s.readonly, s.code, offset, s.base % Pow256(w),
            if load then |s.output| else 0, |s.output|)
  }

  /** What lies in front of the section data. */
  function Tables(w: width, sectionNames: seq<string>, sections: seq<SectionValue>, symbols: map<string, S.Symbol>,
                  names: seq<string>): seq<byte>
    requires forall i :: 0 <= i < |names| ==> names[i] in symbols && symbols[names[i]].at.section < |sections|
  {
    Repeat(HeaderSize(w, |sections|)) + StringTable(sectionNames) + StringTable(names)
    + SymbolTable(w, sections, symbols, names, |names|)
  }

  function Segments(w: width, sections: seq<SectionValue>, order: seq<nat>, start: nat,
                    k: nat): (segments: seq<Segment>)
    requires k <= |order| && forall i :: 0 <= i < |order| ==> order[i] < |sections|
    ensures |segments| == k
  {
    if k == 0 then []
    else Segments(w, sections, order, start, k - 1)
         + [SegmentOf(w, sections[order[k - 1]], start + |SectionData(sections, order, k - 1)|)]
  }

  function Written(w: width, sectionNames: seq<string>, entry: u128, sections: seq<SectionValue>, order: seq<nat>,
                   symbols: map<string, S.Symbol>, names: seq<string>): Image
    requires forall i :: 0 <= i < |names| ==> names[i] in symbols && symbols[names[i]].at.section < |sections|
    requires forall i :: 0 <= i < |order| ==> order[i] < |sections|
  {
    var tables := Tables(w, sectionNames, sections, symbols, names);
    var start := HeaderSize(w, |sections|);
    var strings := start + |StringTable(sectionNames)|;
    var syms := strings + |StringTable(names)|;
    Image(entry % Pow256(w), tables + SectionData(sections, order, |order|),
          Table(start, |StringTable(sectionNames)|, 0), Table(strings, |StringTable(names)|, 0),
          Table(syms, |SymbolTable(w, sections, symbols, names, |names|)|, |names| + 1),
          Segments(w, sections, order, |tables|, |order|))
  }

  // ---- Writing it -----------------------------------------------------------------------------------------------

  /** The loop over the symbols that fills the string table. */
  method AddStrings(strings: ElfStringSection, names: seq<string>, ghost base: seq<byte>)
    requires strings.offset == strings.shSize == 1 && strings.bin.bytes == base + [0]
    requires forall i, j :: 0 <= i < j < |names| ==> names[i] != names[j]
    modifies strings, strings.bin
    ensures strings.bin.bytes == base + StringTable(names) && strings.shSize == |StringTable(names)|
    ensures forall k :: 0 <= k < |names| ==>
              names[k] in strings.namelist && strings.namelist[names[k]] == OffsetIn(names, k)
  {
    var k := 0;
    while k < |names|
      invariant 0 <= k <= |names| && strings.offset == strings.shSize == |StringTable(names[..k])|
      invariant strings.bin.bytes == base + StringTable(names[..k])
      invariant forall i :: 0 <= i < k ==>
                  names[i] in strings.namelist && strings.namelist[names[i]] == OffsetIn(names, i)
    {
      StringTableNext(names, k);
      AppendedAfter(base, StringTable(names[..k]), StringEntry(names[k]));
      var at := strings.Add(names[k]);
      k := k + 1;
    }
    assert names[..k] == names;
  }

  lemma AppendedAfter(a: seq<byte>, b: seq<byte>, c: seq<byte>)
    ensures (a + b) + c == a + (b + c)
  {
  }

  lemma SymbolTableNext(w: width, sections: seq<SectionValue>, symbols: map<string, S.Symbol>, names: seq<string>,
                        k: nat, base: seq<byte>)
    requires k < |names|
    requires forall i :: 0 <= i < |names| ==> names[i] in symbols && symbols[names[i]].at.section < |sections|
    ensures var t, e := SymbolTable(w, sections, symbols, names, k), SymBytes(w, EntryOf(sections, symbols, names, k));
      && base + SymbolTable(w, sections, symbols, names, k + 1) == (base + t) + e
      && |SymbolTable(w, sections, symbols, names, k + 1)| == |t| + |e|
  {
    AppendedAfter(base, SymbolTable(w, sections, symbols, names, k), SymBytes(w, EntryOf(sections, symbols, names, k)));
  }

  /** The loop over the symbols that fills the symbol table. */
  method AddSymbols(syms: ElfSymSection, strings: ElfStringSection, sections: seq<SectionValue>,
                    symbols: map<string, S.Symbol>, names: seq<string>, ghost base: seq<byte>)
    requires syms.bin.bytes == base + SymBytes(syms.w, NO_SYMBOL) && syms.shInfo == 1
    requires syms.shSize == |SymBytes(syms.w, NO_SYMBOL)|
    requires forall i :: 0 <= i < |names| ==> names[i] in symbols && symbols[names[i]].at.section < |sections|
    requires forall k :: 0 <= k < |names| ==>
               names[k] in strings.namelist && strings.namelist[names[k]] == OffsetIn(names, k)
    modifies syms, syms.bin
    ensures syms.bin.bytes == base + SymbolTable(syms.w, sections, symbols, names, |names|)
    ensures syms.shInfo == |names| + 1 && syms.shSize == |SymbolTable(syms.w, sections, symbols, names, |names|)|
  {
    var k := 0;
    while k < |names|
      invariant 0 <= k <= |names| && syms.shInfo == k + 1
      invariant syms.shSize == |SymbolTable(syms.w, sections, symbols, names, k)|
      invariant syms.bin.bytes == base + SymbolTable(syms.w, sections, symbols, names, k)
    {
      SymbolTableNext(syms.w, sections, symbols, names, k, base);
      var symbol := symbols[names[k]];
      var ok := syms.Add(names[k], symbol, AddressOf(sections, symbol.at), strings);
      k := k + 1;
    }
  }

  /** The loop over the sections: a program header and the data. */
  method AddSegments(w: width, bin: Binary, sections: seq<SectionValue>,
                     order: seq<nat>) returns (segments: seq<Segment>)
    requires forall i :: 0 <= i < |order| ==> order[i] < |sections|
    modifies bin
    ensures bin.bytes == old(bin.bytes) + SectionData(sections, order, |order|)
    ensures segments == Segments(w, sections, order, |old(bin.bytes)|, |order|)
  {
    segments := [];
    ghost var base := bin.bytes;
    var k := 0;
    while k < |order|
      invariant 0 <= k <= |order|
      invariant bin.bytes == base + SectionData(sections, order, k)
      invariant segments == Segments(w, sections, order, |base|, k)
    {
      var s := sections[order[k]];
      var load := s.code || s.data;
      var readable, writable := false, false;
      if !s.code || !s.execonly {
        if s.data || s.resv {
          readable := true;
          if !s.readonly {
            writable := true;
          }
        }
      }
      var fileSize := if load then |s.output| else 0;
      segments := segments
        + [Segment(load, readable, writable, s.code, |bin.bytes|, s.base % Pow256(w), fileSize, |s.output|)];
      AppendedAfter(base, SectionData(sections, order, k), s.output);
      bin.Append(s.output);
      k := k + 1;
    }
  }

  /** A whole string table. */
  method WriteStrings(bin: Binary, names: seq<string>) returns (strings: ElfStringSection)
    requires forall i, j :: 0 <= i < j < |names| ==> names[i] != names[j]
    modifies bin
    ensures fresh(strings) && strings.bin == bin
    ensures bin.bytes == old(bin.bytes) + StringTable(names)
    ensures strings.shOffset == |old(bin.bytes)| && strings.shSize == |StringTable(names)|
    ensures forall k :: 0 <= k < |names| ==>
              names[k] in strings.namelist && strings.namelist[names[k]] == OffsetIn(names, k)
  {
    ghost var base := bin.bytes;
    strings := new ElfStringSection(bin);
    AddStrings(strings, names, base);
  }

  /** The tables and segments, one after the other. */
  method WriteFile(w: width, sectionNames: seq<string>, entry: u128, sections: seq<SectionValue>, order: seq<nat>,
                   symbols: map<string, S.Symbol>, names: seq<string>) returns (image: Image)
    requires Writable(sections, symbols, names)
    requires forall i, j :: 0 <= i < j < |sectionNames| ==> sectionNames[i] != sectionNames[j]
    requires ListsAll(order, |sections|)
    ensures forall i :: 0 <= i < |names| ==> names[i] in symbols && symbols[names[i]].at.section < |sections|
    ensures image == Written(w, sectionNames, entry, sections, order, symbols, names)
  {
    forall i | 0 <= i < |names|
      ensures names[i] in symbols && symbols[names[i]].at.section < |sections|
    {
      assert names[i] in names;
    }
    var bin := new Binary(HeaderSize(w, |sections|));
    var shnames := WriteStrings(bin, sectionNames);
    var strings := WriteStrings(bin, names);
    ghost var b2 := bin.bytes;
    var syms := new ElfSymSection(w, bin);
    AddSymbols(syms, strings, sections, symbols, names, b2);
    ghost var tables := bin.bytes;
    var segments := AddSegments(w, bin, sections, order);
    image := Image(
      entry % Pow256(w), bin.bytes,
      Table(shnames.shOffset, shnames.shSize, 0), Table(strings.shOffset, strings.shSize, 0),
      Table(syms.shOffset, syms.shSize, |names| + 1), segments);
    ImageWritten(w, sectionNames, entry, sections, order, symbols, names, tables, |b2|, image);
  }

  lemma ImageWritten(w: width, sectionNames: seq<string>, entry: u128, sections: seq<SectionValue>, order: seq<nat>,
                     symbols: map<string, S.Symbol>, names: seq<string>, tables: seq<byte>, symsAt: nat, image: Image)
    requires forall i :: 0 <= i < |names| ==> names[i] in symbols && symbols[names[i]].at.section < |sections|
    requires forall i :: 0 <= i < |order| ==> order[i] < |sections|
    requires tables == Repeat(HeaderSize(w, |sections|)) + StringTable(sectionNames) + StringTable(names)
                       + SymbolTable(w, sections, symbols, names, |names|)
    requires image.entry == entry % Pow256(w) && image.bytes == tables + SectionData(sections, order, |order|)
    requires image.shstrtab == Table(HeaderSize(w, |sections|), |StringTable(sectionNames)|, 0)
    requires image.strtab == Table(HeaderSize(w, |sections|) + |StringTable(sectionNames)|, |StringTable(names)|, 0)
    requires symsAt == HeaderSize(w, |sections|) + |StringTable(sectionNames)| + |StringTable(names)|
    requires image.symtab == Table(symsAt, |SymbolTable(w, sections, symbols, names, |names|)|, |names| + 1)
    requires image.segments == Segments(w, sections, order, |tables|, |order|)
    ensures image == Written(w, sectionNames, entry, sections, order, symbols, names)
  {
  }

  /** `Elf_Writer`; nothing if the entry symbol does not exist. */
  method ElfWriter(w: width, entry: string, sections: seq<SectionValue>, order: seq<nat>,
                   symbols: map<string, S.Symbol>, names: seq<string>) returns (image: Option<Image>)
    requires Writable(sections, symbols, names)
    requires ListsAll(order, |sections|)
    ensures image.Some? <==> entry in symbols
    ensures forall i :: 0 <= i < |names| ==> names[i] in symbols && symbols[names[i]].at.section < |sections|
    ensures entry in symbols ==>
      image.value == Written(w, SECTION_NAMES, AddressOf(sections, symbols[entry].at), sections, order, symbols, names)
  {
    forall i | 0 <= i < |names|
      ensures names[i] in symbols && symbols[names[i]].at.section < |sections|
    {
      assert names[i] in names;
    }
    if entry !in symbols {
      return None;
    }
    var file := WriteFile(w, SECTION_NAMES, AddressOf(sections, symbols[entry].at), sections, order, symbols, names);
    image := Some(file);
  }
}
