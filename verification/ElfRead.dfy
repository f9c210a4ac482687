/** Reading an ELF file back: the string and symbol tables of chapter 4 of the System V gABI, and its segments. */
module ElfRead {
  import opened Words
  import opened Results
  import opened Tokens
  import opened State
  import opened Elf
  import S = State

  // ---- The reader -----------------------------------------------------------------------------------------

  /** The bytes from `i` up to the next NUL before `end`. */
  function UpToNul(bytes: seq<byte>, i: nat, end: nat): Option<seq<byte>>
    requires end <= |bytes|
    decreases end - i
  {
    if i >= end then None
    else if bytes[i] == 0 then Some([])
    else
      var rest :- UpToNul(bytes, i + 1, end);
      Some([bytes[i]] + rest)
  }

  function StringAt(bytes: seq<byte>, t: Table, at: nat): Option<seq<byte>> {
    if t.offset + t.size <= |bytes| then UpToNul(bytes, t.offset + at, t.offset + t.size) else None
  }

  function ReadSym(w: width, e: seq<byte>): Sym
    requires |e| == 3 * w
  {
    Sym(FromLittleEndian(e[..4]), e[4], e[5], FromLittleEndian(e[6..8]), FromLittleEndian(e[w..2 * w]),
        FromLittleEndian(e[2 * w..3 * w]))
  }

  /** `n` entries of 24 or 48 bytes. */
  function EntriesSize(w: width, n: nat): nat {
    if w == 8 then 24 * n else 48 * n
  }

  function SymAt(bytes: seq<byte>, w: width, t: Table, i: nat): Option<Sym> {
    var at := t.offset + EntriesSize(w, i);
    if at + 3 * w <= t.offset + t.size <= |bytes| then Some(ReadSym(w, bytes[at..at + 3 * w])) else None
  }

  // ---- One symbol -------------------------------------------------------------------------------------------

  /** An entry keeps 32 bits of a name, 16 of a section, and as many of an address as the class of the file has. */
  function Kept(w: width, sym: Sym): Sym {
    sym.(name := sym.name % Pow256(4), shndx := sym.shndx % Pow256(2), value := sym.value % Pow256(w),
         size := sym.size % Pow256(w))
  }

  lemma SymRoundTrip(w: width, sym: Sym)
    ensures ReadSym(w, SymBytes(w, sym)) == Kept(w, sym)
  {
    var e := SymBytes(w, sym);
    SymParts(w, LittleEndian(sym.name, 4), sym.info, sym.other, LittleEndian(sym.shndx, 2), Repeat(w - 8),
             LittleEndian(sym.value, w), LittleEndian(sym.size, w));
    LittleEndianRoundTrip(sym.name, 4);
    LittleEndianRoundTrip(sym.shndx, 2);
    LittleEndianRoundTrip(sym.value, w);
    LittleEndianRoundTrip(sym.size, w);
  }

  lemma SymParts(w: width, a: seq<byte>, info: byte, other: byte, b: seq<byte>, padding: seq<byte>, c: seq<byte>,
                 d: seq<byte>)
    requires |a| == 4 && |b| == 2 && |padding| == w - 8 && |c| == w && |d| == w
    ensures var e := a + [info, other] + b + padding + c + d;
      && |e| == 3 * w && e[..4] == a && e[4] == info && e[5] == other && e[6..8] == b
      && e[w..2 * w] == c && e[2 * w..3 * w] == d
  {
  }

  // ---- Places in the tables -----------------------------------------------------------------------------------

  lemma {:induction false} SymbolTableLength(w: width, sections: seq<SectionValue>, symbols: map<string, S.Symbol>,
                                             names: seq<string>, k: nat)
    requires k <= |names|
    requires forall i :: 0 <= i < |names| ==> names[i] in symbols && symbols[names[i]].at.section < |sections|
    ensures |SymbolTable(w, sections, symbols, names, k)| == EntriesSize(w, k + 1)
    decreases k
  {
    if k == 0 {
      assert |SymBytes(w, NO_SYMBOL)| == 3 * w;
    } else {
      SymbolTableLength(w, sections, symbols, names, k - 1);
      assert |SymBytes(w, EntryOf(sections, symbols, names, k - 1))| == 3 * w;
    }
  }

  /** Behind the empty entry and the first `i` symbols lies the entry of symbol `i`. */
  lemma {:induction false} SymbolTableAt(w: width, sections: seq<SectionValue>, symbols: map<string, S.Symbol>,
                                         names: seq<string>, k: nat, i: nat, at: nat, e: seq<byte>)
    requires i < k <= |names|
    requires forall j :: 0 <= j < |names| ==> names[j] in symbols && symbols[names[j]].at.section < |sections|
    requires at == |SymbolTable(w, sections, symbols, names, i)|
    requires e == SymBytes(w, EntryOf(sections, symbols, names, i))
    ensures LiesAt(SymbolTable(w, sections, symbols, names, k), at, e)
    decreases k
  {
    var front := SymbolTable(w, sections, symbols, names, k - 1);
    var last := SymBytes(w, EntryOf(sections, symbols, names, k - 1));
    if i == k - 1 {
      LiesLast(front, e);
    } else {
      SymbolTableAt(w, sections, symbols, names, k - 1, i, at, e);
      LiesFront(front, last, at, e);
    }
  }

  lemma LiesLast(front: seq<byte>, e: seq<byte>)
    ensures LiesAt(front + e, |front|, e)
  {
  }

  lemma LiesFront(front: seq<byte>, last: seq<byte>, at: nat, e: seq<byte>)
    requires LiesAt(front, at, e)
    ensures LiesAt(front + last, at, e)
  {
    assert (front + last)[at..at + |e|] == front[at..at + |e|];
  }

  /** Where a string lies in its table. */
  lemma {:induction false} StringTableAt(names: seq<string>, k: nat)
    requires k < |names|
    ensures LiesAt(StringTable(names), OffsetIn(names, k), StringEntry(names[k]))
    decreases |names|
  {
    var front, last := names[..|names| - 1], names[|names| - 1];
    var t, at, e := StringTable(front), OffsetIn(names, k), StringEntry(names[k]);
    if k == |names| - 1 {
      assert (t + e)[at..at + |e|] == e;
    } else {
      assert front[..k] == names[..k];
      StringTableAt(front, k);
      assert (t + StringEntry(last))[at..at + |e|] == t[at..at + |e|];
    }
  }

  /** Reading at a string's place gives the string up to its first NUL. */
  lemma {:induction false} ReadsUpToNul(bytes: seq<byte>, i: nat, end: nat, s: seq<byte>)
    requires i + |s| < end <= |bytes| && bytes[i..i + |s|] == s && bytes[i + |s|] == 0
    ensures UpToNul(bytes, i, end).Some?
    ensures UpToNul(bytes, i, end).value == s <==> 0 !in s
    decreases |s|
  {
    if s != [] {
      assert bytes[i] == s[0];
      if s[0] != 0 {
        assert bytes[i + 1..i + 1 + |s[1..]|] == s[1..];
        ReadsUpToNul(bytes, i + 1, end, s[1..]);
        assert s == [s[0]] + s[1..];
      }
    }
  }

  lemma InTable(bytes: seq<byte>, before: seq<byte>, t: seq<byte>, after: seq<byte>, at: nat, e: seq<byte>)
    requires bytes == before + t + after && at + |e| <= |t| && t[at..at + |e|] == e
    ensures |before| + at + |e| <= |bytes| && bytes[|before| + at..|before| + at + |e|] == e
  {
    assert bytes[|before| + at..|before| + at + |e|] == t[at..at + |e|];
  }

  // ---- Symbols ----------------------------------------------------------------------------------------------------

  /** What an entry says about the symbol `n`. */
  ghost predicate Matches(w: width, image: Image, sections: seq<SectionValue>, symbol: S.Symbol, n: string,
                          sym: Option<Sym>)
    requires symbol.at.section < |sections|
  {
    && sym.Some?
    && (image.strtab.size <= 0x1_0000_0000 ==>
          (StringAt(image.bytes, image.strtab, sym.value.name) == Some(StringBytes(n)) <==> 0 !in StringBytes(n)))
    && sym.value.value == AddressOf(sections, symbol.at) % Pow256(w)
    && sym.value.size == symbol.size % Pow256(w)
    && sym.value.info == symbol.symbolType % 0x100
    && sym.value.other == 0 && sym.value.shndx == 0
  }

  /**
   Entry `i` of the file describes the symbol `n`. The quantifier keeps proofs that pass this on from reading
   the file.
  */
  ghost predicate Describes(w: width, image: Image, sections: seq<SectionValue>, symbols: map<string, S.Symbol>,
                            i: nat, n: string)
    requires n in symbols && symbols[n].at.section < |sections|
  {
    forall sym :: sym == SymAt(image.bytes, w, image.symtab, i) ==> Matches(w, image, sections, symbols[n], n, sym)
  }

  /** What the pieces of the file are. */
  lemma Pieces(w: width, entry: u128, sections: seq<SectionValue>, order: seq<nat>, symbols: map<string, S.Symbol>,
               names: seq<string>, image: Image, before: seq<byte>, data: seq<byte>)
    requires forall i :: 0 <= i < |names| ==> names[i] in symbols && symbols[names[i]].at.section < |sections|
    requires forall i :: 0 <= i < |order| ==> order[i] < |sections|
    requires image == Written(w, SECTION_NAMES, entry, sections, order, symbols, names)
    requires before == Repeat(HeaderSize(w, |sections|)) + StringTable(SECTION_NAMES)
    requires data == SectionData(sections, order, |order|)
    ensures Framed(image, before, StringTable(names), SymbolTable(w, sections, symbols, names, |names|), data)
  {
    TablesEnd(w, SECTION_NAMES, entry, sections, order, symbols, names, image);
    AppendedAfter(before + StringTable(names), SymbolTable(w, sections, symbols, names, |names|), data);
  }

  lemma SymbolRead(w: width, image: Image, before: seq<byte>, t: seq<byte>, data: seq<byte>, i: nat, at: nat, sym: Sym)
    requires image.bytes == before + t + data && image.symtab.offset == |before| && image.symtab.size == |t|
    requires at == EntriesSize(w, i) && LiesAt(t, at, SymBytes(w, sym))
    ensures SymAt(image.bytes, w, image.symtab, i) == Some(Kept(w, sym))
  {
    InTable(image.bytes, before, t, data, at, SymBytes(w, sym));
    SymRoundTrip(w, sym);
  }

  lemma StringRead(image: Image, before: seq<byte>, t: seq<byte>, data: seq<byte>, at: nat, s: seq<byte>)
    requires image.bytes == before + t + data && image.strtab.offset == |before| && image.strtab.size == |t|
    requires LiesAt(t, at, s + [0])
    ensures StringAt(image.bytes, image.strtab, at) == Some(s) <==> 0 !in s
  {
    var i := |before| + at;
    InTable(image.bytes, before, t, data, at, s + [0]);
    var found := image.bytes[i..i + |s| + 1];
    assert found == s + [0];
    assert image.bytes[i..i + |s|] == found[..|s|] == s;
    assert image.bytes[i + |s|] == found[|s|] == 0;
    ReadsUpToNul(image.bytes, i, |before| + |t|, s);
  }

  /** The pieces of the file around its string table and around its symbol table. */
  ghost predicate Framed(image: Image, before: seq<byte>, strings: seq<byte>, t: seq<byte>, data: seq<byte>) {
    && image.bytes == before + strings + (t + data) && image.bytes == (before + strings) + t + data
    && image.strtab.offset == |before| && image.strtab.size == |strings|
    && image.symtab.offset == |before + strings| && image.symtab.size == |t|
  }

  lemma MatchesFramed(w: width, image: Image, before: seq<byte>, strings: seq<byte>, t: seq<byte>, data: seq<byte>,
                      sections: seq<SectionValue>, symbol: S.Symbol, n: string, i: nat, at: nat, offset: nat)
    requires Framed(image, before, strings, t, data) && symbol.at.section < |sections|
    requires at == EntriesSize(w, i)
    requires LiesAt(t, at, SymBytes(w, SymOf(offset, symbol, AddressOf(sections, symbol.at))))
    requires LiesAt(strings, offset, StringEntry(n))
    ensures Matches(w, image, sections, symbol, n, SymAt(image.bytes, w, image.symtab, i))
  {
    SymbolRead(w, image, before + strings, t, data, i, at, SymOf(offset, symbol, AddressOf(sections, symbol.at)));
    StringRead(image, before, strings, t + data, offset, StringBytes(n));
    if image.strtab.size <= 0x1_0000_0000 {
      NameFits(offset);
    }
    assert 0 % Pow256(2) == 0;
  }

  /** Entry `i` keeps 32 bits of the offset of its name. */
  ghost predicate Numbered(w: width, image: Image, i: nat, offset: nat) {
    forall sym :: sym == SymAt(image.bytes, w, image.symtab, i) ==> HasNumber(sym, offset)
  }

  predicate HasNumber(sym: Option<Sym>, offset: nat) {
    sym.Some? && sym.value.name == offset % 0x1_0000_0000
  }

  lemma NumberedFramed(w: width, image: Image, before: seq<byte>, strings: seq<byte>, t: seq<byte>, data: seq<byte>,
                       symbol: S.Symbol, address: u128, i: nat, at: nat, offset: nat)
    requires Framed(image, before, strings, t, data)
    requires at == EntriesSize(w, i) && LiesAt(t, at, SymBytes(w, SymOf(offset, symbol, address)))
    ensures Numbered(w, image, i, offset)
  {
    SymbolRead(w, image, before + strings, t, data, i, at, SymOf(offset, symbol, address));
    FourBytes();
  }

  /** A string of the file is the one in the table. */
  ghost predicate ReadsAs(image: Image, strings: seq<byte>) {
    forall at: nat :: ReadsAt(image, strings, at)
  }

  predicate ReadsAt(image: Image, strings: seq<byte>, at: nat) {
    StringAt(image.bytes, image.strtab, at) == UpToNul(strings, at, |strings|)
  }

  lemma ReadsFramed(image: Image, before: seq<byte>, strings: seq<byte>, t: seq<byte>, data: seq<byte>)
    requires Framed(image, before, strings, t, data)
    ensures ReadsAs(image, strings)
  {
    forall at: nat
      ensures ReadsAt(image, strings, at)
    {
      ReadsInside(image.bytes, before, strings, t + data, at);
    }
  }

  lemma FourBytes()
    ensures Pow256(4) == 0x1_0000_0000
  {
    assert Pow256(2) == 0x10000;
  }

  /** Reading in a table inside the file. */
  lemma {:induction false} ReadsInside(bytes: seq<byte>, before: seq<byte>, t: seq<byte>, after: seq<byte>, at: nat)
    requires bytes == before + t + after
    ensures UpToNul(bytes, |before| + at, |before| + |t|) == UpToNul(t, at, |t|)
    decreases |t| - at
  {
    if at < |t| {
      assert bytes[|before| + at] == t[at];
      ReadsInside(bytes, before, t, after, at + 1);
    }
  }

  /** Symbol `k` of the assembler is entry `k + 1` of the file. */
  lemma SymbolWritten(w: width, entry: u128, sections: seq<SectionValue>, order: seq<nat>,
                      symbols: map<string, S.Symbol>, names: seq<string>, k: nat, image: Image)
    requires k < |names|
    requires forall i :: 0 <= i < |names| ==> names[i] in symbols && symbols[names[i]].at.section < |sections|
    requires forall i :: 0 <= i < |order| ==> order[i] < |sections|
    requires image == Written(w, SECTION_NAMES, entry, sections, order, symbols, names)
    ensures Describes(w, image, sections, symbols, k + 1, names[k])
  {
    var before := Repeat(HeaderSize(w, |sections|)) + StringTable(SECTION_NAMES);
    var data := SectionData(sections, order, |order|);
    var t, at := SymbolTable(w, sections, symbols, names, |names|), |SymbolTable(w, sections, symbols, names, k)|;
    Pieces(w, entry, sections, order, symbols, names, image, before, data);
    SymbolTableLength(w, sections, symbols, names, k);
    SymbolTableAt(w, sections, symbols, names, |names|, k, at, SymBytes(w, EntryOf(sections, symbols, names, k)));
    StringTableAt(names, k);
    MatchesFramed(w, image, before, StringTable(names), t, data, sections, symbols[names[k]], names[k], k + 1, at,
                  OffsetIn(names, k));
  }

  /** And keeps 32 bits of where its name begins. */
  lemma NumberWritten(w: width, entry: u128, sections: seq<SectionValue>, order: seq<nat>,
                    symbols: map<string, S.Symbol>, names: seq<string>, k: nat, image: Image)
    requires k < |names|
    requires forall i :: 0 <= i < |names| ==> names[i] in symbols && symbols[names[i]].at.section < |sections|
    requires forall i :: 0 <= i < |order| ==> order[i] < |sections|
    requires image == Written(w, SECTION_NAMES, entry, sections, order, symbols, names)
    ensures Numbered(w, image, k + 1, OffsetIn(names, k))
  {
    var before := Repeat(HeaderSize(w, |sections|)) + StringTable(SECTION_NAMES);
    var data := SectionData(sections, order, |order|);
    var t, at := SymbolTable(w, sections, symbols, names, |names|), |SymbolTable(w, sections, symbols, names, k)|;
    Pieces(w, entry, sections, order, symbols, names, image, before, data);
    SymbolTableLength(w, sections, symbols, names, k);
    SymbolTableAt(w, sections, symbols, names, |names|, k, at, SymBytes(w, EntryOf(sections, symbols, names, k)));
    NumberedFramed(w, image, before, StringTable(names), t, data, symbols[names[k]],
                AddressOf(sections, symbols[names[k]].at), k + 1, at, OffsetIn(names, k));
  }

  lemma FileFramed(w: width, entry: u128, sections: seq<SectionValue>, order: seq<nat>, symbols: map<string, S.Symbol>,
                   names: seq<string>, image: Image) returns (before: seq<byte>, t: seq<byte>, data: seq<byte>)
    requires forall i :: 0 <= i < |names| ==> names[i] in symbols && symbols[names[i]].at.section < |sections|
    requires forall i :: 0 <= i < |order| ==> order[i] < |sections|
    requires image == Written(w, SECTION_NAMES, entry, sections, order, symbols, names)
    ensures Framed(image, before, StringTable(names), t, data)
  {
    before := Repeat(HeaderSize(w, |sections|)) + StringTable(SECTION_NAMES);
    data := SectionData(sections, order, |order|);
    t := SymbolTable(w, sections, symbols, names, |names|);
    Pieces(w, entry, sections, order, symbols, names, image, before, data);
  }

  lemma TableReads(w: width, entry: u128, sections: seq<SectionValue>, order: seq<nat>, symbols: map<string, S.Symbol>,
                   names: seq<string>, image: Image)
    requires forall i :: 0 <= i < |names| ==> names[i] in symbols && symbols[names[i]].at.section < |sections|
    requires forall i :: 0 <= i < |order| ==> order[i] < |sections|
    requires image == Written(w, SECTION_NAMES, entry, sections, order, symbols, names)
    ensures ReadsAs(image, StringTable(names))
  {
    var before, t, data := FileFramed(w, entry, sections, order, symbols, names, image);
    ReadsFramed(image, before, StringTable(names), t, data);
  }

  lemma NameFits(name: nat)
    requires name < 0x1_0000_0000
    ensures name % Pow256(4) == name
  {
    FourBytes();
  }

  lemma {:induction false} NoSymbolFirst(w: width, sections: seq<SectionValue>, symbols: map<string, S.Symbol>,
                                         names: seq<string>, k: nat)
    requires k <= |names|
    requires forall i :: 0 <= i < |names| ==> names[i] in symbols && symbols[names[i]].at.section < |sections|
    ensures LiesAt(SymbolTable(w, sections, symbols, names, k), 0, SymBytes(w, NO_SYMBOL))
    decreases k
  {
    if k > 0 {
      NoSymbolFirst(w, sections, symbols, names, k - 1);
      LiesFront(SymbolTable(w, sections, symbols, names, k - 1), SymBytes(w, EntryOf(sections, symbols, names, k - 1)),
                0, SymBytes(w, NO_SYMBOL));
    }
  }

  lemma {:induction false} NulFirst(names: seq<string>)
    ensures |StringTable(names)| > 0 && StringTable(names)[0] == 0
    decreases |names|
  {
    if names != [] {
      NulFirst(names[..|names| - 1]);
    }
  }

  lemma ReadsFirst(w: width, image: Image, before: seq<byte>, strings: seq<byte>, t: seq<byte>, data: seq<byte>,
                   zero: nat)
    requires Framed(image, before, strings, t, data) && LiesAt(t, 0, SymBytes(w, NO_SYMBOL)) && zero == 0
    requires |strings| > 0 && strings[0] == 0
    ensures SymAt(image.bytes, w, image.symtab, zero) == Some(Kept(w, NO_SYMBOL))
    ensures StringAt(image.bytes, image.strtab, zero) == Some([])
  {
    SymbolRead(w, image, before + strings, t, data, zero, 0, NO_SYMBOL);
    assert image.bytes[|before|] == strings[0];
  }

  /** The first entry is the empty symbol, and the string table starts with the empty string. */
  lemma TablesStart(w: width, entry: u128, sections: seq<SectionValue>, order: seq<nat>,
                    symbols: map<string, S.Symbol>, names: seq<string>, image: Image, zero: nat)
    requires forall i :: 0 <= i < |names| ==> names[i] in symbols && symbols[names[i]].at.section < |sections|
    requires forall i :: 0 <= i < |order| ==> order[i] < |sections|
    requires image == Written(w, SECTION_NAMES, entry, sections, order, symbols, names) && zero == 0
    ensures SymAt(image.bytes, w, image.symtab, zero) == Some(Sym(0, 0, 0, 0, 0, 0))
    ensures StringAt(image.bytes, image.strtab, zero) == Some([])
  {
    var before := Repeat(HeaderSize(w, |sections|)) + StringTable(SECTION_NAMES);
    var data := SectionData(sections, order, |order|);
    Pieces(w, entry, sections, order, symbols, names, image, before, data);
    NoSymbolFirst(w, sections, symbols, names, |names|);
    NulFirst(names);
    ReadsFirst(w, image, before, StringTable(names), SymbolTable(w, sections, symbols, names, |names|), data, zero);
    NothingKept(w);
  }

  lemma NothingKept(w: width)
    ensures Kept(w, NO_SYMBOL) == NO_SYMBOL
  {
    ModUnique(0, Pow256(4), 0, 0);
    ModUnique(0, Pow256(2), 0, 0);
    ModUnique(0, Pow256(w), 0, 0);
  }

  /** Entry `i` of the file describes a symbol. */
  ghost predicate DescribesSome(w: width, image: Image, sections: seq<SectionValue>, symbols: map<string, S.Symbol>,
                                i: nat)
    requires forall n :: n in symbols ==> symbols[n].at.section < |sections|
  {
    exists n :: n in symbols && Describes(w, image, sections, symbols, i, n)
  }

  /** Describing goes both ways. */
  lemma EverySymbol(w: width, image: Image, sections: seq<SectionValue>, symbols: map<string, S.Symbol>,
                    names: seq<string>, count: nat)
    requires Writable(sections, symbols, names) && count == |names| + 1
    requires forall k :: 0 <= k < |names| ==>
               names[k] in symbols && Describes(w, image, sections, symbols, k + 1, names[k])
    ensures forall n :: n in symbols ==> exists i :: 1 <= i < count && Describes(w, image, sections, symbols, i, n)
    ensures forall i :: 1 <= i < count ==> DescribesSome(w, image, sections, symbols, i)
  {
    forall n | n in symbols
      ensures exists i :: 1 <= i < count && Describes(w, image, sections, symbols, i, n)
    {
      assert n in names;
      var k :| 0 <= k < |names| && names[k] == n;
      assert Describes(w, image, sections, symbols, k + 1, n);
    }
    forall i | 1 <= i < count
      ensures DescribesSome(w, image, sections, symbols, i)
    {
      assert names[i - 1] in symbols && Describes(w, image, sections, symbols, (i - 1) + 1, names[i - 1]);
    }
  }

  /**
   Write, then read: the entries of the file after the first, as many as `sh_info` says, are the symbols of
   the assembler. Each keeps its address and size to the width of the file and its type. Its name reads back, in
   a string table of up to 4 GiB, exactly when it contains no NUL. In a larger one, it reads as what the table holds
   at 32 bits of its offset.
  */
  lemma SymbolsReadBack(w: width, entry: u128, sections: seq<SectionValue>, order: seq<nat>,
                        symbols: map<string, S.Symbol>, names: seq<string>, image: Image)
    requires Writable(sections, symbols, names)
    requires forall i :: 0 <= i < |order| ==> order[i] < |sections|
    requires forall i :: 0 <= i < |names| ==> names[i] in symbols && symbols[names[i]].at.section < |sections|
    requires image == Written(w, SECTION_NAMES, entry, sections, order, symbols, names)
    ensures image.symtab.info == |symbols| + 1 && image.symtab.size == EntriesSize(w, image.symtab.info)
    ensures forall n :: n in symbols ==>
              exists i :: 1 <= i < image.symtab.info && Describes(w, image, sections, symbols, i, n)
    ensures forall i :: 1 <= i < image.symtab.info ==> DescribesSome(w, image, sections, symbols, i)
    ensures ReadsAs(image, StringTable(names))
    ensures forall k :: 0 <= k < |names| ==> Numbered(w, image, k + 1, OffsetIn(names, k))
  {
    CountNames(names, symbols.Keys);
    TableReads(w, entry, sections, order, symbols, names, image);
    SymbolTableLength(w, sections, symbols, names, |names|);
    forall k | 0 <= k < |names|
      ensures Describes(w, image, sections, symbols, k + 1, names[k])
      ensures Numbered(w, image, k + 1, OffsetIn(names, k))
    {
      SymbolWritten(w, entry, sections, order, symbols, names, k, image);
      NumberWritten(w, entry, sections, order, symbols, names, k, image);
    }
    EverySymbol(w, image, sections, symbols, names, image.symtab.info);
  }

  lemma {:induction false} CountNames(names: seq<string>, keys: set<string>)
    requires Enumerates(names, keys)
    ensures |names| == |keys|
    decreases |names|
  {
    if names == [] {
      assert keys == {};
    } else {
      var n, rest := names[0], names[1..];
      assert names == [n] + rest;
      assert n in keys;
      forall m: string
        ensures m in rest <==> m in keys - {n}
      {
        if m in rest {
          var i :| 0 <= i < |rest| && rest[i] == m;
          assert names[i + 1] == m && names[0] == n;
        }
      }
      forall i, j | 0 <= i < j < |rest|
        ensures rest[i] != rest[j]
      {
        assert rest[i] == names[i + 1] && rest[j] == names[j + 1];
      }
      CountNames(rest, keys - {n});
    }
  }

  // ---- Segments -----------------------------------------------------------------------------------------------------

  lemma {:induction false} SegmentsLie(w: width, sections: seq<SectionValue>, order: seq<nat>, start: nat, k: nat,
                                       i: nat)
    requires i < k <= |order| && forall j :: 0 <= j < |order| ==> order[j] < |sections|
    ensures var data := SectionData(sections, order, k); var before := |SectionData(sections, order, i)|;
      && Segments(w, sections, order, start, k)[i] == SegmentOf(w, sections[order[i]], start + before)
      && LiesAt(data, before, sections[order[i]].output)
    decreases k
  {
    var front := SectionData(sections, order, k - 1);
    if i == k - 1 {
      LiesLast(front, sections[order[i]].output);
    } else {
      SegmentsLie(w, sections, order, start, k - 1, i);
      LiesFront(front, sections[order[k - 1]].output, |SectionData(sections, order, i)|, sections[order[i]].output);
    }
  }

  /**
   Access: code can be executed. What was emitted as data, or reserved, can be read, unless it is in code that may
   only be executed; and written, unless the section is read-only. Code alone can not be read.
  */
  ghost predicate Permits(g: Segment, s: SectionValue) {
    && (g.executable <==> s.code)
    && (g.readable <==> (s.data || s.resv) && (s.execonly ==> !s.code))
    && (g.writable <==> g.readable && !s.readonly)
    && (g.load <==> s.code || s.data)
  }

  /** A segment's part of the file is its section's output; only a loadable segment counts it as its own. */
  ghost predicate Holds(w: width, bytes: seq<byte>, g: Segment, s: SectionValue) {
    && Permits(g, s)
    && LiesAt(bytes, g.offset, s.output) && g.memorySize == |s.output|
    && g.fileSize == (if s.code || s.data then |s.output| else 0) && g.address == s.base % Pow256(w)
  }

  /** The segments lie one after the other from `start` to `end`. */
  ghost predicate Chained(segments: seq<Segment>, start: nat, end: nat) {
    && (segments != [] ==> segments[0].offset == start)
    && (forall i, j :: 0 <= i < j < |segments| && j == i + 1 ==>
          segments[j].offset == segments[i].offset + segments[i].memorySize)
    && end == if segments == [] then start else segments[|segments| - 1].offset + segments[|segments| - 1].memorySize
  }

  /** The parts of a file lie one after the other and fill it. */
  ghost predicate Tiles(w: width, image: Image, sections: seq<SectionValue>, order: seq<nat>)
    requires forall i :: 0 <= i < |order| ==> order[i] < |sections|
  {
    && image.shstrtab.offset == (if w == 8 then 320 + 56 * |sections| else 608 + 112 * |sections|)
    && image.strtab.offset == image.shstrtab.offset + image.shstrtab.size
    && image.symtab.offset == image.strtab.offset + image.strtab.size
    && |image.segments| == |order| == |sections|
    && Chained(image.segments, image.symtab.offset + image.symtab.size, |image.bytes|)
    && AllHeld(w, image, sections, order) && AllStored(w, image, sections)
  }

  /** Segment `i` holds the `i`-th section. */
  ghost predicate AllHeld(w: width, image: Image, sections: seq<SectionValue>, order: seq<nat>)
    requires forall i :: 0 <= i < |order| ==> order[i] < |sections|
  {
    |image.segments| == |order| &&
    forall i :: 0 <= i < |order| ==> Holds(w, image.bytes, image.segments[i], sections[order[i]])
  }

  ghost predicate AllStored(w: width, image: Image, sections: seq<SectionValue>) {
    forall s: nat :: s < |sections| ==> Stored(w, image, sections[s])
  }

  /** Some segment holds the section. */
  ghost predicate Stored(w: width, image: Image, s: SectionValue) {
    exists i :: 0 <= i < |image.segments| && Holds(w, image.bytes, image.segments[i], s)
  }

  lemma LiesBehindTables(tables: seq<byte>, data: seq<byte>, at: nat, e: seq<byte>)
    requires LiesAt(data, at, e)
    ensures LiesAt(tables + data, |tables| + at, e)
  {
    assert (tables + data)[|tables| + at..|tables| + at + |e|] == data[at..at + |e|];
  }

  lemma {:induction false} SegmentsChained(w: width, sections: seq<SectionValue>, order: seq<nat>, start: nat, k: nat)
    requires k <= |order| && forall j :: 0 <= j < |order| ==> order[j] < |sections|
    ensures Chained(Segments(w, sections, order, start, k), start, start + |SectionData(sections, order, k)|)
    decreases k
  {
    if k > 0 {
      SegmentsChained(w, sections, order, start, k - 1);
    }
  }

  lemma SegmentHolds(w: width, sections: seq<SectionValue>, order: seq<nat>, tables: seq<byte>, i: nat)
    requires i < |order| && forall j :: 0 <= j < |order| ==> order[j] < |sections|
    ensures Holds(w, tables + SectionData(sections, order, |order|), Segments(w, sections, order, |tables|, |order|)[i],
                  sections[order[i]])
  {
    SegmentsLie(w, sections, order, |tables|, |order|, i);
    LiesBehindTables(tables, SectionData(sections, order, |order|), |SectionData(sections, order, i)|,
                     sections[order[i]].output);
  }

  /** Header, tables and section data tile the file. */
  lemma FileTiled(w: width, entry: u128, sections: seq<SectionValue>, order: seq<nat>, symbols: map<string, S.Symbol>,
                  names: seq<string>, image: Image)
    requires forall i :: 0 <= i < |names| ==> names[i] in symbols && symbols[names[i]].at.section < |sections|
    requires ListsAll(order, |sections|)
    requires image == Written(w, SECTION_NAMES, entry, sections, order, symbols, names)
    ensures Tiles(w, image, sections, order)
  {
    TablesEnd(w, SECTION_NAMES, entry, sections, order, symbols, names, image);
    TiledBehind(w, sections, order, Tables(w, SECTION_NAMES, sections, symbols, names), image);
  }

  lemma TiledBehind(w: width, sections: seq<SectionValue>, order: seq<nat>, tables: seq<byte>, image: Image)
    requires ListsAll(order, |sections|)
    requires image.shstrtab.offset == HeaderSize(w, |sections|)
    requires image.strtab.offset == image.shstrtab.offset + image.shstrtab.size
    requires image.symtab.offset == image.strtab.offset + image.strtab.size
    requires |tables| == image.symtab.offset + image.symtab.size
    requires image.bytes == tables + SectionData(sections, order, |order|)
    requires image.segments == Segments(w, sections, order, |tables|, |order|)
    ensures Tiles(w, image, sections, order)
  {
    SegmentsHold(w, sections, order, tables, image);
    SegmentsFill(w, sections, order, tables, image);
    EverySection(w, image, sections, order);
  }

  lemma SegmentsFill(w: width, sections: seq<SectionValue>, order: seq<nat>, tables: seq<byte>, image: Image)
    requires forall i :: 0 <= i < |order| ==> order[i] < |sections|
    requires image.bytes == tables + SectionData(sections, order, |order|)
    requires image.segments == Segments(w, sections, order, |tables|, |order|)
    ensures |image.segments| == |order| && Chained(image.segments, |tables|, |image.bytes|)
  {
    SegmentsChained(w, sections, order, |tables|, |order|);
  }

  lemma SegmentsHold(w: width, sections: seq<SectionValue>, order: seq<nat>, tables: seq<byte>, image: Image)
    requires forall i :: 0 <= i < |order| ==> order[i] < |sections|
    requires image.bytes == tables + SectionData(sections, order, |order|)
    requires image.segments == Segments(w, sections, order, |tables|, |order|)
    ensures AllHeld(w, image, sections, order)
  {
    forall i | 0 <= i < |order|
      ensures Holds(w, image.bytes, image.segments[i], sections[order[i]])
    {
      SegmentHolds(w, sections, order, tables, i);
    }
  }

  lemma EverySection(w: width, image: Image, sections: seq<SectionValue>, order: seq<nat>)
    requires ListsAll(order, |sections|)
    requires AllHeld(w, image, sections, order)
    ensures AllStored(w, image, sections)
  {
    forall s: nat | s < |sections|
      ensures Stored(w, image, sections[s])
    {
      assert s in order;
      var i :| 0 <= i < |order| && order[i] == s;
      assert Holds(w, image.bytes, image.segments[i], sections[order[i]]);
    }
  }

  lemma TablesEnd(w: width, sectionNames: seq<string>, entry: u128, sections: seq<SectionValue>, order: seq<nat>,
                  symbols: map<string, S.Symbol>, names: seq<string>, image: Image)
    requires forall i :: 0 <= i < |names| ==> names[i] in symbols && symbols[names[i]].at.section < |sections|
    requires forall i :: 0 <= i < |order| ==> order[i] < |sections|
    requires image == Written(w, sectionNames, entry, sections, order, symbols, names)
    ensures
      && |Tables(w, sectionNames, sections, symbols, names)| == image.symtab.offset + image.symtab.size
      && image.shstrtab.offset == HeaderSize(w, |sections|)
      && image.strtab.offset == image.shstrtab.offset + image.shstrtab.size
      && image.symtab.offset == image.strtab.offset + image.strtab.size
      && image.bytes == Tables(w, sectionNames, sections, symbols, names) + SectionData(sections, order, |order|)
      && image.segments == Segments(w, sections, order, |Tables(w, sectionNames, sections, symbols, names)|, |order|)
  {
  }
}
