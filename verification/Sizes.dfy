/**
 What `.size`, `.endfunc` and `.type` come to in accepted programs, in offsets of their sections
 (src/directive.cpp:10-18, 46-75, src/assemble.cpp:193-199).
*/
module Sizes {
  import opened Words
  import opened Results
  import opened Instructions
  import opened References
  import opened Items
  import opened Layout
  import opened State
  import opened TwoPass
  import opened Planning
  import opened Refinement
  import opened Equivalence
  import opened LabelBinding
  import opened EndToEnd
  import opened Remarks

  // ---- Values -----------------------------------------------------------------------------------------------

  /**
   The number that `.size` writes at `start`: the distance from a label at `a` up to `b`, where the section ended
   before; and for a label that is not before that, the distance from behind the number.
  */
  function SizeNumber(a: nat, b: nat, start: nat): nat {
    (if a < b then b - a else a - start - 4) % 0x1_0000_0000
  }

  lemma SizeByOffsets(base: nat, a: nat, b: nat, start: nat)
    requires base + a < P128 && base + b < P128 && base + start < P128
    ensures SizeValue(base + start, base + a, base + b) == SizeNumber(a, b, start)
  {
    if a >= b {
      assert (base + a) - 4 - (base + start) == a - start - 4;
    }
  }

  lemma WordValue(w: u32)
    ensures FromLittleEndian(Bytes4(w)) == w
  {
    var b := Bytes4(w);
    var b1, b2, b3: int := b[1], b[2], b[3];
    assert FromLittleEndian(b[3..]) == b3 by { assert b[3..][1..] == []; }
    assert b[2..][1..] == b[3..] && b[1..][1..] == b[2..];
    assert FromLittleEndian(b[2..]) == b2 + 0x100 * b3;
    assert FromLittleEndian(b[1..]) == b1 + 0x100 * (b2 + 0x100 * b3);
  }

  // ---- Places -----------------------------------------------------------------------------------------------

  /** Item `i` of an accepted program stands in section `s`, behind `b` bytes; the section's addresses do not wrap. */
  ghost predicate Stands(o: Options, items: seq<Item>, names: seq<string>, r: State, i: nat, s: nat, b: nat) {
    && Accepted(o, items, names, r) && i < |items|
    && var q := PlanAt(items, InitialPlan(o), i);
       && s == q.current && b == q.sections[s].size
       && s < |r.sections| && r.sections[s].base + |r.sections[s].output| < P128
  }

  /** Addresses in such a section are its base address and the offset. */
  lemma AddressIn(o: Options, items: seq<Item>, names: seq<string>, r: State, s: nat, x: nat)
    requires Accepted(o, items, names, r) && s < |r.sections| && x <= |r.sections[s].output|
    requires r.sections[s].base + |r.sections[s].output| < P128
    ensures FinalAddress(TwoPassAssemble(o, items).value.final, Location(s, x)) == r.sections[s].base + x
  {
    SameSections(o, items, names, r);
    FinalAddresses(o, items, names, r, Location(s, x));
    PlainAddress(r.sections, s, x);
  }

  lemma SameSections(o: Options, items: seq<Item>, names: seq<string>, r: State)
    requires Accepted(o, items, names, r)
    ensures |r.sections| == |TwoPassAssemble(o, items).value.plan.sections|
  {
    OnePassIsTwoPass(o, items, names);
  }

  lemma PlainAddress(sections: seq<SectionValue>, s: nat, x: nat)
    requires s < |sections| && sections[s].base + x < P128
    ensures AddressOf(sections, Location(s, x)) == sections[s].base + x
  {
    ModUnique(sections[s].base + x, P128, 0, sections[s].base + x);
  }

  /** The places of an item and of a label lie in their sections. */
  lemma PlacesIn(o: Options, items: seq<Item>, names: seq<string>, r: State, i: nat, s: nat, b: nat)
    requires Stands(o, items, names, r, i, s, b)
    ensures b <= |r.sections[s].output|
    ensures items[i].Refer? ==> b <= Start(b, items[i]) && Stop(b, items[i]) <= |r.sections[s].output|
  {
    var p, end := InitialPlan(o), PlanAll(InitialPlan(o), items).value;
    PlanAtGrows(items, p, i);
    OnePassIsTwoPass(o, items, names);
    InitialPlanned(o);
    RunPlanned(Initial(o), items);
    assert PlannedOf(r.sections[s]).size == SizeAt(end, s);
    var q := PlanAt(items, p, i);
    PlanStepGrows(q, items[i]);
    assert SizeAt(PlanStep(q, items[i]).value, s) <= SizeAt(end, s);
    assert SizeAt(q, s) == b;
  }

  lemma LabelIn(o: Options, items: seq<Item>, names: seq<string>, r: State, n: string)
    requires Accepted(o, items, names, r) && n in r.symbols
    ensures var at := r.symbols[n].at; at.section < |r.sections| && at.offset <= |r.sections[at.section].output|
    ensures n in TwoPassAssemble(o, items).value.final.symbols
    ensures TwoPassAssemble(o, items).value.final.symbols[n] == r.symbols[n].at
  {
    OnePassIsTwoPass(o, items, names);
    LabelsDomain(o, items, n);
    FirstInRange(items, InitialPlan(o), n, {});
    var at := r.symbols[n].at;
    assert PlannedOf(r.sections[at.section]).size == TwoPassAssemble(o, items).value.plan.sections[at.section].size;
  }

  // ---- The number in the section ----------------------------------------------------------------------------

  lemma SizeContent(q: Plan, item: Item, fin: Final, start: nat, v: u32, base: nat, a: nat, b: nat)
    requires Placed(q) && item.Refer? && item.ref.SizeOf? && b == q.sections[q.current].size && start == Start(b, item)
    requires base + a < P128 && base + b < P128 && base + start < P128 && v == SizeNumber(a, b, start)
    requires FinalAddress(fin, Location(q.current, start)) == base + start && Target(fin, item.symbol) == base + a
    requires FinalAddress(fin, Location(q.current, b)) == base + b
    ensures IsContent(q, item, fin, start, Bytes4(v))
  {
    SizeByOffsets(base, a, b, start);
  }

  /** The addresses that a `.size` looks at, for a label in its own section. */
  lemma SizeAddresses(o: Options, items: seq<Item>, names: seq<string>, r: State, i: nat, s: nat, b: nat, n: string,
                      a: nat, start: nat, fin: Final, base: nat)
    requires Stands(o, items, names, r, i, s, b) && items[i].Refer? && start == Start(b, items[i])
    requires n in r.symbols && r.symbols[n].at == Location(s, a)
    requires fin == TwoPassAssemble(o, items).value.final && base == r.sections[s].base
    ensures Stop(b, items[i]) <= |r.sections[s].output|
    ensures base + a < P128 && base + b < P128 && base + start < P128
    ensures FinalAddress(fin, Location(s, start)) == base + start && FinalAddress(fin, Location(s, b)) == base + b
    ensures n in fin.symbols && fin.symbols[n] == Location(s, a) && Target(fin, n) == base + a
  {
    PlacesIn(o, items, names, r, i, s, b);
    LabelIn(o, items, names, r, n);
    AddressIn(o, items, names, r, s, a);
    AddressIn(o, items, names, r, s, b);
    AddressIn(o, items, names, r, s, start);
  }

  /**
   `.size` in an accepted program, for a label in its own section: the four bytes at its place are the number of
   bytes from the label to where the section ended before it, or, for a label that is not before that, from behind
   the number to the label; both modulo 2^32.
  */
  lemma SizeWritten(o: Options, items: seq<Item>, names: seq<string>, r: State, i: nat, s: nat, b: nat, n: string,
                    a: nat, start: nat)
    requires Stands(o, items, names, r, i, s, b) && items[i] == Refer(n, SizeOf) && start == Start(b, items[i])
    requires n in r.symbols && r.symbols[n].at == Location(s, a)
    ensures start + 4 <= |r.sections[s].output|
    ensures FromLittleEndian(r.sections[s].output[start..start + 4]) == SizeNumber(a, b, start)
  {
    var q, fin, base := PlanAt(items, InitialPlan(o), i), TwoPassAssemble(o, items).value.final, r.sections[s].base;
    SizeAddresses(o, items, names, r, i, s, b, n, a, start, fin, base);
    var v: u32 := SizeNumber(a, b, start);
    SizeContent(q, items[i], fin, start, v, base, a, b);
    FinishedContent(o, items, names, r, i, q, fin, start, Bytes4(v));
    WordValue(v);
  }

  // ---- Symbols ----------------------------------------------------------------------------------------------

  /** The item gives the symbol a size, or a type. */
  predicate SetsSize(item: Item, n: string) {
    (item.Remark? && item.symbol == n && item.note.EndFunc?) || (item.Refer? && item.symbol == n && item.ref.SizeOf?)
  }

  predicate SetsType(item: Item, n: string) {
    item.Remark? && item.symbol == n
  }

  lemma {:induction false} RemarkedConcat(fin: Final, symbol: Symbol, a: seq<Fixup>, b: seq<Fixup>)
    ensures AllRemarked(fin, symbol, a + b) == AllRemarked(fin, AllRemarked(fin, symbol, a), b)
    decreases |a|
  {
    if a == [] {
      assert a + b == b;
    } else {
      assert (a + b)[0] == a[0] && (a + b)[1..] == a[1..] + b;
      RemarkedConcat(fin, Remarked(fin, symbol, a[0]), a[1..], b);
    }
  }

  /** The symbol after one item. */
  function AfterItem(fin: Final, symbol: Symbol, n: string, item: Item, q: Plan): Symbol
    requires Placed(q)
  {
    AllRemarked(fin, symbol, Only(Logged(item, q.current, q.sections[q.current].size), n))
  }

  lemma AfterItemEffect(fin: Final, symbol: Symbol, n: string, item: Item, q: Plan)
    requires Placed(q)
    ensures var after := AfterItem(fin, symbol, n, item, q);
      var log := Logged(item, q.current, q.sections[q.current].size);
      && after.at == symbol.at
      && (!SetsSize(item, n) ==> after.size == symbol.size)
      && (!SetsType(item, n) ==> after.symbolType == symbol.symbolType)
      && (SetsSize(item, n) || SetsType(item, n) ==> log != [] && after == Remarked(fin, symbol, log[0].fixup))
  {
    var log := Logged(item, q.current, q.sections[q.current].size);
    if log != [] {
      assert log == [log[0]];
      OnlyOne(log[0], n);
      OneRemark(fin, symbol, log[0].fixup);
      assert Only(log, n) == if log[0].symbol == n then [log[0].fixup] else [];
    } else {
      assert Only(log, n) == [];
    }
  }

  lemma PlaceKept(fin: Final, symbol: Symbol, n: string, item: Item, q: Plan)
    requires Placed(q)
    ensures AfterItem(fin, symbol, n, item, q).at == symbol.at
  {
    AfterItemEffect(fin, symbol, n, item, q);
  }

  lemma OneRemark(fin: Final, symbol: Symbol, f: Fixup)
    ensures AllRemarked(fin, symbol, [f]) == Remarked(fin, symbol, f)
  {
    assert [f][1..] == [];
  }

  lemma FirstRemarks(items: seq<Item>, p: Plan, fin: Final, n: string, symbol: Symbol)
    requires Placed(p) && items != [] && PlanStep(p, items[0]).Some?
    ensures AllRemarked(fin, symbol, Only(Log(items, p), n))
         == AllRemarked(fin, AfterItem(fin, symbol, n, items[0], p),
                        Only(Log(items[1..], PlanStep(p, items[0]).value), n))
  {
    var here := Logged(items[0], p.current, p.sections[p.current].size);
    var rest := Log(items[1..], PlanStep(p, items[0]).value);
    OnlyConcat(here, rest, n);
    RemarkedConcat(fin, symbol, Only(here, n), Only(rest, n));
  }

  /** Items that do not set an attribute leave it. */
  lemma {:induction false} Unset(items: seq<Item>, p: Plan, fin: Final, n: string, symbol: Symbol)
    requires Placed(p) && PlanAll(p, items).Some?
    ensures var after := AllRemarked(fin, symbol, Only(Log(items, p), n));
      && after.at == symbol.at
      && ((forall k :: 0 <= k < |items| ==> !SetsSize(items[k], n)) ==> after.size == symbol.size)
      && ((forall k :: 0 <= k < |items| ==> !SetsType(items[k], n)) ==> after.symbolType == symbol.symbolType)
    decreases |items|
  {
    if items != [] {
      FirstRemarks(items, p, fin, n, symbol);
      AfterItemEffect(fin, symbol, n, items[0], p);
      Unset(items[1..], PlanStep(p, items[0]).value, fin, n, AfterItem(fin, symbol, n, items[0], p));
      TailUnset(items, n);
    }
  }

  lemma TailUnset(items: seq<Item>, n: string)
    requires items != []
    ensures (forall k :: 0 <= k < |items| ==> !SetsSize(items[k], n)) ==>
              forall k :: 0 <= k < |items[1..]| ==> !SetsSize(items[1..][k], n)
    ensures (forall k :: 0 <= k < |items| ==> !SetsType(items[k], n)) ==>
              forall k :: 0 <= k < |items[1..]| ==> !SetsType(items[1..][k], n)
  {
  }

  /** The last item that sets the size, and that sets the type, of a symbol. */
  predicate LastSize(items: seq<Item>, n: string, i: nat) {
    i < |items| && SetsSize(items[i], n) && forall k :: i < k < |items| ==> !SetsSize(items[k], n)
  }

  predicate LastType(items: seq<Item>, n: string, i: nat) {
    i < |items| && SetsType(items[i], n) && forall k :: i < k < |items| ==> !SetsType(items[k], n)
  }

  /** What the last setting item makes of the symbol. */
  function SetBy(fin: Final, at: Location, items: seq<Item>, p: Plan, i: nat): Symbol
    requires Placed(p) && i < |items|
  {
    var q := PlanAt(items, p, i);
    var log := Logged(items[i], q.current, q.sections[q.current].size);
    if log == [] then Symbol(at, 0, 0) else Remarked(fin, Symbol(at, 0, 0), log[0].fixup)
  }

  lemma SetByTail(fin: Final, at: Location, items: seq<Item>, p: Plan, i: nat)
    requires Placed(p) && 0 < i < |items| && PlanStep(p, items[0]).Some?
    ensures SetBy(fin, at, items, p, i) == SetBy(fin, at, items[1..], PlanStep(p, items[0]).value, i - 1)
  {
  }

  lemma LastTail(items: seq<Item>, n: string, i: nat)
    requires 0 < i < |items|
    ensures LastSize(items, n, i) ==> LastSize(items[1..], n, i - 1)
    ensures LastType(items, n, i) ==> LastType(items[1..], n, i - 1)
  {
  }

  lemma LastFirst(items: seq<Item>, n: string)
    requires items != []
    ensures LastSize(items, n, 0) ==> forall k :: 0 <= k < |items[1..]| ==> !SetsSize(items[1..][k], n)
    ensures LastType(items, n, 0) ==> forall k :: 0 <= k < |items[1..]| ==> !SetsType(items[1..][k], n)
  {
  }

  /** A symbol has the attributes of another as far as item `i` is the last to set them. */
  ghost predicate SetAs(after: Symbol, last: Symbol, items: seq<Item>, n: string, i: nat) {
    && (LastSize(items, n, i) ==> after.size == last.size)
    && (LastType(items, n, i) ==> after.symbolType == last.symbolType)
  }

  lemma SetAsTail(after: Symbol, last: Symbol, items: seq<Item>, n: string, i: nat)
    requires 0 < i < |items| && SetAs(after, last, items[1..], n, i - 1)
    ensures SetAs(after, last, items, n, i)
  {
    LastTail(items, n, i);
  }

  lemma {:induction false} LastSets(items: seq<Item>, p: Plan, fin: Final, n: string, symbol: Symbol, at: Location,
                                    i: nat)
    requires Placed(p) && PlanAll(p, items).Some? && i < |items| && symbol.at == at
    ensures SetAs(AllRemarked(fin, symbol, Only(Log(items, p), n)), SetBy(fin, at, items, p, i), items, n, i)
    decreases i
  {
    FirstRemarks(items, p, fin, n, symbol);
    var p1, next := PlanStep(p, items[0]).value, AfterItem(fin, symbol, n, items[0], p);
    var after := AllRemarked(fin, next, Only(Log(items[1..], p1), n));
    PlaceKept(fin, symbol, n, items[0], p);
    if i == 0 {
      LastSetsFirst(items, p, fin, n, symbol, next, after);
    } else {
      LastSets(items[1..], p1, fin, n, next, at, i - 1);
      LastSetsNext(items, p, fin, n, at, i, after);
    }
  }

  lemma LastSetsNext(items: seq<Item>, p: Plan, fin: Final, n: string, at: Location, i: nat, after: Symbol)
    requires Placed(p) && 0 < i < |items| && PlanStep(p, items[0]).Some?
    requires SetAs(after, SetBy(fin, at, items[1..], PlanStep(p, items[0]).value, i - 1), items[1..], n, i - 1)
    ensures SetAs(after, SetBy(fin, at, items, p, i), items, n, i)
  {
    SetByTail(fin, at, items, p, i);
    SetAsTail(after, SetBy(fin, at, items, p, i), items, n, i);
  }

  lemma LastSetsFirst(items: seq<Item>, p: Plan, fin: Final, n: string, symbol: Symbol, next: Symbol, after: Symbol)
    requires Placed(p) && items != [] && PlanAll(p, items).Some? && next == AfterItem(fin, symbol, n, items[0], p)
    requires after == AllRemarked(fin, next, Only(Log(items[1..], PlanStep(p, items[0]).value), n))
    ensures SetAs(after, SetBy(fin, symbol.at, items, p, 0), items, n, 0)
  {
    AfterItemEffect(fin, symbol, n, items[0], p);
    LastFirst(items, n);
    Unset(items[1..], PlanStep(p, items[0]).value, fin, n, next);
  }

  /** The attributes of a symbol in an accepted program. */
  lemma SetInProgram(o: Options, items: seq<Item>, names: seq<string>, r: State, n: string, i: nat)
    requires Accepted(o, items, names, r) && n in r.symbols && i < |items|
    ensures var last := SetBy(TwoPassAssemble(o, items).value.final, r.symbols[n].at, items, InitialPlan(o), i);
      && (LastSize(items, n, i) ==> r.symbols[n].size == last.size)
      && (LastType(items, n, i) ==> r.symbols[n].symbolType == last.symbolType)
  {
    var fin := TwoPassAssemble(o, items).value.final;
    SymbolsRemarked(o, items, names, n);
    LabelIn(o, items, names, r, n);
    LastSets(items, InitialPlan(o), fin, n, Symbol(r.symbols[n].at, 0, 0), r.symbols[n].at, i);
  }

  /** The size that the last `.size` of a symbol gives it is the number it writes. */
  lemma SymbolSized(o: Options, items: seq<Item>, names: seq<string>, r: State, i: nat, s: nat, b: nat, n: string,
                    a: nat, start: nat)
    requires Stands(o, items, names, r, i, s, b) && items[i] == Refer(n, SizeOf) && start == Start(b, items[i])
    requires n in r.symbols && r.symbols[n].at == Location(s, a) && LastSize(items, n, i)
    ensures r.symbols[n].size == SizeNumber(a, b, start)
  {
    var fin, base := TwoPassAssemble(o, items).value.final, r.sections[s].base;
    SetInProgram(o, items, names, r, n, i);
    SizeAddresses(o, items, names, r, i, s, b, n, a, start, fin, base);
    SizeSetBy(fin, base, items, InitialPlan(o), i, s, a, b, start);
  }

  lemma SizeSetBy(fin: Final, base: nat, items: seq<Item>, p: Plan, i: nat, s: nat, a: nat, b: nat, start: nat)
    requires Placed(p) && i < |items| && items[i].Refer? && items[i].ref.SizeOf? && start == Start(b, items[i])
    requires PlanAt(items, p, i).current == s && PlanAt(items, p, i).sections[s].size == b
    requires base + a < P128 && base + b < P128 && base + start < P128
    requires FinalAddress(fin, Location(s, start)) == base + start && FinalAddress(fin, Location(s, b)) == base + b
    requires FinalAddress(fin, Location(s, a)) == base + a
    ensures SetBy(fin, Location(s, a), items, p, i).size == SizeNumber(a, b, start)
  {
    SizeByOffsets(base, a, b, start);
  }

  /**
   `.endfunc` in the section of the label: if it is the last to set the size, the size is the number of bytes from
   the label up to it; and if it is the last to set the type, the type is 2, a function.
  */
  lemma FunctionEnded(o: Options, items: seq<Item>, names: seq<string>, r: State, i: nat, s: nat, b: nat, n: string,
                      a: nat)
    requires Stands(o, items, names, r, i, s, b) && items[i] == Remark(n, EndFunc)
    requires n in r.symbols && r.symbols[n].at == Location(s, a)
    ensures LastSize(items, n, i) ==> r.symbols[n].size == (b - a) % 0x1_0000_0000_0000_0000
    ensures LastSize(items, n, i) && a <= b ==> r.symbols[n].size == b - a
    ensures LastType(items, n, i) ==> r.symbols[n].symbolType == 2
  {
    var fin, base := TwoPassAssemble(o, items).value.final, r.sections[s].base;
    SetInProgram(o, items, names, r, n, i);
    EndAddresses(o, items, names, r, i, s, b, n, a, fin, base);
    EndSetBy(fin, base, items, InitialPlan(o), i, s, a, b, n);
  }

  /** The addresses that an `.endfunc` looks at, for a label in its own section. */
  lemma EndAddresses(o: Options, items: seq<Item>, names: seq<string>, r: State, i: nat, s: nat, b: nat, n: string,
                     a: nat, fin: Final, base: nat)
    requires Stands(o, items, names, r, i, s, b) && n in r.symbols && r.symbols[n].at == Location(s, a)
    requires fin == TwoPassAssemble(o, items).value.final && base == r.sections[s].base
    ensures base + a < P128 && base + b < P128 && b < P64
    ensures FinalAddress(fin, Location(s, a)) == base + a && FinalAddress(fin, Location(s, b)) == base + b
  {
    PlacesIn(o, items, names, r, i, s, b);
    LabelIn(o, items, names, r, n);
    SectionBounded(o, items, names, r, s);
    AddressIn(o, items, names, r, s, a);
    AddressIn(o, items, names, r, s, b);
  }

  lemma EndSetBy(fin: Final, base: nat, items: seq<Item>, p: Plan, i: nat, s: nat, a: nat, b: nat, n: string)
    requires Placed(p) && i < |items| && items[i] == Remark(n, EndFunc) && base + a < P128 && base + b < P128 && b < P64
    requires PlanAt(items, p, i).current == s && PlanAt(items, p, i).sections[s].size == b
    requires FinalAddress(fin, Location(s, a)) == base + a && FinalAddress(fin, Location(s, b)) == base + b
    ensures var last := SetBy(fin, Location(s, a), items, p, i);
      && last.size == (b - a) % 0x1_0000_0000_0000_0000 && last.symbolType == 2
      && (a <= b ==> last.size == b - a)
  {
    assert (base + b) - (base + a) == b - a;
    if a <= b {
      ModUnique(b - a, P64, 0, b - a);
    }
  }

  /** The last `.type` of a symbol is its type, if no `.endfunc` comes after it. */
  lemma SymbolTyped(o: Options, items: seq<Item>, names: seq<string>, r: State, i: nat, n: string, t: nat)
    requires Accepted(o, items, names, r) && n in r.symbols && i < |items| && items[i] == Remark(n, TypeNote(t))
    requires LastType(items, n, i)
    ensures r.symbols[n].symbolType == t
  {
    SetInProgram(o, items, names, r, n, i);
  }

  /** A symbol that nothing sets has neither type nor size. */
  lemma SymbolPlain(o: Options, items: seq<Item>, names: seq<string>, r: State, n: string)
    requires Accepted(o, items, names, r) && n in r.symbols
    ensures (forall k :: 0 <= k < |items| ==> !SetsSize(items[k], n)) ==> r.symbols[n].size == 0
    ensures (forall k :: 0 <= k < |items| ==> !SetsType(items[k], n)) ==> r.symbols[n].symbolType == 0
  {
    var fin := TwoPassAssemble(o, items).value.final;
    SymbolsRemarked(o, items, names, n);
    LabelIn(o, items, names, r, n);
    Unset(items, InitialPlan(o), fin, n, Symbol(r.symbols[n].at, 0, 0));
  }
}
