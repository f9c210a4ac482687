/** Base addresses: `resolve_base_addresses` (src/assemble.cpp:75-112). */
module Layout {
  import opened Words

  datatype Options = Options(base: u128, pageSeparation: bool)

  /** What the layout looks at in a section. */
  datatype Extent = Extent(size: nat, code: bool, readonly: bool, based: bool, base: u128)

  /** `(address + mask) & ~mask` at 128 bits. */
  function RoundUp(address: u128, mask: nat): u128 {
    AndNotBounds(Wrap(address + mask), mask);
    AndNot(Wrap(address + mask), mask)
  }

  /** The variables of the loop before section `i`. */
  datatype Cursor = Cursor(address: u128, wasExecutable: bool, wasReadonly: bool)

  predicate RealignsExecutable(o: Options, c: Cursor, e: Extent) {
    !e.based && o.pageSeparation && c.wasExecutable && !e.code
  }

  predicate RealignsReadonly(o: Options, c: Cursor, e: Extent) {
    !e.based && o.pageSeparation && !(c.wasExecutable && !e.code) && c.wasReadonly && !e.readonly
  }

  function BaseFrom(o: Options, c: Cursor, e: Extent): u128 {
    if e.based then e.base
    else if RealignsExecutable(o, c, e) || RealignsReadonly(o, c, e) then RoundUp(c.address, 0xFFF)
    else c.address
  }

  /** Where the next section can start: the end of this one, at a multiple of 16. */
  function Following(base: u128, size: nat): u128 {
    RoundUp(Wrap(base + size), 0xF)
  }

  function Advance(o: Options, c: Cursor, e: Extent): Cursor {
    Cursor(Following(BaseFrom(o, c, e), e.size),
           if e.based then e.code else c.wasExecutable && !RealignsExecutable(o, c, e),
           c.wasReadonly && !RealignsReadonly(o, c, e))
  }

  /** One round of the loop: where a section goes, and the variables after it. */
  method PlaceExtent(o: Options, e: Extent, before: u128, executable: bool, readonly: bool)
    returns (address: u128, next: u128, wasExecutable: bool, wasReadonly: bool)
    ensures address == BaseFrom(o, Cursor(before, executable, readonly), e)
    ensures Cursor(next, wasExecutable, wasReadonly) == Advance(o, Cursor(before, executable, readonly), e)
  {
    address, wasExecutable, wasReadonly := before, executable, readonly;
    if !e.based {
      if o.pageSeparation {
        if wasExecutable && !e.code {
          wasExecutable := false;
          address := RoundUp(address, 0xFFF);
        } else if wasReadonly && !e.readonly {
          wasReadonly := false;
          address := RoundUp(address, 0xFFF);
        }
      }
    } else {
      address := e.base;
      wasExecutable := e.code;
    }
    next := Following(address, e.size);
  }

  function Before(o: Options, es: seq<Extent>, i: nat): Cursor
    requires i <= |es|
  {
    if i == 0 then Cursor(o.base, false, false) else Advance(o, Before(o, es, i - 1), es[i - 1])
  }

  /** The base address of section `i`. */
  function BaseOf(o: Options, es: seq<Extent>, i: nat): u128
    requires i < |es|
  {
    BaseFrom(o, Before(o, es, i), es[i])
  }

  /** A section with a base address of its own keeps it. */
  lemma KeepsBase(o: Options, es: seq<Extent>, i: nat)
    requires i < |es| && es[i].based
    ensures BaseOf(o, es, i) == es[i].base
  {
  }

  // ---- What the rounding does -----------------------------------------------------------------------

  /** Away from the end of the address space, the least multiple of the alignment at or above. */
  lemma RoundUpIsLeast(address: u128, k: nat, multiple: int)
    requires address + Pow2(k) - 1 < P128
    ensures var r := RoundUp(address, Pow2(k) - 1);
            && r % Pow2(k) == 0 && address <= r < address + Pow2(k)
            && (multiple % Pow2(k) == 0 && address <= multiple ==> r <= multiple)
  {
    var p := Pow2(k);
    var x := address + p - 1;
    AndNotPow2(x, k);
    if multiple % p == 0 && address <= multiple {
      LeastMultiple(x, p, multiple);
    }
    ModUnique(x, P128, 0, x);
    RemainderBelow(x, p);
  }

  lemma RemainderBelow(x: nat, p: nat)
    requires p > 0
    ensures 0 <= x % p < p
  {
  }

  lemma LeastMultiple(x: nat, p: nat, multiple: int)
    requires p > 0 && multiple % p == 0 && x < multiple + p
    ensures x - x % p <= multiple
  {
    RoundedDown(x, p);
    if multiple < x - x % p {
      Multiples(multiple, x - x % p, p);
    }
  }

  lemma Multiples(a: int, b: int, p: nat)
    requires p > 0 && a % p == 0 && b % p == 0 && a < b
    ensures a + p <= b
  {
    assert a == p * (a / p) && b == p * (b / p);
    var k := b / p - a / p;
    assert b - a == p * k;
    NotPositive(p, k);
    MulAtLeast(p, k);
  }

  lemma NotPositive(p: nat, k: int)
    requires p > 0 && p * k > 0
    ensures k > 0
  {
    if k < 0 {
      MulAtLeast(p, -k);
    }
  }

  /** The two roundings of the layout, with their alignments as numbers. */
  lemma RoundUp16(address: u128, multiple: int)
    requires address + 0xF < P128
    ensures var r := RoundUp(address, 0xF);
            && r % 16 == 0 && address <= r < address + 16
            && (multiple % 16 == 0 && address <= multiple ==> r <= multiple)
  {
    PageAndLine();
    RoundUpIsLeast(address, 4, multiple);
  }

  lemma RoundUpPage(address: u128, multiple: int)
    requires address + 0xFFF < P128
    ensures var r := RoundUp(address, 0xFFF);
            && r % 0x1000 == 0 && r % 16 == 0 && address <= r < address + 0x1000
            && (multiple % 0x1000 == 0 && address <= multiple ==> r <= multiple)
  {
    PageAndLine();
    RoundUpIsLeast(address, 12, multiple);
    ModMod(RoundUp(address, 0xFFF), 16, 0x100);
  }

  lemma PageAndLine()
    ensures Pow2(4) == 16 && Pow2(12) == 0x1000
  {
    Pow2Sum(2, 2);
    assert Pow2(2) == 4;
    Pow2Sum(4, 8);
    Pow2Sum(4, 4);
  }

  // ---- Runs -------------------------------------------------------------------------------------------

  /** A run: a based section `j` followed by automatically placed ones up to `i`. */
  predicate InRun(es: seq<Extent>, j: nat, i: nat) {
    j <= i < |es| && es[j].based && (forall k :: j < k <= i ==> !es[k].based)
  }

  /** No address computed for sections `j` to `i` wraps around 2^128. */
  predicate NoWrap(o: Options, es: seq<Extent>, j: nat, i: nat)
    requires i < |es|
  {
    forall k :: j <= k <= i ==> BaseOf(o, es, k) + es[k].size + 0x100F < P128
  }

  function EndOf(o: Options, es: seq<Extent>, i: nat): int
    requires i < |es|
  {
    BaseOf(o, es, i) + es[i].size
  }

  /** A multiple of the alignment that section `i` is placed at. */
  predicate Suitable(o: Options, es: seq<Extent>, i: nat, address: int)
    requires i < |es|
  {
    if RealignsExecutable(o, Before(o, es, i), es[i]) then address % 0x1000 == 0 else address % 16 == 0
  }

  lemma {:induction false} NeverReadonly(o: Options, es: seq<Extent>, i: nat)
    requires i <= |es|
    ensures !Before(o, es, i).wasReadonly
  {
    if i != 0 {
      NeverReadonly(o, es, i - 1);
    }
  }

  /**
   Placement: a section placed automatically starts at the least suitably aligned address at or after
   the end of the section before it.
  */
  lemma PlacedLeast(o: Options, es: seq<Extent>, i: nat, other: int)
    requires 0 < i < |es| && !es[i].based
    requires BaseOf(o, es, i - 1) + es[i - 1].size + 0x100F < P128
    ensures Suitable(o, es, i, BaseOf(o, es, i)) && BaseOf(o, es, i) % 16 == 0
    ensures EndOf(o, es, i - 1) <= BaseOf(o, es, i)
    ensures Suitable(o, es, i, other) && EndOf(o, es, i - 1) <= other ==> BaseOf(o, es, i) <= other
  {
    NeverReadonly(o, es, i);
    PlacedAt(o, Before(o, es, i), es[i], EndOf(o, es, i - 1), other);
  }

  lemma PlacedAt(o: Options, c: Cursor, e: Extent, end: int, other: int)
    requires 0 <= end && end + 0x100F < P128 && c.address == RoundUp(Wrap(end), 0xF)
    requires !e.based && !c.wasReadonly
    ensures var base := BaseFrom(o, c, e);
            var page := RealignsExecutable(o, c, e);
            && base % 16 == 0 && (page ==> base % 0x1000 == 0) && end <= base
            && ((if page then other % 0x1000 == 0 else other % 16 == 0) && end <= other ==> base <= other)
  {
    ModUnique(end, P128, 0, end);
    RoundUp16(end, other);
    if RealignsExecutable(o, c, e) {
      RoundUpPage(c.address, other);
      if other % 0x1000 == 0 && end <= other {
        PageIsLine(other);
      }
    }
  }

  lemma PageIsLine(x: int)
    requires x % 0x1000 == 0
    ensures x % 16 == 0
  {
    ModUnique(x, 16, 0x100 * (x / 0x1000), 0);
  }

  /** Sections of a run lie in index order and never overlap. */
  lemma {:induction false} RunOrdered(o: Options, es: seq<Extent>, j: nat, k: nat, i: nat)
    requires InRun(es, j, i) && j <= k < i && NoWrap(o, es, j, i)
    ensures EndOf(o, es, k) <= BaseOf(o, es, i)
    decreases i
  {
    assert BaseOf(o, es, i - 1) + es[i - 1].size + 0x100F < P128;
    PlacedLeast(o, es, i, 0);
    if k < i - 1 {
      RunOrdered(o, es, j, k, i - 1);
    }
  }

  // ---- Page separation --------------------------------------------------------------------------------

  /**
   When `was_executable` is set: exactly when the run's based section is code and no automatically placed
   section since was data (or separation is off).
  */
  lemma {:induction false} WasExecutable(o: Options, es: seq<Extent>, j: nat, i: nat)
    requires j < i <= |es| && InRun(es, j, i - 1)
    ensures Before(o, es, i).wasExecutable
       <==> es[j].code && (o.pageSeparation ==> forall k :: j < k < i ==> es[k].code)
    decreases i
  {
    if j < i - 1 {
      WasExecutable(o, es, j, i - 1);
    }
  }

  /**
   Exactly which automatic sections are moved to a new page: the first one of the run that is not code,
   and only if the based section of the run is code. (The source's comment promises this for every step
   from executable to non-executable, and from read-only to writable.)
  */
  lemma RealignsExactly(o: Options, es: seq<Extent>, j: nat, i: nat)
    requires j < i && InRun(es, j, i)
    ensures RealignsExecutable(o, Before(o, es, i), es[i])
       <==> o.pageSeparation && !es[i].code && (forall k :: j <= k < i ==> es[k].code)
    ensures !RealignsReadonly(o, Before(o, es, i), es[i])
  {
    WasExecutable(o, es, j, i);
    NeverReadonly(o, es, i);
  }

  /**
   Page separation: the first data section after the code at the start of a run, and everything placed
   after it in the run, shares no page with the code before it: whatever byte `a` of such code and byte
   `b` of such a section one takes, `b` is on a later page.
  */
  lemma PageSeparated(o: Options, es: seq<Extent>, j: nat, d: nat, k: nat, i: nat, a: int, b: int)
    requires o.pageSeparation && InRun(es, j, i) && j <= k < d <= i && NoWrap(o, es, j, i)
    requires !es[d].code && forall n :: j <= n < d ==> es[n].code
    requires BaseOf(o, es, k) <= a < EndOf(o, es, k) && BaseOf(o, es, i) <= b < EndOf(o, es, i)
    ensures a / 0x1000 < b / 0x1000
  {
    DataStartsPage(o, es, j, d, k);
    if d < i {
      RunOrdered(o, es, j, d, i);
    }
    PageBelow(a, b, BaseOf(o, es, d));
  }

  lemma DataStartsPage(o: Options, es: seq<Extent>, j: nat, d: nat, k: nat)
    requires o.pageSeparation && InRun(es, j, d) && j <= k < d && NoWrap(o, es, j, d)
    requires !es[d].code && forall n :: j <= n < d ==> es[n].code
    ensures BaseOf(o, es, d) % 0x1000 == 0 && EndOf(o, es, k) <= BaseOf(o, es, d)
  {
    RealignsExactly(o, es, j, d);
    assert BaseOf(o, es, d - 1) + es[d - 1].size + 0x100F < P128;
    PlacedLeast(o, es, d, 0);
    RunOrdered(o, es, j, k, d);
  }

  lemma PageBelow(a: int, b: int, boundary: int)
    requires boundary % 0x1000 == 0 && a < boundary <= b
    ensures a / 0x1000 < b / 0x1000
  {
  }

  /** Four sections of 16 bytes: code at an address of its own, then data, code and data placed after it. */
  const ALTERNATING: seq<Extent> :=
    [Extent(16, true, false, true, 0x1000), Extent(16, false, false, false, 0),
     Extent(16, true, false, false, 0), Extent(16, false, false, false, 0)]

  /**
   A layout the comment promises to separate and the code does not: the last section follows executable
   code directly, at the next multiple of 16.
  */
  lemma SecondDataNotSeparated(o: Options)
    requires o.pageSeparation
    ensures BaseOf(o, ALTERNATING, 2) == 0x2010 && BaseOf(o, ALTERNATING, 3) == 0x2020
  {
    Alternating(o, ALTERNATING);
  }

  lemma Alternating(o: Options, es: seq<Extent>)
    requires o.pageSeparation && |es| == 4
    requires es[0] == Extent(16, true, false, true, 0x1000) && es[1] == Extent(16, false, false, false, 0)
    requires es[2] == Extent(16, true, false, false, 0) && es[3] == Extent(16, false, false, false, 0)
    ensures BaseOf(o, es, 2) == 0x2010 && BaseOf(o, es, 3) == 0x2020
  {
    RealignsExactly(o, es, 0, 1);
    RealignsExactly(o, es, 0, 2);
    RealignsExactly(o, es, 0, 3);
    OnNextPage(o, es, 1, 0x1010, 0x2000);
    OnNextLine(o, es, 2, 0x2010);
    assert !es[1].code;
    OnNextLine(o, es, 3, 0x2020);
  }

  lemma OnNextLine(o: Options, es: seq<Extent>, i: nat, end: int)
    requires 0 < i < |es| && !es[i].based && EndOf(o, es, i - 1) == end
    requires end + 0x100F < P128 && end % 16 == 0
    requires !RealignsExecutable(o, Before(o, es, i), es[i])
    ensures BaseOf(o, es, i) == end
  {
    PlacedLeast(o, es, i, end);
  }

  lemma OnNextPage(o: Options, es: seq<Extent>, i: nat, end: int, next: int)
    requires 0 < i < |es| && !es[i].based && EndOf(o, es, i - 1) == end
    requires end + 0x100F < P128 && next % 0x1000 == 0 && end <= next < end + 0x1000
    requires RealignsExecutable(o, Before(o, es, i), es[i])
    ensures BaseOf(o, es, i) == next
  {
    PlacedLeast(o, es, i, next);
    SamePage(BaseOf(o, es, i), next);
  }

  lemma SamePage(a: int, b: int)
    requires a % 0x1000 == 0 && b % 0x1000 == 0 && b - 0x1000 < a <= b
    ensures a == b
  {
  }
}
