/**
 Running the schedule (`finish_scheduled_work`, src/assemble.cpp:179-191). The fixups of a run own
 disjoint bytes, so what they do does not depend on the order in which their symbols come up.
*/
module Fixups {
  import opened Words
  import opened Results
  import opened References
  import opened State

  /** The bytes a fixup owns. */
  predicate Owns(f: Fixup, section: nat, p: nat) {
    f.PatchAt? && f.at.section == section && f.at.offset <= p < f.at.offset + Width(f.kind)
  }

  predicate Apart(f: Fixup, g: Fixup) {
    f.PatchAt? && g.PatchAt? && f.at.section == g.at.section ==>
      f.at.offset + Width(f.kind) <= g.at.offset || g.at.offset + Width(g.kind) <= f.at.offset
  }

  predicate PairwiseApart(entries: seq<Entry>) {
    forall i, j :: 0 <= i < j < |entries| ==> Apart(entries[i].fixup, entries[j].fixup)
  }

  /** The locations of a fixup are inside the sections, and the bytes it owns inside the buffer. */
  predicate InRange(st: State, f: Fixup) {
    match f
    case SetType(_) => true
    case SetEnd(at) => at.section < |st.sections|
    case PatchAt(kind, at, before) =>
      && at.section < |st.sections| && before.section < |st.sections|
      && at.offset + Width(kind) <= |st.sections[at.section].output|
  }

  predicate Defined(st: State, name: string) {
    name in st.symbols && st.symbols[name].at.section < |st.sections|
  }

  function TargetOf(st: State, name: string): u128
    requires Defined(st, name)
  {
    AddressOf(st.sections, st.symbols[name].at)
  }

  /** The fixup succeeds. This depends on addresses and sizes only. */
  predicate Runnable(st: State, e: Entry) {
    && Defined(st, e.symbol) && InRange(st, e.fixup)
    && (e.fixup.PatchAt? ==> !Rejects(e.fixup.kind, AddressOf(st.sections, e.fixup.at), TargetOf(st, e.symbol)))
  }

  /** Everything a fixup may depend on besides the bytes it owns. */
  ghost predicate SameAddresses(a: State, b: State) {
    && |a.sections| == |b.sections| && a.symbols.Keys == b.symbols.Keys
    && (forall s :: 0 <= s < |a.sections| ==>
          a.sections[s].base == b.sections[s].base && |a.sections[s].output| == |b.sections[s].output|)
    && (forall n :: n in a.symbols ==> a.symbols[n].at == b.symbols[n].at)
  }

  /** The bytes `f` owns. */
  function Region(st: State, f: Fixup): seq<byte>
    requires f.PatchAt? && InRange(st, f)
  {
    st.sections[f.at.section].output[f.at.offset..f.at.offset + Width(f.kind)]
  }

  lemma RegionByte(st: State, f: Fixup, s: nat, p: nat)
    requires Owns(f, s, p) && InRange(st, f)
    ensures st.sections[s].output[p] == Region(st, f)[p - f.at.offset]
  {
  }

  /** Regions with the same bytes are the same. */
  lemma SameRegion(a: State, b: State, f: Fixup)
    requires f.PatchAt? && InRange(a, f) && InRange(b, f)
    requires forall p: nat :: Owns(f, f.at.section, p) ==>
               b.sections[f.at.section].output[p] == a.sections[f.at.section].output[p]
    ensures Region(b, f) == Region(a, f)
  {
    forall k | 0 <= k < Width(f.kind)
      ensures Region(b, f)[k] == Region(a, f)[k]
    {
      var p := f.at.offset + k;
      assert Owns(f, f.at.section, p);
      RegionByte(a, f, f.at.section, p);
      RegionByte(b, f, f.at.section, p);
    }
  }

  /** What those bytes become. */
  function Patched(st: State, e: Entry): seq<byte>
    requires Runnable(st, e) && e.fixup.PatchAt?
  {
    var f := e.fixup;
    Patch(f.kind, Region(st, f), AddressOf(st.sections, f.at), TargetOf(st, e.symbol), AddressOf(st.sections, f.before))
  }

  /** Bytes that `f` does not own are the same in both states. */
  ghost predicate OthersKept(a: State, b: State, f: Fixup)
    requires SameAddresses(a, b)
  {
    forall s: nat, p: nat :: s < |a.sections| && p < |a.sections[s].output| && !Owns(f, s, p) ==>
      b.sections[s].output[p] == a.sections[s].output[p]
  }

  /** One fixup: it succeeds exactly when it is runnable, rewrites its own bytes and moves nothing. */
  lemma RunFixupEffect(st: State, e: Entry)
    ensures RunFixup(st, e.symbol, e.fixup).Ok? <==> Runnable(st, e)
    ensures Runnable(st, e) ==> var r := RunFixup(st, e.symbol, e.fixup).value;
      && SameAddresses(st, r) && OthersKept(st, r, e.fixup)
      && (e.fixup.PatchAt? ==> Region(r, e.fixup) == Patched(st, e))
  {
    if Runnable(st, e) && e.fixup.PatchAt? {
      SpliceEffect(st, e, RunFixup(st, e.symbol, e.fixup).value);
    }
  }

  lemma SpliceEffect(st: State, e: Entry, r: State)
    requires Runnable(st, e) && e.fixup.PatchAt? && RunFixup(st, e.symbol, e.fixup) == Ok(r)
    ensures SameAddresses(st, r) && OthersKept(st, r, e.fixup) && Region(r, e.fixup) == Patched(st, e)
  {
    var s, o, w := e.fixup.at.section, e.fixup.at.offset, Width(e.fixup.kind);
    var output := st.sections[s].output;
    var patched := Patched(st, e);
    assert r.sections[s].output == output[..o] + patched + output[o + w..];
    Splice(output, o, patched);
  }

  lemma Splice(output: seq<byte>, o: nat, patched: seq<byte>)
    requires o + |patched| <= |output|
    ensures var r := output[..o] + patched + output[o + |patched|..];
            && |r| == |output| && r[o..o + |patched|] == patched
            && forall p :: 0 <= p < |output| && !(o <= p < o + |patched|) ==> r[p] == output[p]
  {
  }

  lemma SameAddressesTransitive(a: State, b: State, c: State)
    requires SameAddresses(a, b) && SameAddresses(b, c)
    ensures SameAddresses(a, c)
  {
  }

  lemma AddressKept(a: State, b: State, at: Location)
    requires SameAddresses(a, b) && at.section < |a.sections|
    ensures AddressOf(b.sections, at) == AddressOf(a.sections, at)
  {
  }

  lemma RunnableStays(a: State, b: State, e: Entry)
    requires SameAddresses(a, b)
    ensures Runnable(a, e) <==> Runnable(b, e)
  {
  }

  /** While the bytes `e` owns stay as they were, so does what `e` makes of them. */
  lemma RegionKept(a: State, b: State, e: Entry)
    requires SameAddresses(a, b) && Runnable(a, e) && e.fixup.PatchAt?
    requires forall p: nat :: Owns(e.fixup, e.fixup.at.section, p) ==>
               b.sections[e.fixup.at.section].output[p] == a.sections[e.fixup.at.section].output[p]
    ensures Runnable(b, e) && Region(b, e.fixup) == Region(a, e.fixup) && Patched(b, e) == Patched(a, e)
  {
    RunnableStays(a, b, e);
    SameRegion(a, b, e.fixup);
    AddressKept(a, b, e.fixup.at);
    AddressKept(a, b, e.fixup.before);
    AddressKept(a, b, a.symbols[e.symbol].at);
  }

  ghost predicate NotOwned(entries: seq<Entry>, s: nat, p: nat) {
    forall i :: 0 <= i < |entries| ==> !Owns(entries[i].fixup, s, p)
  }

  ghost predicate AllRunnable(st: State, entries: seq<Entry>) {
    forall i :: 0 <= i < |entries| ==> Runnable(st, entries[i])
  }

  /** `r` is `st` with exactly the bytes owned by `entries` rewritten, each by its own fixup. */
  ghost predicate AllPatched(st: State, entries: seq<Entry>, r: State)
    requires AllRunnable(st, entries)
  {
    && SameAddresses(st, r)
    && (forall i :: 0 <= i < |entries| && entries[i].fixup.PatchAt? ==>
          InRange(r, entries[i].fixup) && Region(r, entries[i].fixup) == Patched(st, entries[i]))
    && (forall s: nat, p: nat ::
          s < |st.sections| && p < |st.sections[s].output| && NotOwned(entries, s, p) ==>
          r.sections[s].output[p] == st.sections[s].output[p])
  }

  /** A whole schedule of disjoint fixups, in whatever order: when it succeeds, and what it leaves. */
  lemma {:induction false} RunEntriesEffect(st: State, entries: seq<Entry>)
    requires PairwiseApart(entries)
    ensures RunEntries(st, entries).Ok? <==> AllRunnable(st, entries)
    ensures AllRunnable(st, entries) ==> AllPatched(st, entries, RunEntries(st, entries).value)
    decreases |entries|
  {
    if entries != [] {
      var e, rest := entries[0], entries[1..];
      RunFixupEffect(st, e);
      assert forall i :: 0 <= i < |rest| ==> rest[i] == entries[i + 1];
      if Runnable(st, e) {
        var st1 := RunFixup(st, e.symbol, e.fixup).value;
        forall i | 0 <= i < |rest|
          ensures Runnable(st1, rest[i]) <==> Runnable(st, entries[i + 1])
        {
          RunnableStays(st, st1, rest[i]);
        }
        RunEntriesEffect(st1, rest);
        assert AllRunnable(st1, rest) <==> AllRunnable(st, entries) by {
          RunnableAfterFirst(st, st1, entries);
        }
        if AllRunnable(st, entries) {
          PatchedAfterFirst(st, st1, entries, RunEntries(st1, rest).value);
        }
      }
    }
  }

  lemma RunnableAfterFirst(st: State, st1: State, entries: seq<Entry>)
    requires entries != [] && Runnable(st, entries[0]) && SameAddresses(st, st1)
    ensures AllRunnable(st1, entries[1..]) <==> AllRunnable(st, entries)
  {
    forall e: Entry
      ensures Runnable(st, e) <==> Runnable(st1, e)
    {
      RunnableStays(st, st1, e);
    }
    if AllRunnable(st1, entries[1..]) {
      forall i | 0 <= i < |entries|
        ensures Runnable(st, entries[i])
      {
        if i > 0 {
          assert entries[i] == entries[1..][i - 1];
        }
      }
    }
  }

  lemma PatchedAfterFirst(st: State, st1: State, entries: seq<Entry>, r: State)
    requires entries != [] && PairwiseApart(entries) && AllRunnable(st, entries)
    requires RunFixup(st, entries[0].symbol, entries[0].fixup) == Ok(st1)
    requires AllRunnable(st1, entries[1..]) && AllPatched(st1, entries[1..], r)
    ensures AllPatched(st, entries, r)
  {
    var e, rest := entries[0], entries[1..];
    RunFixupEffect(st, e);
    SameAddressesTransitive(st, st1, r);
    forall i | 0 <= i < |entries| && entries[i].fixup.PatchAt?
      ensures InRange(r, entries[i].fixup) && Region(r, entries[i].fixup) == Patched(st, entries[i])
    {
      if i == 0 {
        assert [e] + rest == entries;
        FirstKept(st1, e, rest, r);
      } else {
        assert rest[i - 1] == entries[i];
        assert Apart(entries[0].fixup, entries[i].fixup);
        LaterKept(st, st1, e, entries[i]);
      }
    }
    forall s: nat, p: nat | 0 <= s < |st.sections| && 0 <= p < |st.sections[s].output| && NotOwned(entries, s, p)
      ensures r.sections[s].output[p] == st.sections[s].output[p]
    {
      assert !Owns(entries[0].fixup, s, p);
      assert forall i :: 0 <= i < |rest| ==> rest[i] == entries[i + 1];
      assert NotOwned(rest, s, p);
    }
  }

  /** One fixup leaves what a fixup apart from it will do. */
  lemma LaterKept(st: State, st1: State, e: Entry, later: Entry)
    requires Runnable(st, e) && RunFixup(st, e.symbol, e.fixup) == Ok(st1)
    requires Runnable(st, later) && later.fixup.PatchAt? && Apart(e.fixup, later.fixup)
    ensures Runnable(st1, later) && Patched(st1, later) == Patched(st, later)
  {
    RunFixupEffect(st, e);
    RegionKept(st, st1, later);
  }

  /** The rest of the schedule does not touch what the first fixup wrote. */
  lemma FirstKept(st1: State, e: Entry, rest: seq<Entry>, r: State)
    requires PairwiseApart([e] + rest) && e.fixup.PatchAt? && InRange(st1, e.fixup)
    requires AllRunnable(st1, rest) && AllPatched(st1, rest, r)
    ensures InRange(r, e.fixup) && Region(r, e.fixup) == Region(st1, e.fixup)
  {
    var s := e.fixup.at.section;
    forall p: nat | Owns(e.fixup, s, p)
      ensures r.sections[s].output[p] == st1.sections[s].output[p]
    {
      forall i | 0 <= i < |rest|
        ensures !Owns(rest[i].fixup, s, p)
      {
        assert ([e] + rest)[0] == e && ([e] + rest)[i + 1] == rest[i];
        assert Apart(e.fixup, rest[i].fixup);
      }
      assert NotOwned(rest, s, p);
    }
    SameRegion(st1, r, e.fixup);
  }

  // ---- Order ------------------------------------------------------------------------------------------

  /** A position is either owned by an entry or by none; both cases fix the byte. */
  lemma PatchedUnique(st: State, es: seq<Entry>, fs: seq<Entry>, a: State, b: State, s: nat)
    requires AllRunnable(st, es) && AllRunnable(st, fs)
    requires AllPatched(st, es, a) && AllPatched(st, fs, b)
    requires forall e :: e in es <==> e in fs
    requires s < |st.sections|
    ensures a.sections[s].output == b.sections[s].output
  {
    forall p: nat | p < |st.sections[s].output|
      ensures a.sections[s].output[p] == b.sections[s].output[p]
    {
      if i :| 0 <= i < |es| && Owns(es[i].fixup, s, p) {
        OwnedByte(st, es, a, es[i], s, p);
        OwnedByte(st, fs, b, es[i], s, p);
      } else {
        assert NotOwned(es, s, p);
        NotOwnedEither(es, fs, s, p);
      }
    }
  }

  lemma OwnedByte(st: State, es: seq<Entry>, a: State, e: Entry, s: nat, p: nat)
    requires AllRunnable(st, es) && AllPatched(st, es, a) && e in es && Owns(e.fixup, s, p)
    ensures InRange(a, e.fixup) && a.sections[s].output[p] == Patched(st, e)[p - e.fixup.at.offset]
  {
    var i :| 0 <= i < |es| && es[i] == e;
    RegionByte(a, e.fixup, s, p);
  }

  lemma NotOwnedEither(es: seq<Entry>, fs: seq<Entry>, s: nat, p: nat)
    requires NotOwned(es, s, p) && forall e :: e in fs ==> e in es
    ensures NotOwned(fs, s, p)
  {
    forall j | 0 <= j < |fs|
      ensures !Owns(fs[j].fixup, s, p)
    {
      assert fs[j] in es;
      var i :| 0 <= i < |es| && es[i] == fs[j];
    }
  }

  lemma TwicePositions(es: seq<Entry>, e: Entry) returns (p: nat, q: nat)
    requires multiset(es)[e] >= 2
    ensures p < q < |es| && es[p] == es[q] == e
  {
    assert e in multiset(es);
    p :| p < |es| && es[p] == e;
    var rest := es[..p] + es[p + 1..];
    assert es == es[..p] + [e] + es[p + 1..];
    assert multiset(es) == multiset(rest) + multiset{e};
    assert e in multiset(rest);
    var k :| 0 <= k < |rest| && rest[k] == e;
    if k < p {
      p, q := k, p;
    } else {
      q := k + 1;
    }
  }

  lemma TwiceCounted(fs: seq<Entry>, i: nat, j: nat)
    requires i < j < |fs| && fs[i] == fs[j]
    ensures multiset(fs)[fs[i]] >= 2
  {
    var a, b := fs[..i + 1], fs[i + 1..];
    assert fs == a + b;
    assert a[i] == fs[i] && b[j - i - 1] == fs[j];
    assert fs[i] in multiset(a) && fs[i] in multiset(b);
  }

  /** Disjointness does not depend on the order. */
  lemma PermutedApart(es: seq<Entry>, fs: seq<Entry>)
    requires multiset(es) == multiset(fs) && PairwiseApart(es)
    ensures PairwiseApart(fs)
  {
    forall i, j | 0 <= i < j < |fs|
      ensures Apart(fs[i].fixup, fs[j].fixup)
    {
      if fs[i] == fs[j] {
        TwiceCounted(fs, i, j);
        var p, q := TwicePositions(es, fs[i]);
        assert Apart(es[p].fixup, es[q].fixup);
      } else {
        assert fs[i] in multiset(es) && fs[j] in multiset(es);
        var p :| 0 <= p < |es| && es[p] == fs[i];
        var q :| 0 <= q < |es| && es[q] == fs[j];
        if p < q {
          assert Apart(es[p].fixup, es[q].fixup);
        } else {
          assert Apart(es[q].fixup, es[p].fixup);
        }
      }
    }
  }

  /**
   Order is irrelevant: any permutation of a schedule with disjoint fixups succeeds or fails with it and
   leaves the same bytes in every section.
  */
  lemma OrderIrrelevant(st: State, es: seq<Entry>, fs: seq<Entry>)
    requires multiset(es) == multiset(fs) && PairwiseApart(es)
    ensures RunEntries(st, es).Ok? <==> RunEntries(st, fs).Ok?
    ensures RunEntries(st, es).Ok? ==> SameOutcome(RunEntries(st, es).value, RunEntries(st, fs).value)
  {
    PermutedApart(es, fs);
    RunEntriesEffect(st, es);
    RunEntriesEffect(st, fs);
    forall e: Entry
      ensures e in es <==> e in fs
    {
      assert e in es <==> e in multiset(es);
      assert e in fs <==> e in multiset(fs);
    }
    SameRunnable(st, es, fs);
    if AllRunnable(st, es) {
      PatchedSame(st, es, fs, RunEntries(st, es).value, RunEntries(st, fs).value);
    }
  }

  /** The same bytes, base addresses and symbol locations. */
  ghost predicate SameOutcome(a: State, b: State) {
    SameAddresses(a, b) && forall s :: 0 <= s < |a.sections| ==> a.sections[s].output == b.sections[s].output
  }

  lemma SameRunnable(st: State, es: seq<Entry>, fs: seq<Entry>)
    requires forall e :: e in es <==> e in fs
    ensures AllRunnable(st, es) <==> AllRunnable(st, fs)
  {
    assert AllRunnable(st, es) <==> forall e :: e in es ==> Runnable(st, e);
    assert AllRunnable(st, fs) <==> forall e :: e in fs ==> Runnable(st, e);
  }

  lemma PatchedSame(st: State, es: seq<Entry>, fs: seq<Entry>, a: State, b: State)
    requires AllRunnable(st, es) && AllRunnable(st, fs)
    requires AllPatched(st, es, a) && AllPatched(st, fs, b)
    requires forall e :: e in es <==> e in fs
    ensures SameOutcome(a, b)
  {
    forall s: nat | s < |a.sections|
      ensures a.sections[s].output == b.sections[s].output
    {
      PatchedUnique(st, es, fs, a, b, s);
    }
  }
}
