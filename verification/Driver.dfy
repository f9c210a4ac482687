/** Assembling a program (src/main.cpp:18-44): the object does what two passes would do. */
module Driver {
  import opened Results
  import opened Tokens
  import opened Items
  import opened Layout
  import opened State
  import opened TwoPass
  import opened Planning
  import opened Assembling
  import opened Equivalence

  // ---- Sources ------------------------------------------------------------------------------------------------

  /** The items of `n` runs over the same tokens. */
  function Times(items: seq<Item>, n: nat): seq<Item> {
    if n == 0 then [] else items + Times(items, n - 1)
  }

  /** The items of all sources, one after the other. */
  function AllOf(sources: seq<seq<Item>>): seq<Item>
    decreases |sources|
  {
    if sources == [] then [] else sources[0] + AllOf(sources[1..])
  }

  /**
   What the command line promises and the loop of `main` does, which reads the first source again for each one:
   with sources of the same length, the same exactly if all are the same.
  */
  lemma {:induction false} FirstAgain(sources: seq<seq<Item>>, first: seq<Item>)
    requires forall k :: 0 <= k < |sources| ==> |sources[k]| == |first|
    ensures |Times(first, |sources|)| == |AllOf(sources)|
    ensures Times(first, |sources|) == AllOf(sources) <==> forall k :: 0 <= k < |sources| ==> sources[k] == first
    decreases |sources|
  {
    if sources != [] {
      var rest := sources[1..];
      FirstAgain(rest, first);
      SplitEqual(first, Times(first, |rest|), sources[0], AllOf(rest));
      assert forall k :: 0 <= k < |rest| ==> rest[k] == sources[k + 1];
      assert forall k :: 0 < k < |sources| ==> sources[k] == rest[k - 1];
    }
  }

  lemma SplitEqual<T>(a: seq<T>, b: seq<T>, c: seq<T>, d: seq<T>)
    requires |a| == |c|
    ensures a + b == c + d <==> a == c && b == d
  {
    if a + b == c + d {
      assert a == (a + b)[..|a|] == (c + d)[..|c|] == c;
      assert b == (a + b)[|a|..] == (c + d)[|c|..] == d;
    }
  }

  /** One source is what was asked for; of two, exactly if they have the same items. */
  lemma FirstOfTwo(first: seq<Item>, second: seq<Item>)
    ensures Times(first, 1) == AllOf([first]) == first
    ensures Times(first, 2) == AllOf([first, second]) <==> second == first
  {
    assert Times(first, 1) == first + [] == first;
    assert [first][1..] == [] && AllOf([first]) == first + [];
    assert [second][1..] == [] && AllOf([second]) == second + [] == second;
    assert [first, second][1..] == [second];
    SplitEqual(first, first, first, second);
  }

  // ---- Running them -------------------------------------------------------------------------------------------

  /** The state after `n` runs over the same tokens. */
  function RunTimes(ts: seq<Token>, depth: nat, files: Files, st: State, n: nat): (r: Result<State>)
    requires Proper(st)
    ensures r.Ok? ==> Proper(r.value)
    decreases n
  {
    if n == 0 then Ok(st)
    else
      var st1 :- RunFrom(ts, 0, depth, files, st);
      RunTimes(ts, depth, files, st1, n - 1)
  }

  /** Runs that lead to `r`. The quantifier keeps proofs that pass this on from parsing the tokens. */
  ghost predicate TimesLead(ts: seq<Token>, depth: nat, files: Files, st: State, n: nat, r: Result<State>)
    requires Proper(st)
  {
    forall d: nat :: d == depth ==> RunTimes(ts, d, files, st, n) == r
  }

  lemma TimesOnce(ts: seq<Token>, depth: nat, files: Files, st: State, n: nat, r: Result<State>, once: Result<State>)
    requires Proper(st) && n > 0 && TimesLead(ts, depth, files, st, n, r) && once == RunFrom(ts, 0, depth, files, st)
    ensures once.Thrown? ==> r.Thrown?
    ensures once.Ok? ==> TimesLead(ts, depth, files, once.value, n - 1, r)
  {
    assert RunTimes(ts, depth, files, st, n) == r;
  }

  lemma TimesDone(ts: seq<Token>, depth: nat, files: Files, st: State, r: Result<State>)
    requires Proper(st) && TimesLead(ts, depth, files, st, 0, r)
    ensures r == Ok(st)
  {
    assert RunTimes(ts, depth, files, st, 0) == r;
  }

  /** The tokens have those items. */
  ghost predicate HasItems(ts: seq<Token>, depth: nat, files: Files, items: seq<Item>) {
    forall d: nat :: d == depth ==> ItemsFrom(ts, 0, d, files) == Some(items)
  }

  lemma {:induction false} TimesRun(ts: seq<Token>, depth: nat, files: Files, st: State, n: nat, items: seq<Item>)
    requires Proper(st) && HasItems(ts, depth, files, items)
    ensures TimesLead(ts, depth, files, st, n, Exec(st, Times(items, n)))
    decreases n
  {
    if n > 0 {
      var once := Exec(st, items);
      ExecConcat(st, items, Times(items, n - 1));
      if once.Ok? {
        TimesRun(ts, depth, files, once.value, n - 1, items);
      }
      TimesJoined(ts, depth, files, st, n, items, once, Exec(st, Times(items, n)));
    }
  }

  lemma TimesJoined(ts: seq<Token>, depth: nat, files: Files, st: State, n: nat, items: seq<Item>, once: Result<State>,
                    r: Result<State>)
    requires Proper(st) && n > 0 && HasItems(ts, depth, files, items) && once == Exec(st, items)
    requires once.Thrown? ==> r.Thrown?
    requires once.Ok? ==> TimesLead(ts, depth, files, once.value, n - 1, r)
    ensures TimesLead(ts, depth, files, st, n, r)
  {
    assert ItemsFrom(ts, 0, depth, files) == Some(items);
    assert once.Ok? ==> RunTimes(ts, depth, files, once.value, n - 1) == r;
  }

  /** What the object has done when its runs and `finish` are over, in terms of the two passes. */
  ghost predicate Built(o: Options, items: seq<Item>, names: seq<string>, ok: bool, view: State) {
    && Enumerates(names, Mentioned(items))
    && (ok <==> OnePass(o, items, names).Ok?)
    && (ok ==> view == OnePass(o, items, names).value)
    && (ok && WrapFree(Initial(o), items) <==> TwoPassAssemble(o, items).Some?)
    && (TwoPassAssemble(o, items).Some? ==> Agree(view, TwoPassAssemble(o, items).value))
  }

  lemma BuiltFrom(o: Options, items: seq<Item>, r: Result<State>, names: seq<string>, ok: bool, view: State)
    requires r == Exec(Initial(o), items)
    requires Enumerates(names, if r.Ok? then r.value.schedule.Keys else Mentioned(items))
    requires ok <==> r.Ok? && Proper(r.value) && Finish(o, r.value, names).Ok?
    requires ok ==> view == Finish(o, r.value, names).value
    ensures Built(o, items, names, ok, view)
  {
    if r.Ok? {
      RunMentions(Initial(o), items);
    }
    OnePassIsTwoPass(o, items, names);
  }

  /** The loop of `main` over its sources. */
  method AssembleSources(a: Assembler, sources: seq<seq<Token>>, depth: nat) returns (ok: bool)
    requires a.Valid() && sources != []
    modifies a, a.repr
    ensures Proper(old(a.View())) && (ok ==> a.Valid()) && fresh(a.repr - old(a.repr))
    ensures var r := RunTimes(sources[0], depth, a.files, old(a.View()), |sources|);
      (ok <==> r.Ok?) && (ok ==> r.value == a.View())
  {
    ghost var r := RunTimes(sources[0], depth, a.files, a.View(), |sources|);
    var k := 0;
    while k < |sources|
      invariant 0 <= k <= |sources| && a.Valid() && fresh(a.repr - old(a.repr))
      invariant TimesLead(sources[0], depth, a.files, a.View(), |sources| - k, r)
    {
      TimesOnce(sources[0], depth, a.files, a.View(), |sources| - k, r,
                RunFrom(sources[0], 0, depth, a.files, a.View()));
      ok := a.Assemble(sources[0], depth);
      if !ok {
        return;
      }
      k := k + 1;
    }
    TimesDone(sources[0], depth, a.files, a.View(), r);
    ok := true;
  }

  /**
   `main` up to `finish`: the object accepts its sources, if no size wraps around, exactly when the two-pass
   assembler accepts as many copies of the first one, and then holds its bytes, base addresses and symbols.
  */
  method Build(options: Options, sources: seq<seq<Token>>, depth: nat, files: Files)
    returns (ok: bool, a: Assembler, ghost names: seq<string>)
    requires sources != []
    ensures ok ==> a.Valid()
    ensures ItemsFrom(sources[0], 0, depth, files).None? ==> !ok
    ensures forall items :: ItemsFrom(sources[0], 0, depth, files) == Some(items) ==>
              Built(options, Times(items, |sources|), names, ok, a.View())
  {
    a := new Assembler(options, files);
    ghost var r := RunTimes(sources[0], depth, files, Initial(options), |sources|);
    ghost var parsed := ItemsFrom(sources[0], 0, depth, files);
    if parsed.None? {
      NothingRuns(sources[0], depth, files, Initial(options), |sources|);
    }
    ok := AssembleSources(a, sources, depth);
    names := [];
    if ok {
      ok, names := a.Finish();
    } else if parsed.Some? {
      names := Enumeration(Mentioned(Times(parsed.value, |sources|)));
    }
    if parsed.Some? {
      TimesRun(sources[0], depth, files, Initial(options), |sources|, parsed.value);
      assert RunTimes(sources[0], depth, files, Initial(options), |sources|)
          == Exec(Initial(options), Times(parsed.value, |sources|));
      BuiltFrom(options, Times(parsed.value, |sources|), r, names, ok, a.View());
    }
  }

  lemma NothingRuns(ts: seq<Token>, depth: nat, files: Files, st: State, n: nat)
    requires Proper(st) && ItemsFrom(ts, 0, depth, files).None? && n > 0
    ensures RunTimes(ts, depth, files, st, n).Thrown?
  {
  }
}
