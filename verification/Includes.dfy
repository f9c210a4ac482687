/**
 `.include` is splicing (src/directive.cpp:24-29, src/assemble.cpp:14-60): a program is worth the same
 as the token list with every included file's tokens in the place of its directive.
*/
module Includes {
  import opened Words
  import opened Results
  import opened Tokens
  import opened Constants
  import opened Grammar
  import opened Items

  /** The tokens from `i` on with the files spliced in. */
  function Splice(ts: seq<Token>, i: nat, depth: nat, files: Files): seq<Token>
    decreases depth, |ts| - i
  {
    if i >= |ts| then []
    else if IncludeAt(ts, i) && ts[i + 1].body.value in files.sources && depth > 0 then
      Splice(files.sources[ts[i + 1].body.value], 0, depth - 1, files) + Splice(ts, i + 2, depth, files)
    else [ts[i]] + Splice(ts, i + 1, depth, files)
  }

  predicate IncludeAt(ts: seq<Token>, i: nat) {
    && i + 1 < |ts| && ts[i].body.Directive? && DirectiveOf(ts[i].body.name) == IncludeDirective
    && ts[i + 1].body.Text?
  }

  /**
   The statements from `i` on, those of included files in the place of their directives; nothing if some file is
   missing, nested too deep, or not by itself a list of complete statements.
  */
  function StatementsFrom(ts: seq<Token>, i: nat, depth: nat, files: Files): Option<seq<Statement>>
    decreases depth, |ts| - i
  {
    if i >= |ts| then Some([])
    else
      match ParseStatement(ts, i)
      case Fail => None
      case At(statement, j) =>
        StatementAdvances(ts, i);
        match IncludedFile(statement)
        case Some(file) =>
          if file !in files.sources || depth == 0 then None
          else
            var inner :- StatementsFrom(files.sources[file], 0, depth - 1, files);
            var rest :- StatementsFrom(ts, j, depth, files);
            Some(inner + rest)
        case None =>
          var rest :- StatementsFrom(ts, j, depth, files);
          Some([statement] + rest)
  }

  /** Complete tokens stop or start a statement wherever the next statement is expected. */
  lemma StatementsBoundary(ts: seq<Token>, i: nat, depth: nat, files: Files)
    requires StatementsFrom(ts, i, depth, files).Some?
    ensures Boundary(ts, i)
  {
  }

  lemma NextBoundary(ts: seq<Token>, i: nat, depth: nat, files: Files)
    requires i < |ts| && StatementsFrom(ts, i, depth, files).Some?
    ensures var r := ParseStatement(ts, i); r.At? && i < r.next <= |ts| && Boundary(ts, r.next)
  {
    StatementAdvances(ts, i);
    StatementsBoundary(ts, ParseStatement(ts, i).next, depth, files);
  }

  /** The statements of copied tokens are the same. */
  lemma {:induction false} StatementsCopied(ts: seq<Token>, us: seq<Token>, i: nat, d: int, files: Files)
    requires i <= |ts| && Copied(ts, i, |ts|, us, d) && |us| == |ts| + d
    requires StatementsFrom(ts, i, 0, files).Some?
    ensures StatementsFrom(us, i + d, 0, files) == StatementsFrom(ts, i, 0, files)
    decreases |ts| - i
  {
    if i < |ts| {
      var j := ParseStatement(ts, i).next;
      StatementAdvances(ts, i);
      StatementsBoundary(ts, j, 0, files);
      if j < |ts| {
        assert us[j + d] == ts[j];
      }
      StatementLocal(ts, us, i, d);
      StatementsCopied(ts, us, j, d, files);
    }
  }

  /** One statement, the same in both token lists, in front of what follows in each. */
  lemma StatementFirst(ts: seq<Token>, us: seq<Token>, i: nat, k: nat, j: nat, files: Files)
    requires i < |ts| && k < |us| && ParseStatement(ts, i).At? && IncludedFile(ParseStatement(ts, i).value).None?
    requires ParseStatement(us, k) == At(ParseStatement(ts, i).value, j) && StatementsFrom(us, j, 0, files).Some?
    ensures StatementsFrom(us, k, 0, files)
         == Some([ParseStatement(ts, i).value] + StatementsFrom(us, j, 0, files).value)
  {
  }

  /** The statements of one complete token list after another are those of the lists, one after the other. */
  lemma {:induction false} StatementsConcat(a: seq<Token>, b: seq<Token>, i: nat, files: Files)
    requires i <= |a| && StatementsFrom(a, i, 0, files).Some? && StatementsFrom(b, 0, 0, files).Some?
    ensures StatementsFrom(a + b, i, 0, files)
         == Some(StatementsFrom(a, i, 0, files).value + StatementsFrom(b, 0, 0, files).value)
    decreases |a| - i
  {
    if i == |a| {
      StatementsCopied(b, a + b, 0, |a|, files);
      assert [] + StatementsFrom(b, 0, 0, files).value == StatementsFrom(b, 0, 0, files).value;
    } else {
      var p := ConcatParses(a, b, a + b, i, files);
      StatementsConcat(a, b, p.next, files);
      ConcatFirst(a, a + b, i, p, StatementsFrom(b, 0, 0, files).value, files);
    }
  }

  lemma ConcatParses(a: seq<Token>, b: seq<Token>, us: seq<Token>, i: nat, files: Files) returns (p: Parsed<Statement>)
    requires i < |a| && us == a + b
    requires StatementsFrom(a, i, 0, files).Some? && StatementsFrom(b, 0, 0, files).Some?
    ensures p.At? && i < p.next <= |a| && StatementsFrom(a, p.next, 0, files).Some?
    ensures ParseStatement(a, i) == p == ParseStatement(us, i)
  {
    p := ParseStatement(a, i);
    NextBoundary(a, i, 0, files);
    StatementsBoundary(b, 0, 0, files);
    CopiedBefore(a, b, us, i, p.next);
    ParsesCopied(a, us, i, p);
  }

  lemma ConcatFirst(a: seq<Token>, us: seq<Token>, i: nat, p: Parsed<Statement>, later: seq<Statement>, files: Files)
    requires i < |a| && i < |us| && p.At? && ParseStatement(a, i) == p == ParseStatement(us, i)
    requires StatementsFrom(a, i, 0, files).Some? && StatementsFrom(a, p.next, 0, files).Some?
    requires StatementsFrom(us, p.next, 0, files) == Some(StatementsFrom(a, p.next, 0, files).value + later)
    ensures StatementsFrom(us, i, 0, files) == Some(StatementsFrom(a, i, 0, files).value + later)
  {
    StatementFirst(a, a, i, i, p.next, files);
    StatementFirst(a, us, i, i, p.next, files);
    Associative(p.value, StatementsFrom(a, p.next, 0, files).value, later);
  }

  lemma Associative<T>(item: T, x: seq<T>, y: seq<T>)
    ensures [item] + (x + y) == ([item] + x) + y
  {
  }

  lemma CopiedBefore(a: seq<Token>, b: seq<Token>, us: seq<Token>, i: nat, j: nat)
    requires i < j <= |a| && us == a + b && Boundary(a, j) && Boundary(b, 0)
    ensures CopiedTo(a, i, j, us, 0)
  {
    assert j == |a| && b != [] ==> us[j] == b[0];
    assert j < |a| ==> us[j] == a[j];
  }

  lemma ParsesCopied(a: seq<Token>, us: seq<Token>, i: nat, p: Parsed<Statement>)
    requires i < |a| && p == ParseStatement(a, i) && p.At? && CopiedTo(a, i, p.next, us, 0)
    ensures i < |us| && ParseStatement(us, i) == p
  {
    StatementLocal(a, us, i, 0);
    LocalMeans(p, ParseStatement(us, i), 0);
  }

  lemma ParsesShifted(ts: seq<Token>, us: seq<Token>, i: nat, d: int, p: Parsed<Statement>)
    requires i < |ts| && p == ParseStatement(ts, i) && p.At? && CopiedTo(ts, i, p.next, us, d)
    ensures i + d < |us| && p.next + d >= 0 && ParseStatement(us, i + d) == At(p.value, p.next + d)
  {
    StatementLocal(ts, us, i, d);
    LocalMeans(p, ParseStatement(us, i + d), d);
  }

  lemma LocalMeans(p: Parsed<Statement>, q: Parsed<Statement>, d: int)
    requires Local(p, q, d) && p.At?
    ensures p.next + d >= 0 && q == At(p.value, p.next + d)
  {
  }

  lemma SpliceOne(ts: seq<Token>, k: nat, depth: nat, files: Files)
    requires k < |ts| && !IncludeAt(ts, k)
    ensures Splice(ts, k, depth, files) == [ts[k]] + Splice(ts, k + 1, depth, files)
  {
  }

  lemma FirstOfSlice(ts: seq<Token>, k: nat, j: nat, rest: seq<Token>)
    requires k < j <= |ts|
    ensures [ts[k]] + (ts[k + 1..j] + rest) == ts[k..j] + rest
  {
  }

  /** Nothing inside a statement is spliced. */
  lemma {:induction false} SpliceStatement(ts: seq<Token>, i: nat, k: nat, depth: nat, files: Files)
    requires i < |ts| && ParseStatement(ts, i).At? && Boundary(ts, ParseStatement(ts, i).next)
    requires IncludedFile(ParseStatement(ts, i).value).None?
    requires i <= k <= ParseStatement(ts, i).next <= |ts|
    ensures var j := ParseStatement(ts, i).next;
            Splice(ts, k, depth, files) == ts[k..j] + Splice(ts, j, depth, files)
    decreases |ts| - k
  {
    var j := ParseStatement(ts, i).next;
    if k < j {
      NoIncludeInside(ts, i, k);
      SpliceStatement(ts, i, k + 1, depth, files);
      SpliceOne(ts, k, depth, files);
      FirstOfSlice(ts, k, j, Splice(ts, j, depth, files));
    } else {
      assert ts[k..j] == [];
    }
  }

  lemma NoIncludeInside(ts: seq<Token>, i: nat, k: nat)
    requires i < |ts| && ParseStatement(ts, i).At? && Boundary(ts, ParseStatement(ts, i).next)
    requires IncludedFile(ParseStatement(ts, i).value).None?
    requires i <= k < ParseStatement(ts, i).next <= |ts|
    ensures !IncludeAt(ts, k)
  {
    if IncludeAt(ts, k) && i < k {
      InnerDirective(ts, i, k);
    }
  }

  lemma SpliceInclude(ts: seq<Token>, i: nat, depth: nat, files: Files, name: string)
    requires IncludeAt(ts, i) && ts[i + 1].body.value == name && name in files.sources && depth > 0
    ensures Splice(ts, i, depth, files)
         == Splice(files.sources[name], 0, depth - 1, files) + Splice(ts, i + 2, depth, files)
  {
  }

  lemma IncludeStands(ts: seq<Token>, i: nat, name: string)
    requires i < |ts| && ParseStatement(ts, i).At? && IncludedFile(ParseStatement(ts, i).value) == Some(name)
    ensures IncludeAt(ts, i) && ts[i + 1].body.value == name && ParseStatement(ts, i).next == i + 2
  {
  }

  /** The statements of an include: those of the file, then those of the tokens after it. */
  lemma IncludeStatements(ts: seq<Token>, i: nat, depth: nat, files: Files, name: string)
    requires i < |ts| && StatementsFrom(ts, i, depth, files).Some?
    requires IncludedFile(ParseStatement(ts, i).value) == Some(name)
    ensures name in files.sources && depth > 0
    ensures StatementsFrom(files.sources[name], 0, depth - 1, files).Some?
    ensures StatementsFrom(ts, ParseStatement(ts, i).next, depth, files).Some?
    ensures StatementsFrom(ts, i, depth, files).value
         == StatementsFrom(files.sources[name], 0, depth - 1, files).value
            + StatementsFrom(ts, ParseStatement(ts, i).next, depth, files).value
  {
  }

  lemma IncludedName(ts: seq<Token>, i: nat, depth: nat, files: Files) returns (name: string)
    requires i < |ts| && StatementsFrom(ts, i, depth, files).Some? && IncludedFile(ParseStatement(ts, i).value).Some?
    ensures IncludedFile(ParseStatement(ts, i).value) == Some(name) && name in files.sources && depth > 0
  {
    name := IncludedFile(ParseStatement(ts, i).value).value;
  }

  /** The statements from any other one: itself, then those of the tokens after it. */
  lemma PlainStatements(ts: seq<Token>, i: nat, depth: nat, files: Files)
    requires i < |ts| && StatementsFrom(ts, i, depth, files).Some?
    requires IncludedFile(ParseStatement(ts, i).value).None?
    ensures StatementsFrom(ts, ParseStatement(ts, i).next, depth, files).Some?
    ensures StatementsFrom(ts, i, depth, files).value
         == [ParseStatement(ts, i).value]
            + StatementsFrom(ts, ParseStatement(ts, i).next, depth, files).value
  {
  }

  /** The tokens of one statement in front of complete tokens. */
  lemma OneStatement(ts: seq<Token>, i: nat, rest: seq<Token>, files: Files)
    requires i < |ts| && ParseStatement(ts, i).At? && IncludedFile(ParseStatement(ts, i).value).None?
    requires i < ParseStatement(ts, i).next <= |ts|
    requires StatementsFrom(rest, 0, 0, files).Some?
    ensures StatementsFrom(ts[i..ParseStatement(ts, i).next] + rest, 0, 0, files)
         == Some([ParseStatement(ts, i).value] + StatementsFrom(rest, 0, 0, files).value)
  {
    var j := ParseStatement(ts, i).next;
    var us := ts[i..j] + rest;
    StatementsBoundary(rest, 0, 0, files);
    CopiedFront(ts, i, j, rest, us);
    ParsesShifted(ts, us, i, 0 - (i as int), ParseStatement(ts, i));
    StatementsCopied(rest, us, 0, j - i, files);
    StatementFirst(ts, us, i, 0, j - i, files);
  }

  lemma CopiedFront(ts: seq<Token>, i: nat, j: nat, rest: seq<Token>, us: seq<Token>)
    requires i < j <= |ts| && us == ts[i..j] + rest && Boundary(rest, 0)
    ensures CopiedTo(ts, i, j, us, 0 - (i as int))
  {
    assert rest != [] ==> us[j - i] == rest[0];
  }

  /** What splicing keeps about the tokens from `i` on. */
  ghost predicate Spliced(ts: seq<Token>, i: nat, depth: nat, files: Files) {
    forall us :: us == Splice(ts, i, depth, files) ==> SameStatements(us, ts, i, depth, files)
  }

  ghost predicate SameStatements(us: seq<Token>, ts: seq<Token>, i: nat, depth: nat, files: Files) {
    StatementsFrom(ts, i, depth, files).Some? ==> StatementsFrom(us, 0, 0, files) == StatementsFrom(ts, i, depth, files)
  }

  lemma SplicedInclude(ts: seq<Token>, i: nat, depth: nat, files: Files, name: string)
    requires i < |ts| && StatementsFrom(ts, i, depth, files).Some?
    requires IncludedFile(ParseStatement(ts, i).value) == Some(name) && name in files.sources && depth > 0
    requires Spliced(files.sources[name], 0, depth - 1, files)
    requires Spliced(ts, ParseStatement(ts, i).next, depth, files)
    ensures Spliced(ts, i, depth, files)
  {
    var j := ParseStatement(ts, i).next;
    IncludeStatements(ts, i, depth, files, name);
    IncludeStands(ts, i, name);
    SpliceInclude(ts, i, depth, files, name);
    var inner, rest := Splice(files.sources[name], 0, depth - 1, files), Splice(ts, j, depth, files);
    assert SameStatements(inner, files.sources[name], 0, depth - 1, files) && SameStatements(rest, ts, j, depth, files);
    StatementsConcat(inner, rest, 0, files);
  }

  lemma SplicedStatement(ts: seq<Token>, i: nat, depth: nat, files: Files)
    requires i < |ts| && StatementsFrom(ts, i, depth, files).Some?
    requires IncludedFile(ParseStatement(ts, i).value).None?
    requires Spliced(ts, ParseStatement(ts, i).next, depth, files)
    ensures Spliced(ts, i, depth, files)
  {
    var j := ParseStatement(ts, i).next;
    NextBoundary(ts, i, depth, files);
    PlainStatements(ts, i, depth, files);
    SpliceStatement(ts, i, i, depth, files);
    assert SameStatements(Splice(ts, j, depth, files), ts, j, depth, files);
    OneStatement(ts, i, Splice(ts, j, depth, files), files);
  }

  lemma {:induction false} SplicedFrom(ts: seq<Token>, i: nat, depth: nat, files: Files)
    requires i <= |ts|
    ensures Spliced(ts, i, depth, files)
    decreases depth, |ts| - i
  {
    if i < |ts| && StatementsFrom(ts, i, depth, files).Some? {
      NextBoundary(ts, i, depth, files);
      SplicedFrom(ts, ParseStatement(ts, i).next, depth, files);
      if IncludedFile(ParseStatement(ts, i).value).Some? {
        var name := IncludedName(ts, i, depth, files);
        SplicedFrom(files.sources[name], 0, depth - 1, files);
        SplicedInclude(ts, i, depth, files, name);
      } else {
        SplicedStatement(ts, i, depth, files);
      }
    }
  }

  // ---- Items ---------------------------------------------------------------------------------------------

  /** The items of statements; nothing if one of them throws. */
  function ItemsOf(statements: seq<Statement>, blobs: map<string, seq<byte>>): Option<seq<Item>>
    decreases |statements|
  {
    if statements == [] then Some([])
    else
      var item :- ItemOf(statements[0], blobs);
      var rest :- ItemsOf(statements[1..], blobs);
      Some([item] + rest)
  }

  lemma {:induction false} ItemsOfConcat(a: seq<Statement>, b: seq<Statement>, blobs: map<string, seq<byte>>)
    ensures ItemsOf(a + b, blobs)
         == if ItemsOf(a, blobs).None? || ItemsOf(b, blobs).None? then None
            else Some(ItemsOf(a, blobs).value + ItemsOf(b, blobs).value)
    decreases |a|
  {
    if a == [] {
      assert a + b == b;
      if ItemsOf(b, blobs).Some? {
        assert [] + ItemsOf(b, blobs).value == ItemsOf(b, blobs).value;
      }
    } else {
      assert (a + b)[0] == a[0] && (a + b)[1..] == a[1..] + b;
      ItemsOfConcat(a[1..], b, blobs);
      if ItemOf(a[0], blobs).Some? && ItemsOf(a[1..], blobs).Some? && ItemsOf(b, blobs).Some? {
        Associative(ItemOf(a[0], blobs).value, ItemsOf(a[1..], blobs).value, ItemsOf(b, blobs).value);
      }
    }
  }

  /** What the assembler makes of tokens depends on their statements alone. */
  ghost predicate ByStatements(ts: seq<Token>, i: nat, depth: nat, files: Files) {
    forall statements :: statements == StatementsFrom(ts, i, depth, files) ==>
      ItemsFrom(ts, i, depth, files)
      == if statements.None? then None else ItemsOf(statements.value, files.blobs)
  }

  lemma {:induction false} ItemsByStatements(ts: seq<Token>, i: nat, depth: nat, files: Files)
    ensures ByStatements(ts, i, depth, files)
    decreases depth, |ts| - i
  {
    if i < |ts| && ParseStatement(ts, i).At? {
      var statement, j := ParseStatement(ts, i).value, ParseStatement(ts, i).next;
      StatementAdvances(ts, i);
      ItemsByStatements(ts, j, depth, files);
      var rest := StatementsFrom(ts, j, depth, files);
      if IncludedFile(statement).None? {
        if rest.Some? {
          ItemsOfFirst(statement, rest.value, files.blobs);
        }
      } else if IncludedFile(statement).value in files.sources && depth > 0 {
        ItemsByStatements(files.sources[IncludedFile(statement).value], 0, depth - 1, files);
        IncludeByStatements(ts, i, depth, files, IncludedFile(statement).value);
      }
    }
  }

  lemma IncludeByStatements(ts: seq<Token>, i: nat, depth: nat, files: Files, file: string)
    requires i < |ts| && ParseStatement(ts, i).At? && IncludedFile(ParseStatement(ts, i).value) == Some(file)
    requires file in files.sources && depth > 0
    requires ByStatements(files.sources[file], 0, depth - 1, files)
    requires ByStatements(ts, ParseStatement(ts, i).next, depth, files)
    ensures ByStatements(ts, i, depth, files)
  {
    var inner := StatementsFrom(files.sources[file], 0, depth - 1, files);
    var rest := StatementsFrom(ts, ParseStatement(ts, i).next, depth, files);
    if inner.Some? && rest.Some? {
      ItemsOfConcat(inner.value, rest.value, files.blobs);
    }
  }

  lemma ItemsOfFirst(statement: Statement, rest: seq<Statement>, blobs: map<string, seq<byte>>)
    ensures ItemsOf([statement] + rest, blobs)
         == if ItemOf(statement, blobs).None? || ItemsOf(rest, blobs).None? then None
            else Some([ItemOf(statement, blobs).value] + ItemsOf(rest, blobs).value)
  {
    assert ([statement] + rest)[1..] == rest;
  }

  /**
   Splicing: if every file by itself is a list of complete statements, the program with includes and the spliced
   tokens are accepted or rejected together, with the same items; so a program is accepted exactly if its files
   are complete and the spliced tokens are accepted. Everything the assembler does depends on the items alone.
  */
  lemma IncludeIsSplicing(ts: seq<Token>, depth: nat, files: Files)
    ensures StatementsFrom(ts, 0, depth, files).Some? ==>
              ItemsFrom(Splice(ts, 0, depth, files), 0, 0, files) == ItemsFrom(ts, 0, depth, files)
    ensures ItemsFrom(ts, 0, depth, files).Some? <==>
              StatementsFrom(ts, 0, depth, files).Some? && ItemsFrom(Splice(ts, 0, depth, files), 0, 0, files).Some?
  {
    var spliced := Splice(ts, 0, depth, files);
    ItemsByStatements(ts, 0, depth, files);
    ItemsByStatements(spliced, 0, 0, files);
    if StatementsFrom(ts, 0, depth, files).Some? {
      SplicedFrom(ts, 0, depth, files);
      assert SameStatements(spliced, ts, 0, depth, files);
    }
  }

  /**
   A statement that the end of an included file cuts off: `.include` of a file that ends in `.align`, and then a
   constant. The spliced tokens are accepted, and the program is not.
  */
  lemma CutOffStatement(ts: seq<Token>, files: Files, depth: nat, file: string, v: u128)
    requires |ts| == 3 && ts[0].body == Directive(".include") && ts[1].body == Text(file) && ts[2].body == Constant(v)
    requires file in files.sources && |files.sources[file]| == 1
    requires files.sources[file][0].body == Directive(".align") && depth > 0
    ensures ItemsFrom(ts, 0, depth, files).None?
    ensures ItemsFrom(Splice(ts, 0, depth, files), 0, 0, files) == Some([Align(Low64(v))])
  {
    var source := files.sources[file];
    SpliceAtEnd(source, 1, depth - 1, files);
    SpliceAtEnd(ts, 3, depth, files);
    SpliceOne(source, 0, depth - 1, files);
    SpliceOne(ts, 2, depth, files);
    AlignItem([source[0], ts[2]], files, v);
    assert Splice(ts, 0, depth, files) == [source[0], ts[2]];
    assert ParseStatement(source, 0).Fail?;
  }

  lemma SpliceAtEnd(ts: seq<Token>, i: nat, depth: nat, files: Files)
    requires i == |ts|
    ensures Splice(ts, i, depth, files) == []
  {
  }

  lemma AlignItem(us: seq<Token>, files: Files, v: u128)
    requires |us| == 2 && us[0].body == Directive(".align") && us[1].body == Constant(v)
    ensures ItemsFrom(us, 0, 0, files) == Some([Align(Low64(v))])
  {
    assert ParseStatement(us, 0) == At(DirectiveStatement(AlignDirective, ConstantArgument(v)), 2);
    assert ItemsFrom(us, 2, 0, files) == Some([]);
    assert [Align(Low64(v))] + [] == [Align(Low64(v))];
    var statement := DirectiveStatement(AlignDirective, ConstantArgument(v));
    assert IncludedFile(statement).None? && ItemOf(statement, files.blobs) == Some(Align(Low64(v)));
  }
}
