/**
 Where words end (src/raw_split.cpp:27-97): what separators, signs, escapes and quotes do to a text, at any place
 between words.
*/
module Splitting {
  import opened Results
  import opened Tokens
  import opened Tokenizer
  import opened Scanner

  /** A space, a tab, a carriage return, a newline or a comma. */
  predicate Separates(c: char) {
    c == ' ' || c == '\t' || c == '\r' || c == '\n' || c == ','
  }

  /** A sign that starts a word of its own. */
  predicate Signs(c: char) {
    c == '+' || c == '-' || c == '*'
  }

  /** Characters of a word that is just its characters. */
  predicate Plain(a: string) {
    forall i :: 0 <= i < |a| ==>
      !Separates(a[i]) && !Signs(a[i]) && a[i] != '"' && a[i] != ';' && a[i] != '\\'
  }

  /** Outside quotes, comments and escapes. */
  predicate Open(s: Scan) {
    !s.quotes && !s.comment && !s.escape
  }

  lemma {:induction false} PlainScan(s: Scan, a: string)
    requires Open(s) && Plain(a)
    ensures ScanFrom(s, a) == s.(word := s.word + a)
    decreases |a|
  {
    if a == "" {
      assert s.word + a == s.word;
    } else {
      PlainNext(s, a[0]);
      PlainScan(s.(word := s.word + [a[0]]), a[1..]);
      assert s.word + [a[0]] + a[1..] == s.word + a;
    }
  }

  lemma PlainNext(s: Scan, c: char)
    requires Open(s) && Plain([c])
    ensures Next(s, c) == s.(word := s.word + [c])
  {
    assert [c][0] == c;
  }

  /** A sign ends the word before it and starts the next. */
  lemma SignNext(s: Scan, c: char)
    requires Open(s) && s.word != "" && Signs(c)
    ensures Next(s, c) == s.(words := s.words + [Raw(s.word, s.line)], word := [c])
  {
  }

  /** A separator ends the word before it and is part of none; a newline also ends its line. */
  lemma SeparatorNext(s: Scan, c: char)
    requires Open(s) && s.word != "" && Separates(c)
    ensures Next(s, c) == s.(words := s.words + [Raw(s.word, s.line)], word := "",
                             line := if c == '\n' then s.line + 1 else s.line)
  {
  }

  /** Between words, separators do nothing but count lines, and a sign starts a word. */
  lemma BetweenWords(s: Scan, c: char)
    requires Neutral(s)
    ensures Separates(c) ==> Next(s, c) == s.(line := if c == '\n' then s.line + 1 else s.line)
    ensures Signs(c) ==> Next(s, c) == s.(word := [c])
    ensures c == ';' ==> Next(s, c) == s.(comment := true)
  {
  }

  /** Two words around a character, the second still pending. */
  lemma TwoWordsScan(s: Scan, a: string, c: char, b: string)
    requires Neutral(s) && a != "" && Plain(a) && Plain(b) && (Signs(c) || Separates(c))
    ensures ScanFrom(s, a + [c] + b) ==
      s.(words := s.words + [Raw(a, s.line)], word := if Signs(c) then [c] + b else b,
         line := if c == '\n' then s.line + 1 else s.line)
  {
    var first := s.(word := a);
    ScanConcat(s, a + [c], b);
    ScanConcat(s, a, [c]);
    PlainScan(s, a);
    assert "" + a == a;
    ScanOne(first, c);
    var second := Next(first, c);
    if Signs(c) {
      SignNext(first, c);
    } else {
      SeparatorNext(first, c);
      assert "" + b == b;
    }
    PlainScan(second, b);
  }

  /** The words of a text that ends in two words around a character. */
  lemma TwoWords(before: string, a: string, c: char, b: string)
    requires Neutral(ScanFrom(START, before)) && a != "" && b != "" && Plain(a) && Plain(b)
    ensures var s := ScanFrom(START, before); var words := WordsOf(before + (a + [c] + b));
      && (Signs(c) ==> words == s.words + [Raw(a, s.line), Raw([c] + b, s.line)])
      && (Separates(c) ==>
            words == s.words + [Raw(a, s.line), Raw(b, if c == '\n' then s.line + 1 else s.line)])
  {
    var s := ScanFrom(START, before);
    ScanConcat(START, before, a + [c] + b);
    if Signs(c) || Separates(c) {
      TwoWordsScan(s, a, c, b);
      var r := ScanFrom(s, a + [c] + b);
      assert Flush(r).words == s.words + [Raw(a, s.line)] + [Raw(r.word, r.line)];
    }
  }

  /** From the start of a text: both words, the second on line 2 exactly after a newline. */
  lemma TwoWordsOnly(a: string, c: char, b: string)
    requires a != "" && b != "" && Plain(a) && Plain(b)
    ensures Signs(c) ==> WordsOf(a + [c] + b) == [Raw(a, 1), Raw([c] + b, 1)]
    ensures Separates(c) ==> WordsOf(a + [c] + b) == [Raw(a, 1), Raw(b, if c == '\n' then 2 else 1)]
  {
    TwoWords("", a, c, b);
    assert "" + (a + [c] + b) == a + [c] + b;
    assert START.words == [];
    assert [] + [Raw(a, 1), Raw([c] + b, 1)] == [Raw(a, 1), Raw([c] + b, 1)];
    assert [] + [Raw(a, 1), Raw(b, 2)] == [Raw(a, 1), Raw(b, 2)];
    assert [] + [Raw(a, 1), Raw(b, 1)] == [Raw(a, 1), Raw(b, 1)];
  }

  /** The scanner is between words again behind a separator: texts can be read word by word. */
  lemma WordThenSeparator(s: Scan, a: string, c: char)
    requires Neutral(s) && a != "" && Plain(a) && Separates(c)
    ensures Neutral(ScanFrom(s, a + [c]))
    ensures ScanFrom(s, a + [c]).words == s.words + [Raw(a, s.line)]
    ensures ScanFrom(s, a + [c]).line == if c == '\n' then s.line + 1 else s.line
  {
    TwoWordsScan(s, a, c, "");
    assert a + [c] + "" == a + [c];
  }

  /** What an escape stands for in a literal: the numbers of the ASCII table. */
  lemma EscapesMean(s: Scan, e: char, d: char)
    requires s.quotes && !s.escape && d != '\\'
    requires (e == 'n' && d as int == 10) || (e == 'r' && d as int == 13) || (e == 't' && d as int == 9)
          || (e == 'b' && d as int == 8) || (e == '0' && d as int == 0)
          || (e in {'\'', '"'} && d == e) || (e !in {'n', 'r', 't', 'b', '0', '\\'} && d == e)
    ensures ScanFrom(s, ['\\', e]) == s.(word := s.word + [d])
  {
    ScanEscape(s, e, d);
  }

  /** Outside of literals, an escape is read as the character it stands for. */
  lemma EscapesOutside(s: Scan, e: char, d: char)
    requires Open(s)
    requires (e == 'n' && d as int == 10) || (e == 'r' && d as int == 13) || (e == 't' && d as int == 9)
          || (e == 'b' && d as int == 8) || (e == '0' && d as int == 0) || (e !in {'n', 'r', 't', 'b', '0'} && d == e)
    ensures ScanFrom(s, ['\\', e]) == ScanFrom(s, [d])
  {
    ScanTwo(s, '\\', e);
    ScanOne(s, d);
  }

  /** A literal between words is one word, and the scanner is between words behind it. */
  lemma LiteralWord(s: Scan, t: string)
    requires Neutral(s) && '\\' !in t
    ensures Neutral(ScanFrom(s, Quote(t)))
    ensures ScanFrom(s, Quote(t)).words == s.words + [Raw(['"'] + t + ['"'], s.line)]
  {
    ScanQuote(s, t);
  }
}
