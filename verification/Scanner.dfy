/** Characters to words (src/raw_split.cpp). */
module Scanner {
  import opened Results
  import opened Tokens
  import opened Tokenizer

  datatype Raw = Raw(name: string, line: nat)

  /** The variables of the loop. */
  datatype Scan = Scan(words: seq<Raw>, word: string, line: nat, quotes: bool, comment: bool, escape: bool)

  function EscapeCharacter(c: char): char {
    match c
    case 'n' => '\n'
    case 'r' => '\r'
    case 't' => '\t'
    case 'b' => 8 as char
    case '0' => 0 as char
    case _ => c
  }

  function Flush(s: Scan): Scan {
    if s.word == "" then s else s.(words := s.words + [Raw(s.word, s.line)], word := "")
  }

  /** Inside quotes: a backslash, even an escaped one, only starts an escape. */
  function Quoted(s: Scan, c: char, escaped: bool): Scan {
    if c == '\\' then s.(escape := true)
    else
      var s' := s.(word := s.word + [c]);
      if c == '"' && !escaped then Flush(s').(quotes := false) else s'
  }

  function Unquoted(s: Scan, c: char): Scan {
    if c == ';' then s.(comment := true)
    else if c == '\\' then s.(escape := true)
    else if c == '+' || c == '-' || c == '*' then Flush(s).(word := [c])
    else if c == '\n' then Flush(s).(line := s.line + 1)
    else if c == ',' || c == ' ' || c == '\t' || c == '\r' then Flush(s)
    else s.(word := s.word + [c], quotes := c == '"')
  }

  /** One character. */
  function Next(s: Scan, c: char): Scan {
    var d := if s.escape then EscapeCharacter(c) else c;
    var s1 := s.(escape := false);
    if s.quotes then Quoted(s1, d, s.escape)
    else if s.comment then if d == '\n' then s1.(comment := false, line := s.line + 1) else s1
    else Unquoted(s1, d)
  }

  function ScanFrom(s: Scan, text: string): Scan
    decreases |text|
  {
    if text == "" then s else ScanFrom(Next(s, text[0]), text[1..])
  }

  const START: Scan := Scan([], "", 1, false, false, false)

  /** The words of a text; a word still pending at the end is one. */
  function WordsOf(text: string): seq<Raw> {
    Flush(ScanFrom(START, text)).words
  }

  /** The tokens of the words, unless one is malformed. */
  function ParseAll(words: seq<Raw>, table: map<string, Body>): Option<seq<Token>>
    decreases |words|
  {
    if words == [] then Some([])
    else if words[|words| - 1].name == "" then None
    else
      var front :- ParseAll(words[..|words| - 1], table);
      var last :- Parse(words[|words| - 1].name, table);
      Some(front + [Token(last, words[|words| - 1].line)])
  }

  // ---- The loop -----------------------------------------------------------------------------------------------

  /** Words still to be parsed never repair one that failed. */
  lemma ParseAllPushed(words: seq<Raw>, w: Raw, table: map<string, Body>)
    requires w.name != ""
    ensures ParseAll(words + [w], table) ==
      if ParseAll(words, table).None? || Parse(w.name, table).None? then None
      else Some(ParseAll(words, table).value + [Token(Parse(w.name, table).value, w.line)])
  {
    assert (words + [w])[..|words|] == words;
  }

  /** The words so far are the first words at the end. */
  lemma {:induction false} WordsStay(s: Scan, text: string)
    ensures s.words <= Flush(ScanFrom(s, text)).words
    decreases |text|
  {
    if text != "" {
      WordsStay(Next(s, text[0]), text[1..]);
    }
  }

  lemma {:induction false} FailureStays(a: seq<Raw>, b: seq<Raw>, table: map<string, Body>)
    requires a <= b && ParseAll(a, table).None?
    ensures ParseAll(b, table).None?
    decreases |b|
  {
    if a != b {
      assert a <= b[..|b| - 1];
      FailureStays(a, b[..|b| - 1], table);
    }
  }

  /** `FLUSH_WORD`: parses the pending word. */
  method FlushWord(tokens: seq<Token>, word: string, line: nat, table: map<string, Body>)
    returns (ok: bool, out: seq<Token>)
    ensures ok <==> word == "" || Parse(word, table).Some?
    ensures ok ==> out == if word == "" then tokens else tokens + [Token(Parse(word, table).value, line)]
  {
    out := tokens;
    if word == "" {
      return true, out;
    }
    var body := Parse(word, table);
    ok := body.Some?;
    if ok {
      out := tokens + [Token(body.value, line)];
    }
  }

  /** The tokens of a text are those of its words. */
  ghost predicate Read(s: Scan, tokens: seq<Token>, table: map<string, Body>) {
    ParseAll(s.words, table) == Some(tokens)
  }

  lemma FlushRead(s: Scan, tokens: seq<Token>, table: map<string, Body>)
    requires Read(s, tokens, table)
    ensures ParseAll(Flush(s).words, table) ==
      if s.word == "" then Some(tokens)
      else if Parse(s.word, table).None? then None
      else Some(tokens + [Token(Parse(s.word, table).value, s.line)])
  {
    if s.word != "" {
      ParseAllPushed(s.words, Raw(s.word, s.line), table);
    }
  }

  /** `split`. */
  method Split(text: string, table: map<string, Body>) returns (result: Option<seq<Token>>)
    ensures result == ParseAll(WordsOf(text), table)
  {
    var tokens: seq<Token>, word, line := [], "", 1;
    var beginQuotes, beginComment, beginEscape := false, false, false;
    ghost var s := START;
    var i := 0;
    assert text[0..] == text;
    while i < |text|
      invariant 0 <= i <= |text|
      invariant s == Scan(s.words, word, line, beginQuotes, beginComment, beginEscape)
      invariant ScanFrom(START, text) == ScanFrom(s, text[i..])
      invariant Read(s, tokens, table)
    {
      var c, isEscaped, ok := text[i], beginEscape, true;
      ghost var next := Next(s, c);
      assert text[i..][0] == c && text[i..][1..] == text[i + 1..];
      if beginEscape {
        c := EscapeCharacter(c);
        beginEscape := false;
      }
      if beginQuotes {
        if c == '\\' {
          beginEscape := true;
        } else {
          word := word + [c];
          if c == '"' && !isEscaped {
            FlushRead(s.(word := word), tokens, table);
            ok, tokens := FlushWord(tokens, word, line, table);
            word, beginQuotes := "", false;
          }
        }
      } else if beginComment {
        if c == '\n' {
          beginComment := false;
          line := line + 1;
        }
      } else {
        match c {
          case ';' => beginComment := true;
          case '\\' => beginEscape := true;
          case '+' | '-' | '*' =>
            FlushRead(s, tokens, table);
            ok, tokens := FlushWord(tokens, word, line, table);
            word := [c];
          case ',' | ' ' | '\t' | '\n' | '\r' =>
            FlushRead(s, tokens, table);
            ok, tokens := FlushWord(tokens, word, line, table);
            word := "";
            if c == '\n' {
              line := line + 1;
            }
          case _ =>
            beginQuotes := c == '"';
            word := word + [c];
        }
      }
      if !ok {
        WordsStay(next, text[i + 1..]);
        FailureStays(next.words, WordsOf(text), table);
        return None;
      }
      s := next;
      i := i + 1;
    }
    FlushRead(s, tokens, table);
    var ok: bool;
    ok, tokens := FlushWord(tokens, word, line, table);
    result := if ok then Some(tokens) else None;
  }

  lemma {:induction false} ScanConcat(s: Scan, a: string, b: string)
    ensures ScanFrom(s, a + b) == ScanFrom(ScanFrom(s, a), b)
    decreases |a|
  {
    if a == "" {
      assert a + b == b;
    } else {
      assert (a + b)[0] == a[0] && (a + b)[1..] == a[1..] + b;
      ScanConcat(Next(s, a[0]), a[1..], b);
    }
  }

  lemma ScanOne(s: Scan, c: char)
    ensures ScanFrom(s, [c]) == Next(s, c)
  {
    assert [c][1..] == "";
  }

  lemma ScanTwo(s: Scan, c: char, d: char)
    ensures ScanFrom(s, [c, d]) == Next(Next(s, c), d)
  {
    assert [c, d][1..] == [d];
    ScanOne(Next(s, c), d);
  }

  // ---- Backslashes ----------------------------------------------------------------------------------------------

  ghost predicate Clean(s: Scan) {
    '\\' !in s.word && forall i :: 0 <= i < |s.words| ==> '\\' !in s.words[i].name
  }

  lemma CleanNext(s: Scan, c: char)
    requires Clean(s)
    ensures Clean(Next(s, c))
  {
  }

  lemma {:induction false} CleanFrom(s: Scan, text: string)
    requires Clean(s)
    ensures Clean(ScanFrom(s, text))
    decreases |text|
  {
    if text != "" {
      CleanNext(s, text[0]);
      CleanFrom(Next(s, text[0]), text[1..]);
    }
  }

  /** No word of any text contains a backslash: escaping one only starts another escape. */
  lemma NoBackslash(text: string)
    ensures forall i :: 0 <= i < |WordsOf(text)| ==> '\\' !in WordsOf(text)[i].name
  {
    CleanFrom(START, text);
  }

  // ---- Strings ----------------------------------------------------------------------------------------------------

  function Escaped(c: char): string {
    if c == '"' then ['\\', '"']
    else if c == '\n' then ['\\', 'n']
    else if c == '\r' then ['\\', 'r']
    else if c == '\t' then ['\\', 't']
    else if c == 8 as char then ['\\', 'b']
    else if c == 0 as char then ['\\', '0']
    else [c]
  }

  function EscapedAll(t: string): string {
    if t == "" then "" else Escaped(t[0]) + EscapedAll(t[1..])
  }

  /** A string literal for `t`. */
  function Quote(t: string): string {
    ['"'] + EscapedAll(t) + ['"']
  }

  lemma ScanEscape(s: Scan, d: char, c: char)
    requires s.quotes && !s.escape && EscapeCharacter(d) == c && c != '\\'
    ensures ScanFrom(s, ['\\', d]) == s.(word := s.word + [c])
  {
    ScanTwo(s, '\\', d);
  }

  lemma ScanEscapedOne(s: Scan, c: char)
    requires s.quotes && !s.escape && c != '\\'
    ensures ScanFrom(s, Escaped(c)) == s.(word := s.word + [c])
  {
    if c == '"' {
      ScanEscape(s, '"', c);
    } else if c == '\n' {
      ScanEscape(s, 'n', c);
    } else if c == '\r' {
      ScanEscape(s, 'r', c);
    } else if c == '\t' {
      ScanEscape(s, 't', c);
    } else if c == 8 as char {
      ScanEscape(s, 'b', c);
    } else if c == 0 as char {
      ScanEscape(s, '0', c);
    } else {
      ScanOne(s, c);
    }
  }

  lemma {:induction false} ScanEscaped(s: Scan, t: string)
    requires s.quotes && !s.escape && '\\' !in t
    ensures ScanFrom(s, EscapedAll(t)) == s.(word := s.word + t)
    decreases |t|
  {
    if t == "" {
      assert s.word + t == s.word;
    } else {
      ScanConcat(s, Escaped(t[0]), EscapedAll(t[1..]));
      ScanEscapedOne(s, t[0]);
      ScanEscaped(s.(word := s.word + [t[0]]), t[1..]);
      assert (s.word + [t[0]]) + t[1..] == s.word + t;
    }
  }

  /** Between words, outside quotes and comments. */
  predicate Neutral(s: Scan) {
    s.word == "" && !s.quotes && !s.comment && !s.escape
  }

  /** A literal, scanned between words, is one word: the string in quotes. */
  lemma ScanQuote(s: Scan, t: string)
    requires Neutral(s) && '\\' !in t
    ensures ScanFrom(s, Quote(t)) == s.(words := s.words + [Raw(['"'] + t + ['"'], s.line)])
  {
    var unclosed := s.(word := ['"'], quotes := true);
    ScanConcat(s, ['"'] + EscapedAll(t), ['"']);
    ScanConcat(s, ['"'], EscapedAll(t));
    ScanOne(s, '"');
    assert "" + ['"'] == ['"'];
    ScanEscaped(unclosed, t);
    ScanOne(unclosed.(word := ['"'] + t), '"');
  }

  /** The table holds what the source's tables hold. */
  ghost predicate Handlers(table: map<string, Body>) {
    forall w :: w in table ==> table[w].Op? || table[w].Register? || table[w].Pseudo?
  }

  lemma OneWord(w: Raw, table: map<string, Body>)
    requires w.name != ""
    ensures ParseAll([w], table) ==
      if Parse(w.name, table).None? then None else Some([Token(Parse(w.name, table).value, w.line)])
  {
    ParseAllPushed([], w, table);
    assert [] + [w] == [w];
    if Parse(w.name, table).Some? {
      var token := Token(Parse(w.name, table).value, w.line);
      assert [] + [token] == [token];
    }
  }

  /** String round trip: the literal of a string is one string token with that value. */
  lemma StringRoundTrip(t: string, table: map<string, Body>)
    requires '\\' !in t
    ensures ParseAll(WordsOf(Quote(t)), table) == Some([Token(Text(t), 1)])
  {
    ScanQuote(START, t);
    var w := ['"'] + t + ['"'];
    assert w[1..|w| - 1] == t;
    assert [] + [Raw(w, 1)] == [Raw(w, 1)];
    OneWord(Raw(w, 1), table);
  }

  lemma WordOfText(word: string, t: string, table: map<string, Body>)
    requires word != "" && Handlers(table) && Parse(word, table) == Some(Text(t)) && '\\' !in word
    ensures '\\' !in t
  {
  }

  /** Exactly the strings without a backslash can be written. */
  lemma StringsWritable(t: string, table: map<string, Body>)
    requires Handlers(table)
    ensures (exists text: string :: ParseAll(WordsOf(text), table) == Some([Token(Text(t), 1)])) <==> '\\' !in t
  {
    if '\\' !in t {
      StringRoundTrip(t, table);
    }
    if text: string :| ParseAll(WordsOf(text), table) == Some([Token(Text(t), 1)]) {
      var words := WordsOf(text);
      NoBackslash(text);
      var last := words[|words| - 1];
      LastWord(words, t, table);
      WordOfText(last.name, t, table);
    }
  }

  lemma LastWord(words: seq<Raw>, t: string, table: map<string, Body>)
    requires ParseAll(words, table) == Some([Token(Text(t), 1)])
    ensures words != [] && words[|words| - 1].name != "" && Parse(words[|words| - 1].name, table) == Some(Text(t))
  {
    var front := ParseAll(words[..|words| - 1], table).value;
    var last := Parse(words[|words| - 1].name, table).value;
    assert (front + [Token(last, words[|words| - 1].line)])[|front|] == Token(last, words[|words| - 1].line);
    assert |front| == 0;
  }

  /** What a literal that is never closed becomes: its last character is taken for the quote, or for a label's. */
  function UnclosedBody(t: string): Body {
    if t == "" then Text("")
    else if t[|t| - 1] == ':' then Label(['"'] + t[..|t| - 1])
    else Text(t[..|t| - 1])
  }

  lemma UnclosedWord(t: string, table: map<string, Body>)
    ensures Parse(['"'] + t, table) == Some(UnclosedBody(t))
  {
    var w := ['"'] + t;
    if t != "" {
      assert w[|w| - 1] == t[|t| - 1];
      assert w[1..|w| - 1] == t[..|t| - 1];
      assert w[..|w| - 1] == ['"'] + t[..|t| - 1];
    }
  }

  lemma UnclosedRead(t: string, table: map<string, Body>)
    requires '\\' !in t
    ensures ParseAll(WordsOf(['"'] + EscapedAll(t)), table) == Some([Token(UnclosedBody(t), 1)])
  {
    var unclosed := START.(word := ['"'], quotes := true);
    ScanConcat(START, ['"'], EscapedAll(t));
    ScanOne(START, '"');
    assert "" + ['"'] == ['"'];
    ScanEscaped(unclosed, t);
    assert [] + [Raw(['"'] + t, 1)] == [Raw(['"'] + t, 1)];
    OneWord(Raw(['"'] + t, 1), table);
    UnclosedWord(t, table);
  }

  lemma UnclosedDiffers(t: string)
    requires t != ""
    ensures UnclosedBody(t) != Text(t)
  {
    assert |t[..|t| - 1]| != |t|;
  }

  /** A string literal that is never closed has its value exactly if it is empty. */
  lemma UnclosedExact(t: string, table: map<string, Body>)
    requires '\\' !in t
    ensures ParseAll(WordsOf(['"'] + EscapedAll(t)), table) == Some([Token(Text(t), 1)]) <==> t == ""
  {
    UnclosedRead(t, table);
    if t != "" {
      UnclosedDiffers(t);
    }
    if ParseAll(WordsOf(['"'] + EscapedAll(t)), table) == Some([Token(Text(t), 1)]) {
      assert [Token(UnclosedBody(t), 1)][0] == [Token(Text(t), 1)][0];
    }
  }

  /** Otherwise it loses its last character; at a colon it is not even a string. */
  lemma UnclosedLosesLast(t: string, table: map<string, Body>)
    requires t != "" && '\\' !in t
    ensures ParseAll(WordsOf(['"'] + EscapedAll(t)), table)
         == Some([Token(if t[|t| - 1] == ':' then Label(['"'] + t[..|t| - 1]) else Text(t[..|t| - 1]), 1)])
  {
    UnclosedRead(t, table);
  }

  // ---- Comments -------------------------------------------------------------------------------------------------

  lemma {:induction false} CommentSkipped(s: Scan, x: string)
    requires s.comment && !s.quotes && !s.escape && '\n' !in x
    ensures ScanFrom(s, x) == s
    decreases |x|
  {
    if x != "" {
      CommentSkipped(s, x[1..]);
    }
  }

  /** A comment up to the end of its line is a bare newline exactly when no word is pending where it begins. */
  lemma CommentIsNewline(s: Scan, x: string)
    requires !s.quotes && !s.comment && !s.escape && '\n' !in x
    ensures ScanFrom(s, [';'] + x + ['\n']) == ScanFrom(s, ['\n']) <==> s.word == ""
  {
    var inside := s.(comment := true);
    ScanConcat(s, [';'] + x, ['\n']);
    ScanConcat(s, [';'], x);
    ScanOne(s, ';');
    CommentSkipped(inside, x);
    ScanOne(inside, '\n');
    ScanOne(s, '\n');
  }

  /** So the whole text has the same words, on the same lines. */
  lemma CommentRemoved(before: string, x: string, after: string)
    requires Neutral(ScanFrom(START, before)) && '\n' !in x
    ensures WordsOf(before + ([';'] + x + ['\n']) + after) == WordsOf(before + ['\n'] + after)
  {
    var s := ScanFrom(START, before);
    CommentIsNewline(s, x);
    ScanConcat(START, before + ([';'] + x + ['\n']), after);
    ScanConcat(START, before, [';'] + x + ['\n']);
    ScanConcat(START, before + ['\n'], after);
    ScanConcat(START, before, ['\n']);
  }
}
