/**
 What single words are (src/tokenizer.cpp:8-76): labels, directives, operators, names, and the constants of binary,
 decimal and character words.
*/
module Numbers {
  import opened Words
  import opened Results
  import opened Tokens
  import opened Tokenizer

  // ---- Names ------------------------------------------------------------------------------------------------

  /** A name with a colon behind it is a label. */
  lemma LabelWord(name: string, table: map<string, Body>)
    requires name != "" && name[0] != '.'
    ensures Parse(name + ":", table) == Some(Label(name))
  {
    var word := name + ":";
    assert word[0] == name[0] && word[|word| - 1] == ':' && word[..|word| - 1] == name;
  }

  lemma DirectiveWord(name: string, table: map<string, Body>)
    ensures Parse("." + name, table) == Some(Directive("." + name))
  {
  }

  lemma OperatorWord(word: string, table: map<string, Body>)
    requires word == "+" || word == "-" || word == "*" || word == "/" || word == "<<" || word == ">>" || word == "%"
          || word == "|" || word == "&" || word == "^" || word == "~"
    ensures Parse(word, table) == Some(Operator(word))
  {
  }

  /** Any other word that does not look like a number or a literal is what the tables say, or a symbol. */
  lemma NameWord(word: string, table: map<string, Body>)
    requires word != "" && word[|word| - 1] != ':' && word[0] !in {'.', '"', '\'', '+', '-'} && !('0' <= word[0] <= '9')
    requires word !in {"*", "/", "<<", ">>", "%", "|", "&", "^", "~"}
    ensures Parse(word, table) == Some(if word in table then table[word] else Symbol(word))
  {
  }

  // ---- Digits -----------------------------------------------------------------------------------------------

  /** The `n` last digits of a number, in a base up to ten. */
  function DigitsOf(v: nat, n: nat, base: nat): (s: string)
    requires 2 <= base <= 10
    ensures |s| == n && forall i :: 0 <= i < n ==> '0' <= s[i] <= '9'
  {
    if n == 0 then "" else DigitsOf(v / base, n - 1, base) + ['0' + (v % base) as char]
  }

  /** They are all its digits. */
  predicate HasDigits(v: nat, n: nat, base: nat)
    requires 2 <= base
  {
    if n == 0 then v == 0 else HasDigits(v / base, n - 1, base)
  }

  lemma {:induction false} DigitsRead(v: nat, n: nat, base: nat)
    requires 2 <= base <= 10 && HasDigits(v, n, base)
    ensures AllDigits(DigitsOf(v, n, base), base) && Value(DigitsOf(v, n, base), base) == v
    decreases n
  {
    if n > 0 {
      var q, d := v / base, v % base;
      DigitsRead(q, n - 1, base);
      LastRead(d, base);
      ValueAppended(DigitsOf(q, n - 1, base), '0' + d as char, base, q, d);
      Recomposed(v, base, q, d);
    }
  }

  lemma ValueAppended(front: string, c: char, base: nat, v: nat, d: nat)
    requires AllDigits(front, base) && Value(front, base) == v && DigitValue(c) == Some(d) && d < base
    ensures AllDigits(front + [c], base) && Value(front + [c], base) == v * base + d
  {
    var s := front + [c];
    assert s[..|s| - 1] == front;
  }

  lemma Recomposed(v: nat, base: nat, q: nat, d: nat)
    requires base > 0 && q == v / base && d == v % base
    ensures v == q * base + d
  {
  }

  lemma LastRead(d: nat, base: nat)
    requires d < base <= 10
    ensures DigitValue('0' + d as char) == Some(d) && IsDigit('0' + d as char, base)
  {
  }

  /** Nothing comes before the digits. */
  lemma NoPrefix(s: string)
    requires s != "" && forall i :: 0 <= i < |s| ==> '0' <= s[i] <= '9'
    ensures SkipSpace(s, 0) == 0 && SkipSign(s, 0) == 0
  {
  }

  /** A binary constant is its number. */
  lemma BinaryWord(v: nat, n: nat, table: map<string, Body>)
    requires n > 0 && HasDigits(v, n, 2) && v < 0x1_0000_0000_0000_0000
    ensures Parse("0b" + DigitsOf(v, n, 2), table) == Some(Constant(v))
  {
    var s := DigitsOf(v, n, 2);
    DigitsRead(v, n, 2);
    StoullBinary(s, v);
    ParseBinary("0b" + s, s, v, table);
  }

  lemma StoullBinary(s: string, v: nat)
    requires s != "" && AllDigits(s, 2) && Value(s, 2) == v < 0x1_0000_0000_0000_0000
    requires forall i :: 0 <= i < |s| ==> '0' <= s[i] <= '9'
    ensures Stoull(s, 2) == Some(v)
  {
    NoPrefix(s);
    WholeRun(s, 0, 2);
    assert s[0..|s|] == s;
  }

  lemma ParseBinary(word: string, s: string, v: u64, table: map<string, Body>)
    requires s != "" && word == "0b" + s && Stoull(s, 2) == Some(v) && '0' <= s[|s| - 1] <= '9'
    ensures Parse(word, table) == Some(Constant(v))
  {
    assert word[2..] == s;
    assert word[|word| - 1] == s[|s| - 1];
  }

  /** A decimal constant is its number, as far as `atoi` goes. */
  lemma DecimalWord(v: nat, n: nat, table: map<string, Body>)
    requires n > 0 && HasDigits(v, n, 10) && v <= 0x7FFF_FFFF
    ensures Parse(DigitsOf(v, n, 10), table) == Some(Constant(v))
  {
    var s := DigitsOf(v, n, 10);
    DigitsRead(v, n, 10);
    AtoiUnsigned(s, v);
    SignedValue('+', v, v);
    ParseDecimal(s, v, v, table);
  }

  /** A sign in front of it counts at 64 bits. */
  lemma SignedWord(sign: char, v: nat, n: nat, c: nat, table: map<string, Body>)
    requires n > 0 && HasDigits(v, n, 10) && v <= 0x7FFF_FFFF
    requires (sign == '+' && c == v) || (sign == '-' && v > 0 && c == 0x1_0000_0000_0000_0000 - v)
    ensures Parse([sign] + DigitsOf(v, n, 10), table) == Some(Constant(c))
  {
    var s := DigitsOf(v, n, 10);
    DigitsRead(v, n, 10);
    AtoiSigned(sign, s, v);
    SignedValue(sign, v, c);
    ParseDecimal([sign] + s, if sign == '-' then 0 - (v as int) else v, c, table);
  }

  lemma SignedValue(sign: char, v: nat, c: nat)
    requires v <= 0x7FFF_FFFF
    requires (sign == '+' && c == v) || (sign == '-' && v > 0 && c == 0x1_0000_0000_0000_0000 - v)
    ensures c == (if sign == '-' then 0 - (v as int) else v) % 0x1_0000_0000_0000_0000
  {
    if sign == '-' {
      ModUnique(0 - (v as int), P64, -1, P64 - v);
    } else {
      ModUnique(v, P64, 0, v);
    }
  }

  lemma AtoiUnsigned(s: string, v: nat)
    requires s != "" && AllDigits(s, 10) && Value(s, 10) == v <= 0x7FFF_FFFF
    requires forall i :: 0 <= i < |s| ==> '0' <= s[i] <= '9'
    ensures Atoi(s) == Some(v)
  {
    NoPrefix(s);
    WholeRun(s, 0, 10);
    assert s[0..|s|] == s;
  }

  lemma AtoiSigned(sign: char, s: string, v: nat)
    requires s != "" && AllDigits(s, 10) && Value(s, 10) == v <= 0x7FFF_FFFF && (sign == '+' || sign == '-')
    requires forall i :: 0 <= i < |s| ==> '0' <= s[i] <= '9'
    ensures Atoi([sign] + s) == Some(if sign == '-' then 0 - (v as int) else v)
  {
    var word := [sign] + s;
    OneSign(word);
    RunBehind(sign, s, 0);
    assert word[1..|word|] == s;
    AtoiFrom(word, 0, 1, |word|, v, if sign == '-' then 0 - (v as int) else v);
  }

  lemma AtoiFrom(word: string, i: nat, j: nat, k: nat, v: nat, n: int)
    requires i < |word| && SkipSpace(word, 0) == i && SkipSign(word, i) == j && RunOfDigits(word, j, 10) == k
    requires j <= k <= |word| && Value(word[j..k], 10) == v <= 0x7FFF_FFFF
    requires n == if i < j && word[i] == '-' then 0 - (v as int) else v
    ensures Atoi(word) == Some(n)
  {
  }

  lemma OneSign(word: string)
    requires word != "" && (word[0] == '+' || word[0] == '-')
    ensures SkipSpace(word, 0) == 0 && SkipSign(word, 0) == 1
  {
  }

  lemma {:induction false} RunBehind(sign: char, s: string, i: nat)
    requires i <= |s| && AllDigits(s, 10)
    ensures RunOfDigits([sign] + s, i + 1, 10) == |s| + 1
    decreases |s| - i
  {
    if i < |s| {
      assert ([sign] + s)[i + 1] == s[i];
      RunBehind(sign, s, i + 1);
    }
  }

  lemma ParseDecimal(word: string, n: int, c: u128, table: map<string, Body>)
    requires word != "" && StartsNumber(word[0]) && '0' <= word[|word| - 1] <= '9'
    requires |word| > 1 ==> '0' <= word[1] <= '9'
    requires Atoi(word) == Some(n) && c == n % 0x1_0000_0000_0000_0000
    ensures Parse(word, table) == Some(Constant(c))
  {
    assert !IsOperator(word);
    DecimalExact(word, n, c, table);
  }

  // ---- Characters -------------------------------------------------------------------------------------------

  /** A character in quotes is its number, signed if it is not ASCII. */
  lemma CharacterWord(c: char, table: map<string, Body>)
    requires c as int < 0x100
    ensures c as int < 0x80 ==> Parse(['\'', c, '\''], table) == Some(Constant(c as int))
    ensures c as int >= 0x80 ==>
              Parse(['\'', c, '\''], table) == Some(Constant(0x1_0000_0000_0000_0000 + c as int - 0x100))
  {
  }
}
