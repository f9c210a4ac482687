/** One word to one token (src/tokenizer.cpp), with `std::stoull` and `atoi` as their standards describe them. */
module Tokenizer {
  import opened Words
  import opened Results
  import opened Tokens
  import opened Hex

  // ---- Numbers in text ------------------------------------------------------------------------------------

  function DigitValue(c: char): Option<nat> {
    if '0' <= c <= '9' then Some((c - '0') as int)
    else if 'A' <= c <= 'Z' then Some((c - 'A') as int + 10)
    else if 'a' <= c <= 'z' then Some((c - 'a') as int + 10)
    else None
  }

  predicate IsDigit(c: char, base: nat) {
    DigitValue(c).Some? && DigitValue(c).value < base
  }

  predicate AllDigits(s: string, base: nat) {
    forall i :: 0 <= i < |s| ==> IsDigit(s[i], base)
  }

  /** The end of the run of digits from `i` on. */
  function RunOfDigits(s: string, i: nat, base: nat): (j: nat)
    requires i <= |s|
    ensures i <= j <= |s| && AllDigits(s[i..j], base)
    decreases |s| - i
  {
    if i < |s| && IsDigit(s[i], base) then
      var j := RunOfDigits(s, i + 1, base);
      assert s[i..j] == [s[i]] + s[i + 1..j];
      j
    else i
  }

  function Value(s: string, base: nat): nat
    requires AllDigits(s, base)
  {
    if s == "" then 0
    else
      assert forall i :: 0 <= i < |s| - 1 ==> s[..|s| - 1][i] == s[i];
      Value(s[..|s| - 1], base) * base + DigitValue(s[|s| - 1]).value
  }

  predicate IsSpace(c: char) {
    c == ' ' || '\t' <= c <= '\r'
  }

  function SkipSpace(s: string, i: nat): (j: nat)
    requires i <= |s|
    ensures i <= j <= |s|
    decreases |s| - i
  {
    if i < |s| && IsSpace(s[i]) then SkipSpace(s, i + 1) else i
  }

  function SkipSign(s: string, i: nat): (j: nat)
    requires i <= |s|
    ensures i <= j <= |s|
  {
    if i < |s| && (s[i] == '-' || s[i] == '+') then i + 1 else i
  }

  /** `0x` in front of a hex digit. */
  function SkipPrefix(s: string, i: nat): (j: nat)
    requires i <= |s|
    ensures i <= j <= |s|
  {
    if i + 2 < |s| && s[i] == '0' && (s[i + 1] == 'x' || s[i + 1] == 'X') && IsDigit(s[i + 2], 16) then i + 2 else i
  }

  /** `std::stoull`: the longest number at the start, or an exception for none or one too large. */
  function Stoull(s: string, base: nat): Option<u64> {
    var i := SkipSpace(s, 0);
    var j := SkipSign(s, i);
    var k := if base == 16 then SkipPrefix(s, j) else j;
    var end := RunOfDigits(s, k, base);
    if end == k then None
    else
      var v := Value(s[k..end], base);
      if v >= 0x1_0000_0000_0000_0000 then None
      else Some(if s[i] == '-' then (0 - v) % 0x1_0000_0000_0000_0000 else v)
  }

  /** `atoi`, undefined outside the range of an `int`; 0 when there is no number. */
  function Atoi(s: string): Option<int> {
    var i := SkipSpace(s, 0);
    var j := SkipSign(s, i);
    var v := Value(s[j..RunOfDigits(s, j, 10)], 10);
    var n: int := if i < j && s[i] == '-' then 0 - (v as int) else v;
    if -0x8000_0000 <= n <= 0x7FFF_FFFF then Some(n) else None
  }

  // ---- Words ------------------------------------------------------------------------------------------------

  predicate IsOperator(word: string) {
    word in {"+", "-", "*", "/", "<<", ">>", "%", "|", "&", "^", "~"}
  }

  predicate StartsNumber(c: char) {
    c == '-' || c == '+' || '0' <= c <= '9'
  }

  /** The constant of a number: 64 bits of it, or 128 for hex beyond 16 digits. */
  function Number(word: string): Option<u128>
    requires word != ""
  {
    if |word| > 2 && word[1] == 'x' then
      if |word| > 18 then
        var upper :- Stoull(word[2..|word| - 16], 16);
        var lower :- Stoull(word[|word| - 16..], 16);
        Some(Joined(upper, lower))
      else
        var value :- Stoull(word[2..], 16);
        Some(value)
    else if |word| > 2 && word[1] == 'b' then
      var value :- Stoull(word[2..], 2);
      Some(value)
    else
      var value :- Atoi(word);
      Some(value % 0x1_0000_0000_0000_0000)
  }

  function Joined(upper: u64, lower: u64): u128 {
    (upper as int) * 0x1_0000_0000_0000_0000 + lower
  }

  /** A character in quotes, sign-extended to 64 bits. */
  function CharacterConstant(c: char): u64 {
    var byte := c as int % 0x100;
    if byte < 0x80 then byte else 0xFFFF_FFFF_FFFF_FF00 + byte
  }

  /** `parse`. `table` stands for the opcodes, registers and pseudo-ops; a word in none of them is a symbol. */
  function Parse(word: string, table: map<string, Body>): Option<Body>
    requires word != ""
  {
    if word[0] == '.' then Some(Directive(word))
    else if word[|word| - 1] == ':' then Some(Label(word[..|word| - 1]))
    else if word[0] == '"' then Some(Text(if |word| == 1 then "" else word[1..|word| - 1]))
    else if word[0] == '\'' then
      if |word| > 2 && word[2] == '\'' then Some(Constant(CharacterConstant(word[1]))) else None
    else if IsOperator(word) then Some(Operator(word))
    else if StartsNumber(word[0]) then
      var value :- Number(word);
      Some(Constant(value))
    else if word in table then Some(table[word])
    else Some(Symbol(word))
  }

  // ---- Hex round trip -----------------------------------------------------------------------------------------

  /** The digits the printer uses. */
  lemma PrintedDigit(d: nat)
    requires d < 16
    ensures IsDigit(Digit(d), 16) && DigitValue(Digit(d)) == Some(d)
    ensures '0' <= Digit(d) <= '9' || 'A' <= Digit(d) <= 'F'
  {
    if d < 10 {
      assert DIGITS[d] == '0' + d as char;
    } else {
      assert DIGITS[d] == 'A' + (d - 10) as char;
    }
  }

  predicate Printed(s: string) {
    forall i :: 0 <= i < |s| ==> '0' <= s[i] <= '9' || 'A' <= s[i] <= 'F'
  }

  /** Printed digits read back as the number, as far as there are digits. */
  lemma {:induction false} DigitsValue(v: nat, n: nat)
    ensures Printed(HexDigits(v, n)) && AllDigits(HexDigits(v, n), 16)
    ensures Value(HexDigits(v, n), 16) == v % Pow16(n)
    decreases n
  {
    if n > 0 {
      DigitsValue(v / 16, n - 1);
      PrintedDigit(v % 16);
      var s := HexDigits(v, n);
      assert s[..n - 1] == HexDigits(v / 16, n - 1);
      RemainderTwice(v, Pow16(n - 1));
    }
  }

  lemma RemainderTwice(v: nat, p: nat)
    requires p > 0
    ensures v / 16 % p * 16 + v % 16 == v % (16 * p)
  {
    var q := v / 16 / p;
    var r := v / 16 % p;
    assert v / 16 == p * q + r;
    assert v == 16 * (p * q + r) + v % 16;
    assert v == (16 * p) * q + (16 * r + v % 16);
    ModUnique(v, 16 * p, q, 16 * r + v % 16);
  }

  lemma {:induction false} WholeRun(s: string, i: nat, base: nat)
    requires i <= |s| && AllDigits(s, base)
    ensures RunOfDigits(s, i, base) == |s|
    decreases |s| - i
  {
    if i < |s| {
      WholeRun(s, i + 1, base);
    }
  }

  /** Reading printed digits: no space, sign or prefix comes into it. */
  lemma ReadsPrinted(s: string)
    requires s != "" && Printed(s) && AllDigits(s, 16)
    ensures Stoull(s, 16) == if Value(s, 16) < 0x1_0000_0000_0000_0000 then Some(Value(s, 16)) else None
  {
    assert SkipSpace(s, 0) == 0 && SkipSign(s, 0) == 0 && SkipPrefix(s, 0) == 0;
    WholeRun(s, 0, 16);
    assert s[0..|s|] == s;
  }

  lemma {:induction false} DigitsSplit(v: nat, a: nat, b: nat)
    ensures HexDigits(v, a + b) == HexDigits(Shifted(v, b), a) + HexDigits(v, b)
    decreases b
  {
    if b == 0 {
      assert HexDigits(v, a) + "" == HexDigits(v, a);
    } else {
      DigitsSplit(v / 16, a, b - 1);
      var upper := HexDigits(Shifted(v, b), a);
      assert (upper + HexDigits(v / 16, b - 1)) + [Digit(v % 16)]
             == upper + (HexDigits(v / 16, b - 1) + [Digit(v % 16)]);
    }
  }

  lemma ReadsDigits(v: nat, n: nat)
    requires 0 < n <= 16 && v < Pow16(n)
    ensures Stoull(HexDigits(v, n), 16) == Some(v)
  {
    Pow16At32();
    Pow16Monotone(n, 16);
    DigitsValue(v, n);
    ModUnique(v, Pow16(n), 0, v);
    ReadsPrinted(HexDigits(v, n));
  }

  lemma ShortNumber(v: u128, n: nat, word: string)
    requires 0 < n <= 16 && v < Pow16(n) && word == "0x" + HexDigits(v, n)
    ensures Number(word) == Some(v)
  {
    assert word[2..] == HexDigits(v, n);
    ReadsDigits(v, n);
  }

  lemma JoinedNumber(word: string, upper: string, lower: string, u: u64, l: u64)
    requires |upper| > 0 && |lower| == 16 && word == "0x" + (upper + lower)
    requires Stoull(upper, 16) == Some(u) && Stoull(lower, 16) == Some(l)
    ensures Number(word) == Some(Joined(u, l))
  {
    JoinedSlices(word, upper, lower);
  }

  lemma JoinedSlices(word: string, upper: string, lower: string)
    requires |upper| > 0 && |lower| == 16 && word == "0x" + (upper + lower)
    ensures |word| > 18 && word[1] == 'x' && word[2..|word| - 16] == upper && word[|word| - 16..] == lower
  {
    assert word[2..|word| - 16] == upper;
    assert word[|word| - 16..] == lower;
  }

  lemma JoinedHalves(v: u128)
    ensures Joined(v / 0x1_0000_0000_0000_0000, v % 0x1_0000_0000_0000_0000) == v
  {
  }

  lemma LongNumber(v: u128, m: nat, word: string)
    requires 0 < m <= 16 && v < Pow16(m + 16) && word == "0x" + HexDigits(v, m + 16)
    ensures Number(word) == Some(v)
  {
    DigitsSplit(v, m, 16);
    UpperHalf(v, m);
    ReadsDigits(Shifted(v, 16), m);
    LowerHalf(v);
    JoinedHalves(v);
    JoinedNumber(word, HexDigits(Shifted(v, 16), m), HexDigits(v, 16), Shifted(v, 16), v % 0x1_0000_0000_0000_0000);
  }

  /**
   Hex round trip: `0x` and the digits that `to_hex` reports are read as the number, across the split at
   sixteen digits.
  */
  lemma HexRoundTrip(v: u128, n: nat, table: map<string, Body>)
    requires IsHexLength(v, n)
    ensures Parse("0x" + HexDigits(v, n), table) == Some(Constant(v))
  {
    var word := "0x" + HexDigits(v, n);
    LastDigit(v, n);
    if n <= 16 {
      ShortNumber(v, n, word);
    } else {
      LongNumber(v, n - 16, word);
    }
    NumberWord(word, table);
  }

  lemma NumberWord(word: string, table: map<string, Body>)
    requires |word| > 2 && word[0] == '0' && word[|word| - 1] != ':' && Number(word).Some?
    ensures Parse(word, table) == Some(Constant(Number(word).value))
  {
  }

  lemma LastDigit(v: u128, n: nat)
    requires n > 0
    ensures var word := "0x" + HexDigits(v, n); word[|word| - 1] != ':' && word[0] == '0' && word[1] == 'x'
  {
    PrintedDigit(v % 16);
  }

  lemma UpperHalf(v: u128, m: nat)
    requires v < Pow16(m + 16)
    ensures Shifted(v, 16) == v / 0x1_0000_0000_0000_0000 && Shifted(v, 16) < Pow16(m)
  {
    Pow16At32();
    ShiftedQuotient(v, 16);
    ShiftedSum(v, 16, m);
    NothingLost(v, m + 16);
    NothingLost(Shifted(v, 16), m);
  }

  lemma LowerHalf(v: u128)
    ensures Stoull(HexDigits(v, 16), 16) == Some(v % 0x1_0000_0000_0000_0000)
  {
    Pow16At32();
    DigitsValue(v, 16);
    ReadsPrinted(HexDigits(v, 16));
  }

  /** Decimal constants are 64 bits wide, so a 128-bit constant is the number exactly if that is not negative. */
  lemma DecimalExact(word: string, n: int, c: u128, table: map<string, Body>)
    requires word != "" && StartsNumber(word[0]) && !IsOperator(word) && word[|word| - 1] != ':'
    requires |word| > 2 ==> word[1] != 'x' && word[1] != 'b'
    requires Atoi(word) == Some(n) && c == n % 0x1_0000_0000_0000_0000
    ensures Parse(word, table) == Some(Constant(c))
    ensures c == Wrap(n) <==> n >= 0
  {
  }

  /** Decimal constants are 64 bits wide: `-1` is 2^64 - 1, not 2^128 - 1. */
  lemma MinusOne(table: map<string, Body>)
    ensures Parse("-1", table) == Some(Constant(0xFFFF_FFFF_FFFF_FFFF))
  {
    var s := "-1";
    assert RunOfDigits(s, 1, 10) == 2;
    assert s[1..2] == "1";
    assert Value("1", 10) == 1 by {
      assert "1"[..0] == "";
    }
    assert Atoi(s) == Some(-1);
  }
}
