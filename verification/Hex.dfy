/** The hex printer (src/hex128.cpp). */
module Hex {
  import opened Words

  function Pow16(n: nat): (p: nat)
    ensures p > 0
  {
    if n == 0 then 1 else 16 * Pow16(n - 1)
  }

  lemma {:induction false} Pow16Sum(a: nat, b: nat)
    ensures Pow16(a + b) == Pow16(a) * Pow16(b)
  {
    if a != 0 {
      Pow16Sum(a - 1, b);
      assert 16 * (Pow16(a - 1) * Pow16(b)) == (16 * Pow16(a - 1)) * Pow16(b);
    }
  }

  const DIGITS: string := "0123456789ABCDEF"

  function Digit(d: nat): char
    requires d < 16
  {
    DIGITS[d]
  }

  /** The `n` low hex digits of a number, the most significant first. */
  function HexDigits(v: nat, n: nat): (s: string)
    ensures |s| == n
  {
    if n == 0 then "" else HexDigits(v / 16, n - 1) + [Digit(v % 16)]
  }

  /** `v >> (4 * k)`. */
  function Shifted(v: nat, k: nat): nat {
    if k == 0 then v else Shifted(v / 16, k - 1)
  }

  lemma {:induction false} ShiftedQuotient(v: nat, k: nat)
    ensures Shifted(v, k) == v / Pow16(k)
    decreases k
  {
    if k == 0 {
      assert v / 1 == v;
    } else {
      ShiftedQuotient(v / 16, k - 1);
      QuotientTwice(v, Pow16(k - 1));
    }
  }

  lemma QuotientTwice(v: nat, p: nat)
    requires p > 0
    ensures v / 16 / p == v / (16 * p)
  {
    var q := v / 16 / p;
    var r := v / 16 % p;
    assert v / 16 == p * q + r;
    assert v == 16 * (p * q + r) + v % 16;
    assert v == (16 * p) * q + (16 * r + v % 16);
    ModUnique(v, 16 * p, q, 16 * r + v % 16);
  }

  /** A digit by its place: `k` from the right. */
  lemma {:induction false} DigitAt(v: nat, n: nat, k: nat)
    requires k < n
    ensures HexDigits(v, n)[n - 1 - k] == Digit(Shifted(v, k) % 16)
    decreases n
  {
    if k > 0 {
      DigitAt(v / 16, n - 1, k - 1);
    }
  }

  lemma {:induction false} ShiftedSum(v: nat, a: nat, b: nat)
    ensures Shifted(Shifted(v, a), b) == Shifted(v, a + b)
    decreases a
  {
    if a > 0 {
      ShiftedSum(v / 16, a - 1, b);
    }
  }

  /** Digits are lost exactly when something is left after shifting them out. */
  lemma {:induction false} NothingLost(v: nat, n: nat)
    ensures v < Pow16(n) <==> Shifted(v, n) == 0
    decreases n
  {
    if n > 0 {
      NothingLost(v / 16, n - 1);
    }
  }

  /** The number of digits printed: the least even number from 8 on that loses none. */
  ghost predicate IsHexLength(v: u128, n: nat) {
    && n % 2 == 0 && 8 <= n <= 32 && v < Pow16(n)
    && forall m :: 8 <= m < n && m % 2 == 0 ==> Pow16(m) <= v
  }

  lemma {:induction false} Pow16Monotone(a: nat, b: nat)
    requires a <= b
    ensures Pow16(a) <= Pow16(b)
    decreases b
  {
    if a < b {
      Pow16Monotone(a, b - 1);
    }
  }

  lemma Pow16At32()
    ensures Pow16(32) == P128 && Pow16(16) == P64
  {
    Pow16Sum(16, 16);
    Pow16Sum(8, 8);
    Pow16Sum(4, 4);
    assert Pow16(4) == 0x10000 by { Pow16Sum(2, 2); assert Pow16(2) == 0x100; }
  }

  /** `(value >> (8 * k)) & 0xFF`. */
  function ByteAt(v: u128, k: nat): nat {
    Shifted(v, 2 * k) % 0x100
  }

  /** A zero byte above which all is zero: the number is shorter by two digits. */
  lemma ShorterByByte(v: u128, k: nat)
    requires Shifted(v, 2 * k + 2) == 0
    ensures Shifted(v, 2 * k) == 0 <==> ByteAt(v, k) == 0
    ensures Shifted(v, 2 * k) < 0x100
  {
    ShiftedSum(v, 2 * k, 2);
    var x := Shifted(v, 2 * k);
    assert Shifted(x / 16, 1) == x / 16 / 16;
    assert Shifted(x, 2) == Shifted(x / 16, 1);
    assert x < 0x100;
  }

  lemma LengthFound(v: u128, n: nat)
    requires n % 2 == 0 && 8 <= n <= 32 && Shifted(v, n) == 0 && (n > 8 ==> Shifted(v, n - 2) != 0)
    ensures IsHexLength(v, n)
  {
    NothingLost(v, n);
    forall m | 8 <= m < n && m % 2 == 0
      ensures Pow16(m) <= v
    {
      NothingLost(v, n - 2);
      Pow16Monotone(m, n - 2);
    }
  }

  /** One byte of the output. */
  lemma TwoDigits(v: u128, max: nat, i: nat)
    requires i < max
    ensures var digits := HexDigits(v, 2 * max); var k := 2 * (max - 1 - i);
      && digits[2 * i] == Digit(Shifted(v, k + 1) % 16) && digits[2 * i + 1] == Digit(Shifted(v, k) % 16)
  {
    DigitAt(v, 2 * max, 2 * (max - 1 - i) + 1);
    DigitAt(v, 2 * max, 2 * (max - 1 - i));
  }

  /** The first loop of `to_hex`. */
  method HexLength(value: u128) returns (len: nat)
    ensures IsHexLength(value, len)
  {
    Pow16At32();
    NothingLost(value, 32);
    len := 8;
    var i := 0;
    while i < 12
      invariant 0 <= i <= 12 && len == 8
      invariant Shifted(value, 32 - 2 * i) == 0
    {
      ShorterByByte(value, 15 - i);
      if ByteAt(value, 15 - i) != 0 {
        len := 32 - i * 2;
        LengthFound(value, len);
        return;
      }
      i := i + 1;
    }
    LengthFound(value, len);
  }

  /** `to_hex`: nothing for a buffer that may be too small, else the digits; the rest of the buffer stays. */
  method ToHex(buffer: array<char>, value: u128) returns (len: nat)
    modifies buffer
    ensures buffer.Length < 32 ==> len == 0 && buffer[..] == old(buffer[..])
    ensures buffer.Length >= 32 ==> IsHexLength(value, len)
    ensures buffer.Length >= 32 ==> buffer[..] == HexDigits(value, len) + old(buffer[len..])
  {
    if buffer.Length < 32 {
      return 0;
    }
    len := HexLength(value);
    var max := len / 2;
    ghost var digits, was := HexDigits(value, len), buffer[..];
    var i := 0;
    while i < max
      invariant 0 <= i <= max && len == 2 * max <= buffer.Length == |was|
      invariant forall k :: 0 <= k < 2 * i ==> buffer[k] == digits[k]
      invariant forall k :: 2 * i <= k < buffer.Length ==> buffer[k] == was[k]
    {
      TwoDigits(value, max, i);
      var k := 2 * (max - 1 - i);
      buffer[i * 2] := DIGITS[Shifted(value, k + 1) % 16];
      buffer[i * 2 + 1] := DIGITS[Shifted(value, k) % 16];
      i := i + 1;
    }
    assert buffer[..] == digits + was[len..];
  }

  /** `to_hex_string`: always 32 characters, the digits and then NUL. */
  method ToHexString(value: u128) returns (result: string, ghost len: nat)
    ensures |result| == 32 && IsHexLength(value, len) && result[..len] == HexDigits(value, len)
    ensures forall k :: len <= k < 32 ==> result[k] == '\0'
  {
    var buffer := new char[32](_ => '\0');
    var n := ToHex(buffer, value);
    len := n;
    result := buffer[..];
  }
}
