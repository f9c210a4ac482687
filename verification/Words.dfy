/** The host program's fixed-width integers, as mathematical integers with the widths written out. */
module Words {

  const P32: int := 0x1_0000_0000
  const P64: int := 0x1_0000_0000_0000_0000
  const P128: int := 0x1_0000_0000_0000_0000_0000_0000_0000_0000

  type byte = n: int | 0 <= n < 0x100
  type u32 = n: int | 0 <= n < 0x1_0000_0000
  type u64 = n: int | 0 <= n < 0x1_0000_0000_0000_0000
  type u128 = n: int | 0 <= n < 0x1_0000_0000_0000_0000_0000_0000_0000_0000

  /** Truncation to 128 bits: what every `address_t` operation does. */
  function Wrap(x: int): u128 {
    x % 0x1_0000_0000_0000_0000_0000_0000_0000_0000
  }

  /** Conversions to signed types: the value congruent to `x` in the signed range. */
  function S12(x: int): int {
    var r := x % 0x1000;
    if r < 0x800 then r else r - 0x1000
  }

  function S32(x: int): int {
    var r := x % 0x1_0000_0000;
    if r < 0x8000_0000 then r else r - 0x1_0000_0000
  }

  function S64(x: int): int {
    var r := x % 0x1_0000_0000_0000_0000;
    if r < 0x8000_0000_0000_0000 then r else r - 0x1_0000_0000_0000_0000
  }

  function S128(x: int): int {
    var r := Wrap(x);
    if r < 0x8000_0000_0000_0000_0000_0000_0000_0000 then r
    else r - 0x1_0000_0000_0000_0000_0000_0000_0000_0000
  }

  lemma WrapAdd(a: int, b: int)
    ensures Wrap(Wrap(a) + b) == Wrap(a + b) == Wrap(a + Wrap(b)) == Wrap(Wrap(a) + Wrap(b))
  {
    var qa, qb := a / P128, b / P128;
    assert a == P128 * qa + Wrap(a) && b == P128 * qb + Wrap(b);
    WrapMultiple(Wrap(a) + b, qa);
    WrapMultiple(a + Wrap(b), qb);
    WrapMultiple(Wrap(a) + Wrap(b), qa + qb);
  }

  lemma WrapMultiple(a: int, q: int)
    ensures Wrap(a + P128 * q) == Wrap(a)
  {
  }

  lemma WrapShift32(a: int)
    ensures Wrap(Wrap(a) * 0x1_0000_0000) == Wrap(a * 0x1_0000_0000)
  {
    var q := a / P128;
    assert a == P128 * q + Wrap(a);
    assert a * P32 == Wrap(a) * P32 + P128 * (q * P32);
    WrapMultiple(Wrap(a) * P32, q * P32);
  }

  /** Two 128-bit values that agree as signed numbers are the same word. */
  lemma WrapSigned(x: int)
    ensures Wrap(S128(x)) == Wrap(x)
    ensures -0x8000_0000_0000_0000_0000_0000_0000_0000 <= S128(x) < 0x8000_0000_0000_0000_0000_0000_0000_0000
  {
  }

  /** The signed value is the only representative in the signed range. */
  lemma SignedUnique(x: int, y: int)
    requires Wrap(x) == Wrap(y)
    requires -0x8000_0000_0000_0000_0000_0000_0000_0000 <= y < 0x8000_0000_0000_0000_0000_0000_0000_0000
    ensures S128(x) == y
  {
  }

  /** A 32-bit value and its signed reading have the same bits. */
  lemma LowWord(x: int)
    ensures S32(x) % 0x1_0000_0000 == x % 0x1_0000_0000 && S32(x % 0x1_0000_0000) == S32(x)
  {
  }

  // ---- Powers of two and bitwise operators ---------------------------------------------------

  function Pow2(k: nat): (p: nat)
    ensures p > 0
  {
    if k == 0 then 1 else 2 * Pow2(k - 1)
  }

  datatype BitOperator = And | Or | Xor

  function Bit(op: BitOperator, a: nat, b: nat): nat {
    match op
    case And => if a == 1 && b == 1 then 1 else 0
    case Or => if a == 1 || b == 1 then 1 else 0
    case Xor => if a != b then 1 else 0
  }

  /** `x op y`, bit by bit. */
  function Bitwise(op: BitOperator, x: nat, y: nat): nat
    decreases x + y
  {
    if x == 0 && y == 0 then 0
    else 2 * Bitwise(op, x / 2, y / 2) + Bit(op, x % 2, y % 2)
  }

  /** `x op y` on 128-bit operands. */
  function Bitwise128(op: BitOperator, x: u128, y: u128): u128 {
    Pow2At128();
    BitwiseWidth(op, x, y, 128);
    Bitwise(op, x, y)
  }

  /** `x & ~m`. */
  function AndNot(x: nat, m: nat): nat {
    if x == 0 then 0 else 2 * AndNot(x / 2, m / 2) + (if m % 2 == 1 then 0 else x % 2)
  }

  /** Bitwise operators stay within the width of their operands. */
  lemma {:induction false} BitwiseWidth(op: BitOperator, x: nat, y: nat, k: nat)
    requires x < Pow2(k) && y < Pow2(k)
    ensures Bitwise(op, x, y) < Pow2(k)
    decreases k
  {
    if k != 0 {
      BitwiseWidth(op, x / 2, y / 2, k - 1);
    }
  }

  lemma Pow2At128()
    ensures Pow2(128) == P128
  {
    Pow2Sum(64, 64);
    Pow2At64();
  }

  lemma Pow2At64()
    ensures Pow2(64) == P64
  {
    Pow2Sum(32, 32);
    Pow2At32();
  }

  lemma Pow2At32()
    ensures Pow2(32) == P32
  {
    Pow2Sum(16, 16);
    Pow2Sum(8, 8);
    assert Pow2(8) == 256 by {
      Pow2Sum(4, 4);
      assert Pow2(4) == 16 by { Pow2Sum(2, 2); assert Pow2(2) == 4; }
    }
  }

  lemma {:induction false} Pow2Sum(a: nat, b: nat)
    ensures Pow2(a + b) == Pow2(a) * Pow2(b)
  {
    if a != 0 {
      Pow2Sum(a - 1, b);
    }
  }

  /** An OR keeps every low bit of both operands, so it is zero modulo a power of two only if both are. */
  lemma {:induction false} OrLowBits(x: nat, y: nat, k: nat)
    ensures Bitwise(Or, x, y) % Pow2(k) == 0 <==> x % Pow2(k) == 0 && y % Pow2(k) == 0
    decreases k
  {
    if k != 0 {
      var p := Pow2(k - 1);
      OrLowBits(x / 2, y / 2, k - 1);
      HalfMod(x, p);
      HalfMod(y, p);
      HalfMod(Bitwise(Or, x, y), p);
      assert Bitwise(Or, x, y) / 2 == Bitwise(Or, x / 2, y / 2);
    }
  }

  /** `x` is a multiple of `2p` exactly when it is even and its half is a multiple of `p`. */
  lemma HalfMod(x: nat, p: nat)
    requires p > 0
    ensures x % (2 * p) == 2 * (x / 2 % p) + x % 2
  {
    var h := x / 2;
    var q := h / p;
    assert x == 2 * h + x % 2 && h == p * q + h % p;
    assert x == (2 * p) * q + (2 * (h % p) + x % 2);
    ModUnique(x, 2 * p, q, 2 * (h % p) + x % 2);
  }

  lemma ModUnique(x: int, d: int, q: int, r: int)
    requires d > 0 && 0 <= r < d && x == d * q + r
    ensures x % d == r && x / d == q
  {
    var q' := x / d;
    assert d * (q' - q) == r - x % d && d * (q - q') == x % d - r;
    if q' > q {
      MulAtLeast(d, q' - q);
    } else if q' < q {
      MulAtLeast(d, q - q');
    }
  }

  lemma ModMod(x: int, a: int, b: int)
    requires a > 0 && b > 0
    ensures a * b > 0 && x % (a * b) % a == x % a
  {
    var q := x / (a * b);
    var r := x % (a * b);
    assert x == a * (b * q + r / a) + r % a;
    ModUnique(x, a, b * q + r / a, r % a);
  }

  lemma ScaleMod(v: int, s: int, m: int)
    requires s > 0 && m > 0
    ensures s * m > 0 && v * s % (s * m) == s * (v % m)
  {
    var q, r := v / m, v % m;
    assert v * s == (s * m) * q + s * r;
    MulAtLeast(s, m - r);
    ModUnique(v * s, s * m, q, s * r);
  }

  lemma DivDiv(x: int, a: int, b: int)
    requires a > 0 && b > 0
    ensures a * b > 0 && x / a / b == x / (a * b)
  {
    var q := x / a;
    var r := x % a + a * (q % b);
    assert x == a * q + x % a && q == b * (q / b) + q % b;
    assert x == (a * b) * (q / b) + r;
    MulAtMost(a, q % b, b - 1);
    ModUnique(x, a * b, q / b, r);
  }

  lemma MulAtMost(a: int, x: int, y: int)
    requires a >= 0 && 0 <= x <= y
    ensures 0 <= a * x <= a * y
  {
  }

  lemma MulAtLeast(d: int, k: int)
    requires d > 0 && k >= 1
    ensures d * k >= d
  {
    assert d * (k - 1) >= 0;
  }

  /** Clearing the bits of `m` lowers a number by at most `m`. */
  lemma {:induction false} AndNotBounds(x: nat, m: nat)
    ensures x - m <= AndNot(x, m) <= x
  {
    if x != 0 {
      AndNotBounds(x / 2, m / 2);
    }
  }

  /** Clearing the low `k` bits rounds down to a multiple of `2^k`. */
  lemma {:induction false} AndNotPow2(x: nat, k: nat)
    ensures AndNot(x, Pow2(k) - 1) == x - x % Pow2(k)
    ensures AndNot(x, Pow2(k) - 1) % Pow2(k) == 0
    decreases k
  {
    if k == 0 {
      AndNotZero(x);
    } else if x != 0 {
      var h := Pow2(k - 1);
      AndNotPow2(x / 2, k - 1);
      HalfMod(x, h);
      AndNotStep(x, h);
    }
    RoundedDown(x, Pow2(k));
  }

  lemma AndNotStep(x: nat, h: nat)
    requires x != 0 && h > 0
    ensures AndNot(x, 2 * h - 1) == 2 * AndNot(x / 2, h - 1)
  {
    assert (2 * h - 1) % 2 == 1 && (2 * h - 1) / 2 == h - 1;
  }

  lemma RoundedDown(x: nat, p: nat)
    requires p > 0
    ensures (x - x % p) % p == 0
  {
    var q := x / p;
    assert x - x % p == p * q;
    ModUnique(p * q, p, q, 0);
  }

  lemma {:induction false} AndNotZero(x: nat)
    ensures AndNot(x, 0) == x
  {
    if x != 0 {
      AndNotZero(x / 2);
    }
  }

  // ---- Little-endian bytes --------------------------------------------------------------------

  /** `c` lies at `at` in `bytes`. */
  predicate LiesAt(bytes: seq<byte>, at: int, c: seq<byte>) {
    0 <= at && at + |c| <= |bytes| && bytes[at..at + |c|] == c
  }

  /** The `n` low bytes of `x`, least significant first. */
  function LittleEndian(x: nat, n: nat): (bytes: seq<byte>)
    ensures |bytes| == n
  {
    if n == 0 then [] else [x % 0x100] + LittleEndian(x / 0x100, n - 1)
  }

  function FromLittleEndian(bytes: seq<byte>): nat {
    if bytes == [] then 0 else bytes[0] + 0x100 * FromLittleEndian(bytes[1..])
  }

  function Pow256(n: nat): (p: nat)
    ensures p > 0
  {
    if n == 0 then 1 else 0x100 * Pow256(n - 1)
  }

  /** Reading back `n` bytes of `x` gives `x` truncated to those bytes. */
  lemma {:induction false} LittleEndianRoundTrip(x: nat, n: nat)
    ensures FromLittleEndian(LittleEndian(x, n)) == x % Pow256(n)
  {
    if n != 0 {
      LittleEndianRoundTrip(x / 0x100, n - 1);
      BytesMod(x, Pow256(n - 1));
      assert LittleEndian(x, n)[1..] == LittleEndian(x / 0x100, n - 1);
    }
  }

  lemma BytesMod(x: nat, p: nat)
    requires p > 0
    ensures x % (0x100 * p) == 0x100 * (x / 0x100 % p) + x % 0x100
  {
    var h := x / 0x100;
    var q := h / p;
    assert x == 0x100 * h + x % 0x100 && h == p * q + h % p;
    assert x == (0x100 * p) * q + (0x100 * (h % p) + x % 0x100);
    ModUnique(x, 0x100 * p, q, 0x100 * (h % p) + x % 0x100);
  }
}
