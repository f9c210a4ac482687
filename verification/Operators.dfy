/**
 What each operator of a constant chain computes (src/assemble.cpp:225-302), by its name and without the functions
 that compute it.
*/
module Operators {
  import opened Words
  import opened Results
  import opened Tokens
  import opened Constants

  /** `a name b` at `i`, and then neither a constant nor an operator. */
  ghost predicate Binary(ts: seq<Token>, i: nat, a: u128, name: string, b: u128) {
    && i + 2 < |ts| && ts[i].body == Constant(a) && ts[i + 1].body == Operator(name) && ts[i + 2].body == Constant(b)
    && !AtConstant(ts, i + 3) && !AtOperator(ts, i + 3)
  }

  /** `a name ~b` at `i`. */
  ghost predicate BinaryNot(ts: seq<Token>, i: nat, a: u128, name: string, b: u128) {
    && i + 3 < |ts| && ts[i].body == Constant(a) && ts[i + 1].body == Operator(name)
    && ts[i + 2].body == Operator("~") && ts[i + 3].body == Constant(b)
    && !AtConstant(ts, i + 4) && !AtOperator(ts, i + 4)
  }

  /** Bit `k` of a number. */
  function BitAt(v: nat, k: nat): nat {
    v / Pow2(k) % 2
  }

  // ---- The chain --------------------------------------------------------------------------------------------

  lemma ChainOfOne(ts: seq<Token>, i: nat, op: BinaryOp, negated: bool, sum: u128, value: u128)
    requires i < |ts| && ts[i].body.Constant? && !AtConstant(ts, i + 1) && !AtOperator(ts, i + 1)
    requires value == if negated then Complement(ts[i].body.constant) else ts[i].body.constant
    ensures Chain(ts, i, Some(op), negated, sum)
         == if Apply(op, sum, value).None? then Fail else At(Apply(op, sum, value).value, i + 1)
  {
    if Apply(op, sum, value).Some? {
      assert Chain(ts, i + 1, Some(op), false, Apply(op, sum, value).value) == At(Apply(op, sum, value).value, i + 1);
    }
  }

  /** An operator that is not one of the ten, and not `~`, is an error. */
  lemma ResolveBinary(ts: seq<Token>, i: nat, a: u128, name: string, b: u128, op: Option<BinaryOp>)
    requires Binary(ts, i, a, name, b) && name != "~" && op == BinaryOpOf(name)
    ensures Resolve(ts, i)
         == if op.None? || Apply(op.value, a, b).None? then Fail else At(Apply(op.value, a, b).value, i + 3)
  {
    if op.Some? {
      ChainOfOne(ts, i + 2, op.value, false, a, b);
    }
    assert Resolve(ts, i) == Chain(ts, i + 1, None, false, a);
  }

  lemma ResolveBinaryNot(ts: seq<Token>, i: nat, a: u128, name: string, b: u128, op: Option<BinaryOp>)
    requires BinaryNot(ts, i, a, name, b) && name != "~" && op == BinaryOpOf(name)
    ensures Resolve(ts, i)
         == if op.None? || Apply(op.value, a, Complement(b)).None? then Fail
            else At(Apply(op.value, a, Complement(b)).value, i + 4)
  {
    if op.Some? {
      ChainOfOne(ts, i + 3, op.value, true, a, Complement(b));
      assert Chain(ts, i + 2, op, false, a) == Chain(ts, i + 3, op, true, a);
    }
    assert Resolve(ts, i) == Chain(ts, i + 1, None, false, a);
  }

  // ---- Arithmetic -------------------------------------------------------------------------------------------

  /** The number that differs by a multiple of 2^128. */
  ghost predicate Modulo(v: u128, x: int) {
    exists q: int :: x == v + P128 * q
  }

  lemma WrapModulo(v: u128, x: int)
    requires v == Wrap(x)
    ensures Modulo(v, x)
  {
    assert x == v + P128 * (x / P128);
  }

  lemma SumMeans(ts: seq<Token>, i: nat, a: u128, b: u128)
    requires Binary(ts, i, a, "+", b)
    ensures Resolve(ts, i).At? && Resolve(ts, i).next == i + 3 && Modulo(Resolve(ts, i).value, a + b)
  {
    ResolveBinary(ts, i, a, "+", b, Some(Add));
    WrapModulo(Wrap(a + b), a + b);
  }

  /** A difference is what has to be added to `b` again. */
  lemma DifferenceMeans(ts: seq<Token>, i: nat, a: u128, b: u128)
    requires Binary(ts, i, a, "-", b)
    ensures Resolve(ts, i).At? && Resolve(ts, i).next == i + 3 && Wrap(Resolve(ts, i).value + b) == a
  {
    ResolveBinary(ts, i, a, "-", b, Some(Sub));
    WrapAdd(a - b, b);
    ModUnique(a, P128, 0, a);
  }

  lemma ProductMeans(ts: seq<Token>, i: nat, a: u128, b: u128)
    requires Binary(ts, i, a, "*", b)
    ensures Resolve(ts, i).At? && Resolve(ts, i).next == i + 3 && Modulo(Resolve(ts, i).value, a * b)
  {
    ResolveBinary(ts, i, a, "*", b, Some(Mul));
    WrapModulo(Wrap(a * b), a * b);
  }

  /** A quotient rounds down, and there is none by zero. */
  lemma QuotientMeans(ts: seq<Token>, i: nat, a: u128, b: u128)
    requires Binary(ts, i, a, "/", b)
    ensures Resolve(ts, i).At? <==> b != 0
    ensures b != 0 ==> Resolve(ts, i).next == i + 3 && Resolve(ts, i).value * b <= a < Resolve(ts, i).value * b + b
  {
    ResolveBinary(ts, i, a, "/", b, Some(Div));
    if b != 0 {
      Division(a, b);
    }
  }

  lemma Division(a: nat, b: nat)
    requires b > 0
    ensures a / b * b <= a < a / b * b + b
  {
    assert a == b * (a / b) + a % b;
  }

  /** A remainder goes with some quotient. */
  lemma RemainderMeans(ts: seq<Token>, i: nat, a: u128, b: u128)
    requires Binary(ts, i, a, "%", b)
    ensures Resolve(ts, i).At? <==> b != 0
    ensures b != 0 ==> Resolve(ts, i).next == i + 3 && Resolve(ts, i).value < b &&
                       exists q: nat :: a == q * b + Resolve(ts, i).value
  {
    ResolveBinary(ts, i, a, "%", b, Some(Mod));
    if b != 0 {
      WholeAndRest(a, b, a / b);
    }
  }

  lemma WholeAndRest(a: nat, b: nat, q: nat)
    requires b > 0 && q == a / b
    ensures a == q * b + a % b && a % b < b
  {
  }

  // ---- Shifts -----------------------------------------------------------------------------------------------

  /** Shifting right divides by a power of two, rounding down; by 128 or more it has no meaning. */
  lemma ShiftRightMeans(ts: seq<Token>, i: nat, a: u128, b: u128)
    requires Binary(ts, i, a, ">>", b)
    ensures Resolve(ts, i).At? <==> b < 128
    ensures b < 128 ==> Resolve(ts, i).next == i + 3 &&
                        Resolve(ts, i).value * Pow2(b) <= a < Resolve(ts, i).value * Pow2(b) + Pow2(b)
  {
    ResolveBinary(ts, i, a, ">>", b, Some(Shr));
    if b < 128 {
      Division(a, Pow2(b));
    }
  }

  /** By nothing it is the number, and by one more place half of it. */
  lemma ShiftRightSteps(ts: seq<Token>, us: seq<Token>, i: nat, a: u128, b: u128, c: u128)
    requires Binary(ts, i, a, ">>", b) && Binary(us, i, a, ">>", c) && c == b + 1 < 128
    ensures Resolve(ts, i).At? && Resolve(us, i).At? && Resolve(us, i).value == Resolve(ts, i).value / 2
    ensures b == 0 ==> Resolve(ts, i).value == a
  {
    ResolveBinary(ts, i, a, ">>", b, Some(Shr));
    ResolveBinary(us, i, a, ">>", c, Some(Shr));
    HalfOfQuotient(a, b);
  }

  lemma HalfOfQuotient(a: nat, b: nat)
    ensures a / Pow2(b + 1) == a / Pow2(b) / 2
  {
    DivDiv(a, Pow2(b), 2);
  }

  /** Shifting left multiplies by a power of two. */
  lemma ShiftLeftMeans(ts: seq<Token>, i: nat, a: u128, b: u128)
    requires Binary(ts, i, a, "<<", b)
    ensures Resolve(ts, i).At? <==> b < 128
    ensures b < 128 ==> Resolve(ts, i).next == i + 3 && Modulo(Resolve(ts, i).value, a * Pow2(b))
  {
    ResolveBinary(ts, i, a, "<<", b, Some(Shl));
    if b < 128 {
      WrapModulo(Wrap(a * Pow2(b)), a * Pow2(b));
    }
  }

  /** By nothing it is the number, and by one more place its double. */
  lemma ShiftLeftSteps(ts: seq<Token>, us: seq<Token>, i: nat, a: u128, b: u128, c: u128)
    requires Binary(ts, i, a, "<<", b) && Binary(us, i, a, "<<", c) && c == b + 1 < 128
    ensures Resolve(ts, i).At? && Resolve(us, i).At? && Modulo(Resolve(us, i).value, 2 * Resolve(ts, i).value)
    ensures b == 0 ==> Resolve(ts, i).value == a
  {
    ResolveBinary(ts, i, a, "<<", b, Some(Shl));
    ResolveBinary(us, i, a, "<<", c, Some(Shl));
    WrapTwice(a * Pow2(b), a * Pow2(c));
    WrapModulo(Wrap(a * Pow2(c)), 2 * Wrap(a * Pow2(b)));
    if b == 0 {
      ModUnique(a, P128, 0, a);
    }
  }

  lemma WrapTwice(x: nat, y: nat)
    requires y == 2 * x
    ensures Wrap(y) == Wrap(2 * Wrap(x))
  {
    WrapAdd(x, x);
  }

  // ---- Bits -------------------------------------------------------------------------------------------------

  /** What an operator does to two bits. */
  function BitOf(name: string, x: nat, y: nat): int {
    if name == "&" then x * y
    else if name == "|" then x + y - x * y
    else x + y - 2 * (x * y)
  }

  lemma {:induction false} BitwiseAt(op: BitOperator, x: nat, y: nat, k: nat)
    ensures BitAt(Bitwise(op, x, y), k) == Bit(op, BitAt(x, k), BitAt(y, k))
    decreases k
  {
    if k == 0 {
      if x == 0 && y == 0 {
        assert Bitwise(op, x, y) == 0;
      }
    } else {
      BitwiseAt(op, x / 2, y / 2, k - 1);
      ShiftedBit(x, k);
      ShiftedBit(y, k);
      ShiftedBit(Bitwise(op, x, y), k);
      HalfOfBitwise(op, x, y);
    }
  }

  lemma HalfOfBitwise(op: BitOperator, x: nat, y: nat)
    ensures Bitwise(op, x, y) / 2 == Bitwise(op, x / 2, y / 2)
  {
  }

  lemma ShiftedBit(v: nat, k: nat)
    requires k > 0
    ensures BitAt(v, k) == BitAt(v / 2, k - 1)
  {
    DivDiv(v, 2, Pow2(k - 1));
    assert Pow2(k) == Pow2(k - 1) * 2;
  }

  /** `&`, `|` and `^` work bit by bit. */
  lemma BitsMean(ts: seq<Token>, i: nat, a: u128, name: string, b: u128, k: nat)
    requires Binary(ts, i, a, name, b) && (name == "&" || name == "|" || name == "^")
    ensures Resolve(ts, i).At? && Resolve(ts, i).next == i + 3
    ensures BitAt(Resolve(ts, i).value, k) == BitOf(name, BitAt(a, k), BitAt(b, k))
  {
    var op := if name == "&" then AndOp else if name == "|" then OrOp else XorOp;
    var bits := if name == "&" then And else if name == "|" then Or else Xor;
    ResolveBinary(ts, i, a, name, b, Some(op));
    BitwiseAt(bits, a, b, k);
    TwoBits(bits, name, BitAt(a, k), BitAt(b, k));
  }

  lemma TwoBits(op: BitOperator, name: string, x: nat, y: nat)
    requires x < 2 && y < 2 && (op.And? ==> name == "&") && (op.Or? ==> name == "|") && (op.Xor? ==> name == "^")
    ensures Bit(op, x, y) == BitOf(name, x, y)
  {
  }

  /** Every bit of a complement is turned over. */
  lemma ComplementBits(v: u128, k: nat)
    requires k < 128
    ensures BitAt(Complement(v), k) == 1 - BitAt(v, k)
  {
    Pow2At128();
    TurnedOver(v, k, 128);
  }

  lemma {:induction false} TurnedOver(v: nat, k: nat, n: nat)
    requires k < n && v < Pow2(n)
    ensures BitAt(Pow2(n) - 1 - v, k) == 1 - BitAt(v, k)
    decreases k
  {
    var w := Pow2(n) - 1 - v;
    HalfTurned(v, Pow2(n - 1), w);
    if k > 0 {
      TurnedOver(v / 2, k - 1, n - 1);
      ShiftedBit(v, k);
      ShiftedBit(w, k);
    }
  }

  lemma HalfTurned(v: nat, p: nat, w: int)
    requires v < 2 * p && w == 2 * p - 1 - v
    ensures w >= 0 && v / 2 < p && w / 2 == p - 1 - v / 2 && w % 2 == 1 - v % 2
  {
  }

  /** `~` in front of an operand is the operand with every bit turned over. */
  lemma NotMeans(ts: seq<Token>, us: seq<Token>, i: nat, a: u128, name: string, b: u128, c: u128)
    requires BinaryNot(ts, i, a, name, b) && Binary(us, i, a, name, c) && name != "~"
    requires forall k :: 0 <= k < 128 ==> BitAt(c, k) == 1 - BitAt(b, k)
    ensures Resolve(ts, i).At? <==> Resolve(us, i).At?
    ensures Resolve(ts, i).At? ==> Resolve(ts, i).value == Resolve(us, i).value && Resolve(ts, i).next == i + 4
  {
    ResolveBinaryNot(ts, i, a, name, b, BinaryOpOf(name));
    ResolveBinary(us, i, a, name, c, BinaryOpOf(name));
    forall k | 0 <= k < 128
      ensures BitAt(c, k) == BitAt(Complement(b), k)
    {
      ComplementBits(b, k);
    }
    Pow2At128();
    BitsDetermine(c, Complement(b), 128);
  }

  /** A number is its bits. */
  lemma {:induction false} BitsDetermine(x: nat, y: nat, n: nat)
    requires x < Pow2(n) && y < Pow2(n) && forall k :: 0 <= k < n ==> BitAt(x, k) == BitAt(y, k)
    ensures x == y
    decreases n
  {
    if n > 0 {
      assert Pow2(n) == 2 * Pow2(n - 1);
      forall k | 0 <= k < n - 1
        ensures BitAt(x / 2, k) == BitAt(y / 2, k)
      {
        ShiftedBit(x, k + 1);
        ShiftedBit(y, k + 1);
        assert BitAt(x, k + 1) == BitAt(y, k + 1);
      }
      BitsDetermine(x / 2, y / 2, n - 1);
      assert BitAt(x, 0) == BitAt(y, 0);
    }
  }

  /** No other operator is known. */
  lemma OtherFails(ts: seq<Token>, i: nat, a: u128, name: string, b: u128)
    requires Binary(ts, i, a, name, b) && name !in {"+", "-", "*", "/", "%", "<<", ">>", "&", "|", "^", "~"}
    ensures Resolve(ts, i).Fail?
  {
    ResolveBinary(ts, i, a, name, b, None);
  }
}
