/** Constant chains: `resolve_constants` (src/assemble.cpp:205-305). */
module Constants {
  import opened Words
  import opened Results
  import opened Tokens

  datatype BinaryOp = Add | Sub | Mul | Div | Shr | Shl | Mod | AndOp | OrOp | XorOp

  function Complement(v: u128): u128 {
    0xFFFF_FFFF_FFFF_FFFF_FFFF_FFFF_FFFF_FFFF - v
  }

  /** The operator tokens; `~` is not among them. */
  function BinaryOpOf(name: string): Option<BinaryOp> {
    if name == "+" then Some(Add)
    else if name == "-" then Some(Sub)
    else if name == "*" then Some(Mul)
    else if name == "/" then Some(Div)
    else if name == ">>" then Some(Shr)
    else if name == "<<" then Some(Shl)
    else if name == "%" then Some(Mod)
    else if name == "&" then Some(AndOp)
    else if name == "|" then Some(OrOp)
    else if name == "^" then Some(XorOp)
    else None
  }

  /** One operation at 128 bits; nothing for a zero divisor or an oversized shift, which C++ leaves undefined. */
  function Apply(op: BinaryOp, a: u128, b: u128): Option<u128> {
    match op
    case Add => Some(Wrap(a + b))
    case Sub => Some(Wrap(a - b))
    case Mul => Some(Wrap(a * b))
    case Div => if b == 0 then None else Some(Quotient(a, b))
    case Shr => if b >= 128 then None else Some(Quotient(a, Pow2(b)))
    case Shl => if b >= 128 then None else Some(Wrap(a * Pow2(b)))
    case Mod => if b == 0 then None else Some(Remainder(a, b))
    case AndOp => Some(Bitwise128(And, a, b))
    case OrOp => Some(Bitwise128(Or, a, b))
    case XorOp => Some(Bitwise128(Xor, a, b))
  }

  function Quotient(a: u128, b: nat): u128
    requires b > 0
  {
    QuotientBound(a, b);
    a / b
  }

  function Remainder(a: u128, b: u128): u128
    requires b > 0
  {
    a % b
  }

  lemma QuotientBound(a: nat, b: nat)
    requires b > 0
    ensures 0 <= a / b <= a
  {
    if a / b > a {
      MulAtLeast(b, a / b - a);
      assert b * (a / b) == b * a + b * (a / b - a);
      MulAtMost(a, 1, b);
      assert false;
    }
  }

  /**
   The loop over constants and operators. The operator stays set once seen; a second one, a constant
   without one, or an unknown one is an error.
  */
  function Chain(ts: seq<Token>, i: nat, op: Option<BinaryOp>, negated: bool, sum: u128): Parsed<u128>
    decreases |ts| - i
  {
    if AtConstant(ts, i) then
      var value := if negated then Complement(ts[i].body.constant) else ts[i].body.constant;
      if op.None? then Fail
      else
        var sum' := Apply(op.value, sum, value);
        if sum'.None? then Fail else Chain(ts, i + 1, op, false, sum'.value)
    else if AtOperator(ts, i) then
      if ts[i].body.name == "~" then Chain(ts, i + 1, op, !negated, sum)
      else if op.Some? || BinaryOpOf(ts[i].body.name).None? then Fail
      else Chain(ts, i + 1, BinaryOpOf(ts[i].body.name), negated, sum)
    else At(sum, i)
  }

  function Resolve(ts: seq<Token>, i: nat): Parsed<u128> {
    var (first, i1) :- NextConstant(ts, i);
    Chain(ts, i1, None, false, first)
  }

  // ---- What a chain means -----------------------------------------------------------------------

  /** The end of the longest run of constants and operators from `i`. */
  function RunEnd(ts: seq<Token>, i: nat): (j: nat)
    ensures i <= j
    decreases |ts| - i
  {
    if AtConstant(ts, i) || AtOperator(ts, i) then RunEnd(ts, i + 1) else i
  }

  /** The constants of a run, each complemented if an odd number of `~` stands between it and the one before. */
  function Operands(ts: seq<Token>, i: nat, negated: bool): seq<u128>
    decreases |ts| - i
  {
    if AtConstant(ts, i) then
      [if negated then Complement(ts[i].body.constant) else ts[i].body.constant] + Operands(ts, i + 1, false)
    else if AtOperator(ts, i) then
      Operands(ts, i + 1, if ts[i].body.name == "~" then !negated else negated)
    else []
  }

  /** The operators of a run other than `~`. */
  function BinaryOperators(ts: seq<Token>, i: nat): seq<string>
    decreases |ts| - i
  {
    if AtConstant(ts, i) then BinaryOperators(ts, i + 1)
    else if AtOperator(ts, i) then
      (if ts[i].body.name == "~" then [] else [ts[i].body.name]) + BinaryOperators(ts, i + 1)
    else []
  }

  /** No constant of the run stands before its first operator other than `~`. */
  predicate OperatorFirst(ts: seq<Token>, i: nat)
    decreases |ts| - i
  {
    if AtConstant(ts, i) then false
    else AtOperator(ts, i) && ts[i].body.name == "~" ==> OperatorFirst(ts, i + 1)
  }

  /** `((first op a) op b) op c ...` */
  function LeftFold(op: BinaryOp, first: u128, operands: seq<u128>): Option<u128>
    decreases |operands|
  {
    if operands == [] then Some(first)
    else
      var next :- Apply(op, first, operands[0]);
      LeftFold(op, next, operands[1..])
  }

  /** The value of the run from `i` after `sum`, when `op` has been seen already. */
  ghost predicate Means(ts: seq<Token>, i: nat, op: Option<BinaryOp>, negated: bool, sum: u128, value: u128) {
    var operands, names := Operands(ts, i, negated), BinaryOperators(ts, i);
    match op
    case Some(o) => names == [] && LeftFold(o, sum, operands) == Some(value)
    case None =>
      if names == [] then operands == [] && value == sum
      else
        && |names| == 1 && BinaryOpOf(names[0]).Some? && OperatorFirst(ts, i)
        && LeftFold(BinaryOpOf(names[0]).value, sum, operands) == Some(value)
  }

  lemma {:induction false} ChainMeaning(ts: seq<Token>, i: nat, op: Option<BinaryOp>, negated: bool, sum: u128,
                                        value: u128, j: nat)
    ensures Chain(ts, i, op, negated, sum) == At(value, j)
            <==> j == RunEnd(ts, i) && Means(ts, i, op, negated, sum, value)
    decreases |ts| - i
  {
    if AtConstant(ts, i) {
      var v := if negated then Complement(ts[i].body.constant) else ts[i].body.constant;
      var rest := Operands(ts, i + 1, false);
      assert Operands(ts, i, negated)[0] == v && Operands(ts, i, negated)[1..] == rest;
      if op.Some? && Apply(op.value, sum, v).Some? {
        ChainMeaning(ts, i + 1, op, false, Apply(op.value, sum, v).value, value, j);
      }
    } else if AtOperator(ts, i) {
      var name := ts[i].body.name;
      if name == "~" {
        assert BinaryOperators(ts, i) == BinaryOperators(ts, i + 1);
        ChainMeaning(ts, i + 1, op, !negated, sum, value, j);
      } else {
        assert BinaryOperators(ts, i)[0] == name && BinaryOperators(ts, i)[1..] == BinaryOperators(ts, i + 1);
        if op.None? && BinaryOpOf(name).Some? {
          ChainMeaning(ts, i + 1, BinaryOpOf(name), negated, sum, value, j);
        }
      }
    }
  }

  /**
   What a chain is worth: it is accepted with a value exactly when it starts with a constant, has at
   most one binary operator, which comes before every later constant, and the left fold of that operator
   over the later constants has that value. The whole run of constants and operators is consumed.
  */
  lemma ResolveMeaning(ts: seq<Token>, i: nat, value: u128, j: nat)
    ensures Resolve(ts, i) == At(value, j) <==>
              && AtConstant(ts, i) && j == RunEnd(ts, i + 1)
              && Means(ts, i + 1, None, false, ts[i].body.constant, value)
  {
    if AtConstant(ts, i) {
      ChainMeaning(ts, i + 1, None, false, ts[i].body.constant, value, j);
    }
  }

  // ---- Locality -----------------------------------------------------------------------------------

  /** `us` holds, `d` places further on, the tokens of `ts` from `i` up to `j`. */
  ghost predicate Copied(ts: seq<Token>, i: nat, j: nat, us: seq<Token>, d: int) {
    && i <= j <= |ts| && 0 <= i + d && j + d <= |us|
    && forall k :: i <= k < j ==> us[k + d] == ts[k]
  }

  /**
   A chain reads its own tokens and the type of the one after: it parses the same wherever its tokens
   are copied in front of anything that does not continue it.
  */
  lemma {:induction false} ChainLocal(ts: seq<Token>, us: seq<Token>, i: nat, d: int, op: Option<BinaryOp>,
                                      negated: bool, sum: u128)
    requires i <= |ts| && Chain(ts, i, op, negated, sum).At?
    requires var j := Chain(ts, i, op, negated, sum).next;
             Copied(ts, i, j, us, d) && !AtConstant(us, j + d) && !AtOperator(us, j + d)
    ensures var r := Chain(ts, i, op, negated, sum);
            i <= r.next && Chain(us, i + d, op, negated, sum) == At(r.value, r.next + d)
    decreases |ts| - i
  {
    ChainAdvances(ts, i, op, negated, sum);
    if AtConstant(ts, i) {
      var value := if negated then Complement(ts[i].body.constant) else ts[i].body.constant;
      ChainAdvances(ts, i + 1, op, false, Apply(op.value, sum, value).value);
      ChainLocal(ts, us, i + 1, d, op, false, Apply(op.value, sum, value).value);
    } else if AtOperator(ts, i) {
      if ts[i].body.name == "~" {
        ChainAdvances(ts, i + 1, op, !negated, sum);
        ChainLocal(ts, us, i + 1, d, op, !negated, sum);
      } else {
        ChainAdvances(ts, i + 1, BinaryOpOf(ts[i].body.name), negated, sum);
        ChainLocal(ts, us, i + 1, d, BinaryOpOf(ts[i].body.name), negated, sum);
      }
    }
  }

  lemma {:induction false} ChainAdvances(ts: seq<Token>, i: nat, op: Option<BinaryOp>, negated: bool, sum: u128)
    ensures var r := Chain(ts, i, op, negated, sum); r.At? ==> i <= r.next && (i <= |ts| ==> r.next <= |ts|)
    decreases |ts| - i
  {
    if AtConstant(ts, i) {
      var value := if negated then Complement(ts[i].body.constant) else ts[i].body.constant;
      if op.Some? && Apply(op.value, sum, value).Some? {
        ChainAdvances(ts, i + 1, op, false, Apply(op.value, sum, value).value);
      }
    } else if AtOperator(ts, i) {
      if ts[i].body.name == "~" {
        ChainAdvances(ts, i + 1, op, !negated, sum);
      } else if op.None? && BinaryOpOf(ts[i].body.name).Some? {
        ChainAdvances(ts, i + 1, BinaryOpOf(ts[i].body.name), negated, sum);
      }
    }
  }

  lemma ResolveLocal(ts: seq<Token>, us: seq<Token>, i: nat, d: int)
    requires i <= |ts| && Resolve(ts, i).At?
    requires var j := Resolve(ts, i).next;
             Copied(ts, i, j, us, d) && !AtConstant(us, j + d) && !AtOperator(us, j + d)
    ensures var r := Resolve(ts, i); i < r.next && Resolve(us, i + d) == At(r.value, r.next + d)
  {
    var first := ts[i].body.constant;
    ChainAdvances(ts, i + 1, None, false, first);
    ChainLocal(ts, us, i + 1, d, None, false, first);
  }

  lemma ResolveAdvances(ts: seq<Token>, i: nat)
    ensures var r := Resolve(ts, i); r.At? ==> i < r.next <= |ts|
  {
    if AtConstant(ts, i) {
      ChainAdvances(ts, i + 1, None, false, ts[i].body.constant);
    }
  }
}
