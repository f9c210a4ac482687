/** Tokens (src/types.hpp:14-62) and reading them at a position, as `Assembler::next` does. */
module Tokens {
  import opened Words
  import opened Instructions

  /** The handlers of the opcode table, with the field values that distinguish their entries. */
  datatype Opcode =
    | Nop | Set | Li | LoadAddress | LoadAddressWide | Mov | Inc
    | Load(f3: funct3) | Ldu | Store(f3: funct3) | BranchIf(f3: funct3)
    | FarCall | Call | Jalr | Ret | Jmp
    | Arithmetic(op: opcode7, f3: funct3)
    | RegisterOnly(op: opcode7, f3: funct3, f7: funct7)
    | Syscall | Ecall | Ebreak | Wfi | System

  type unit = n: nat | n in {1, 2, 4, 8, 16} witness 1

  datatype PseudoOp = Data(size: unit) | Reserve(size: unit) | Incbin

  datatype Body =
    | Directive(name: string)
    | Label(name: string)
    | Text(value: string)
    | Symbol(name: string)
    | Op(op: Opcode)
    | Pseudo(pseudo: PseudoOp)
    | Register(r: reg)
    | Constant(constant: u128)
    | Operator(name: string)
    | Unspec

  datatype Token = Token(body: Body, line: nat)

  /** A value read from the tokens and the position after it, or an exception. */
  datatype Parsed<+T> = Fail | At(value: T, next: nat) {
    predicate IsFailure() { Fail? }

    function PropagateFailure<U>(): Parsed<U>
      requires Fail?
    {
      Fail
    }

    function Extract(): (T, nat)
      requires At?
    {
      (value, next)
    }
  }

  /** `next_is` for the three token types that handlers look ahead for. */
  predicate AtConstant(ts: seq<Token>, i: nat) {
    i < |ts| && ts[i].body.Constant?
  }

  predicate AtRegister(ts: seq<Token>, i: nat) {
    i < |ts| && ts[i].body.Register?
  }

  predicate AtSymbol(ts: seq<Token>, i: nat) {
    i < |ts| && ts[i].body.Symbol?
  }

  predicate AtOperator(ts: seq<Token>, i: nat) {
    i < |ts| && ts[i].body.Operator?
  }

  /** `next<TYPE>`: the token of that type, or an exception for any other token or none. */
  function NextRegister(ts: seq<Token>, i: nat): Parsed<reg> {
    if AtRegister(ts, i) then At(ts[i].body.r, i + 1) else Fail
  }

  function NextConstant(ts: seq<Token>, i: nat): Parsed<u128> {
    if AtConstant(ts, i) then At(ts[i].body.constant, i + 1) else Fail
  }

  function NextSymbol(ts: seq<Token>, i: nat): Parsed<string> {
    if AtSymbol(ts, i) then At(ts[i].body.name, i + 1) else Fail
  }

  function NextText(ts: seq<Token>, i: nat): Parsed<string> {
    if i < |ts| && ts[i].body.Text? then At(ts[i].body.value, i + 1) else Fail
  }

  function NextDirective(ts: seq<Token>, i: nat): Parsed<string> {
    if i < |ts| && ts[i].body.Directive? then At(ts[i].body.name, i + 1) else Fail
  }

  /** The bytes of a string. */
  function StringBytes(s: string): seq<byte> {
    seq(|s|, i requires 0 <= i < |s| => s[i] as int % 0x100)
  }
}
