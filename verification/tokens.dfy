/**
  The token model of the calculator: operators with their priorities, the
  operator-character mapping, the stack step an operator performs, and the
  token union passed between the stages.

  Two copies of this model exist in the repository: the library copy with
  five operators (`+ - / * ^`) and an older four-operator copy without `^`.
  `Edition` selects between them; only the operator-character mapping differs.
*/
module Tokens {
  import opened Wrappers

  /** Rust's `i64`. */
  newtype i64 = x: int | -0x8000_0000_0000_0000 <= x <= 0x7FFF_FFFF_FFFF_FFFF

  /** An IEEE-754 double, kept abstract as its 64-bit pattern read as an unsigned number. */
  newtype F64 = bits: int | 0 <= bits < 0x1_0000_0000_0000_0000

  /**
    The floating-point arithmetic the evaluator relies on, left uninterpreted:
    the four operators, `powf`, and the `n as f64` widening of an integer.
  */
  datatype FloatOps = FloatOps(
    add: (F64, F64) -> F64,
    sub: (F64, F64) -> F64,
    mul: (F64, F64) -> F64,
    div: (F64, F64) -> F64,
    powf: (F64, F64) -> F64,
    ofI64: i64 -> F64)

  datatype Operator = Plus | Minus | Div | Mul | Exp

  /** Library: the five-operator modules; Legacy: the four-operator copy in the binary's main file. */
  datatype Edition = Library | Legacy

  datatype Token =
    | Integer(n: i64)
    | Float(f: F64)
    | Op(op: Operator)
    | LeftParenthesis
    | RightParenthesis

  predicate IsLiteral(t: Token) {
    t.Integer? || t.Float?
  }

  predicate IsParen(t: Token) {
    t.LeftParenthesis? || t.RightParenthesis?
  }

  predicate ParenFree(ts: seq<Token>) {
    forall i :: 0 <= i < |ts| ==> !IsParen(ts[i])
  }

  /** `to_prio`: higher binds tighter. */
  function Prio(o: Operator): (p: int)
    ensures 1 <= p <= 3
    ensures p == 3 <==> o == Exp
    ensures p == 1 <==> o == Plus || o == Minus
  {
    match o
    case Exp => 3
    case Mul | Div => 2
    case _ => 1
  }

  /** The `>` of the priority-only `PartialOrd`; `==` on operators stays variant identity. */
  predicate Greater(o2: Operator, o1: Operator) {
    Prio(o2) > Prio(o1)
  }

  /** Whether an edition has the operator at all (the older copy has no `Exp`). */
  predicate InEdition(d: Edition, o: Operator) {
    d == Library || o != Exp
  }

  /** The character each operator is written as: the reference for `FromChar`. */
  function Symbol(o: Operator): char {
    match o
    case Plus => '+'
    case Minus => '-'
    case Div => '/'
    case Mul => '*'
    case Exp => '^'
  }

  /** `Operator::from`: the operator a character denotes, if any. */
  function FromChar(d: Edition, c: char): (r: Option<Operator>)
    ensures r.Some? ==> InEdition(d, r.value) && Symbol(r.value) == c
  {
    match c
    case '+' => Some(Plus)
    case '-' => Some(Minus)
    case '/' => Some(Div)
    case '*' => Some(Mul)
    case '^' => if d == Library then Some(Exp) else None
    case _ => None
  }

  /** `FromChar` is exactly the inverse of `Symbol` on the edition's operators. */
  lemma FromCharInvertsSymbol(d: Edition, c: char, o: Operator)
    ensures FromChar(d, c) == Some(o) <==> (Symbol(o) == c && InEdition(d, o))
  {
  }

  /** The operator characters of an edition. */
  predicate IsOperatorChar(d: Edition, c: char) {
    FromChar(d, c).Some?
  }

  lemma OperatorChars(d: Edition, c: char)
    ensures IsOperatorChar(d, c) <==> c in {'+', '-', '/', '*'} || (d == Library && c == '^')
  {
  }

  /**
    Priorities order operators only partially: two distinct operators of the
    same priority are neither greater than nor equal to each other, and the
    only such pairs are Plus/Minus and Div/Mul.
  */
  lemma EqualPriorityIncomparable(o1: Operator, o2: Operator)
    ensures (o1 != o2 && !Greater(o1, o2) && !Greater(o2, o1))
       <==> ({o1, o2} == {Plus, Minus} || {o1, o2} == {Div, Mul})
  {
  }

  /** The binary function an operator applies to `(a, b)`, `a` the deeper operand. */
  function Binary(ops: FloatOps, o: Operator): (F64, F64) -> F64 {
    match o
    case Plus => ops.add
    case Minus => ops.sub
    case Mul => ops.mul
    case Div => ops.div
    case Exp => ops.powf
  }

  /**
    The operator table of `Operator::evaluate`: each operator applies its own
    arithmetic, with the deeper stack value `a` as the left operand, so
    `a b -` is `a - b`, `a b /` is `a / b` and `a b ^` is `a.powf(b)`.
  */
  lemma OperatorFunctions(ops: FloatOps, rest: seq<F64>, a: F64, b: F64)
    ensures OpEvaluate(ops, Plus, rest + [a, b]) == (Some(ops.add(a, b)), rest)
    ensures OpEvaluate(ops, Minus, rest + [a, b]) == (Some(ops.sub(a, b)), rest)
    ensures OpEvaluate(ops, Mul, rest + [a, b]) == (Some(ops.mul(a, b)), rest)
    ensures OpEvaluate(ops, Div, rest + [a, b]) == (Some(ops.div(a, b)), rest)
    ensures OpEvaluate(ops, Exp, rest + [a, b]) == (Some(ops.powf(a, b)), rest)
  {
    var s := rest + [a, b];
    assert s[|s| - 2] == a && s[|s| - 1] == b;
    assert s[..|s| - 1][..|s| - 2] == rest;
  }

  /**
    `apply`: pops `b` (the top), then `a` (beneath it), and returns `f(a, b)`
    with the rest of the stack. Both `unwrap`s need two values on the stack.
  */
  function Apply(stack: seq<F64>, f: (F64, F64) -> F64): (r: (F64, seq<F64>))
    requires |stack| >= 2
    ensures r.1 + [stack[|stack| - 2], stack[|stack| - 1]] == stack
    ensures |r.1| == |stack| - 2
    ensures r.0 == f(stack[|stack| - 2], stack[|stack| - 1])
  {
    var b := stack[|stack| - 1];
    var afterB := stack[..|stack| - 1];
    var a := afterB[|afterB| - 1];
    (f(a, b), afterB[..|afterB| - 1])
  }

  /**
    `Operator::evaluate`: the computed value (None on fewer than two values)
    and the stack afterwards.
  */
  function OpEvaluate(ops: FloatOps, o: Operator, stack: seq<F64>): (r: (Option<F64>, seq<F64>))
    ensures r.0.None? <==> |stack| < 2
    ensures r.0.None? ==> r.1 == stack
    ensures r.0.Some? ==>
      && r.1 + [stack[|stack| - 2], stack[|stack| - 1]] == stack
      && r.0.value == Binary(ops, o)(stack[|stack| - 2], stack[|stack| - 1])
  {
    if |stack| < 2 then (None, stack)
    else
      var (v, rest) := Apply(stack, Binary(ops, o));
      (Some(v), rest)
  }
}
