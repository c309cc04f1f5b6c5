/**
  The postfix evaluator and the `compute` pipeline: tokens are read left to
  right against a value stack (top at the end); literals are pushed,
  operators replace the two topmost values by their result, and the value on
  top at the end is the answer.
*/
module Evaluator {
  import opened Wrappers
  import opened Tokens
  import opened Tokenizer
  import opened Shunting

  const ComputationError: string := "Error in computation"

  /** The value a literal pushes: a float as is, an integer widened with `as f64`. */
  function LiteralValue(ops: FloatOps, t: Token): F64
    requires IsLiteral(t)
  {
    if t.Integer? then ops.ofI64(t.n) else t.f
  }

  // ---- counting ------------------------------------------------------------

  /** The number of operator tokens. */
  function OperatorCount(ts: seq<Token>): nat {
    if ts == [] then 0 else (if ts[0].Op? then 1 else 0) + OperatorCount(ts[1..])
  }

  /** The net stack effect: each literal adds a value, each operator removes one. */
  function Height(ts: seq<Token>): int {
    |Literals(ts)| - OperatorCount(ts)
  }

  /**
    The evaluation from a stack of height `h` never reaches an operator with
    fewer than two values beneath it.
  */
  predicate NoUnderflow(ts: seq<Token>, h: int)
    decreases |ts|
  {
    if ts == [] then true
    else if ts[0].Op? then h >= 2 && NoUnderflow(ts[1..], h - 1)
    else if IsLiteral(ts[0]) then NoUnderflow(ts[1..], h + 1)
    else NoUnderflow(ts[1..], h)
  }

  lemma TailParenFree(ts: seq<Token>)
    requires ts != [] && ParenFree(ts)
    ensures ParenFree(ts[1..]) && !IsParen(ts[0])
  {
    assert forall i :: 0 <= i < |ts| - 1 ==> ts[1..][i] == ts[i + 1];
  }

  lemma HeightCons(ts: seq<Token>)
    requires ts != []
    ensures Height(ts) == Height(ts[1..]) + (if ts[0].Op? then -1 else if IsLiteral(ts[0]) then 1 else 0)
  {
    assert ts == [ts[0]] + ts[1..];
    LiteralsAppend([ts[0]], ts[1..]);
  }

  // ---- the evaluator -------------------------------------------------------

  /**
    The `for tok in tokens` loop of `evaluate` from a given stack: `None` as
    soon as an operator finds fewer than two values (the `?`), otherwise the
    final stack. The parenthesis arm is `unreachable!`, hence the requires.
  */
  function Run(ops: FloatOps, tokens: seq<Token>, stack: seq<F64>): (r: Option<seq<F64>>)
    requires ParenFree(tokens)
    ensures r.Some? <==> NoUnderflow(tokens, |stack|)
    ensures r.Some? ==> |r.value| == |stack| + Height(tokens)
    decreases |tokens|
  {
    if tokens == [] then Some(stack)
    else
      var t := tokens[0];
      TailParenFree(tokens);
      HeightCons(tokens);
      if t.Op? then
        var (v, rest) := OpEvaluate(ops, t.op, stack);
        if v.None? then None else Run(ops, tokens[1..], rest + [v.value])
      else
        Run(ops, tokens[1..], stack + [LiteralValue(ops, t)])
  }

  /**
    `evaluate`: `None` exactly when some operator meets fewer than two values
    or nothing is left at the end; otherwise the value on top of the final
    stack, whatever lies beneath it.
  */
  function Evaluate(ops: FloatOps, tokens: seq<Token>): (r: Option<F64>)
    requires ParenFree(tokens)
    ensures r.None? <==> !NoUnderflow(tokens, 0) || Height(tokens) == 0
    ensures r.Some? ==> Run(ops, tokens, []).Some? && r.value == Last(Run(ops, tokens, []).value)
  {
    match Run(ops, tokens, [])
    case None => None
    case Some(stack) => if stack == [] then None else Some(stack[|stack| - 1])
  }

  function Last(s: seq<F64>): F64
    requires s != []
  {
    s[|s| - 1]
  }

  /**
    An independent reading of `NoUnderflow`: every operator finds at least
    two values, counting the starting height and the net effect of all
    tokens before it.
  */
  lemma {:induction false} NoUnderflowPrefixes(ts: seq<Token>, h: int)
    ensures NoUnderflow(ts, h) <==> forall k :: 0 <= k < |ts| && ts[k].Op? ==> h + Height(ts[..k]) >= 2
  {
    if ts != [] {
      NoUnderflowPrefixes(ts[1..], h + (if ts[0].Op? then -1 else if IsLiteral(ts[0]) then 1 else 0));
      forall k | 1 <= k <= |ts|
        ensures Height(ts[..k]) == Height(ts[1..][..k - 1]) + (if ts[0].Op? then -1 else if IsLiteral(ts[0]) then 1 else 0)
      {
        HeightCons(ts[..k]);
        assert ts[..k][1..] == ts[1..][..k - 1];
      }
      assert Height(ts[..0]) == 0;
    }
  }

  /** With underflow-free input, the stack height after every prefix is the count of literals minus operators. */
  lemma {:induction false} RunHeight(ops: FloatOps, ts: seq<Token>, k: nat)
    requires ParenFree(ts) && k <= |ts|
    requires NoUnderflow(ts, 0)
    ensures ParenFree(ts[..k]) && Run(ops, ts[..k], []).Some?
    ensures |Run(ops, ts[..k], []).value| == |Literals(ts[..k])| - OperatorCount(ts[..k])
  {
    assert ts == ts[..k] + ts[k..];
    assert ParenFree(ts[..k]) by {
      assert forall i :: 0 <= i < k ==> ts[..k][i] == ts[i];
    }
    NoUnderflowPrefix(ts[..k], ts[k..], 0);
  }

  lemma {:induction false} NoUnderflowPrefix(a: seq<Token>, b: seq<Token>, h: int)
    requires NoUnderflow(a + b, h)
    ensures NoUnderflow(a, h)
  {
    if a != [] {
      assert (a + b)[1..] == a[1..] + b;
      assert (a + b)[0] == a[0];
      NoUnderflowPrefix(a[1..], b, h + (if a[0].Op? then -1 else if IsLiteral(a[0]) then 1 else 0));
    }
  }

  // ---- expression trees: the meaning of a postfix sequence ----------------

  /** A binary expression tree over literal tokens. */
  datatype Expr = Leaf(t: Token) | Node(op: Operator, left: Expr, right: Expr)

  predicate WellFormed(e: Expr) {
    match e
    case Leaf(t) => IsLiteral(t)
    case Node(_, l, r) => WellFormed(l) && WellFormed(r)
  }

  /** Reverse Polish notation: both operands, then the operator. */
  function Postfix(e: Expr): seq<Token> {
    match e
    case Leaf(t) => [t]
    case Node(o, l, r) => Postfix(l) + Postfix(r) + [Op(o)]
  }

  /** The reference meaning of a tree, with the left subtree as the left operand. */
  function ValueOf(ops: FloatOps, e: Expr): F64
    requires WellFormed(e)
  {
    match e
    case Leaf(t) => LiteralValue(ops, t)
    case Node(o, l, r) => Binary(ops, o)(ValueOf(ops, l), ValueOf(ops, r))
  }

  lemma ParenFreeAppend(a: seq<Token>, b: seq<Token>)
    requires ParenFree(a) && ParenFree(b)
    ensures ParenFree(a + b)
  {
    assert forall i :: 0 <= i < |a + b| ==> (a + b)[i] == if i < |a| then a[i] else b[i - |a|];
  }

  lemma {:induction false} PostfixParenFree(e: Expr)
    requires WellFormed(e)
    ensures ParenFree(Postfix(e))
  {
    match e
    case Leaf(_) =>
    case Node(o, l, r) =>
      PostfixParenFree(l);
      PostfixParenFree(r);
      ParenFreeAppend(Postfix(l), Postfix(r));
      ParenFreeAppend(Postfix(l) + Postfix(r), [Op(o)]);
  }

  /** Running the postfix form of a tree pushes exactly the tree's value and then carries on. */
  lemma {:induction false} RunPostfix(ops: FloatOps, e: Expr, rest: seq<Token>, stack: seq<F64>)
    requires WellFormed(e) && ParenFree(rest)
    ensures ParenFree(Postfix(e) + rest)
    ensures Run(ops, Postfix(e) + rest, stack) == Run(ops, rest, stack + [ValueOf(ops, e)])
  {
    PostfixParenFree(e);
    ParenFreeAppend(Postfix(e), rest);
    match e
    case Leaf(t) =>
      assert (Postfix(e) + rest)[1..] == rest;
    case Node(o, l, r) =>
      var opRest := [Op(o)] + rest;
      ParenFreeAppend([Op(o)], rest);
      AppendAssoc(Postfix(l) + Postfix(r), [Op(o)], rest);
      AppendAssoc(Postfix(l), Postfix(r), opRest);
      RunPostfix(ops, r, opRest, stack + [ValueOf(ops, l)]);
      RunPostfix(ops, l, Postfix(r) + opRest, stack);
      RunOperator(ops, o, rest, stack + [ValueOf(ops, l)], ValueOf(ops, r));
  }

  lemma RunOperator(ops: FloatOps, o: Operator, rest: seq<Token>, stack: seq<F64>, b: F64)
    requires |stack| >= 1 && ParenFree([Op(o)] + rest) && ParenFree(rest)
    ensures Run(ops, [Op(o)] + rest, stack + [b])
         == Run(ops, rest, stack[..|stack| - 1] + [Binary(ops, o)(stack[|stack| - 1], b)])
  {
    assert ([Op(o)] + rest)[1..] == rest;
    var s := stack + [b];
    var (v, below) := OpEvaluate(ops, o, s);
    assert below + [s[|s| - 2], s[|s| - 1]] == s;
    assert below == stack[..|stack| - 1];
  }

  /** The postfix form of a tree evaluates to the tree's value. */
  lemma EvaluatePostfix(ops: FloatOps, e: Expr)
    requires WellFormed(e)
    ensures ParenFree(Postfix(e))
    ensures Evaluate(ops, Postfix(e)) == Some(ValueOf(ops, e))
  {
    RunPostfix(ops, e, [], []);
    assert Postfix(e) + [] == Postfix(e);
  }

  /** The postfix forms of several trees, one after another. */
  function PostfixAll(es: seq<Expr>): seq<Token> {
    if es == [] then [] else Postfix(es[0]) + PostfixAll(es[1..])
  }

  predicate AllWellFormed(es: seq<Expr>) {
    forall i :: 0 <= i < |es| ==> WellFormed(es[i])
  }

  function Values(ops: FloatOps, es: seq<Expr>): seq<F64>
    requires AllWellFormed(es)
  {
    if es == [] then [] else [ValueOf(ops, es[0])] + Values(ops, es[1..])
  }

  /** Running several trees in a row leaves each one's value on the stack, the last on top. */
  lemma {:induction false} RunPostfixAll(ops: FloatOps, es: seq<Expr>, rest: seq<Token>, stack: seq<F64>)
    requires AllWellFormed(es) && ParenFree(rest)
    ensures ParenFree(PostfixAll(es) + rest)
    ensures Run(ops, PostfixAll(es) + rest, stack) == Run(ops, rest, stack + Values(ops, es))
  {
    if es == [] {
      assert PostfixAll(es) + rest == rest;
      assert stack + Values(ops, es) == stack;
    } else {
      var tail := PostfixAll(es[1..]) + rest;
      RunPostfixAll(ops, es[1..], rest, stack + [ValueOf(ops, es[0])]);
      RunPostfix(ops, es[0], tail, stack);
      AppendAssoc(Postfix(es[0]), PostfixAll(es[1..]), rest);
      AppendAssoc(stack, [ValueOf(ops, es[0])], Values(ops, es[1..]));
    }
  }

  lemma {:induction false} ValuesLast(ops: FloatOps, es: seq<Expr>)
    requires AllWellFormed(es) && es != []
    ensures |Values(ops, es)| == |es|
    ensures Values(ops, es)[|es| - 1] == ValueOf(ops, es[|es| - 1])
  {
    if |es| > 1 {
      ValuesLast(ops, es[1..]);
    }
  }

  /**
    Leftover values are not an error: a sequence of complete expressions
    evaluates to the value of the last one, whatever precedes it (so `3 4`
    gives 4).
  */
  lemma EvaluateKeepsLast(ops: FloatOps, es: seq<Expr>)
    requires AllWellFormed(es) && es != []
    ensures ParenFree(PostfixAll(es))
    ensures Evaluate(ops, PostfixAll(es)) == Some(ValueOf(ops, es[|es| - 1]))
  {
    RunPostfixAll(ops, es, [], []);
    assert PostfixAll(es) + [] == PostfixAll(es);
    assert [] + Values(ops, es) == Values(ops, es);
    ValuesLast(ops, es);
  }

  // ---- compute -------------------------------------------------------------

  /**
    `compute`: tokenize, convert to postfix, evaluate. The conversion's error
    is passed on unchanged, and an evaluation that yields nothing becomes
    "Error in computation". The source's conversion is `rule == AsWritten`.
  */
  function Compute(rule: TieBreak, ops: FloatOps, parseFloat: string -> Option<F64>, input: string): (r: Result<F64>)
    ensures var tokens := Lex(Library, NumeralParser(parseFloat), input);
      && (r.Err? && r.error == MismatchedParenthesis <==> !Balanced(tokens))
      && (r.Err? && r.error == ComputationError <==>
            ShuntingYard(rule, tokens).Ok? && Evaluate(ops, ShuntingYard(rule, tokens).value).None?)
      && (r.Ok? ==> ShuntingYard(rule, tokens).Ok? && Evaluate(ops, ShuntingYard(rule, tokens).value) == Some(r.value))
      && (r.Ok? <==> ShuntingYard(rule, tokens).Ok? && Evaluate(ops, ShuntingYard(rule, tokens).value).Some?)
      && (r.Err? ==> r.error == MismatchedParenthesis || r.error == ComputationError)
  {
    var tokens := Lex(Library, NumeralParser(parseFloat), input);
    match ShuntingYard(rule, tokens)
    case Err(e) => Err(e)
    case Ok(postfix) =>
      match Evaluate(ops, postfix)
      case None => Err(ComputationError)
      case Some(v) => Ok(v)
  }

  /** Every token that is not a parenthesis is a literal or an operator. */
  lemma {:induction false} CountSplit(ts: seq<Token>)
    ensures |WithoutParens(ts)| == |Literals(ts)| + OperatorCount(ts)
    decreases |ts|
  {
    if ts != [] {
      CountSplit(ts[1..]);
    }
  }

  /** The conversion keeps the net stack effect: it moves operators and drops parentheses only. */
  lemma ConversionKeepsHeight(rule: TieBreak, tokens: seq<Token>)
    requires ShuntingYard(rule, tokens).Ok?
    ensures Height(ShuntingYard(rule, tokens).value) == Height(tokens)
  {
    var postfix := ShuntingYard(rule, tokens).value;
    NoParensFilters(postfix);
    CountSplit(postfix);
    CountSplit(tokens);
  }

  /**
    An input with as many operators as operands, such as `-5 + 3` (every `-`
    is a binary operator), leaves no value and is an error in computation.
  */
  lemma ZeroHeightFails(rule: TieBreak, ops: FloatOps, parseFloat: string -> Option<F64>, input: string)
    requires Balanced(Lex(Library, NumeralParser(parseFloat), input))
    requires Height(Lex(Library, NumeralParser(parseFloat), input)) == 0
    ensures Compute(rule, ops, parseFloat, input) == Err(ComputationError)
  {
    ConversionKeepsHeight(rule, Lex(Library, NumeralParser(parseFloat), input));
  }
}
