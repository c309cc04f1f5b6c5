/**
  Whole-pipeline behaviour on a few inputs, as `compute` produces it with
  the source's tie-break.
*/
module Scenarios {
  import opened Wrappers
  import opened Tokens
  import opened IntParse
  import opened Tokenizer
  import opened Shunting
  import opened Evaluator
  import opened Associativity

  lemma ParseSmall(c: char)
    requires '0' <= c <= '9'
    ensures ParseI64([c], 10) == Some(DigitValue(c))
  {
    var v := (c as int) - ('0' as int);
    assert SignLength([c]) == 0 && [c][0..] == [c];
    assert [c][..0] == [];
    assert ToDigit(c, 10) == Some(v);
    assert DigitsValue([c], 10) == Some(0 * 10 + v);
  }

  /** A one-digit numeral is the integer it spells. */
  lemma DigitToken(parseFloat: string -> Option<F64>, c: char)
    requires '0' <= c <= '9'
    ensures NumeralParser(parseFloat)([c]) == Some(Integer(DigitValue(c)))
  {
    ParseSmall(c);
    assert !StartsWith([c], "0x") && !StartsWith([c], "0X");
  }

  /** A separator at the front is a lexeme of its own. */
  lemma LexSeparator(d: Edition, parseFloat: string -> Option<F64>, c: char, rest: string)
    requires IsSeparator(d, c)
    ensures Lex(d, NumeralParser(parseFloat), [c] + rest) == SeparatorTokens(d, c) + Lex(d, NumeralParser(parseFloat), rest)
  {
    var s := [c] + rest;
    assert s[0] == c && s[..1] == [c] && s[1..] == rest;
  }

  /** A single digit before a separator, or at the end, is a numeral of its own. */
  lemma LexDigit(d: Edition, parseFloat: string -> Option<F64>, c: char, rest: string)
    requires '0' <= c <= '9' && (rest == [] || IsSeparator(d, rest[0]))
    ensures Lex(d, NumeralParser(parseFloat), [c] + rest)
         == [Integer(DigitValue(c))] + Lex(d, NumeralParser(parseFloat), rest)
  {
    var s := [c] + rest;
    assert s[0] == c && s[1..] == rest;
    assert !IsSeparator(d, c);
    assert RunLength(d, s) == 1;
    assert s[..1] == [c];
    DigitToken(parseFloat, c);
  }

  /** The integer a digit character spells. */
  function DigitValue(c: char): i64
    requires '0' <= c <= '9'
  {
    ((c as int) - ('0' as int)) as i64
  }

  /** Two digits apart, such as `3 4`, are two integers. */
  lemma LexTwoNumbers(parseFloat: string -> Option<F64>, x: char, y: char)
    requires '0' <= x <= '9' && '0' <= y <= '9'
    ensures Lex(Library, NumeralParser(parseFloat), [x, ' ', y]) == [Integer(DigitValue(x)), Integer(DigitValue(y))]
  {
    var s2 := [y];
    var s1 := [' '] + s2;
    assert [x, ' ', y] == [x] + s1 && s2 == [y] + [];
    LexDigit(Library, parseFloat, y, []);
    LexSeparator(Library, parseFloat, ' ', s2);
    LexDigit(Library, parseFloat, x, s1);
  }

  /** ` + y`: an operator between blanks, then a digit. */
  lemma LexPlusDigit(parseFloat: string -> Option<F64>, y: char)
    requires '0' <= y <= '9'
    ensures Lex(Library, NumeralParser(parseFloat), [' ', '+', ' ', y]) == [Op(Plus), Integer(DigitValue(y))]
  {
    var s3 := [y];
    var s2 := [' '] + s3;
    var s1 := ['+'] + s2;
    assert [' ', '+', ' ', y] == [' '] + s1 && s3 == [y] + [];
    LexDigit(Library, parseFloat, y, []);
    LexSeparator(Library, parseFloat, ' ', s3);
    LexSeparator(Library, parseFloat, '+', s2);
    LexSeparator(Library, parseFloat, ' ', s1);
  }

  /** `x + y`: a digit, then the operator between blanks and another digit. */
  lemma LexSum(parseFloat: string -> Option<F64>, x: char, y: char)
    requires '0' <= x <= '9' && '0' <= y <= '9'
    ensures Lex(Library, NumeralParser(parseFloat), [x, ' ', '+', ' ', y])
         == [Integer(DigitValue(x)), Op(Plus), Integer(DigitValue(y))]
  {
    var tail := [' ', '+', ' ', y];
    assert [x, ' ', '+', ' ', y] == [x] + tail;
    LexPlusDigit(parseFloat, y);
    LexDigit(Library, parseFloat, x, tail);
  }

  /** `-x + y`, such as `-5 + 3`: the `-` is a binary operator token like any other. */
  lemma LexLeadingMinus(parseFloat: string -> Option<F64>, x: char, y: char)
    requires '0' <= x <= '9' && '0' <= y <= '9'
    ensures Lex(Library, NumeralParser(parseFloat), ['-', x, ' ', '+', ' ', y])
         == [Op(Minus), Integer(DigitValue(x)), Op(Plus), Integer(DigitValue(y))]
  {
    var sum := [x, ' ', '+', ' ', y];
    assert ['-', x, ' ', '+', ' ', y] == ['-'] + sum;
    LexSum(parseFloat, x, y);
    LexSeparator(Library, parseFloat, '-', sum);
    assert SeparatorTokens(Library, '-') == [Op(Minus)];
  }

  /** `(x + y`, such as `(3 + 4`: a parenthesis that is never closed. */
  lemma LexUnclosed(parseFloat: string -> Option<F64>, x: char, y: char)
    requires '0' <= x <= '9' && '0' <= y <= '9'
    ensures Lex(Library, NumeralParser(parseFloat), ['(', x, ' ', '+', ' ', y])
         == [LeftParenthesis, Integer(DigitValue(x)), Op(Plus), Integer(DigitValue(y))]
  {
    var sum := [x, ' ', '+', ' ', y];
    assert ['(', x, ' ', '+', ' ', y] == ['('] + sum;
    LexSum(parseFloat, x, y);
    LexSeparator(Library, parseFloat, '(', sum);
    assert SeparatorTokens(Library, '(') == [LeftParenthesis];
  }

  // ---- through the whole pipeline -----------------------------------------

  lemma ShuntTwoLiterals(rule: TieBreak, a: Token, b: Token)
    requires IsLiteral(a) && IsLiteral(b)
    ensures ShuntingYard(rule, [a, b]) == Ok([a, b])
  {
    YardIsShunt(rule, [a, b]);
    ShuntLiteral(rule, [a, b], [], [], [b], [a]);
    ShuntLiteral(rule, [b], [a], [], [], [a, b]);
    assert Shunt(rule, [], [a, b], []) == Drain([a, b], []);
    assert [a, b] + Reverse<Token>([]) == [a, b];
  }

  /** The tail `a + b` of both three-token inputs: parentheses stay as they were, two literals, one operator. */
  lemma PlusTail(a: Token, b: Token, open: nat)
    requires IsLiteral(a) && IsLiteral(b)
    ensures MatchedFrom([a, Op(Plus), b], open) <==> open == 0
    ensures |Literals([a, Op(Plus), b])| == 2 && OperatorCount([a, Op(Plus), b]) == 1
  {
    var t2 := [b];
    var t1 := [Op(Plus)] + t2;
    var t0 := [a] + t1;
    assert t0 == [a, Op(Plus), b] && t0[1..] == t1 && t1[1..] == t2 && t2[1..] == [];
    assert MatchedFrom(t2, open) == MatchedFrom([], open);
    assert MatchedFrom(t1, open) == MatchedFrom(t2, open);
    assert MatchedFrom(t0, open) == MatchedFrom(t1, open);
    assert Literals(t2) == [b] + Literals([]);
    assert Literals(t1) == Literals(t2);
    assert Literals(t0) == [a] + Literals(t1);
    assert OperatorCount(t2) == 0 + OperatorCount([]);
    assert OperatorCount(t1) == 1 + OperatorCount(t2);
    assert OperatorCount(t0) == 0 + OperatorCount(t1);
  }

  /** `x y`, such as `3 4`, computes to `y`: the value beneath the top is ignored. */
  lemma ComputeKeepsLast(rule: TieBreak, ops: FloatOps, parseFloat: string -> Option<F64>, x: char, y: char)
    requires '0' <= x <= '9' && '0' <= y <= '9'
    ensures Compute(rule, ops, parseFloat, [x, ' ', y]) == Ok(ops.ofI64(DigitValue(y)))
  {
    var a, b := Integer(DigitValue(x)), Integer(DigitValue(y));
    LexTwoNumbers(parseFloat, x, y);
    ShuntTwoLiterals(rule, a, b);
    EvaluateTwo(ops, a, b);
  }

  lemma EvaluateTwo(ops: FloatOps, a: Token, b: Token)
    requires IsLiteral(a) && IsLiteral(b)
    ensures ParenFree([a, b])
    ensures Evaluate(ops, [a, b]) == Some(LiteralValue(ops, b))
  {
    var es := [Leaf(a), Leaf(b)];
    assert es[1..] == [Leaf(b)] && es[1..][1..] == [];
    assert PostfixAll(es[1..][1..]) == [];
    assert PostfixAll(es[1..]) == [b] + [];
    assert PostfixAll(es) == [a] + [b];
    assert WellFormed(es[0]) && WellFormed(es[1]);
    EvaluateKeepsLast(ops, es);
  }

  /**
    `-x + y`, such as `-5 + 3`, is an error in computation: there is no
    unary minus, so the two operators meet only two values.
  */
  lemma ComputeLeadingMinus(rule: TieBreak, ops: FloatOps, parseFloat: string -> Option<F64>, x: char, y: char)
    requires '0' <= x <= '9' && '0' <= y <= '9'
    ensures Compute(rule, ops, parseFloat, ['-', x, ' ', '+', ' ', y]) == Err(ComputationError)
  {
    var a, b := Integer(DigitValue(x)), Integer(DigitValue(y));
    var ts := [Op(Minus), a, Op(Plus), b];
    LexLeadingMinus(parseFloat, x, y);
    PlusTail(a, b, 0);
    assert ts[1..] == [a, Op(Plus), b];
    assert Balanced(ts);
    assert |Literals(ts)| == 2 && OperatorCount(ts) == 2;
    ZeroHeightFails(rule, ops, parseFloat, ['-', x, ' ', '+', ' ', y]);
  }

  /** `(x + y`, such as `(3 + 4`, fails with "Mismatched parenthesis". */
  lemma ComputeUnclosed(rule: TieBreak, ops: FloatOps, parseFloat: string -> Option<F64>, x: char, y: char)
    requires '0' <= x <= '9' && '0' <= y <= '9'
    ensures Compute(rule, ops, parseFloat, ['(', x, ' ', '+', ' ', y]) == Err(MismatchedParenthesis)
  {
    var a, b := Integer(DigitValue(x)), Integer(DigitValue(y));
    var ts := [LeftParenthesis, a, Op(Plus), b];
    LexUnclosed(parseFloat, x, y);
    PlusTail(a, b, 1);
    assert ts[1..] == [a, Op(Plus), b];
    assert !Balanced(ts);
  }
}
