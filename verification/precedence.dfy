/**
  Precedence across priority levels and through parentheses, under either
  tie-break: an operator of higher priority takes the operand between the
  two operators, `a + b * c` being a + (b * c); and a parenthesised group is
  converted and computed as a unit, `(a + b) * c` being (a + b) * c.
*/
module Precedence {
  import opened Wrappers
  import opened Tokens
  import opened Shunting
  import opened Evaluator
  import opened Associativity

  // ---- conversion steps not covered by the chain lemmas ----------------------

  /** `(` is stacked and nothing is emitted. */
  lemma ShuntLeftParen(rule: TieBreak, tokens: seq<Token>, output: seq<Token>, stack: seq<Token>)
    requires StackOk(stack) && tokens != [] && tokens[0].LeftParenthesis?
    ensures StackOk(stack + [LeftParenthesis])
    ensures Shunt(rule, tokens, output, stack) == Shunt(rule, tokens[1..], output, stack + [LeftParenthesis])
  {
    Push(stack, LeftParenthesis);
  }

  /** `)` that finds `( o` on top emits `o` and drops the `(`. */
  lemma ShuntCloseOne(rule: TieBreak, tokens: seq<Token>, output: seq<Token>, o: Operator)
    requires tokens != [] && tokens[0].RightParenthesis?
    ensures StackOk([LeftParenthesis, Op(o)])
    ensures Shunt(rule, tokens, output, [LeftParenthesis, Op(o)]) == Shunt(rule, tokens[1..], output + [Op(o)], [])
  {
    var stack := [LeftParenthesis, Op(o)];
    Push([], LeftParenthesis);
    assert [] + [LeftParenthesis] == [LeftParenthesis];
    Push([LeftParenthesis], Op(o));
    assert [LeftParenthesis] + [Op(o)] == stack;
    assert stack[..1] == [LeftParenthesis] && [LeftParenthesis][..0] == [];
    assert PopToLeftParen(output, stack) == PopToLeftParen(output + [Op(o)], [LeftParenthesis]);
  }

  /** Two operators still stacked, `o1` under `o2`, leave top first. */
  lemma DrainTwo(output: seq<Token>, o1: Operator, o2: Operator)
    ensures Drain(output, [Op(o1), Op(o2)]) == Ok(output + [Op(o2), Op(o1)])
  {
    var stack := [Op(o1), Op(o2)];
    assert stack[..1] == [Op(o1)] && [Op(o1)][..0] == [];
    assert Drain(output, stack) == Drain(output + [Op(o2)], [Op(o1)]);
    assert Drain(output + [Op(o2)], [Op(o1)]) == Drain(output + [Op(o2)] + [Op(o1)], []);
    assert output + [Op(o2)] + [Op(o1)] == output + [Op(o2), Op(o1)];
  }

  // ---- a higher priority takes the middle operand ---------------------------

  /** `a o1 b`, up to `o2`: `a b` emitted, `o1` stacked. */
  lemma LowerHead(rule: TieBreak, o1: Operator, o2: Operator, a: Token, b: Token, c: Token)
    requires IsLiteral(a) && IsLiteral(b)
    ensures StackOk([Op(o1)])
    ensures Shunt(rule, [a, Op(o1), b, Op(o2), c], [], []) == Shunt(rule, [Op(o2), c], [a, b], [Op(o1)])
  {
    var t0 := [a, Op(o1), b, Op(o2), c];
    var t1 := [Op(o1), b, Op(o2), c];
    var t2 := [b, Op(o2), c];
    ShuntLiteral(rule, t0, [], [], t1, [a]);
    ShuntFirstOperator(rule, t1, [a], t2);
    ShuntLiteral(rule, t2, [a], [Op(o1)], [Op(o2), c], [a, b]);
  }

  /** From `o2` on: `o1` has lower priority, so it stays stacked under `o2`, and both leave top first. */
  lemma HigherTail(rule: TieBreak, o1: Operator, o2: Operator, a: Token, b: Token, c: Token)
    requires Prio(o1) < Prio(o2) && IsLiteral(c)
    ensures StackOk([Op(o1)])
    ensures Shunt(rule, [Op(o2), c], [a, b], [Op(o1)]) == Ok([a, b, c, Op(o2), Op(o1)])
  {
    Single(o1);
    var t3 := [Op(o2), c];
    var stack := [Op(o1), Op(o2)];
    assert !PopsBefore(rule, o1, o2);
    assert PopForOperator(rule, o2, [a, b], [Op(o1)]) == ([a, b], [Op(o1)]);
    ShuntOperator(rule, t3, [a, b], [Op(o1)]);
    assert [Op(o1)] + [t3[0]] == stack;
    ShuntLiteral(rule, [c], [a, b], stack, [], [a, b, c]);
    assert Shunt(rule, [], [a, b, c], stack) == Drain([a, b, c], stack);
    DrainTwo([a, b, c], o1, o2);
    assert [a, b, c] + [Op(o2), Op(o1)] == [a, b, c, Op(o2), Op(o1)];
  }

  /**
    `a o1 b o2 c` with `o2` of higher priority, such as `a + b * c`, converts
    to `a b c o2 o1`: `o2` takes `b` and `c`, under either tie-break.
  */
  lemma HigherPriorityFirst(rule: TieBreak, o1: Operator, o2: Operator, a: Token, b: Token, c: Token)
    requires Prio(o1) < Prio(o2) && IsLiteral(a) && IsLiteral(b) && IsLiteral(c)
    ensures ShuntingYard(rule, [a, Op(o1), b, Op(o2), c]) == Ok([a, b, c, Op(o2), Op(o1)])
  {
    YardIsShunt(rule, [a, Op(o1), b, Op(o2), c]);
    LowerHead(rule, o1, o2, a, b, c);
    HigherTail(rule, o1, o2, a, b, c);
  }

  /** That postfix computes a o1 (b o2 c), such as a + (b * c). */
  lemma HigherPriorityValue(ops: FloatOps, o1: Operator, o2: Operator, a: Token, b: Token, c: Token)
    requires IsLiteral(a) && IsLiteral(b) && IsLiteral(c)
    ensures ParenFree([a, b, c, Op(o2), Op(o1)])
    ensures Evaluate(ops, [a, b, c, Op(o2), Op(o1)])
         == Some(Binary(ops, o1)(LiteralValue(ops, a), Binary(ops, o2)(LiteralValue(ops, b), LiteralValue(ops, c))))
  {
    var inner := Node(o2, Leaf(b), Leaf(c));
    var e := Node(o1, Leaf(a), inner);
    assert WellFormed(Leaf(a)) && WellFormed(Leaf(b)) && WellFormed(Leaf(c));
    assert WellFormed(inner) && WellFormed(e);
    assert Postfix(inner) == [b] + [c] + [Op(o2)] == [b, c, Op(o2)];
    assert Postfix(e) == [a] + [b, c, Op(o2)] + [Op(o1)] == [a, b, c, Op(o2), Op(o1)];
    assert ValueOf(ops, inner) == Binary(ops, o2)(LiteralValue(ops, b), LiteralValue(ops, c));
    assert ValueOf(ops, e) == Binary(ops, o1)(LiteralValue(ops, a), ValueOf(ops, inner));
    EvaluatePostfix(ops, e);
  }

  // ---- a parenthesised group is a unit ---------------------------------------

  /** `(a o1 b`, up to `)`: `a b` emitted, `( o1` stacked. */
  lemma GroupOpen(rule: TieBreak, o1: Operator, o2: Operator, a: Token, b: Token, c: Token)
    requires IsLiteral(a) && IsLiteral(b)
    ensures StackOk([LeftParenthesis, Op(o1)])
    ensures Shunt(rule, [LeftParenthesis, a, Op(o1), b, RightParenthesis, Op(o2), c], [], [])
         == Shunt(rule, [RightParenthesis, Op(o2), c], [a, b], [LeftParenthesis, Op(o1)])
  {
    var t0 := [LeftParenthesis, a, Op(o1), b, RightParenthesis, Op(o2), c];
    var t1 := [a, Op(o1), b, RightParenthesis, Op(o2), c];
    var t2 := [Op(o1), b, RightParenthesis, Op(o2), c];
    var t3 := [b, RightParenthesis, Op(o2), c];
    var open := [LeftParenthesis];
    var group := [LeftParenthesis, Op(o1)];
    ShuntLeftParen(rule, t0, [], []);
    assert t0[1..] == t1 && [] + [LeftParenthesis] == open;
    ShuntLiteral(rule, t1, [], open, t2, [a]);
    assert open[..0] == [];
    assert PopForOperator(rule, o1, [a], open) == ([a], open);
    ShuntOperator(rule, t2, [a], open);
    assert open + [t2[0]] == group && t2[1..] == t3;
    ShuntLiteral(rule, t3, [a], group, [RightParenthesis, Op(o2), c], [a, b]);
  }

  /** `(a o1 b)`: the group is emitted as `a b o1` and the stack is empty again. */
  lemma GroupHead(rule: TieBreak, o1: Operator, o2: Operator, a: Token, b: Token, c: Token)
    requires IsLiteral(a) && IsLiteral(b)
    ensures Shunt(rule, [LeftParenthesis, a, Op(o1), b, RightParenthesis, Op(o2), c], [], [])
         == Shunt(rule, [Op(o2), c], [a, b, Op(o1)], [])
  {
    var t4 := [RightParenthesis, Op(o2), c];
    GroupOpen(rule, o1, o2, a, b, c);
    ShuntCloseOne(rule, t4, [a, b], o1);
    assert t4[1..] == [Op(o2), c] && [a, b] + [Op(o1)] == [a, b, Op(o1)];
  }

  /** After the group: `o2` finds an empty stack, takes `c`, and leaves last. */
  lemma GroupTail(rule: TieBreak, o2: Operator, g: seq<Token>, c: Token)
    requires IsLiteral(c)
    ensures Shunt(rule, [Op(o2), c], g, []) == Ok(g + [c, Op(o2)])
  {
    var t5 := [Op(o2), c];
    ShuntFirstOperator(rule, t5, g, [c]);
    ShuntLiteral(rule, [c], g, [Op(o2)], [], g + [c]);
    assert Shunt(rule, [], g + [c], [Op(o2)]) == Drain(g + [c], [Op(o2)]);
    assert [Op(o2)][..0] == [];
    assert g + [c] + [Op(o2)] == g + [c, Op(o2)];
  }

  /**
    `(a o1 b) o2 c`, such as `(a + b) * c`, converts to `a b o1 c o2`
    whatever the two operators and under either tie-break: the group is
    computed first and is the left operand of `o2`.
  */
  lemma GroupFirst(rule: TieBreak, o1: Operator, o2: Operator, a: Token, b: Token, c: Token)
    requires IsLiteral(a) && IsLiteral(b) && IsLiteral(c)
    ensures ShuntingYard(rule, [LeftParenthesis, a, Op(o1), b, RightParenthesis, Op(o2), c])
         == Ok([a, b, Op(o1), c, Op(o2)])
  {
    YardIsShunt(rule, [LeftParenthesis, a, Op(o1), b, RightParenthesis, Op(o2), c]);
    GroupHead(rule, o1, o2, a, b, c);
    GroupTail(rule, o2, [a, b, Op(o1)], c);
    assert [a, b, Op(o1)] + [c, Op(o2)] == [a, b, Op(o1), c, Op(o2)];
  }

  /** That postfix computes (a o1 b) o2 c, such as (a + b) * c. */
  lemma GroupValue(ops: FloatOps, o1: Operator, o2: Operator, a: Token, b: Token, c: Token)
    requires IsLiteral(a) && IsLiteral(b) && IsLiteral(c)
    ensures ParenFree([a, b, Op(o1), c, Op(o2)])
    ensures Evaluate(ops, [a, b, Op(o1), c, Op(o2)])
         == Some(Binary(ops, o2)(Binary(ops, o1)(LiteralValue(ops, a), LiteralValue(ops, b)), LiteralValue(ops, c)))
  {
    var inner := Node(o1, Leaf(a), Leaf(b));
    var e := Node(o2, inner, Leaf(c));
    assert WellFormed(Leaf(a)) && WellFormed(Leaf(b)) && WellFormed(Leaf(c));
    assert WellFormed(inner) && WellFormed(e);
    assert Postfix(inner) == [a] + [b] + [Op(o1)] == [a, b, Op(o1)];
    assert Postfix(e) == [a, b, Op(o1)] + [c] + [Op(o2)] == [a, b, Op(o1), c, Op(o2)];
    assert ValueOf(ops, inner) == Binary(ops, o1)(LiteralValue(ops, a), LiteralValue(ops, b));
    assert ValueOf(ops, e) == Binary(ops, o2)(ValueOf(ops, inner), LiteralValue(ops, c));
    EvaluatePostfix(ops, e);
  }
}
