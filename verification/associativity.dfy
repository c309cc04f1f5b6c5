/**
  How the shunting-yard tie-break groups a flat chain `a0 o1 a1 o2 a2 …` of
  operands and operators without parentheses. When every operator is popped
  by the next one, the chain is grouped from the left: `((a0 o1 a1) o2 a2) …`.
  The conventional rule pops on equal priority, so every chain of one
  priority level is grouped from the left. The source's rule pops only the
  identical operator, so a chain such as `8 / 4 * 2` is grouped from the
  right instead.
*/
module Associativity {
  import opened Wrappers
  import opened Tokens
  import opened Shunting
  import opened Evaluator

  /** One step of a chain: an operator and the operand after it. */
  datatype Link = Link(op: Operator, operand: Token)

  /** The tokens after the first operand. */
  function LinkTokens(links: seq<Link>): seq<Token> {
    if links == [] then [] else [Op(links[0].op), links[0].operand] + LinkTokens(links[1..])
  }

  /** The chain `first o1 a1 o2 a2 …` as tokens. */
  function Chain(first: Token, links: seq<Link>): seq<Token> {
    [first] + LinkTokens(links)
  }

  /** The chain grouped from the left, onto an already grouped prefix `acc`. */
  function FoldLeft(acc: Expr, links: seq<Link>): Expr
    decreases |links|
  {
    if links == [] then acc
    else FoldLeft(Node(links[0].op, acc, Leaf(links[0].operand)), links[1..])
  }

  /**
    Each operator of the chain is popped by the one after it, starting from
    the stacked operator `o`, and every operand is a literal.
  */
  predicate Flushes(rule: TieBreak, o: Operator, links: seq<Link>)
    decreases |links|
  {
    links == [] || (PopsBefore(rule, o, links[0].op) && IsLiteral(links[0].operand) && Flushes(rule, links[0].op, links[1..]))
  }

  /** The chain's condition for left grouping: the first operator has no predecessor to pop. */
  predicate FlushingChain(rule: TieBreak, links: seq<Link>) {
    links == [] || (IsLiteral(links[0].operand) && Flushes(rule, links[0].op, links[1..]))
  }

  lemma FoldLeftWellFormed(acc: Expr, links: seq<Link>, rule: TieBreak, o: Operator)
    requires WellFormed(acc) && Flushes(rule, o, links)
    ensures WellFormed(FoldLeft(acc, links))
    decreases |links|
  {
    if links != [] {
      FoldLeftWellFormed(Node(links[0].op, acc, Leaf(links[0].operand)), links[1..], rule, links[0].op);
    }
  }

  lemma Single(o: Operator)
    ensures StackOk([Op(o)])
  {
    Push([], Op(o));
    assert [] + [Op(o)] == [Op(o)];
  }

  /** A literal goes straight to the output. */
  lemma ShuntLiteral(rule: TieBreak, tokens: seq<Token>, output: seq<Token>, stack: seq<Token>,
                     rest: seq<Token>, output': seq<Token>)
    requires StackOk(stack) && tokens != [] && IsLiteral(tokens[0])
    requires rest == tokens[1..] && output' == output + [tokens[0]]
    ensures Shunt(rule, tokens, output, stack) == Shunt(rule, rest, output', stack)
  {
  }

  /** An operator that finds an empty stack is stacked. */
  lemma ShuntFirstOperator(rule: TieBreak, tokens: seq<Token>, output: seq<Token>, rest: seq<Token>)
    requires tokens != [] && tokens[0].Op? && rest == tokens[1..]
    ensures StackOk([tokens[0]])
    ensures Shunt(rule, tokens, output, []) == Shunt(rule, rest, output, [tokens[0]])
  {
    Single(tokens[0].op);
    assert [] + [tokens[0]] == [tokens[0]];
  }

  /** An operator first pops what it must, then is stacked. */
  lemma ShuntOperator(rule: TieBreak, tokens: seq<Token>, output: seq<Token>, stack: seq<Token>)
    requires StackOk(stack) && tokens != [] && tokens[0].Op?
    ensures StackOk(PopForOperator(rule, tokens[0].op, output, stack).1 + [tokens[0]])
    ensures Shunt(rule, tokens, output, stack)
         == Shunt(rule, tokens[1..], PopForOperator(rule, tokens[0].op, output, stack).0,
                  PopForOperator(rule, tokens[0].op, output, stack).1 + [tokens[0]])
  {
    Push(PopForOperator(rule, tokens[0].op, output, stack).1, tokens[0]);
  }

  /** One stacked operator `o` meets the incoming `o'` that pops it: `o` goes out, `o'` is stacked. */
  lemma PopOne(rule: TieBreak, o: Operator, o': Operator, output: seq<Token>)
    requires PopsBefore(rule, o, o')
    ensures StackOk([Op(o)])
    ensures PopForOperator(rule, o', output, [Op(o)]) == (output + [Op(o)], [])
  {
    Single(o);
    assert [Op(o)][..0] == [];
  }

  /**
    The loop invariant of a flushing chain: with the grouped prefix emitted
    except for its operator `o`, which waits on the stack, the rest of the
    chain turns into the postfix form of the left grouping.
  */
  lemma {:induction false} ShuntChain(rule: TieBreak, o: Operator, acc: Expr, output: seq<Token>, links: seq<Link>)
    requires output + [Op(o)] == Postfix(acc)
    requires Flushes(rule, o, links)
    ensures StackOk([Op(o)])
    ensures Shunt(rule, LinkTokens(links), output, [Op(o)]) == Ok(Postfix(FoldLeft(acc, links)))
    decreases |links|
  {
    Single(o);
    if links == [] {
      assert Reverse([Op(o)]) == [Op(o)];
    } else {
      var l := links[0];
      var tokens := LinkTokens(links);
      PopOne(rule, o, l.op, output);
      var output' := output + [Op(o)] + [l.operand];
      assert tokens[0] == Op(l.op) && tokens[1..][0] == l.operand && tokens[1..][1..] == LinkTokens(links[1..]);
      ShuntOperator(rule, tokens, output, [Op(o)]);
      assert [] + [Op(l.op)] == [Op(l.op)];
      Single(l.op);
      ShuntLiteral(rule, tokens[1..], output + [Op(o)], [Op(l.op)], LinkTokens(links[1..]), output');
      ShuntChain(rule, l.op, Node(l.op, acc, Leaf(l.operand)), output', links[1..]);
    }
  }

  /** A flushing chain is converted to the postfix form of its left grouping. */
  lemma ChainPostfix(rule: TieBreak, first: Token, links: seq<Link>)
    requires IsLiteral(first) && FlushingChain(rule, links)
    ensures ShuntingYard(rule, Chain(first, links)) == Ok(Postfix(FoldLeft(Leaf(first), links)))
  {
    var tokens := Chain(first, links);
    assert tokens[0] == first && tokens[1..] == LinkTokens(links);
    assert [] + [first] == [first];
    ShuntLiteral(rule, tokens, [], [], LinkTokens(links), [first]);
    if links != [] {
      var l := links[0];
      var rest := LinkTokens(links);
      assert rest[0] == Op(l.op) && rest[1..][0] == l.operand && rest[1..][1..] == LinkTokens(links[1..]);
      ShuntFirstOperator(rule, rest, [first], rest[1..]);
      assert [first] + [l.operand] == [first, l.operand];
      ShuntLiteral(rule, rest[1..], [first], [Op(l.op)], LinkTokens(links[1..]), [first, l.operand]);
      ShuntChain(rule, l.op, Node(l.op, Leaf(first), Leaf(l.operand)), [first, l.operand], links[1..]);
    }
  }

  /** Hence a flushing chain evaluates to the value of its left grouping. */
  lemma ChainValue(rule: TieBreak, ops: FloatOps, first: Token, links: seq<Link>)
    requires IsLiteral(first) && FlushingChain(rule, links)
    ensures ShuntingYard(rule, Chain(first, links)).Ok?
    ensures WellFormed(FoldLeft(Leaf(first), links))
    ensures Evaluate(ops, ShuntingYard(rule, Chain(first, links)).value) == Some(ValueOf(ops, FoldLeft(Leaf(first), links)))
  {
    ChainPostfix(rule, first, links);
    if links != [] {
      FoldLeftWellFormed(Node(links[0].op, Leaf(first), Leaf(links[0].operand)), links[1..], rule, links[0].op);
    }
    EvaluatePostfix(ops, FoldLeft(Leaf(first), links));
  }

  // ---- the two tie-break rules ---------------------------------------------

  predicate OperandsLiteral(links: seq<Link>) {
    forall i :: 0 <= i < |links| ==> IsLiteral(links[i].operand)
  }

  /** All operators of the chain share one priority level. */
  predicate OnePriority(links: seq<Link>) {
    forall i :: 0 <= i < |links| ==> Prio(links[i].op) == Prio(links[0].op)
  }

  /** All operators of the chain are the same operator. */
  predicate OneOperator(links: seq<Link>) {
    forall i :: 0 <= i < |links| ==> links[i].op == links[0].op
  }

  lemma {:induction false} OnePriorityFlushes(o: Operator, links: seq<Link>)
    requires OperandsLiteral(links)
    requires forall i :: 0 <= i < |links| ==> Prio(links[i].op) == Prio(o)
    ensures Flushes(LeftAssociative, o, links)
    decreases |links|
  {
    if links != [] {
      OnePriorityFlushes(links[0].op, links[1..]);
    }
  }

  lemma {:induction false} OneOperatorFlushes(rule: TieBreak, o: Operator, links: seq<Link>)
    requires OperandsLiteral(links)
    requires forall i :: 0 <= i < |links| ==> links[i].op == o
    ensures Flushes(rule, o, links)
    decreases |links|
  {
    if links != [] {
      OneOperatorFlushes(rule, links[0].op, links[1..]);
    }
  }

  /**
    The conventional tie-break groups every chain of one priority level from
    the left, whichever operators of that level it mixes.
  */
  lemma LeftAssociativeGroupsLeft(ops: FloatOps, first: Token, links: seq<Link>)
    requires IsLiteral(first) && OperandsLiteral(links) && OnePriority(links)
    ensures ShuntingYard(LeftAssociative, Chain(first, links)) == Ok(Postfix(FoldLeft(Leaf(first), links)))
    ensures WellFormed(FoldLeft(Leaf(first), links))
    ensures Evaluate(ops, ShuntingYard(LeftAssociative, Chain(first, links)).value)
         == Some(ValueOf(ops, FoldLeft(Leaf(first), links)))
  {
    if links != [] {
      OnePriorityFlushes(links[0].op, links[1..]);
    }
    ChainPostfix(LeftAssociative, first, links);
    ChainValue(LeftAssociative, ops, first, links);
  }

  /** The source's tie-break still groups a chain of one repeated operator from the left. */
  lemma AsWrittenRepeatedOperator(ops: FloatOps, first: Token, links: seq<Link>)
    requires IsLiteral(first) && OperandsLiteral(links) && OneOperator(links)
    ensures ShuntingYard(AsWritten, Chain(first, links)) == Ok(Postfix(FoldLeft(Leaf(first), links)))
  {
    if links != [] {
      OneOperatorFlushes(AsWritten, links[0].op, links[1..]);
    }
    ChainPostfix(AsWritten, first, links);
  }

  /** The chain `a / b * c`, such as `8 / 4 * 2`. */
  function MixedLinks(b: Token, c: Token): seq<Link> {
    [Link(Div, b), Link(Mul, c)]
  }

  lemma MixedTokens(a: Token, b: Token, c: Token)
    ensures Chain(a, MixedLinks(b, c)) == [a, Op(Div), b, Op(Mul), c]
  {
    var links := MixedLinks(b, c);
    assert LinkTokens(links[1..][1..]) == [];
    assert LinkTokens(links[1..]) == [Op(Mul), c];
  }

  /** Its left grouping, (a / b) * c, in postfix form. */
  lemma MixedGrouping(a: Token, b: Token, c: Token)
    ensures FoldLeft(Leaf(a), MixedLinks(b, c)) == Node(Mul, Node(Div, Leaf(a), Leaf(b)), Leaf(c))
    ensures Postfix(FoldLeft(Leaf(a), MixedLinks(b, c))) == [a, b, Op(Div), c, Op(Mul)]
  {
    var links := MixedLinks(b, c);
    var divided := Node(Div, Leaf(a), Leaf(b));
    var grouped := Node(Mul, divided, Leaf(c));
    assert links[1..] == [Link(Mul, c)] && links[1..][1..] == [];
    assert FoldLeft(Leaf(a), links) == FoldLeft(divided, links[1..]);
    assert FoldLeft(divided, links[1..]) == FoldLeft(grouped, []);
    assert Postfix(divided) == [a] + [b] + [Op(Div)] == [a, b, Op(Div)];
    assert Postfix(grouped) == [a, b, Op(Div)] + [c] + [Op(Mul)];
  }

  /** The source's conversion of `a / b * c`, up to `*`: `a b` emitted, `/` stacked. */
  lemma MixedHead(a: Token, b: Token, c: Token)
    requires IsLiteral(a) && IsLiteral(b) && IsLiteral(c)
    ensures StackOk([Op(Div)])
    ensures Shunt(AsWritten, [a, Op(Div), b, Op(Mul), c], [], []) == Shunt(AsWritten, [Op(Mul), c], [a, b], [Op(Div)])
  {
    var t0 := [a, Op(Div), b, Op(Mul), c];
    var t1 := [Op(Div), b, Op(Mul), c];
    var t2 := [b, Op(Mul), c];
    ShuntLiteral(AsWritten, t0, [], [], t1, [a]);
    ShuntFirstOperator(AsWritten, t1, [a], t2);
    ShuntLiteral(AsWritten, t2, [a], [Op(Div)], [Op(Mul), c], [a, b]);
  }

  /** From `*` on: `/` does not pop for `*`, so both stay stacked and leave top first. */
  lemma MixedTail(a: Token, b: Token, c: Token)
    requires IsLiteral(c)
    ensures StackOk([Op(Div)])
    ensures Shunt(AsWritten, [Op(Mul), c], [a, b], [Op(Div)]) == Ok([a, b, c, Op(Mul), Op(Div)])
  {
    Single(Div);
    var t3 := [Op(Mul), c];
    var stack := [Op(Div), Op(Mul)];
    assert [Op(Div)][..0] == [];
    assert PopForOperator(AsWritten, Mul, [a, b], [Op(Div)]) == ([a, b], [Op(Div)]);
    ShuntOperator(AsWritten, t3, [a, b], [Op(Div)]);
    assert [Op(Div)] + [t3[0]] == stack;
    ShuntLiteral(AsWritten, [c], [a, b], stack, [], [a, b, c]);
    assert stack[..1] == [Op(Div)];
    assert Reverse(stack) == [Op(Mul), Op(Div)];
    assert Shunt(AsWritten, [], [a, b, c], stack) == Drain([a, b, c], stack);
    assert [a, b, c] + [Op(Mul), Op(Div)] == [a, b, c, Op(Mul), Op(Div)];
  }

  /** The source's conversion of `a / b * c`: `/` stays stacked under `*`. */
  lemma AsWrittenMixedPostfix(a: Token, b: Token, c: Token)
    requires IsLiteral(a) && IsLiteral(b) && IsLiteral(c)
    ensures ShuntingYard(AsWritten, [a, Op(Div), b, Op(Mul), c]) == Ok([a, b, c, Op(Mul), Op(Div)])
  {
    YardIsShunt(AsWritten, [a, Op(Div), b, Op(Mul), c]);
    MixedHead(a, b, c);
    MixedTail(a, b, c);
  }

  lemma YardIsShunt(rule: TieBreak, tokens: seq<Token>)
    ensures ShuntingYard(rule, tokens) == Shunt(rule, tokens, [], [])
  {
  }

  /** Evaluating the two postfix orders of `a / b * c`. */
  lemma EvaluateRightGrouping(ops: FloatOps, a: Token, b: Token, c: Token)
    requires IsLiteral(a) && IsLiteral(b) && IsLiteral(c)
    ensures ParenFree([a, b, c, Op(Mul), Op(Div)])
    ensures Evaluate(ops, [a, b, c, Op(Mul), Op(Div)])
         == Some(ops.div(LiteralValue(ops, a), ops.mul(LiteralValue(ops, b), LiteralValue(ops, c))))
  {
    var product := Node(Mul, Leaf(b), Leaf(c));
    var e := Node(Div, Leaf(a), product);
    assert WellFormed(Leaf(a)) && WellFormed(Leaf(b)) && WellFormed(Leaf(c));
    assert WellFormed(product) && WellFormed(e);
    assert Postfix(product) == [b] + [c] + [Op(Mul)] == [b, c, Op(Mul)];
    assert Postfix(e) == [a] + [b, c, Op(Mul)] + [Op(Div)] == [a, b, c, Op(Mul), Op(Div)];
    assert ValueOf(ops, product) == ops.mul(LiteralValue(ops, b), LiteralValue(ops, c));
    assert ValueOf(ops, e) == ops.div(LiteralValue(ops, a), ValueOf(ops, product));
    EvaluatePostfix(ops, e);
  }

  lemma EvaluateLeftGrouping(ops: FloatOps, a: Token, b: Token, c: Token)
    requires IsLiteral(a) && IsLiteral(b) && IsLiteral(c)
    ensures ParenFree([a, b, Op(Div), c, Op(Mul)])
    ensures Evaluate(ops, [a, b, Op(Div), c, Op(Mul)])
         == Some(ops.mul(ops.div(LiteralValue(ops, a), LiteralValue(ops, b)), LiteralValue(ops, c)))
  {
    MixedGrouping(a, b, c);
    var quotient := Node(Div, Leaf(a), Leaf(b));
    var e := Node(Mul, quotient, Leaf(c));
    assert WellFormed(Leaf(a)) && WellFormed(Leaf(b)) && WellFormed(Leaf(c));
    assert WellFormed(quotient) && WellFormed(e);
    assert ValueOf(ops, quotient) == ops.div(LiteralValue(ops, a), LiteralValue(ops, b));
    assert ValueOf(ops, e) == ops.mul(ValueOf(ops, quotient), LiteralValue(ops, c));
    EvaluatePostfix(ops, e);
  }

  /**
    But on `a / b * c`, such as `8 / 4 * 2`, the source's tie-break leaves
    `/` stacked under `*`, giving `a b c * /`, which computes a / (b * c)
    rather than the left grouping (a / b) * c.
  */
  lemma AsWrittenMixedOperators(ops: FloatOps, a: Token, b: Token, c: Token)
    requires IsLiteral(a) && IsLiteral(b) && IsLiteral(c)
    ensures ShuntingYard(AsWritten, Chain(a, MixedLinks(b, c))) == Ok([a, b, c, Op(Mul), Op(Div)])
    ensures ShuntingYard(AsWritten, Chain(a, MixedLinks(b, c))) != Ok(Postfix(FoldLeft(Leaf(a), MixedLinks(b, c))))
    ensures Evaluate(ops, ShuntingYard(AsWritten, Chain(a, MixedLinks(b, c))).value)
         == Some(ops.div(LiteralValue(ops, a), ops.mul(LiteralValue(ops, b), LiteralValue(ops, c))))
  {
    MixedTokens(a, b, c);
    AsWrittenMixedPostfix(a, b, c);
    MixedGrouping(a, b, c);
    OrdersDiffer(a, b, c);
    EvaluateRightGrouping(ops, a, b, c);
  }

  lemma OrdersDiffer(a: Token, b: Token, c: Token)
    requires IsLiteral(c)
    ensures [a, b, c, Op(Mul), Op(Div)] != [a, b, Op(Div), c, Op(Mul)]
  {
    assert [a, b, c, Op(Mul), Op(Div)][2] != [a, b, Op(Div), c, Op(Mul)][2];
  }

  /** The conventional tie-break converts `a / b * c` to `a b / c *`, computing (a / b) * c. */
  lemma LeftAssociativeMixedOperators(ops: FloatOps, a: Token, b: Token, c: Token)
    requires IsLiteral(a) && IsLiteral(b) && IsLiteral(c)
    ensures ShuntingYard(LeftAssociative, Chain(a, MixedLinks(b, c))) == Ok([a, b, Op(Div), c, Op(Mul)])
    ensures Evaluate(ops, ShuntingYard(LeftAssociative, Chain(a, MixedLinks(b, c))).value)
         == Some(ops.mul(ops.div(LiteralValue(ops, a), LiteralValue(ops, b)), LiteralValue(ops, c)))
  {
    var links := MixedLinks(b, c);
    assert OnePriority(links) && OperandsLiteral(links);
    LeftAssociativeGroupsLeft(ops, a, links);
    MixedGrouping(a, b, c);
    EvaluateLeftGrouping(ops, a, b, c);
  }
}
