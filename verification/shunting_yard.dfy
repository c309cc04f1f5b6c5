/**
  The shunting-yard conversion from infix to postfix tokens, using an output
  sequence and a side stack of operators and left parentheses (top at the end).

  The pop test on an incoming operator `o1` is written in the source as
  `*o2 > o1 || *o2 == o1`: `>` compares priorities, but `==` is the derived
  variant identity, so a different operator of equal priority stays on the
  stack. `TieBreak` selects between that rule (`AsWritten`, the source's
  behaviour) and the conventional left-associative rule (`LeftAssociative`,
  priority greater or equal); every structural property below holds for both.
*/
module Shunting {
  import opened Wrappers
  import opened Tokens

  datatype TieBreak = AsWritten | LeftAssociative

  const MismatchedParenthesis: string := "Mismatched parenthesis"

  /** Whether a stacked operator `o2` is popped before the incoming `o1` is pushed. */
  predicate PopsBefore(rule: TieBreak, o2: Operator, o1: Operator) {
    match rule
    case AsWritten => Greater(o2, o1) || o2 == o1
    case LeftAssociative => Prio(o2) >= Prio(o1)
  }

  /** The side stack only ever holds operators and left parentheses. */
  predicate StackOk(stack: seq<Token>)
    decreases |stack|
  {
    stack == [] || (StackOk(stack[..|stack| - 1]) && IsStackable(stack[|stack| - 1]))
  }

  predicate IsStackable(t: Token) {
    t.Op? || t.LeftParenthesis?
  }

  lemma Push(stack: seq<Token>, t: Token)
    requires StackOk(stack) && IsStackable(t)
    ensures StackOk(stack + [t])
  {
    assert (stack + [t])[..|stack|] == stack;
  }

  lemma {:induction false} StackOkAll(stack: seq<Token>)
    requires StackOk(stack)
    ensures forall i :: 0 <= i < |stack| ==> IsStackable(stack[i])
    decreases |stack|
  {
    if stack != [] {
      StackOkAll(stack[..|stack| - 1]);
    }
  }

  /** The order in which popping a stack segment emits it: top first. */
  function Reverse<T>(s: seq<T>): (r: seq<T>)
    ensures |r| == |s|
    decreases |s|
  {
    if s == [] then [] else [s[|s| - 1]] + Reverse(s[..|s| - 1])
  }

  lemma ReverseSnoc<T>(s: seq<T>, x: T)
    ensures Reverse(s + [x]) == [x] + Reverse(s)
  {
    assert (s + [x])[..|s|] == s;
  }

  /** A segment popped off the stack: operators only. */
  predicate AllOps(s: seq<Token>) {
    forall i :: 0 <= i < |s| ==> s[i].Op?
  }

  lemma {:induction false} ReverseAllOps(s: seq<Token>)
    requires AllOps(s)
    ensures AllOps(Reverse(s))
    decreases |s|
  {
    if s != [] {
      ReverseAllOps(s[..|s| - 1]);
    }
  }

  /** The number of left parentheses in a sequence of tokens. */
  function Opens(ts: seq<Token>): nat
    decreases |ts|
  {
    if ts == [] then 0 else (if ts[0].LeftParenthesis? then 1 else 0) + Opens(ts[1..])
  }

  function WithoutParens(ts: seq<Token>): seq<Token>
    decreases |ts|
  {
    if ts == [] then []
    else if IsParen(ts[0]) then WithoutParens(ts[1..])
    else [ts[0]] + WithoutParens(ts[1..])
  }

  function Literals(ts: seq<Token>): seq<Token>
    decreases |ts|
  {
    if ts == [] then []
    else if IsLiteral(ts[0]) then [ts[0]] + Literals(ts[1..])
    else Literals(ts[1..])
  }

  /** The tokens of a sequence, counted with multiplicity. */
  function Bag(ts: seq<Token>): multiset<Token>
    decreases |ts|
  {
    if ts == [] then multiset{} else multiset{ts[0]} + Bag(ts[1..])
  }

  /**
    The parentheses of `ts` close properly given `open` already-open ones:
    no `)` without an open `(` before it, and none left open at the end.
  */
  predicate MatchedFrom(ts: seq<Token>, open: nat)
    decreases |ts|
  {
    if ts == [] then open == 0
    else if ts[0].LeftParenthesis? then MatchedFrom(ts[1..], open + 1)
    else if ts[0].RightParenthesis? then open > 0 && MatchedFrom(ts[1..], open - 1)
    else MatchedFrom(ts[1..], open)
  }

  predicate Balanced(ts: seq<Token>) {
    MatchedFrom(ts, 0)
  }

  // ---- facts about the filters -------------------------------------------

  lemma {:induction false} OpensAppend(a: seq<Token>, b: seq<Token>)
    ensures Opens(a + b) == Opens(a) + Opens(b)
    decreases |a|
  {
    if a == [] {
      assert a + b == b;
    } else {
      assert (a + b)[1..] == a[1..] + b;
      OpensAppend(a[1..], b);
    }
  }

  lemma {:induction false} WithoutParensAppend(a: seq<Token>, b: seq<Token>)
    ensures WithoutParens(a + b) == WithoutParens(a) + WithoutParens(b)
    decreases |a|
  {
    if a == [] {
      assert a + b == b;
    } else {
      assert (a + b)[1..] == a[1..] + b;
      WithoutParensAppend(a[1..], b);
      if !IsParen(a[0]) {
        AppendAssoc([a[0]], WithoutParens(a[1..]), WithoutParens(b));
      }
    }
  }

  lemma {:induction false} LiteralsAppend(a: seq<Token>, b: seq<Token>)
    ensures Literals(a + b) == Literals(a) + Literals(b)
    decreases |a|
  {
    if a == [] {
      assert a + b == b;
    } else {
      assert (a + b)[1..] == a[1..] + b;
      LiteralsAppend(a[1..], b);
      if IsLiteral(a[0]) {
        AppendAssoc([a[0]], Literals(a[1..]), Literals(b));
      }
    }
  }

  lemma {:induction false} BagAppend(a: seq<Token>, b: seq<Token>)
    ensures Bag(a + b) == Bag(a) + Bag(b)
    decreases |a|
  {
    if a == [] {
      assert a + b == b;
    } else {
      assert (a + b)[1..] == a[1..] + b;
      BagAppend(a[1..], b);
    }
  }

  lemma {:induction false} BagIsMultiset(ts: seq<Token>)
    ensures Bag(ts) == multiset(ts)
    decreases |ts|
  {
    if ts != [] {
      BagIsMultiset(ts[1..]);
      assert ts == [ts[0]] + ts[1..];
    }
  }

  lemma {:induction false} OpensZero(ts: seq<Token>)
    ensures Opens(ts) == 0 <==> forall i :: 0 <= i < |ts| ==> !ts[i].LeftParenthesis?
    decreases |ts|
  {
    if ts != [] {
      OpensZero(ts[1..]);
      assert forall i :: 1 <= i < |ts| ==> ts[i] == ts[1..][i - 1];
    }
  }

  lemma {:induction false} NoParensFilters(ts: seq<Token>)
    requires ParenFree(ts)
    ensures WithoutParens(ts) == ts && Opens(ts) == 0
    decreases |ts|
  {
    if ts != [] {
      NoParensFilters(ts[1..]);
    }
  }

  lemma {:induction false} OperatorsFilters(ts: seq<Token>)
    requires AllOps(ts)
    ensures WithoutParens(ts) == ts && Opens(ts) == 0 && Literals(ts) == []
    decreases |ts|
  {
    if ts != [] {
      OperatorsFilters(ts[1..]);
    }
  }

  // ---- the three stack phases --------------------------------------------

  /**
    The inner loop on an incoming operator `o1`: pops, in LIFO order, the
    stacked operators above the nearest `(` for as long as they satisfy the
    pop test, and stops at a `(`, the stack bottom, or the first operator
    that fails it. The `unreachable!` arm is ruled out by `StackOk`.
  */
  function PopForOperator(rule: TieBreak, o1: Operator, output: seq<Token>, stack: seq<Token>)
    : (r: (seq<Token>, seq<Token>))
    requires StackOk(stack)
    ensures StackOk(r.1)
    ensures OperatorPopped(rule, o1, output, stack, r.0, r.1)
    ensures r.1 == [] || r.1[|r.1| - 1].LeftParenthesis? || !PopsBefore(rule, r.1[|r.1| - 1].op, o1)
    decreases |stack|
  {
    if stack == [] then (output, stack)
    else
      var top := stack[|stack| - 1];
      if top.LeftParenthesis? then (output, stack)
      else
        assert top.Op?;
        if PopsBefore(rule, top.op, o1) then
          var r := PopForOperator(rule, o1, output + [top], stack[..|stack| - 1]);
          PopForOperatorStep(rule, o1, output, stack, r);
          r
        else (output, stack)
  }

  /** Every entry of a popped segment is an operator that the pop test lets go before `o1`. */
  predicate PoppedFor(rule: TieBreak, o1: Operator, s: seq<Token>) {
    forall i :: 0 <= i < |s| ==> s[i].Op? && PopsBefore(rule, s[i].op, o1)
  }

  /** The segment from `k` up is the one from `k` below the top, then the top. */
  lemma SegmentSnoc(stack: seq<Token>, k: nat)
    requires k < |stack|
    ensures stack[k..] == stack[..|stack| - 1][k..] + [stack[|stack| - 1]]
    ensures stack == stack[..|stack| - 1] + [stack[|stack| - 1]]
  {
  }

  /**
    How an incoming operator leaves output and stack: the stack splits into
    what stays and a segment above it that the pop test lets go, which is
    emitted top first.
  */
  predicate OperatorPopped(rule: TieBreak, o1: Operator, output: seq<Token>, stack: seq<Token>,
                           output': seq<Token>, stack': seq<Token>) {
    && |stack'| <= |stack|
    && var popped := stack[|stack'|..];
    && stack == stack' + popped
    && PoppedFor(rule, o1, popped)
    && output' == output + Reverse(popped)
  }

  /** The recursive case of `PopForOperator`: one more operator popped on top of the rest. */
  lemma PopForOperatorStep(rule: TieBreak, o1: Operator, output: seq<Token>, stack: seq<Token>, r: (seq<Token>, seq<Token>))
    requires stack != [] && stack[|stack| - 1].Op? && PopsBefore(rule, stack[|stack| - 1].op, o1)
    requires OperatorPopped(rule, o1, output + [stack[|stack| - 1]], stack[..|stack| - 1], r.0, r.1)
    ensures OperatorPopped(rule, o1, output, stack, r.0, r.1)
  {
    var below, top := stack[..|stack| - 1], stack[|stack| - 1];
    var rest := below[|r.1|..];
    SegmentSnoc(stack, |r.1|);
    ReverseSnoc(rest, top);
    AppendAssoc(r.1, rest, [top]);
    AppendAssoc(output, [top], Reverse(rest));
    PoppedForSnoc(rule, o1, rest, top);
  }

  lemma PoppedForSnoc(rule: TieBreak, o1: Operator, s: seq<Token>, t: Token)
    requires PoppedFor(rule, o1, s) && t.Op? && PopsBefore(rule, t.op, o1)
    ensures PoppedFor(rule, o1, s + [t])
  {
    assert forall i :: 0 <= i < |s| ==> (s + [t])[i] == s[i];
  }

  /**
    The loop on `)`: pops operators to the output in LIFO order until the
    nearest `(`, which is discarded; None when the stack holds no `(`.
  */
  function PopToLeftParen(output: seq<Token>, stack: seq<Token>): (r: Option<(seq<Token>, seq<Token>)>)
    requires StackOk(stack)
    ensures r.None? <==> forall i :: 0 <= i < |stack| ==> !stack[i].LeftParenthesis?
    ensures r.Some? ==> StackOk(r.value.1)
    ensures r.Some? ==> ParenPopped(output, stack, r.value.0, r.value.1)
    decreases |stack|
  {
    if stack == [] then None
    else
      var top := stack[|stack| - 1];
      if top.LeftParenthesis? then
        SegmentSnoc(stack, |stack| - 1);
        Some((output, stack[..|stack| - 1]))
      else
        var r := PopToLeftParen(output + [top], stack[..|stack| - 1]);
        PopToLeftParenStep(output, stack, r);
        r
  }

  /**
    How `)` leaves output and stack: the stack splits into what stays, the
    nearest `(`, and an operator segment above it, which is emitted top first.
  */
  predicate ParenPopped(output: seq<Token>, stack: seq<Token>, output': seq<Token>, stack': seq<Token>) {
    && |stack'| < |stack|
    && var popped := stack[|stack'| + 1..];
    && stack == stack' + [LeftParenthesis] + popped
    && AllOps(popped)
    && output' == output + Reverse(popped)
  }

  /** The recursive case of `PopToLeftParen`: one more operator popped before reaching the `(`. */
  lemma PopToLeftParenStep(output: seq<Token>, stack: seq<Token>, r: Option<(seq<Token>, seq<Token>)>)
    requires stack != [] && stack[|stack| - 1].Op?
    requires
      var below := stack[..|stack| - 1];
      && (r.None? <==> forall i :: 0 <= i < |below| ==> !below[i].LeftParenthesis?)
      && (r.Some? ==> ParenPopped(output + [stack[|stack| - 1]], below, r.value.0, r.value.1))
    ensures r.None? <==> forall i :: 0 <= i < |stack| ==> !stack[i].LeftParenthesis?
    ensures r.Some? ==> ParenPopped(output, stack, r.value.0, r.value.1)
  {
    var below := stack[..|stack| - 1];
    assert forall i :: 0 <= i < |below| ==> below[i] == stack[i];
    if r.Some? {
      ParenPoppedStep(output, stack, r.value.0, r.value.1);
    }
  }

  lemma ParenPoppedStep(output: seq<Token>, stack: seq<Token>, output': seq<Token>, stack': seq<Token>)
    requires stack != [] && stack[|stack| - 1].Op?
    requires ParenPopped(output + [stack[|stack| - 1]], stack[..|stack| - 1], output', stack')
    ensures ParenPopped(output, stack, output', stack')
  {
    var below, top := stack[..|stack| - 1], stack[|stack| - 1];
    var rest := below[|stack'| + 1..];
    SegmentSnoc(stack, |stack'| + 1);
    ReverseSnoc(rest, top);
    AppendAssoc(stack' + [LeftParenthesis], rest, [top]);
    AppendAssoc(output, [top], Reverse(rest));
    AllOpsSnoc(rest, top);
  }

  lemma AllOpsSnoc(s: seq<Token>, t: Token)
    requires AllOps(s) && t.Op?
    ensures AllOps(s + [t])
  {
    assert forall i :: 0 <= i < |s| ==> (s + [t])[i] == s[i];
  }

  /** The final loop: pops everything to the output, failing at the first parenthesis met. */
  function Drain(output: seq<Token>, stack: seq<Token>): (r: Result<seq<Token>>)
    ensures r.Err? <==> exists i :: 0 <= i < |stack| && IsParen(stack[i])
    ensures r.Err? ==> r.error == MismatchedParenthesis
    ensures r.Ok? ==> r.value == output + Reverse(stack)
    decreases |stack|
  {
    if stack == [] then Ok(output)
    else
      var top := stack[|stack| - 1];
      if top.LeftParenthesis? || top.RightParenthesis? then Err(MismatchedParenthesis)
      else
        var r := Drain(output + [top], stack[..|stack| - 1]);
        assert forall i :: 0 <= i < |stack| - 1 ==> stack[..|stack| - 1][i] == stack[i];
        r
  }

  // ---- the conversion ----------------------------------------------------

  /** The `for tok in tokens` loop, from a given output and side stack. */
  function Shunt(rule: TieBreak, tokens: seq<Token>, output: seq<Token>, stack: seq<Token>): Result<seq<Token>>
    requires StackOk(stack)
    decreases |tokens|
  {
    if tokens == [] then Drain(output, stack)
    else
      var tok := tokens[0];
      match tok
      case Integer(_) => Shunt(rule, tokens[1..], output + [tok], stack)
      case Float(_) => Shunt(rule, tokens[1..], output + [tok], stack)
      case Op(o1) =>
        var (output', stack') := PopForOperator(rule, o1, output, stack);
        Push(stack', tok);
        Shunt(rule, tokens[1..], output', stack' + [tok])
      case LeftParenthesis =>
        Push(stack, tok);
        Shunt(rule, tokens[1..], output, stack + [tok])
      case RightParenthesis =>
        match PopToLeftParen(output, stack)
        case None => Err(MismatchedParenthesis)
        case Some((output', stack')) => Shunt(rule, tokens[1..], output', stack')
  }

  /**
    `shutting_yard`. It fails, with "Mismatched parenthesis", exactly when the
    parentheses are unbalanced; on success the output holds no parenthesis,
    is a permutation of the input's other tokens (so it is shorter by the
    number of parentheses), and keeps the literals in their input order.
  */
  function ShuntingYard(rule: TieBreak, tokens: seq<Token>): (r: Result<seq<Token>>)
    ensures r.Err? <==> !Balanced(tokens)
    ensures r.Err? ==> r.error == MismatchedParenthesis
    ensures r.Ok? ==> ParenFree(r.value)
    ensures r.Ok? ==> multiset(r.value) == multiset(WithoutParens(tokens))
    ensures r.Ok? ==> |r.value| == |WithoutParens(tokens)|
    ensures r.Ok? ==> Literals(r.value) == Literals(tokens)
  {
    ShuntInvariant(rule, tokens, [], []);
    var r := Shunt(rule, tokens, [], []);
    if r.Ok? then
      BagIsMultiset(r.value);
      BagIsMultiset(WithoutParens(tokens));
      assert |multiset(r.value)| == |multiset(WithoutParens(tokens))|;
      r
    else r
  }

  /** The tokens still owed to the output: those emitted, those stacked, and those not yet read. */
  ghost function Held(output: seq<Token>, stack: seq<Token>, tokens: seq<Token>): multiset<Token> {
    Bag(output) + Bag(WithoutParens(stack)) + Bag(WithoutParens(tokens))
  }

  /** The literals in order: those emitted, then those not yet read. */
  ghost function LiteralsAhead(output: seq<Token>, tokens: seq<Token>): seq<Token> {
    Literals(output) + Literals(tokens)
  }

  /** What the conversion keeps from a given output and side stack onwards. */
  ghost predicate Preserved(tokens: seq<Token>, output: seq<Token>, stack: seq<Token>, r: Result<seq<Token>>) {
    && (r.Err? <==> !MatchedFrom(tokens, Opens(stack)))
    && (r.Err? ==> r.error == MismatchedParenthesis)
    && (r.Ok? ==>
        && ParenFree(r.value)
        && Bag(r.value) == Held(output, stack, tokens)
        && Literals(r.value) == LiteralsAhead(output, tokens))
  }

  /** A step that keeps the balance, what is held and the literals ahead carries `Preserved` back. */
  lemma Carry(tokens: seq<Token>, output: seq<Token>, stack: seq<Token>,
              rest: seq<Token>, output': seq<Token>, stack': seq<Token>, r: Result<seq<Token>>)
    requires MatchedFrom(tokens, Opens(stack)) == MatchedFrom(rest, Opens(stack'))
    requires Held(output', stack', rest) == Held(output, stack, tokens)
    requires LiteralsAhead(output', rest) == LiteralsAhead(output, tokens)
    requires Preserved(rest, output', stack', r)
    ensures Preserved(tokens, output, stack, r)
  {
  }

  lemma {:induction false} ShuntInvariant(rule: TieBreak, tokens: seq<Token>, output: seq<Token>, stack: seq<Token>)
    requires StackOk(stack) && ParenFree(output)
    ensures Preserved(tokens, output, stack, Shunt(rule, tokens, output, stack))
    decreases |tokens|, 1
  {
    if tokens == [] {
      DrainPreserves(output, stack);
    } else {
      match tokens[0]
      case Integer(_) => LiteralCase(rule, tokens, output, stack);
      case Float(_) => LiteralCase(rule, tokens, output, stack);
      case Op(_) => OperatorCase(rule, tokens, output, stack);
      case LeftParenthesis => LeftParenCase(rule, tokens, output, stack);
      case RightParenthesis => RightParenCase(rule, tokens, output, stack);
    }
  }

  lemma {:induction false} LiteralCase(rule: TieBreak, tokens: seq<Token>, output: seq<Token>, stack: seq<Token>)
    requires StackOk(stack) && ParenFree(output) && tokens != [] && IsLiteral(tokens[0])
    ensures Preserved(tokens, output, stack, Shunt(rule, tokens, output, stack))
    decreases |tokens|, 0
  {
    var rest, output' := tokens[1..], output + [tokens[0]];
    assert Shunt(rule, tokens, output, stack) == Shunt(rule, rest, output', stack);
    LiteralStep(tokens, output, stack);
    ShuntInvariant(rule, rest, output', stack);
    Carry(tokens, output, stack, rest, output', stack, Shunt(rule, rest, output', stack));
  }

  lemma {:induction false} OperatorCase(rule: TieBreak, tokens: seq<Token>, output: seq<Token>, stack: seq<Token>)
    requires StackOk(stack) && ParenFree(output) && tokens != [] && tokens[0].Op?
    ensures Preserved(tokens, output, stack, Shunt(rule, tokens, output, stack))
    decreases |tokens|, 0
  {
    var tok, rest := tokens[0], tokens[1..];
    var (output', stack') := PopForOperator(rule, tok.op, output, stack);
    OperatorStep(rule, tokens, output, stack, output', stack');
    Push(stack', tok);
    ShuntInvariant(rule, rest, output', stack' + [tok]);
    Carry(tokens, output, stack, rest, output', stack' + [tok], Shunt(rule, rest, output', stack' + [tok]));
  }

  lemma {:induction false} LeftParenCase(rule: TieBreak, tokens: seq<Token>, output: seq<Token>, stack: seq<Token>)
    requires StackOk(stack) && ParenFree(output) && tokens != [] && tokens[0].LeftParenthesis?
    ensures Preserved(tokens, output, stack, Shunt(rule, tokens, output, stack))
    decreases |tokens|, 0
  {
    var tok, rest := tokens[0], tokens[1..];
    LeftParenStep(tokens, output, stack);
    Push(stack, tok);
    ShuntInvariant(rule, rest, output, stack + [tok]);
    Carry(tokens, output, stack, rest, output, stack + [tok], Shunt(rule, rest, output, stack + [tok]));
  }

  lemma {:induction false} RightParenCase(rule: TieBreak, tokens: seq<Token>, output: seq<Token>, stack: seq<Token>)
    requires StackOk(stack) && ParenFree(output) && tokens != [] && tokens[0].RightParenthesis?
    ensures Preserved(tokens, output, stack, Shunt(rule, tokens, output, stack))
    decreases |tokens|, 0
  {
    var rest := tokens[1..];
    RightParenFails(output, stack);
    match PopToLeftParen(output, stack)
    case None =>
    case Some((output', stack')) =>
      RightParenStep(tokens, output, stack, output', stack');
      ShuntInvariant(rule, rest, output', stack');
      Carry(tokens, output, stack, rest, output', stack', Shunt(rule, rest, output', stack'));
  }

  lemma DrainPreserves(output: seq<Token>, stack: seq<Token>)
    requires StackOk(stack) && ParenFree(output)
    ensures Preserved([], output, stack, Drain(output, stack))
  {
    OpensZero(stack);
    StackOkAll(stack);
    var r := Drain(output, stack);
    if r.Ok? {
      MoveOperators(output, [], stack);
      assert [] + stack == stack;
      assert WithoutParens([]) == [] && Literals([]) == [];
    }
  }

  /** Reading a literal emits it at once. */
  lemma LiteralStep(tokens: seq<Token>, output: seq<Token>, stack: seq<Token>)
    requires tokens != [] && IsLiteral(tokens[0])
    ensures MatchedFrom(tokens, Opens(stack)) == MatchedFrom(tokens[1..], Opens(stack))
    ensures Held(output + [tokens[0]], stack, tokens[1..]) == Held(output, stack, tokens)
    ensures LiteralsAhead(output + [tokens[0]], tokens[1..]) == LiteralsAhead(output, tokens)
  {
    LiteralStepLiterals(tokens, output);
    LiteralStepMultiset(tokens, output);
  }

  lemma LiteralStepLiterals(tokens: seq<Token>, output: seq<Token>)
    requires tokens != [] && IsLiteral(tokens[0])
    ensures LiteralsAhead(output + [tokens[0]], tokens[1..]) == LiteralsAhead(output, tokens)
  {
    LiteralsAppend(output, [tokens[0]]);
    assert Literals([tokens[0]]) == [tokens[0]];
    assert Literals(tokens) == [tokens[0]] + Literals(tokens[1..]);
  }

  lemma LiteralStepMultiset(tokens: seq<Token>, output: seq<Token>)
    requires tokens != [] && IsLiteral(tokens[0])
    ensures Bag(output + [tokens[0]]) + Bag(WithoutParens(tokens[1..]))
         == Bag(output) + Bag(WithoutParens(tokens))
  {
    var tok := tokens[0];
    assert WithoutParens(tokens) == [tok] + WithoutParens(tokens[1..]);
    BagAppend(output, [tok]);
    BagAppend([tok], WithoutParens(tokens[1..]));
    assert Bag(output) + Bag([tok]) + Bag(WithoutParens(tokens[1..]))
        == Bag(output) + (Bag([tok]) + Bag(WithoutParens(tokens[1..])));
  }

  /** Reading `(` stacks it: one more parenthesis open, nothing emitted. */
  lemma LeftParenStep(tokens: seq<Token>, output: seq<Token>, stack: seq<Token>)
    requires tokens != [] && tokens[0].LeftParenthesis?
    ensures MatchedFrom(tokens, Opens(stack)) == MatchedFrom(tokens[1..], Opens(stack + [LeftParenthesis]))
    ensures Held(output, stack + [LeftParenthesis], tokens[1..]) == Held(output, stack, tokens)
    ensures LiteralsAhead(output, tokens[1..]) == LiteralsAhead(output, tokens)
  {
    PushLeftParen(stack);
    SkipParen(tokens);
  }

  /** Pushing `(` opens one more parenthesis and holds no new operator. */
  lemma PushLeftParen(stack: seq<Token>)
    ensures Opens(stack + [LeftParenthesis]) == Opens(stack) + 1
    ensures WithoutParens(stack + [LeftParenthesis]) == WithoutParens(stack)
  {
    OpensAppend(stack, [LeftParenthesis]);
    assert Opens([LeftParenthesis]) == 1;
    WithoutParensAppend(stack, [LeftParenthesis]);
    assert WithoutParens([LeftParenthesis]) == [];
    assert WithoutParens(stack) + [] == WithoutParens(stack);
  }

  /** A leading parenthesis adds nothing to the filters. */
  lemma SkipParen(tokens: seq<Token>)
    requires tokens != [] && IsParen(tokens[0])
    ensures WithoutParens(tokens) == WithoutParens(tokens[1..])
    ensures Literals(tokens) == Literals(tokens[1..])
  {
    assert [] + WithoutParens(tokens[1..]) == WithoutParens(tokens[1..]);
    assert [] + Literals(tokens[1..]) == Literals(tokens[1..]);
  }

  lemma {:induction false} ReverseBag(s: seq<Token>)
    ensures Bag(Reverse(s)) == Bag(s)
    decreases |s|
  {
    if s != [] {
      var below, top := s[..|s| - 1], s[|s| - 1];
      ReverseBag(below);
      assert s == below + [top];
      BagAppend([top], Reverse(below));
      BagAppend(below, [top]);
    }
  }

  /** Popping operators to the output moves them, keeps the open-paren count and adds no literal. */
  lemma MoveOperators(output: seq<Token>, kept: seq<Token>, popped: seq<Token>)
    requires AllOps(popped)
    ensures Opens(kept + popped) == Opens(kept)
    ensures Bag(output + Reverse(popped)) + Bag(WithoutParens(kept))
         == Bag(output) + Bag(WithoutParens(kept + popped))
    ensures Literals(output + Reverse(popped)) == Literals(output)
    ensures ParenFree(output) ==> ParenFree(output + Reverse(popped))
  {
    MoveOpens(kept, popped);
    MoveMultiset(output, kept, popped);
    MoveLiterals(output, popped);
  }

  lemma MoveOpens(kept: seq<Token>, popped: seq<Token>)
    requires AllOps(popped)
    ensures Opens(kept + popped) == Opens(kept)
  {
    OperatorsFilters(popped);
    OpensAppend(kept, popped);
  }

  lemma MoveMultiset(output: seq<Token>, kept: seq<Token>, popped: seq<Token>)
    requires AllOps(popped)
    ensures Bag(output + Reverse(popped)) + Bag(WithoutParens(kept))
         == Bag(output) + Bag(WithoutParens(kept + popped))
  {
    OperatorsFilters(popped);
    WithoutParensAppend(kept, popped);
    ReverseBag(popped);
    BagAppend(output, Reverse(popped));
    BagAppend(WithoutParens(kept), popped);
    BagSwap(Bag(output), Bag(popped), Bag(WithoutParens(kept)));
  }

  lemma BagSwap(a: multiset<Token>, b: multiset<Token>, c: multiset<Token>)
    ensures a + b + c == a + (c + b)
  {
  }

  lemma BagSwapIn(a: multiset<Token>, k: multiset<Token>, t: multiset<Token>, r: multiset<Token>,
                  o: multiset<Token>, s: multiset<Token>)
    requires a + k == o + s
    ensures a + (k + t) + r == o + s + (t + r)
  {
    calc {
      a + (k + t) + r;
      (a + k) + (t + r);
      (o + s) + (t + r);
    }
  }

  lemma MoveLiterals(output: seq<Token>, popped: seq<Token>)
    requires AllOps(popped)
    ensures Literals(output + Reverse(popped)) == Literals(output)
    ensures ParenFree(output) ==> ParenFree(output + Reverse(popped))
  {
    var rev := Reverse(popped);
    ReverseAllOps(popped);
    OperatorsFilters(rev);
    LiteralsAppend(output, rev);
    assert Literals(output) + [] == Literals(output);
  }

  lemma PoppedForAllOps(rule: TieBreak, o1: Operator, s: seq<Token>)
    requires PoppedFor(rule, o1, s)
    ensures AllOps(s)
  {
  }

  /** Reading an operator pops what it must to the output and stacks the operator. */
  lemma OperatorStep(rule: TieBreak, tokens: seq<Token>, output: seq<Token>, stack: seq<Token>,
                     output': seq<Token>, stack': seq<Token>)
    requires ParenFree(output) && tokens != [] && tokens[0].Op?
    requires OperatorPopped(rule, tokens[0].op, output, stack, output', stack')
    ensures ParenFree(output')
    ensures MatchedFrom(tokens, Opens(stack)) == MatchedFrom(tokens[1..], Opens(stack' + [tokens[0]]))
    ensures Held(output', stack' + [tokens[0]], tokens[1..]) == Held(output, stack, tokens)
    ensures LiteralsAhead(output', tokens[1..]) == LiteralsAhead(output, tokens)
  {
    var popped := stack[|stack'|..];
    PoppedForAllOps(rule, tokens[0].op, popped);
    MoveLiterals(output, popped);
    assert Literals(tokens) == Literals(tokens[1..]);
    OperatorOpens(tokens, stack', popped);
    OperatorHeld(tokens, output, stack', popped);
  }

  lemma OperatorOpens(tokens: seq<Token>, kept: seq<Token>, popped: seq<Token>)
    requires tokens != [] && tokens[0].Op?
    requires AllOps(popped)
    ensures MatchedFrom(tokens, Opens(kept + popped)) == MatchedFrom(tokens[1..], Opens(kept + [tokens[0]]))
  {
    MoveOpens(kept, popped);
    PushOperator(kept, tokens[0].op);
  }

  lemma OperatorHeld(tokens: seq<Token>, output: seq<Token>, kept: seq<Token>, popped: seq<Token>)
    requires tokens != [] && tokens[0].Op?
    requires AllOps(popped)
    ensures Held(output + Reverse(popped), kept + [tokens[0]], tokens[1..]) == Held(output, kept + popped, tokens)
  {
    var tok, rest := tokens[0], tokens[1..];
    MoveMultiset(output, kept, popped);
    BagPushOperator(kept, tok.op);
    BagReadOperator(tokens);
    BagSwapIn(Bag(output + Reverse(popped)), Bag(WithoutParens(kept)), Bag([tok]), Bag(WithoutParens(rest)),
              Bag(output), Bag(WithoutParens(kept + popped)));
  }

  lemma BagPushOperator(stack: seq<Token>, o1: Operator)
    ensures Bag(WithoutParens(stack + [Op(o1)])) == Bag(WithoutParens(stack)) + Bag([Op(o1)])
  {
    PushOperator(stack, o1);
    BagAppend(WithoutParens(stack), [Op(o1)]);
  }

  lemma BagReadOperator(tokens: seq<Token>)
    requires tokens != [] && tokens[0].Op?
    ensures Bag(WithoutParens(tokens)) == Bag([tokens[0]]) + Bag(WithoutParens(tokens[1..]))
  {
    assert WithoutParens(tokens) == [tokens[0]] + WithoutParens(tokens[1..]);
    BagAppend([tokens[0]], WithoutParens(tokens[1..]));
  }

  /** Pushing an operator keeps the open-paren count and adds it to the operators held. */
  lemma PushOperator(stack: seq<Token>, o1: Operator)
    ensures Opens(stack + [Op(o1)]) == Opens(stack)
    ensures WithoutParens(stack + [Op(o1)]) == WithoutParens(stack) + [Op(o1)]
  {
    OpensAppend(stack, [Op(o1)]);
    assert Opens([Op(o1)]) == 0;
    WithoutParensAppend(stack, [Op(o1)]);
    assert WithoutParens([Op(o1)]) == [Op(o1)];
  }

  /** Reading `)` fails exactly when no `(` is open. */
  lemma RightParenFails(output: seq<Token>, stack: seq<Token>)
    requires StackOk(stack)
    ensures PopToLeftParen(output, stack).None? <==> Opens(stack) == 0
  {
    OpensZero(stack);
  }

  /** Reading `)` pops the operators above the nearest `(` to the output and drops the `(`. */
  lemma RightParenStep(tokens: seq<Token>, output: seq<Token>, stack: seq<Token>,
                       output': seq<Token>, stack': seq<Token>)
    requires ParenFree(output) && tokens != [] && tokens[0].RightParenthesis?
    requires ParenPopped(output, stack, output', stack')
    ensures ParenFree(output')
    ensures MatchedFrom(tokens, Opens(stack)) == MatchedFrom(tokens[1..], Opens(stack'))
    ensures Held(output', stack', tokens[1..]) == Held(output, stack, tokens)
    ensures LiteralsAhead(output', tokens[1..]) == LiteralsAhead(output, tokens)
  {
    var popped := stack[|stack'| + 1..];
    SkipParen(tokens);
    MoveLiterals(output, popped);
    RightParenOpens(stack', popped);
    RightParenHeld(tokens, output, stack', popped);
  }

  lemma RightParenOpens(kept: seq<Token>, popped: seq<Token>)
    requires AllOps(popped)
    ensures Opens(kept + [LeftParenthesis] + popped) == Opens(kept) + 1
  {
    MoveOpens(kept + [LeftParenthesis], popped);
    PushLeftParen(kept);
  }

  lemma RightParenHeld(tokens: seq<Token>, output: seq<Token>, kept: seq<Token>, popped: seq<Token>)
    requires tokens != [] && tokens[0].RightParenthesis?
    requires AllOps(popped)
    ensures Held(output + Reverse(popped), kept, tokens[1..]) == Held(output, kept + [LeftParenthesis] + popped, tokens)
  {
    var rest := tokens[1..];
    MoveMultiset(output, kept + [LeftParenthesis], popped);
    PushLeftParen(kept);
    SkipParen(tokens);
  }
}
