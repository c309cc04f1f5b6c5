# calculator2 in Dafny

A model of the expression pipeline of `calculator2`, a small Rust
calculator. `compute` runs three stages:

1. `tokenize` turns the text into tokens: integers, floats, the operators
   `+ - / * ^`, and parentheses.
2. `shutting_yard` reorders the tokens into postfix (reverse Polish) order
   with Dijkstra's shunting-yard algorithm.
3. `evaluate` runs the postfix tokens on a value stack.

An error at any stage becomes a message string. The binary's `main.rs` also
carries an older four-operator copy of the same pipeline, without `^`.

The modules follow the source files.

- `Tokens` (`token.rs`):
  - the operator and token types;
  - operator priorities and the priority-only comparison;
  - `Operator::from` and `Operator::evaluate`.
- `IntParse`: `i64::from_str_radix` as the tokenizer uses it, with its sign, digit and overflow rules.
- `Tokenizer` (`tokenize.rs`):
  - a reference tokenizer `Lex`, which takes one lexeme at a time;
  - the scanner `Tokenize`, a loop over the characters with the source's `minus` and `previous_char` state, proved equal to `Lex`.
- `TokenizerFacts`: what the tokens say about the text.
  - Operators and parentheses come one for one from the separator characters.
  - Whitespace yields nothing.
  - Integers are never negative.
- `Shunting` (`shutting_yard.rs`): the conversion, with its three stack loops as functions of their own.
- `Evaluator` (`evaluate.rs`):
  - `evaluate` and `compute`;
  - expression trees, whose postfix form evaluates to their value.
- `Associativity`: how the shunting-yard tie-break groups a flat chain such as `8 / 4 * 2`.
- `Precedence`: how the conversion orders operators of different priority, and a parenthesised group, such as `a + b * c` and `(a + b) * c`.
- `LegacyEdition` (`main.rs`): the older copy, as the same definitions with an `Edition` switch for the operator table.
- `Scenarios`: the whole pipeline on a few inputs.

Parameters stand in for the parts that are not modelled:

- `double` arithmetic is a record of uninterpreted functions, `FloatOps`. A value is an opaque 64-bit pattern, `F64`.
- `str::parse::<f64>` is a parameter `parseFloat`.
- The shunting-yard pop test is a parameter `rule: TieBreak`:
  - `AsWritten` is the source's test;
  - `LeftAssociative` is the conventional one, used under "Findings".

  Every structural property of the conversion is proved for both rules.

There are three points where the code departs from conventional calculator behaviour. The model follows the code in each. The scanner's own `minus` flag (src/tokenize.rs:30-55) shows that a unary minus was meant to exist.

- There is no unary minus.
  - The scanner's pending-minus flag is only set when the previous character is whitespace.
  - `previous_char` is assigned only after the whitespace branch has already `continue`d.
  - So the flag is never set: every `-` is a binary `Minus` token, and `-5 + 3` is an error in computation rather than -2.
  - No separate sign-folding pass exists.
- The pop test is not "priority greater or equal". It is `*o2 > o1 || *o2 == o1`: a greater priority, or the identical operator.
- Leftover values are not an error. `evaluate` returns the top of the final stack, so `3 4` gives 4.

## Model

| member | source | states |
|---|---|---|
| Tokens.Prio | src/token.rs:25-31 | every operator has a priority between 1 and 3; only `Exp` has 3, and exactly `Plus` and `Minus` have 1 |
| Tokens.FromChar | src/token.rs:33-42 | a character maps to an operator only if it is written as that operator's symbol, and only to an operator the edition has |
| Tokens.FromCharInvertsSymbol | src/token.rs:33-42 | `from` is exactly the inverse of the operator symbols: `c` maps to `o` iff `c` is `o`'s symbol and `o` belongs to the edition |
| Tokens.OperatorChars | src/token.rs:33-42 | the operator characters are exactly `+ - / *`, plus `^` in the library edition |
| Tokens.EqualPriorityIncomparable | src/token.rs:12-16 | under the priority-only `PartialOrd`, two distinct operators are neither greater than each other exactly when they are Plus/Minus or Div/Mul |
| Tokens.OperatorFunctions | src/token.rs:44-65 | each operator applies its own arithmetic (`+ - * /` and `powf`) with the deeper value as the left operand, so `a b -` gives `a - b`, and the two values are consumed |
| Tokens.Apply | src/token.rs:18-22 | pops the top `b` and then `a` beneath it, returns `f(a, b)` and leaves the stack two shorter, otherwise unchanged |
| Tokens.OpEvaluate | src/token.rs:44-65 | fails exactly when fewer than two values are stacked, leaving the stack as it was; otherwise replaces the top two values `a b` by the operator's function applied to `(a, b)` |
| IntParse.DigitsValueDefined | src/tokenize.rs:69-71 | a digit string has a value exactly when every character is a digit of the radix |
| IntParse.ParseI64 | src/tokenize.rs:60-72 | a parse succeeds only when at least one character follows the optional sign and all of them are digits of the radix; without a leading `-` the result is never negative |
| IntParse.ParseRender | src/tokenize.rs:68-72 | round trip: the digits of a non-negative number parse back to it when it fits in an i64 and fail with overflow when it does not |
| IntParse.LeadingZerosIgnored | src/tokenize.rs:61 | leading `0`s change neither a digit string's value nor whether it has one |
| IntParse.DigitsValueCase | src/tokenize.rs:61 | upper- and lower-case digit letters give a string the same value, or the same lack of one |
| IntParse.ParseDigits | src/tokenize.rs:60-72 | any non-empty unsigned digit string parses to the value it denotes when that fits in an i64, and overflows otherwise |
| IntParse.ParseSpellings | src/tokenize.rs:61 | an unsigned string parses the same with leading zeros added or its letters lower-cased |
| IntParse.ParseNegative | src/tokenize.rs:61 | a leading `-` negates the digits' value, and a value below the i64 minimum fails |
| Tokenizer.IsWhitespace | src/tokenize.rs:6-8 | every whitespace character is at most a space, and none is a hex digit, `.`, `x` or `X` |
| Tokenizer.NumeralStop | src/tokenize.rs:20 | the break test of `parse_number` holds exactly at the separator characters (parentheses, operator characters, whitespace) |
| Tokenizer.RunLengthMaximal | src/tokenize.rs:15-28 | the numeral run holds no separator and ends at a separator or at the end of the text |
| Tokenizer.ParseNumeral | src/tokenize.rs:60-72 | a numeral yields only a literal token: an integer when it starts with `0x`/`0X`, otherwise a float exactly when it contains `.`; an integer read from a numeral without `-` is non-negative |
| Tokenizer.ParseNumber | src/tokenize.rs:15-28 | the characters consumed are exactly the maximal numeral run at the start position, and at least one |
| Tokenizer.NumeralTokens | src/tokenize.rs:57-72 | a numeral yields nothing exactly when its parse fails. Without a pending minus it yields the token it parses to. With one, the integer is negated (exactly, when the numeral holds no `-`) and the float is multiplied by `-1 as f64` |
| Tokenizer.ScanToken | src/tokenize.rs:42-73 | one non-whitespace step advances exactly to the end of the front lexeme (one separator, or the whole numeral run), emits exactly that lexeme's reference tokens, and leaves the pending minus unset |
| Tokenizer.ScanStep | src/tokenize.rs:32-74 | one loop iteration consumes exactly the front lexeme, keeps the pending minus unset and the previous character non-whitespace, and agrees with `Lex` |
| Tokenizer.Tokenize | src/tokenize.rs:10-78 | the scanner's output equals the lexeme-by-lexeme reference tokenization `Lex` of the whole text |
| TokenizerFacts.LexSkeleton | src/tokenize.rs:42-55 | apart from literals, the tokens are exactly the separator characters' tokens in text order: one per parenthesis and per operator character, none for whitespace |
| TokenizerFacts.TokenizeSkeleton | src/tokenize.rs:34-55 | the same for the scanner's own numeral parser: in particular every `-` becomes a binary `Minus` token |
| TokenizerFacts.WhitespaceOnly | src/tokenize.rs:34-41 | text made only of whitespace yields no tokens |
| TokenizerFacts.DecimalNumeral | src/tokenize.rs:68-72 | round trip: the decimal digits of `n` yield the integer `n` when it fits in an i64, and no token when the parse overflows |
| TokenizerFacts.HexNumeral | src/tokenize.rs:60-63 | round trip: `0x` or `0X` followed by the hex digits of `n` yields the integer `n` when it fits in an i64, and no token otherwise |
| TokenizerFacts.DecimalNumeralValue | src/tokenize.rs:68-72 | any non-empty run of decimal digits, leading zeros included, is the integer it denotes, or no token when it overflows |
| TokenizerFacts.HexNumeralValue | src/tokenize.rs:60-63 | `0x` or `0X` and any non-empty run of hex digits, in either case, is the integer it denotes, or no token when it overflows |
| TokenizerFacts.HexSpellings | src/tokenize.rs:60-63 | the case of the `x`, leading zeros and the case of the digit letters do not change what a hex numeral yields |
| TokenizerFacts.IntegersNonNegative | src/tokenize.rs:56-72 | no integer token is negative, because a `-` always ends a numeral and the pending minus is never set |
| Shunting.StackOkAll | src/shutting_yard.rs:11-16 | the side stack holds only operators and `(`, so the `unreachable!` arm of the operator loop cannot be reached |
| Shunting.PopForOperator | src/shutting_yard.rs:10-24 | on an operator, the stack splits into what stays and a segment above it, every entry an operator the pop test lets go; the segment is emitted top first, and what stays ends at the bottom, at `(` or at an operator the test keeps |
| Shunting.PopToLeftParen | src/shutting_yard.rs:29-41 | on `)`, fails exactly when no `(` is stacked; otherwise the operators above the nearest `(` are emitted top first and the `(` is discarded |
| Shunting.RightParenFails | src/shutting_yard.rs:39-41 | reading `)` fails exactly when no `(` is open |
| Shunting.Drain | src/shutting_yard.rs:46-53 | the final loop fails with "Mismatched parenthesis" exactly when a parenthesis is left on the stack; otherwise it appends the stack top first |
| Shunting.ShuntInvariant | src/shutting_yard.rs:7-44 | from any valid state, the loop fails exactly when the remaining input does not close the open `(`s; on success every held token reaches the output once, no parenthesis does, and the literals stay in order |
| Shunting.ShuntingYard | src/shutting_yard.rs:3-54 | fails, with "Mismatched parenthesis", exactly when the parentheses are unbalanced; on success the output has no parentheses, is a permutation of the input's other tokens, and keeps the literals in input order |
| Evaluator.Run | src/evaluate.rs:28-39 | the loop succeeds exactly when no operator meets fewer than two values, and then the stack has grown by literals minus operators |
| Evaluator.Evaluate | src/evaluate.rs:26-41 | fails exactly when an operator underflows or nothing is left; otherwise the result is the top of the final stack |
| Evaluator.NoUnderflowPrefixes | src/evaluate.rs:33-35 | no underflow holds iff, before every operator, the start height plus the literals minus operators so far is at least two |
| Evaluator.RunHeight | src/evaluate.rs:30-36 | without underflow, every prefix runs, and the stack height after it is its literal count minus its operator count |
| Evaluator.RunPostfix | src/evaluate.rs:28-39 | running the postfix form of an expression tree pushes exactly the tree's value and carries on with the rest |
| Evaluator.EvaluatePostfix | src/evaluate.rs:26-41 | the postfix form of a well-formed expression tree evaluates to the tree's value |
| Evaluator.EvaluateKeepsLast | src/evaluate.rs:40 | several complete expressions in a row evaluate to the value of the last one, whatever precedes it |
| Evaluator.Compute | src/evaluate.rs:6-24 | fails with "Mismatched parenthesis" exactly when the tokens' parentheses are unbalanced, and with "Error in computation" exactly when the conversion succeeds but evaluation yields nothing; no other error occurs; it succeeds exactly when both stages do, and then returns the evaluated value |
| Evaluator.ConversionKeepsHeight | src/shutting_yard.rs:7-53 | the conversion keeps the literal count minus the operator count of its input |
| Evaluator.ZeroHeightFails | src/evaluate.rs:18-23 | balanced input with as many operators as operands, such as `-5 + 3`, is an error in computation |
| Associativity.ChainPostfix | src/shutting_yard.rs:10-24 | a flat chain in which each operator is popped by the next converts to the postfix form of its left grouping |
| Associativity.ChainValue | src/shutting_yard.rs:17 | such a chain evaluates to the value of its left grouping |
| Associativity.AsWrittenRepeatedOperator | src/shutting_yard.rs:17 | the source's tie-break still groups a chain of one repeated operator (such as `8 - 4 - 2`) from the left |
| Associativity.AsWrittenMixedOperators | src/shutting_yard.rs:17 | `a / b * c` converts to `a b c * /`, not the left grouping, and computes a / (b * c) |
| Associativity.LeftAssociativeGroupsLeft | src/shutting_yard.rs:17 | with the conventional tie-break, every chain of one priority level converts to and evaluates as its left grouping |
| Associativity.LeftAssociativeMixedOperators | src/shutting_yard.rs:17 | with the conventional tie-break, `a / b * c` converts to `a b / c *` and computes (a / b) * c |
| Precedence.HigherPriorityFirst | src/shutting_yard.rs:10-24 | `a o1 b o2 c` with `o2` of higher priority converts to `a b c o2 o1`, under either tie-break |
| Precedence.HigherPriorityValue | src/evaluate.rs:26-41 | that postfix form computes `a o1 (b o2 c)` |
| Precedence.GroupFirst | src/shutting_yard.rs:10-42 | `(a o1 b) o2 c` converts to `a b o1 c o2`, whatever the priorities, under either tie-break |
| Precedence.GroupValue | src/evaluate.rs:26-41 | that postfix form computes `(a o1 b) o2 c` |
| LegacyEdition.LegacyOperatorChars | src/main.rs:132-140 | the older `from` maps exactly `+ - / *`, rejects `^`, and agrees with the library on every other character |
| LegacyEdition.LegacyPriorities | src/main.rs:125-130 | the older priorities are 2 for Mul and Div and 1 for Plus and Minus |
| LegacyEdition.LegacyNoExponent | src/main.rs:212-219 | the older tokenizer never yields an exponent operator, whatever the text |
| LegacyEdition.EditionsAgree | src/main.rs:176-242 | on text without `^`, the older tokenizer and the library's produce the same tokens |
| LegacyEdition.CaretNumeralDropped | src/main.rs:224-236 | a numeral holding `^` and no `.` fails every integer parse and yields no token |
| LegacyEdition.TwoCaretThree | src/main.rs:181-193 | in the older copy `2^3` is one numeral run and yields no token at all |
| Scenarios.LexLeadingMinus | src/tokenize.rs:48-55 | `-5 + 3` tokenizes to `Minus, 5, Plus, 3`, with the leading `-` a binary operator |
| Scenarios.ComputeKeepsLast | src/evaluate.rs:40 | `x y`, such as `3 4`, computes to `y` |
| Scenarios.ComputeLeadingMinus | src/evaluate.rs:18-23 | `-x + y`, such as `-5 + 3`, is "Error in computation" |
| Scenarios.ComputeUnclosed | src/evaluate.rs:10-16 | `(x + y`, such as `(3 + 4`, is "Mismatched parenthesis" |

## Left out

- The interactive loop `main` (src/main.rs:7-33): reading lines and printing results is I/O.
- The older copy's `shutting_yard` and `evaluate` (src/main.rs:35-102). They are the library's functions over a four-operator type, so `Shunting` and `Evaluator` cover them. Only the operator table differs, through `Edition`.
- Floating-point arithmetic. `+ - * /` and `powf` are uninterpreted functions, so properties are stated up to the function applied, never about rounding.
- The `n as f64` conversion of an integer is uninterpreted too.
- `str::parse::<f64>` is a parameter. Which numerals containing `.` it accepts is not modelled.
- Tokenizer.NumeralTokens: without a pending minus, `1 as f64 * n` is taken to be the parsed double itself, which holds for every non-NaN double.
  - `m * n` on `i64` wraps around, as in a release build; a debug build panics instead. This needs the digits of `i64::MIN` under a pending minus, and a numeral never contains `-`.
  - The pending minus is never set (the scanner's invariant proves it), so `Tokenize` never reaches the negating branches.
- The `trace!`/`debug!` logging calls: they have no effect on results.
- Evaluator.Evaluate: the `unreachable!` panic on a parenthesis is a precondition, `ParenFree`. `Compute` discharges it from the conversion's contract.
- The `unwrap` panics in `apply` are a precondition on `Tokens.Apply`. `Tokens.OpEvaluate` checks the length first, as the source does.
- The derived `Ord`, `Debug` and `Clone` implementations: the pipeline only uses `PartialOrd` and `==`.

## Findings

| source | as written | input that shows it | evidently intended | confidence | as-written member | corrected member |
|---|---|---|---|---|---|---|
| src/shutting_yard.rs:17 | a stacked operator is popped before the incoming one only if its priority is greater or it is the identical operator, so a different operator of equal priority stays stacked | `8 / 4 * 2` becomes `8 4 2 * /`, computing 8 / (4 * 2) = 1 | equal-priority operators pop, as in the usual shunting-yard rule, giving left-to-right grouping (8 / 4) * 2 = 4 | high; not executed | Associativity.AsWrittenMixedOperators | Associativity.LeftAssociativeGroupsLeft |

The model keeps both tie-breaks. `Compute(AsWritten, …)` is the source's pipeline, and `Compute(LeftAssociative, …)` the corrected one. Every property of `Shunting`, `Evaluator` and `Scenarios` holds under both.
