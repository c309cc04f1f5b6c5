/**
  The tokenizer: a left-to-right character scanner. Whitespace separates
  tokens, `(`, `)` and each operator character are tokens of their own, and
  every maximal run of other characters is a numeral, parsed as hexadecimal
  (`0x`/`0X` prefix), as a float (contains `.`) or as a decimal `i64`; a
  numeral that does not parse yields no token.

  `Lex` is the reference definition; `Tokenize` follows the scanning loop of
  the source, including its "pending minus" flag, and is proved equal to it.
*/
module Tokenizer {
  import opened Wrappers
  import opened Tokens
  import opened IntParse

  /**
    `is_whitespace`: space, tab, carriage return and line feed only. None of
    them can start or continue a numeral, so the extra conjuncts of the
    numeral break test never change its outcome.
  */
  predicate IsWhitespace(c: char)
    ensures IsWhitespace(c) ==> c <= ' '
    ensures IsWhitespace(c) ==> !IsAsciiHexDigit(c) && c != '.' && c != 'x' && c != 'X'
  {
    c == ' ' || c == '\t' || c == '\r' || c == '\n'
  }

  predicate IsAsciiHexDigit(c: char) {
    '0' <= c <= '9' || 'a' <= c <= 'f' || 'A' <= c <= 'F'
  }

  /** A character that ends a numeral: whitespace, a parenthesis or an operator character. */
  predicate IsSeparator(d: Edition, c: char) {
    IsWhitespace(c) || c == '(' || c == ')' || IsOperatorChar(d, c)
  }

  /**
    The break test of `parse_number`, with Rust's precedence (`&&` binds
    tighter than `||`). The hex/`.`/`x` conjuncts only ever qualify the
    whitespace test, which they cannot change.
  */
  predicate NumeralStop(d: Edition, c: char)
    ensures NumeralStop(d, c) <==> IsSeparator(d, c)
  {
    c == '(' || c == ')' || FromChar(d, c).Some?
    || (IsWhitespace(c) && !IsAsciiHexDigit(c) && c != '.' && c != 'x' && c != 'X')
  }

  /** The length of the maximal numeral run at the front of `s`. */
  function RunLength(d: Edition, s: string): (n: nat)
    ensures n <= |s|
    ensures s != [] && !IsSeparator(d, s[0]) ==> n >= 1
    decreases |s|
  {
    if s == [] || NumeralStop(d, s[0]) then 0 else 1 + RunLength(d, s[1..])
  }

  /** The run is maximal: it holds no separator and ends at one (or at the end of `s`). */
  lemma {:induction false} RunLengthMaximal(d: Edition, s: string)
    ensures forall k :: 0 <= k < RunLength(d, s) ==> !IsSeparator(d, s[k])
    ensures RunLength(d, s) < |s| ==> IsSeparator(d, s[RunLength(d, s)])
    decreases |s|
  {
    if s != [] && !NumeralStop(d, s[0]) {
      RunLengthMaximal(d, s[1..]);
      assert forall k :: 1 <= k < |s| ==> s[1..][k - 1] == s[k];
    }
  }

  predicate StartsWith(s: string, prefix: string) {
    |prefix| <= |s| && s[..|prefix|] == prefix
  }

  /**
    The token a numeral denotes, if any: the three parse branches of the
    scanner. `parseFloat` stands for Rust's `str::parse::<f64>`.
  */
  function ParseNumeral(parseFloat: string -> Option<F64>, number: string): (r: Option<Token>)
    ensures r.Some? ==> IsLiteral(r.value)
    ensures r.Some? && (StartsWith(number, "0x") || StartsWith(number, "0X")) ==> r.value.Integer?
    ensures r.Some? && !StartsWith(number, "0x") && !StartsWith(number, "0X") ==> (r.value.Float? <==> '.' in number)
    ensures r.Some? && r.value.Integer? && '-' !in number ==> r.value.n >= 0
  {
    if StartsWith(number, "0x") || StartsWith(number, "0X") then
      match ParseI64(number[2..], 16)
      case Some(n) => Some(Integer(n))
      case None => None
    else if '.' in number then
      match parseFloat(number)
      case Some(f) => Some(Float(f))
      case None => None
    else
      match ParseI64(number, 10)
      case Some(n) => Some(Integer(n))
      case None => None
  }

  /** The numeral parser of the scanner, as a value that `Lex` is parameterised over. */
  function NumeralParser(parseFloat: string -> Option<F64>): string -> Option<Token> {
    (number: string) => ParseNumeral(parseFloat, number)
  }

  /** The tokens a single separator character produces (none for whitespace). */
  function SeparatorTokens(d: Edition, c: char): seq<Token>
    requires IsSeparator(d, c)
  {
    if IsWhitespace(c) then []
    else if c == '(' then [LeftParenthesis]
    else if c == ')' then [RightParenthesis]
    else [Op(FromChar(d, c).value)]
  }

  /** The length of the lexeme at the front of `s`: one separator, or a maximal numeral run. */
  function LexemeLength(d: Edition, s: string): (n: nat)
    requires s != []
    ensures 1 <= n <= |s|
  {
    if IsSeparator(d, s[0]) then 1 else RunLength(d, s)
  }

  /** The tokens of one lexeme. */
  function LexemeTokens(d: Edition, numeral: string -> Option<Token>, lexeme: string): seq<Token>
    requires lexeme != []
  {
    if IsSeparator(d, lexeme[0]) then SeparatorTokens(d, lexeme[0]) else ToSeq(numeral(lexeme))
  }

  /**
    The reference tokenizer: split the text into lexemes, left to right, and
    concatenate their tokens. `numeral` decides the token of a numeral run;
    the scanner's own is `NumeralParser(parseFloat)`.
  */
  function Lex(d: Edition, numeral: string -> Option<Token>, s: string): seq<Token>
    decreases |s|
  {
    if s == [] then []
    else
      var n := LexemeLength(d, s);
      LexemeTokens(d, numeral, s[..n]) + Lex(d, numeral, s[n..])
  }

  /**
    `parse_number`: collects the maximal numeral starting at `i`. It always
    consumes at least one character, which is what makes the scan terminate.
  */
  method ParseNumber(d: Edition, s: string, i: nat) returns (number: string, j: nat)
    requires i < |s| && !IsSeparator(d, s[i])
    ensures i < j <= |s|
    ensures number == s[i..j]
    ensures j - i == RunLength(d, s[i..])
  {
    number := [];
    j := i;
    while j < |s| && !NumeralStop(d, s[j])
      invariant i <= j <= |s|
      invariant number == s[i..j]
      invariant RunLength(d, s[i..]) == (j - i) + RunLength(d, s[j..])
      decreases |s| - j
    {
      assert s[j..][1..] == s[j + 1..];
      number := number + [s[j]];
      j := j + 1;
    }
  }

  /**
    The three parse branches of the scanner for one numeral, with the sign
    multiplier `m` computed from the `minus` flag as the source does: a
    pending minus negates the parsed value, and otherwise the numeral yields
    the token it parses to.
  */
  method NumeralTokens(ops: FloatOps, parseFloat: string -> Option<F64>, number: string, minus: bool)
    returns (toks: seq<Token>)
    ensures toks == [] <==> ParseNumeral(parseFloat, number).None?
    ensures !minus ==> toks == ToSeq(ParseNumeral(parseFloat, number))
    ensures var p := ParseNumeral(parseFloat, number);
      minus && p.Some? && p.value.Integer? ==> toks == [Integer(WrapI64(-(p.value.n as int)))]
    ensures var p := ParseNumeral(parseFloat, number);
      minus && p.Some? && p.value.Float? ==> toks == [Float(ops.mul(ops.ofI64(-1), p.value.f))]
    ensures var p := ParseNumeral(parseFloat, number);
      minus && '-' !in number && p.Some? && p.value.Integer? ==> toks == [Integer((-(p.value.n as int)) as i64)]
  {
    var m: i64 := if minus then -1 else 1;
    toks := [];
    if StartsWith(number, "0x") || StartsWith(number, "0X") {
      match ParseI64(number[2..], 16)
      case Some(n) => toks := [Integer(WrapI64(m as int * n as int))];
      case None =>
    } else if '.' in number {
      // `m as f64 * n` with m == 1 is taken to leave the parsed double unchanged.
      match parseFloat(number)
      case Some(f) => toks := [Float(if minus then ops.mul(ops.ofI64(m), f) else f)];
      case None =>
    } else {
      match ParseI64(number, 10)
      case Some(n) => toks := [Integer(WrapI64(m as int * n as int))];
      case None =>
    }
  }

  /** How `Lex` continues after the numeral `s[i..j]`. */
  lemma LexNumeral(d: Edition, parseFloat: string -> Option<F64>, s: string, i: nat, j: nat)
    requires i < j <= |s| && !IsSeparator(d, s[i]) && j - i == RunLength(d, s[i..])
    ensures Lex(d, NumeralParser(parseFloat), s[i..])
         == ToSeq(ParseNumeral(parseFloat, s[i..j])) + Lex(d, NumeralParser(parseFloat), s[j..])
  {
    var rest := s[i..];
    LexRun(d, NumeralParser(parseFloat), rest);
    assert rest[..j - i] == s[i..j] && rest[j - i..] == s[j..];
    assert NumeralParser(parseFloat)(s[i..j]) == ParseNumeral(parseFloat, s[i..j]);
  }

  /** A string that starts with a numeral lexes as that numeral, then the rest. */
  lemma LexRun(d: Edition, numeral: string -> Option<Token>, s: string)
    requires s != [] && !IsSeparator(d, s[0])
    ensures Lex(d, numeral, s) == ToSeq(numeral(s[..RunLength(d, s)])) + Lex(d, numeral, s[RunLength(d, s)..])
  {
  }

  /** How `Lex` continues after a separator at `i`. */
  lemma LexStep(d: Edition, numeral: string -> Option<Token>, s: string, i: nat)
    requires i < |s| && IsSeparator(d, s[i])
    ensures Lex(d, numeral, s[i..]) == SeparatorTokens(d, s[i]) + Lex(d, numeral, s[i + 1..])
  {
    assert s[i..][..1] == [s[i]] && s[i..][1..] == s[i + 1..];
  }

  /**
    One non-whitespace step of the scanning loop: the tokens it pushes, where
    scanning resumes, and the new value of the `minus` flag.
  */
  method ScanToken(d: Edition, ops: FloatOps, parseFloat: string -> Option<F64>, s: string, i: nat, minus: bool, previous: char)
    returns (toks: seq<Token>, next: nat, minus': bool)
    requires i < |s| && !IsWhitespace(s[i])
    requires !minus && !IsWhitespace(previous)
    ensures i < next <= |s|
    ensures next == i + LexemeLength(d, s[i..])
    ensures !minus'
    ensures Lex(d, NumeralParser(parseFloat), s[i..]) == toks + Lex(d, NumeralParser(parseFloat), s[next..])
  {
    var c := s[i];
    if IsSeparator(d, c) {
      LexStep(d, NumeralParser(parseFloat), s, i);
    }
    minus' := minus;
    toks := [];
    if c == '(' {
      toks := [LeftParenthesis];
      next := i + 1;
    } else if c == ')' {
      toks := [RightParenthesis];
      next := i + 1;
    } else if FromChar(d, c).Some? {
      var op := FromChar(d, c).value;
      if op == Minus && (IsWhitespace(previous) && !minus') {
        minus' := true;
      } else {
        minus' := false;
        toks := [Op(op)];
      }
      next := i + 1;
    } else {
      var number;
      number, next := ParseNumber(d, s, i);
      toks := NumeralTokens(ops, parseFloat, number, minus');
      minus' := false;
      LexNumeral(d, parseFloat, s, i, next);
    }
  }

  /** One iteration of the scanning loop. */
  method ScanStep(d: Edition, ops: FloatOps, parseFloat: string -> Option<F64>, s: string, i: nat, minus: bool, previous: char)
    returns (toks: seq<Token>, next: nat, minus': bool, previous': char)
    requires i < |s| && !minus && !IsWhitespace(previous)
    ensures i < next <= |s|
    ensures next == i + LexemeLength(d, s[i..])
    ensures !minus' && !IsWhitespace(previous')
    ensures Lex(d, NumeralParser(parseFloat), s[i..]) == toks + Lex(d, NumeralParser(parseFloat), s[next..])
  {
    var c := s[i];
    minus' := minus;
    previous' := previous;
    if IsWhitespace(c) {
      toks := [];
      if minus' {
        minus' := false;
        toks := [Op(Minus)];
      }
      LexStep(d, NumeralParser(parseFloat), s, i);
      next := i + 1;
      return;
    }
    toks, next, minus' := ScanToken(d, ops, parseFloat, s, i, minus', previous');
    previous' := c;
  }

  /**
    `tokenize`, following the source loop. The `minus` flag would be set only
    right after a whitespace `previous`, but `previous` is updated only after
    the whitespace branch has moved on, so it never holds whitespace: the flag
    stays false, every `-` becomes an operator token, and the multiplier is 1.
  */
  method Tokenize(d: Edition, ops: FloatOps, parseFloat: string -> Option<F64>, s: string) returns (res: seq<Token>)
    ensures res == Lex(d, NumeralParser(parseFloat), s)
  {
    res := [];
    var i := 0;
    var minus := false;
    var previous := '\0';
    while i < |s|
      invariant 0 <= i <= |s|
      invariant !minus && !IsWhitespace(previous)
      invariant res + Lex(d, NumeralParser(parseFloat), s[i..]) == Lex(d, NumeralParser(parseFloat), s)
      decreases |s| - i
    {
      var toks, next;
      toks, next, minus, previous := ScanStep(d, ops, parseFloat, s, i, minus, previous);
      AppendAssoc(res, toks, Lex(d, NumeralParser(parseFloat), s[next..]));
      res := res + toks;
      i := next;
    }
  }
}
