/**
  What the tokenizer produces, stated against the characters of the text:
  the parentheses and operators come one for one from the separator
  characters, in order; whitespace produces nothing; numerals read as the
  integers their digits denote; and integers are never negative, because a
  `-` always ends a numeral.
*/
module TokenizerFacts {
  import opened Wrappers
  import opened Tokens
  import opened IntParse
  import opened Tokenizer

  /** The tokens the separator characters of `s` stand for, in order. */
  function Skeleton(d: Edition, s: string): seq<Token>
    decreases |s|
  {
    if s == [] then []
    else if IsSeparator(d, s[0]) then SeparatorTokens(d, s[0]) + Skeleton(d, s[1..])
    else Skeleton(d, s[1..])
  }

  /** The tokens other than literals. */
  function NonLiterals(ts: seq<Token>): seq<Token>
    decreases |ts|
  {
    if ts == [] then []
    else if IsLiteral(ts[0]) then NonLiterals(ts[1..])
    else [ts[0]] + NonLiterals(ts[1..])
  }

  /** A numeral parser that only ever yields literal tokens, as the scanner's does. */
  ghost predicate LiteralParser(numeral: string -> Option<Token>) {
    forall x :: numeral(x).Some? ==> IsLiteral(numeral(x).value)
  }

  lemma ScannerParsesLiterals(parseFloat: string -> Option<F64>)
    ensures LiteralParser(NumeralParser(parseFloat))
  {
    forall x | NumeralParser(parseFloat)(x).Some?
      ensures IsLiteral(NumeralParser(parseFloat)(x).value)
    {
      assert NumeralParser(parseFloat)(x) == ParseNumeral(parseFloat, x);
    }
  }

  // ---- append laws ----------------------------------------------------------

  lemma {:induction false} SkeletonAppend(d: Edition, a: string, b: string)
    ensures Skeleton(d, a + b) == Skeleton(d, a) + Skeleton(d, b)
    decreases |a|
  {
    if a == [] {
      assert a + b == b;
    } else {
      assert (a + b)[0] == a[0] && (a + b)[1..] == a[1..] + b;
      SkeletonAppend(d, a[1..], b);
      if IsSeparator(d, a[0]) {
        assert Skeleton(d, a + b) == SeparatorTokens(d, a[0]) + (Skeleton(d, a[1..]) + Skeleton(d, b));
        assert (SeparatorTokens(d, a[0]) + Skeleton(d, a[1..])) + Skeleton(d, b)
            == SeparatorTokens(d, a[0]) + (Skeleton(d, a[1..]) + Skeleton(d, b));
      }
    }
  }

  lemma {:induction false} NonLiteralsAppend(a: seq<Token>, b: seq<Token>)
    ensures NonLiterals(a + b) == NonLiterals(a) + NonLiterals(b)
    decreases |a|
  {
    if a == [] {
      assert a + b == b;
    } else {
      assert (a + b)[0] == a[0] && (a + b)[1..] == a[1..] + b;
      NonLiteralsAppend(a[1..], b);
      if !IsLiteral(a[0]) {
        assert [a[0]] + (NonLiterals(a[1..]) + NonLiterals(b)) == ([a[0]] + NonLiterals(a[1..])) + NonLiterals(b);
      }
    }
  }

  /** A numeral run holds no separator, so it stands for no separator token. */
  lemma {:induction false} SkeletonOfRun(d: Edition, s: string)
    requires forall k :: 0 <= k < |s| ==> !IsSeparator(d, s[k])
    ensures Skeleton(d, s) == []
    decreases |s|
  {
    if s != [] {
      assert forall k :: 0 <= k < |s| - 1 ==> s[1..][k] == s[k + 1];
      SkeletonOfRun(d, s[1..]);
    }
  }

  /** The front lexeme of `s` and the rest, as `Lex` splits them. */
  lemma LexemeSplit(d: Edition, s: string)
    requires s != []
    ensures s == s[..LexemeLength(d, s)] + s[LexemeLength(d, s)..]
    ensures !IsSeparator(d, s[0]) ==> forall k :: 0 <= k < LexemeLength(d, s) ==> !IsSeparator(d, s[..LexemeLength(d, s)][k])
  {
    if !IsSeparator(d, s[0]) {
      RunLengthMaximal(d, s);
    }
  }

  // ---- the separators --------------------------------------------------------

  /** One lexeme contributes exactly its separator tokens besides literals. */
  lemma LexemeSkeleton(d: Edition, numeral: string -> Option<Token>, s: string)
    requires LiteralParser(numeral) && s != []
    ensures NonLiterals(LexemeTokens(d, numeral, s[..LexemeLength(d, s)])) == Skeleton(d, s[..LexemeLength(d, s)])
  {
    var lexeme := s[..LexemeLength(d, s)];
    LexemeSplit(d, s);
    if IsSeparator(d, s[0]) {
      assert lexeme == [s[0]] && lexeme[1..] == [];
      assert NonLiterals(SeparatorTokens(d, s[0])) == SeparatorTokens(d, s[0]);
      assert SeparatorTokens(d, s[0]) + [] == SeparatorTokens(d, s[0]);
    } else {
      SkeletonOfRun(d, lexeme);
    }
  }

  /**
    Apart from literals, the tokens are exactly the separator tokens of the
    text, in source order: each `(` and `)` one parenthesis, each operator
    character (so every `-`) one operator token, whitespace nothing.
  */
  lemma {:induction false} LexSkeleton(d: Edition, numeral: string -> Option<Token>, s: string)
    requires LiteralParser(numeral)
    ensures NonLiterals(Lex(d, numeral, s)) == Skeleton(d, s)
    decreases |s|
  {
    if s != [] {
      var n := LexemeLength(d, s);
      LexemeSplit(d, s);
      LexSkeleton(d, numeral, s[n..]);
      LexemeSkeleton(d, numeral, s);
      NonLiteralsAppend(LexemeTokens(d, numeral, s[..n]), Lex(d, numeral, s[n..]));
      SkeletonAppend(d, s[..n], s[n..]);
    }
  }

  /** The scanner's tokenization, in particular, follows the separators one for one. */
  lemma TokenizeSkeleton(d: Edition, parseFloat: string -> Option<F64>, s: string)
    ensures NonLiterals(Lex(d, NumeralParser(parseFloat), s)) == Skeleton(d, s)
  {
    ScannerParsesLiterals(parseFloat);
    LexSkeleton(d, NumeralParser(parseFloat), s);
  }

  /** Text of whitespace only yields no tokens at all. */
  lemma {:induction false} WhitespaceOnly(d: Edition, numeral: string -> Option<Token>, s: string)
    requires forall k :: 0 <= k < |s| ==> IsWhitespace(s[k])
    ensures Lex(d, numeral, s) == []
    decreases |s|
  {
    if s != [] {
      assert forall k :: 0 <= k < |s| - 1 ==> s[1..][k] == s[k + 1];
      WhitespaceOnly(d, numeral, s[1..]);
    }
  }

  // ---- numerals ---------------------------------------------------------------

  /**
    Round trip through the decimal branch: the decimal digits of `n` read
    back as the integer `n` when it fits in an `i64`, and as no token when
    the parse overflows.
  */
  lemma DecimalNumeral(parseFloat: string -> Option<F64>, n: nat)
    ensures ParseNumeral(parseFloat, Render(n, 10)) == if n <= I64Max then Some(Integer(n as i64)) else None
  {
    var s := Render(n, 10);
    DecimalDigits(n);
    assert '.' !in s by {
      forall k | 0 <= k < |s| ensures s[k] != '.' { }
    }
    assert !StartsWith(s, "0x") && !StartsWith(s, "0X") by {
      if |s| >= 2 {
        assert s[..2][1] == s[1];
      }
    }
    ParseRender(n, 10);
    assert ParseNumeral(parseFloat, s) == match ParseI64(s, 10) case Some(v) => Some(Integer(v)) case None => None;
  }

  /** The decimal digits of a number are the characters `0` to `9`. */
  lemma DecimalDigits(n: nat)
    ensures forall k :: 0 <= k < |Render(n, 10)| ==> '0' <= Render(n, 10)[k] <= '9'
  {
    var s := Render(n, 10);
    DigitsValueRender(n, 10);
    DigitsValueDefined(s, 10);
    forall k | 0 <= k < |s| ensures '0' <= s[k] <= '9' {
      assert ToDigit(s[k], 10).Some?;
    }
  }

  /** Round trip through the hex branch: `0x` or `0X` and the hex digits of `n`. */
  lemma HexNumeral(parseFloat: string -> Option<F64>, x: char, n: nat)
    requires x == 'x' || x == 'X'
    ensures ParseNumeral(parseFloat, ['0', x] + Render(n, 16)) == if n <= I64Max then Some(Integer(n as i64)) else None
  {
    var s := ['0', x] + Render(n, 16);
    assert s[..2] == ['0', x] && s[2..] == Render(n, 16);
    ParseRender(n, 16);
  }

  /**
    The decimal branch in general: any non-empty string of the digits `0` to
    `9`, leading zeros included, is the integer it denotes when that fits in
    an `i64`, and no token when the parse overflows.
  */
  lemma DecimalNumeralValue(parseFloat: string -> Option<F64>, s: string)
    requires s != [] && AllDigits(s, 10)
    ensures DigitsValue(s, 10).Some?
    ensures ParseNumeral(parseFloat, s)
         == if DigitsValue(s, 10).value <= I64Max then Some(Integer(DigitsValue(s, 10).value as i64)) else None
  {
    ParseDigits(s, 10);
    assert '.' !in s by {
      forall k | 0 <= k < |s| ensures s[k] != '.' {
        assert ToDigit(s[k], 10).Some?;
      }
    }
    assert !StartsWith(s, "0x") && !StartsWith(s, "0X") by {
      if |s| >= 2 {
        assert s[..2][1] == s[1];
        assert ToDigit(s[1], 10).Some?;
      }
    }
    assert ParseNumeral(parseFloat, s) == match ParseI64(s, 10) case Some(v) => Some(Integer(v)) case None => None;
  }

  /**
    The hex branch in general: `0x` or `0X` followed by any non-empty string
    of hex digits, in either case and with any leading zeros, is the integer
    it denotes when that fits in an `i64`, and no token otherwise.
  */
  lemma HexNumeralValue(parseFloat: string -> Option<F64>, x: char, s: string)
    requires x == 'x' || x == 'X'
    requires s != [] && AllDigits(s, 16)
    ensures DigitsValue(s, 16).Some?
    ensures ParseNumeral(parseFloat, ['0', x] + s)
         == if DigitsValue(s, 16).value <= I64Max then Some(Integer(DigitsValue(s, 16).value as i64)) else None
  {
    var t := ['0', x] + s;
    assert t[..2] == ['0', x] && t[2..] == s;
    ParseDigits(s, 16);
  }

  /**
    Spelling does not matter in the hex branch: the case of the `x`, leading
    zeros and upper- or lower-case digit letters all read the same, whether
    the rest parses or not.
  */
  lemma HexSpellings(parseFloat: string -> Option<F64>, x: char, z: string, s: string)
    requires x == 'x' || x == 'X'
    requires forall k :: 0 <= k < |z| ==> z[k] == '0'
    requires s != [] && s[0] != '+' && s[0] != '-'
    ensures ParseNumeral(parseFloat, ['0', x] + z + s) == ParseNumeral(parseFloat, "0x" + LowerCaseAll(s))
  {
    var t, u, l := ['0', x] + z + s, "0x" + LowerCaseAll(s), LowerCaseAll(s);
    assert t[..2] == ['0', x] && t[2..] == z + s;
    assert u[..2] == "0x" && u[2..] == l;
    ParseSpellings(z, s, 16);
  }

  // ---- integers ---------------------------------------------------------------

  predicate NonNegativeIntegers(ts: seq<Token>)
    decreases |ts|
  {
    ts == [] || ((ts[0].Integer? ==> ts[0].n >= 0) && NonNegativeIntegers(ts[1..]))
  }

  lemma {:induction false} NonNegativeAppend(a: seq<Token>, b: seq<Token>)
    requires NonNegativeIntegers(a) && NonNegativeIntegers(b)
    ensures NonNegativeIntegers(a + b)
    decreases |a|
  {
    if a == [] {
      assert a + b == b;
    } else {
      assert (a + b)[0] == a[0] && (a + b)[1..] == a[1..] + b;
      NonNegativeAppend(a[1..], b);
    }
  }

  lemma {:induction false} NonNegativeAll(ts: seq<Token>)
    requires NonNegativeIntegers(ts)
    ensures forall i :: 0 <= i < |ts| && ts[i].Integer? ==> ts[i].n >= 0
    decreases |ts|
  {
    if ts != [] {
      NonNegativeAll(ts[1..]);
      assert forall i :: 1 <= i < |ts| ==> ts[i] == ts[1..][i - 1];
    }
  }

  lemma LexemeNonNegative(d: Edition, parseFloat: string -> Option<F64>, s: string)
    requires s != []
    ensures NonNegativeIntegers(LexemeTokens(d, NumeralParser(parseFloat), s[..LexemeLength(d, s)]))
  {
    var lexeme := s[..LexemeLength(d, s)];
    LexemeSplit(d, s);
    if !IsSeparator(d, s[0]) {
      assert IsSeparator(d, '-');
      assert '-' !in lexeme;
      var r := ParseNumeral(parseFloat, lexeme);
      assert NumeralParser(parseFloat)(lexeme) == r;
    }
  }

  /**
    Every integer token is non-negative: a `-` always ends a numeral, and
    the pending-minus flag that would negate one is never set.
  */
  lemma {:induction false} IntegersNonNegative(d: Edition, parseFloat: string -> Option<F64>, s: string)
    ensures var ts := Lex(d, NumeralParser(parseFloat), s);
      forall i :: 0 <= i < |ts| && ts[i].Integer? ==> ts[i].n >= 0
  {
    LexNonNegative(d, parseFloat, s);
    NonNegativeAll(Lex(d, NumeralParser(parseFloat), s));
  }

  lemma {:induction false} LexNonNegative(d: Edition, parseFloat: string -> Option<F64>, s: string)
    ensures NonNegativeIntegers(Lex(d, NumeralParser(parseFloat), s))
    decreases |s|
  {
    if s != [] {
      var n := LexemeLength(d, s);
      LexNonNegative(d, parseFloat, s[n..]);
      LexemeNonNegative(d, parseFloat, s);
      NonNegativeAppend(LexemeTokens(d, NumeralParser(parseFloat), s[..n]), Lex(d, NumeralParser(parseFloat), s[n..]));
    }
  }
}
