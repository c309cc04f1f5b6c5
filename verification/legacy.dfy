/**
  The older four-operator copy of the pipeline in the binary's main file. It
  shares every definition with the library except the operator-character
  mapping, which has no `^`; these are the consequences of that one
  difference. In particular the two editions tokenize alike wherever the
  text holds no `^`.
*/
module LegacyEdition {
  import opened Wrappers
  import opened Tokens
  import opened IntParse
  import opened Tokenizer
  import opened TokenizerFacts

  /** The older `Operator::from`: exactly `+ - / *`, and `^` is no operator. */
  lemma LegacyOperatorChars(c: char)
    ensures FromChar(Legacy, c).Some? <==> c in {'+', '-', '/', '*'}
    ensures FromChar(Legacy, '^') == None
    ensures c != '^' ==> FromChar(Legacy, c) == FromChar(Library, c)
  {
  }

  /** The older `to_prio`: the four operators it has keep the library's priorities 2 and 1. */
  lemma LegacyPriorities(o: Operator)
    requires InEdition(Legacy, o)
    ensures Prio(o) == (if o == Mul || o == Div then 2 else 1)
  {
  }

  /** Every operator token belongs to the edition. */
  predicate EditionOperators(d: Edition, ts: seq<Token>)
    decreases |ts|
  {
    ts == [] || ((ts[0].Op? ==> InEdition(d, ts[0].op)) && EditionOperators(d, ts[1..]))
  }

  lemma {:induction false} EditionOperatorsAppend(d: Edition, a: seq<Token>, b: seq<Token>)
    requires EditionOperators(d, a) && EditionOperators(d, b)
    ensures EditionOperators(d, a + b)
    decreases |a|
  {
    if a == [] {
      assert a + b == b;
    } else {
      assert (a + b)[0] == a[0] && (a + b)[1..] == a[1..] + b;
      EditionOperatorsAppend(d, a[1..], b);
    }
  }

  lemma {:induction false} EditionOperatorsAll(d: Edition, ts: seq<Token>)
    requires EditionOperators(d, ts)
    ensures forall i :: 0 <= i < |ts| && ts[i].Op? ==> InEdition(d, ts[i].op)
    decreases |ts|
  {
    if ts != [] {
      EditionOperatorsAll(d, ts[1..]);
      assert forall i :: 1 <= i < |ts| ==> ts[i] == ts[1..][i - 1];
    }
  }

  lemma LexemeOperators(d: Edition, numeral: string -> Option<Token>, s: string)
    requires LiteralParser(numeral) && s != []
    ensures EditionOperators(d, LexemeTokens(d, numeral, s[..LexemeLength(d, s)]))
  {
    var lexeme := s[..LexemeLength(d, s)];
    if !IsSeparator(d, s[0]) {
      var r := numeral(lexeme);
      assert r.Some? ==> IsLiteral(r.value);
    }
  }

  lemma {:induction false} LexOperators(d: Edition, numeral: string -> Option<Token>, s: string)
    requires LiteralParser(numeral)
    ensures EditionOperators(d, Lex(d, numeral, s))
    decreases |s|
  {
    if s != [] {
      var n := LexemeLength(d, s);
      LexOperators(d, numeral, s[n..]);
      LexemeOperators(d, numeral, s);
      EditionOperatorsAppend(d, LexemeTokens(d, numeral, s[..n]), Lex(d, numeral, s[n..]));
    }
  }

  /** The older tokenizer never produces an exponent operator, whatever the text. */
  lemma LegacyNoExponent(parseFloat: string -> Option<F64>, s: string)
    ensures var ts := Lex(Legacy, NumeralParser(parseFloat), s);
      forall i :: 0 <= i < |ts| ==> ts[i] != Op(Exp)
  {
    ScannerParsesLiterals(parseFloat);
    LexOperators(Legacy, NumeralParser(parseFloat), s);
    EditionOperatorsAll(Legacy, Lex(Legacy, NumeralParser(parseFloat), s));
  }

  // ---- agreement away from `^` ----------------------------------------------

  lemma SeparatorsAgree(c: char)
    requires c != '^'
    ensures IsSeparator(Legacy, c) == IsSeparator(Library, c)
    ensures IsSeparator(Legacy, c) ==> SeparatorTokens(Legacy, c) == SeparatorTokens(Library, c)
  {
  }

  lemma {:induction false} RunLengthsAgree(s: string)
    requires '^' !in s
    ensures RunLength(Legacy, s) == RunLength(Library, s)
    decreases |s|
  {
    if s != [] {
      SeparatorsAgree(s[0]);
      assert '^' !in s[1..] by {
        assert forall k :: 0 <= k < |s| - 1 ==> s[1..][k] == s[k + 1];
      }
      RunLengthsAgree(s[1..]);
    }
  }

  /** On text without `^`, the two editions tokenize identically. */
  lemma {:induction false} EditionsAgree(numeral: string -> Option<Token>, s: string)
    requires '^' !in s
    ensures Lex(Legacy, numeral, s) == Lex(Library, numeral, s)
    decreases |s|
  {
    if s != [] {
      SeparatorsAgree(s[0]);
      RunLengthsAgree(s);
      var n := LexemeLength(Library, s);
      assert LexemeLength(Legacy, s) == n;
      assert '^' !in s[n..] by {
        assert forall k :: 0 <= k < |s| - n ==> s[n..][k] == s[n + k];
      }
      EditionsAgree(numeral, s[n..]);
    }
  }

  // ---- `^` inside a numeral -------------------------------------------------

  /** A string with a `^` in it is no integer, in any radix up to 16. */
  lemma CaretIsNoDigit(s: string, radix: nat)
    requires 2 <= radix <= 16 && '^' in s
    ensures ParseI64(s, radix) == None
  {
    var k :| 0 <= k < |s| && s[k] == '^';
    var sign := SignLength(s);
    var body := s[sign..];
    assert body[k - sign] == '^';
    assert ToDigit('^', radix).None?;
    DigitsValueDefined(body, radix);
  }

  /**
    In the older copy `^` is no separator, so it is swallowed by the
    numeral around it; a numeral with `^` and no `.` fails every integer
    parse and yields no token (so `2^3` yields none).
  */
  lemma CaretNumeralDropped(parseFloat: string -> Option<F64>, number: string)
    requires '^' in number && '.' !in number
    ensures ParseNumeral(parseFloat, number) == None
  {
    if StartsWith(number, "0x") || StartsWith(number, "0X") {
      var k :| 0 <= k < |number| && number[k] == '^';
      assert k >= 2;
      assert number[2..][k - 2] == '^';
      CaretIsNoDigit(number[2..], 16);
    } else {
      CaretIsNoDigit(number, 10);
    }
  }

  /** `2^3` in the older copy: one numeral, no token. */
  lemma TwoCaretThree(parseFloat: string -> Option<F64>)
    ensures Lex(Legacy, NumeralParser(parseFloat), "2^3") == []
  {
    var s := "2^3";
    assert !IsSeparator(Legacy, s[0]) && !IsSeparator(Legacy, s[1]) && !IsSeparator(Legacy, s[2]);
    assert s[1..][1..][1..] == [];
    assert RunLength(Legacy, s) == 3;
    assert s[..3] == s && s[3..] == [];
    CaretNumeralDropped(parseFloat, s);
    assert NumeralParser(parseFloat)(s) == None;
  }
}
