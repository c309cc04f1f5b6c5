/**
  Rust's `i64::from_str_radix` (and `str::parse::<i64>`, which is radix 10):
  an optional `+` or `-`, then one or more digits of the radix; an empty
  string, a lone sign, a non-digit or a value outside the `i64` range is an
  error. Rust accumulates with checked arithmetic; because every prefix of a
  digit string denotes a value no larger than the whole, that overflows
  exactly when the exact value is out of range, which is how it is written here.
*/
module IntParse {
  import opened Wrappers
  import opened Tokens

  const I64Min: int := -0x8000_0000_0000_0000
  const I64Max: int := 0x7FFF_FFFF_FFFF_FFFF

  /**
    `i64` arithmetic as a release build performs it: the exact result,
    wrapped around modulo 2^64 into the `i64` range.
  */
  function WrapI64(x: int): (r: i64)
    ensures I64Min <= x <= I64Max ==> r as int == x
    ensures (r as int - x) % 0x1_0000_0000_0000_0000 == 0
  {
    ((x - I64Min) % 0x1_0000_0000_0000_0000 + I64Min) as i64
  }

  /** `char::to_digit(radix)`. */
  function ToDigit(c: char, radix: nat): (r: Option<nat>)
    requires 2 <= radix <= 36
    ensures r.Some? ==> r.value < radix
    ensures '0' <= c <= '9' && (c as int) - ('0' as int) < radix ==> r == Some((c as int) - ('0' as int))
  {
    var v :=
      if '0' <= c <= '9' then (c as int) - ('0' as int)
      else if 'a' <= c <= 'z' then (c as int) - ('a' as int) + 10
      else if 'A' <= c <= 'Z' then (c as int) - ('A' as int) + 10
      else radix;
    if v < radix then Some(v) else None
  }

  predicate AllDigits(s: string, radix: nat)
    requires 2 <= radix <= 36
  {
    forall k :: 0 <= k < |s| ==> ToDigit(s[k], radix).Some?
  }

  /** The value of a digit string, most significant digit first; None on a non-digit. */
  function DigitsValue(s: string, radix: nat): (r: Option<nat>)
    requires 2 <= radix <= 36
    decreases |s|
  {
    if s == [] then Some(0)
    else
      match DigitsValue(s[..|s| - 1], radix)
      case None => None
      case Some(high) =>
        match ToDigit(s[|s| - 1], radix)
        case None => None
        case Some(low) => Some(high * radix + low)
  }

  /** A digit string has a value exactly when every character is a digit of the radix. */
  lemma {:induction false} DigitsValueDefined(s: string, radix: nat)
    requires 2 <= radix <= 36
    ensures DigitsValue(s, radix).Some? <==> AllDigits(s, radix)
    decreases |s|
  {
    if s != [] {
      var init := s[..|s| - 1];
      DigitsValueDefined(init, radix);
      assert forall k :: 0 <= k < |init| ==> init[k] == s[k];
    }
  }

  /** The number of leading sign characters `from_str_radix` strips. */
  function SignLength(s: string): (n: nat)
    ensures n <= 1 && n <= |s|
  {
    if |s| > 0 && (s[0] == '+' || s[0] == '-') then 1 else 0
  }

  /** `i64::from_str_radix(s, radix)`, with `Err` as `None`. */
  function ParseI64(s: string, radix: nat): (r: Option<i64>)
    requires 2 <= radix <= 36
    ensures r.Some? ==> |s| > SignLength(s) && AllDigits(s[SignLength(s)..], radix)
    ensures r.Some? && (|s| == 0 || s[0] != '-') ==> r.value >= 0
  {
    DigitsValueDefined(s[SignLength(s)..], radix);
    if s == [] then None
    else if (s[0] == '+' || s[0] == '-') && |s| == 1 then None
    else
      var negative := s[0] == '-';
      match DigitsValue(s[SignLength(s)..], radix)
      case None => None
      case Some(v) =>
        var n: int := if negative then -(v as int) else v;
        if I64Min <= n <= I64Max then Some(n as i64) else None
  }

  /** The lower-case digit character for a digit value. */
  function DigitChar(v: nat): (c: char)
    requires v < 36
  {
    if v < 10 then (('0' as int) + v) as char else (('a' as int) + v - 10) as char
  }

  lemma DigitCharRoundTrip(v: nat, radix: nat)
    requires 2 <= radix <= 36 && v < radix
    ensures ToDigit(DigitChar(v), radix) == Some(v)
  {
  }

  /** The shortest digit string of `n` in the radix (the reference the parser inverts). */
  function Render(n: nat, radix: nat): (s: string)
    requires 2 <= radix <= 36
    ensures |s| >= 1
    decreases n
  {
    if n < radix then [DigitChar(n)]
    else Render(n / radix, radix) + [DigitChar(n % radix)]
  }

  /** Appending a digit multiplies the value so far by the radix and adds the digit. */
  lemma DigitsValueSnoc(s: string, c: char, radix: nat, high: nat, low: nat)
    requires 2 <= radix <= 36
    requires DigitsValue(s, radix) == Some(high) && ToDigit(c, radix) == Some(low)
    ensures DigitsValue(s + [c], radix) == Some(high * radix + low)
  {
    assert (s + [c])[..|s|] == s;
  }

  lemma {:induction false} DigitsValueRender(n: nat, radix: nat)
    requires 2 <= radix <= 36
    ensures DigitsValue(Render(n, radix), radix) == Some(n)
    decreases n
  {
    if n < radix {
      DigitsValueRenderDigit(n, radix);
    } else {
      DigitsValueRender(n / radix, radix);
      DigitsValueRenderStep(n, radix);
    }
  }

  lemma DigitsValueRenderDigit(n: nat, radix: nat)
    requires 2 <= radix <= 36 && n < radix
    ensures DigitsValue(Render(n, radix), radix) == Some(n)
  {
    DigitCharRoundTrip(n, radix);
    DigitsValueSnoc([], DigitChar(n), radix, 0, n);
    assert [] + [DigitChar(n)] == Render(n, radix);
  }

  lemma DigitsValueRenderStep(n: nat, radix: nat)
    requires 2 <= radix <= 36 && n >= radix
    requires DigitsValue(Render(n / radix, radix), radix) == Some(n / radix)
    ensures DigitsValue(Render(n, radix), radix) == Some(n)
  {
    var high, low := n / radix, n % radix;
    DigitCharRoundTrip(low, radix);
    DigitsValueSnoc(Render(high, radix), DigitChar(low), radix, high, low);
    DivMod(n, radix);
  }

  lemma DivMod(n: nat, radix: nat)
    requires radix > 0
    ensures (n / radix) * radix + n % radix == n
  {
  }

  /**
    Round trip: parsing the digits of a non-negative number gives it back
    exactly when it fits in an `i64`, and fails with an overflow otherwise.
  */
  lemma ParseRender(n: nat, radix: nat)
    requires 2 <= radix <= 36
    ensures n <= I64Max ==> ParseI64(Render(n, radix), radix) == Some(n as i64)
    ensures n > I64Max ==> ParseI64(Render(n, radix), radix) == None
  {
    var s := Render(n, radix);
    DigitsValueRender(n, radix);
    DigitsValueDefined(s, radix);
    assert ToDigit(s[0], radix).Some?;
    assert s[0] != '+' && s[0] != '-';
    assert s[SignLength(s)..] == s;
  }

  /** Parsing a digit string with a leading `-` gives the negation of its value, when that fits. */
  lemma ParseNegative(n: nat, radix: nat)
    requires 2 <= radix <= 36
    ensures -(n as int) >= I64Min ==> ParseI64(['-'] + Render(n, radix), radix) == Some((-(n as int)) as i64)
    ensures -(n as int) < I64Min ==> ParseI64(['-'] + Render(n, radix), radix) == None
  {
    var s := ['-'] + Render(n, radix);
    DigitsValueRender(n, radix);
    assert s[SignLength(s)..] == Render(n, radix);
  }

  // ---- digit strings in general: leading zeros and letter case -----------

  function Pow(radix: nat, k: nat): (p: nat)
    ensures radix > 0 ==> p > 0
  {
    if k == 0 then 1 else radix * Pow(radix, k - 1)
  }

  /** The value of `a + b` is the value of `a` shifted left by `|b|` digits, plus the value of `b`. */
  lemma {:induction false} DigitsValueAppend(a: string, b: string, radix: nat, va: nat, vb: nat)
    requires 2 <= radix <= 36
    requires DigitsValue(a, radix) == Some(va) && DigitsValue(b, radix) == Some(vb)
    ensures DigitsValue(a + b, radix) == Some(va * Pow(radix, |b|) + vb)
    decreases |b|
  {
    if b == [] {
      assert a + b == a;
    } else {
      var init, c := b[..|b| - 1], b[|b| - 1];
      var high := DigitsValue(init, radix).value;
      var low := ToDigit(c, radix).value;
      DigitsValueAppend(a, init, radix, va, high);
      assert a + b == (a + init) + [c];
      DigitsValueSnoc(a + init, c, radix, va * Pow(radix, |init|) + high, low);
      ShiftDigit(va, Pow(radix, |init|), high, radix, low);
    }
  }

  lemma ShiftDigit(va: nat, p: nat, high: nat, radix: nat, low: nat)
    ensures (va * p + high) * radix + low == va * (radix * p) + (high * radix + low)
  {
  }

  /** A string of `0`s has the value zero in every radix. */
  lemma {:induction false} ZerosValue(z: string, radix: nat)
    requires 2 <= radix <= 36
    requires forall k :: 0 <= k < |z| ==> z[k] == '0'
    ensures DigitsValue(z, radix) == Some(0)
    decreases |z|
  {
    if z != [] {
      var init := z[..|z| - 1];
      ZerosValue(init, radix);
      DigitsValueSnoc(init, '0', radix, 0, 0);
      assert init + ['0'] == z;
    }
  }

  /** Leading zeros do not change the value of a digit string, nor whether it has one. */
  lemma LeadingZerosIgnored(z: string, s: string, radix: nat)
    requires 2 <= radix <= 36
    requires forall k :: 0 <= k < |z| ==> z[k] == '0'
    ensures DigitsValue(z + s, radix) == DigitsValue(s, radix)
  {
    ZerosValue(z, radix);
    DigitsValueDefined(s, radix);
    DigitsValueDefined(z + s, radix);
    if DigitsValue(s, radix).Some? {
      DigitsValueAppend(z, s, radix, 0, DigitsValue(s, radix).value);
    } else {
      var k :| 0 <= k < |s| && ToDigit(s[k], radix).None?;
      assert (z + s)[|z| + k] == s[k];
    }
  }

  /** An upper-case letter read as its lower-case counterpart; other characters unchanged. */
  function LowerCase(c: char): char {
    if 'A' <= c <= 'Z' then ((c as int) - ('A' as int) + ('a' as int)) as char else c
  }

  /** `to_digit` treats `A`-`Z` and `a`-`z` alike. */
  lemma ToDigitCase(c: char, radix: nat)
    requires 2 <= radix <= 36
    ensures ToDigit(LowerCase(c), radix) == ToDigit(c, radix)
  {
  }

  function LowerCaseAll(s: string): (t: string)
    ensures |t| == |s|
    ensures forall k :: 0 <= k < |s| ==> t[k] == LowerCase(s[k])
  {
    seq(|s|, k requires 0 <= k < |s| => LowerCase(s[k]))
  }

  /** A digit string has the same value, or the same lack of one, whatever the case of its letters. */
  lemma {:induction false} DigitsValueCase(s: string, radix: nat)
    requires 2 <= radix <= 36
    ensures DigitsValue(LowerCaseAll(s), radix) == DigitsValue(s, radix)
    decreases |s|
  {
    if s != [] {
      var t := LowerCaseAll(s);
      var init := s[..|s| - 1];
      DigitsValueCase(init, radix);
      assert t[..|t| - 1] == LowerCaseAll(init);
      ToDigitCase(s[|s| - 1], radix);
    }
  }

  /**
    Any unsigned digit string, in either letter case and with any leading
    zeros, parses to its value when that fits in an `i64`, and fails with an
    overflow otherwise.
  */
  lemma ParseDigits(s: string, radix: nat)
    requires 2 <= radix <= 36
    requires s != [] && AllDigits(s, radix)
    ensures DigitsValue(s, radix).Some?
    ensures DigitsValue(s, radix).value <= I64Max ==> ParseI64(s, radix) == Some(DigitsValue(s, radix).value as i64)
    ensures DigitsValue(s, radix).value > I64Max ==> ParseI64(s, radix) == None
  {
    DigitsValueDefined(s, radix);
    assert ToDigit(s[0], radix).Some?;
    assert s[SignLength(s)..] == s;
  }

  /** Leading zeros and the case of the digit letters do not change what an unsigned string parses to. */
  lemma ParseSpellings(z: string, s: string, radix: nat)
    requires 2 <= radix <= 36
    requires forall k :: 0 <= k < |z| ==> z[k] == '0'
    requires s != [] && s[0] != '+' && s[0] != '-'
    ensures ParseI64(z + s, radix) == ParseI64(LowerCaseAll(s), radix)
  {
    var t, l := z + s, LowerCaseAll(s);
    LeadingZerosIgnored(z, s, radix);
    DigitsValueCase(s, radix);
    assert t[0] == if z == [] then s[0] else '0';
    assert l[0] == LowerCase(s[0]);
    ParseUnsigned(t, radix);
    ParseUnsigned(l, radix);
  }

  /** Without a sign, the parse is the string's value when that fits in an `i64`. */
  lemma ParseUnsigned(t: string, radix: nat)
    requires 2 <= radix <= 36
    requires t != [] && t[0] != '+' && t[0] != '-'
    ensures ParseI64(t, radix) == match DigitsValue(t, radix)
      case None => None
      case Some(v) => if v <= I64Max then Some(v as i64) else None
  {
    assert t[SignLength(t)..] == t;
  }
}
