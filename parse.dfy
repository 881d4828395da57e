/** `parseNumberRaw(s)` of the predictor script and the range check and
    rounding every caller applies to its result.

    `parseNumberRaw` answers `NaN` for a missing string, trims it, answers
    `NaN` for a blank one, turns every `,` into `.`, drops every character
    that is neither an ASCII digit nor `.`, and hands the rest to
    `parseFloat`. `NaN` is `None` here and a missing string is `None` too.
    What `parseFloat` reads from a string of digits and dots is the longest
    prefix of the form `digits [. digits]` with at least one digit; the
    model gives its exact decimal value. */
module NumberParse {
  import opened Common

  /** The characters `String.prototype.trim` removes: the white space and
      line terminators of section 12.2 and 12.3 of ECMA-262. */
  predicate IsSpace(c: char) {
    || c == '\t' || c == '\n' || c == '\r' || c == ' '
    || c == '\U{000B}' || c == '\U{000C}' || c == '\U{00A0}' || c == '\U{FEFF}'
    || c == '\U{1680}' || ('\U{2000}' <= c <= '\U{200A}')
    || c == '\U{2028}' || c == '\U{2029}' || c == '\U{202F}' || c == '\U{205F}'
    || c == '\U{3000}'
  }

  /** `\d` of a regular expression: an ASCII digit. */
  predicate IsDigit(c: char) {
    '0' <= c <= '9'
  }

  /** What the strip `replace(/[^\d.]/g, '')` keeps. */
  predicate IsNumeric(c: char) {
    IsDigit(c) || c == '.'
  }

  predicate AllDigits(s: string) {
    forall i | 0 <= i < |s| :: IsDigit(s[i])
  }

  predicate AllSpace(s: string) {
    forall i | 0 <= i < |s| :: IsSpace(s[i])
  }

  // ---------------------------------------------------------------------
  // trim, the comma replacement and the strip

  /** The number of white-space characters at the start of `s`. */
  function LeadingSpace(s: string): (k: nat)
    ensures k <= |s|
    ensures forall i | 0 <= i < k :: IsSpace(s[i])
    ensures k < |s| ==> !IsSpace(s[k])
  {
    if |s| > 0 && IsSpace(s[0]) then 1 + LeadingSpace(s[1..]) else 0
  }

  /** The number of white-space characters at the end of `s`. */
  function TrailingSpace(s: string): (k: nat)
    ensures k <= |s|
    ensures forall i | |s| - k <= i < |s| :: IsSpace(s[i])
    ensures k < |s| ==> !IsSpace(s[|s| - k - 1])
  {
    if |s| > 0 && IsSpace(s[|s| - 1]) then 1 + TrailingSpace(s[..|s| - 1]) else 0
  }

  /** `s.trim()`: `s` without its leading and trailing white space. The
      result is the part of `s` after its leading white space, followed in
      `s` by nothing but white space, and it neither starts nor ends with
      white space; these determine it. */
  function Trim(s: string): (r: string)
    ensures LeadingSpace(s) + |r| <= |s| && r == s[LeadingSpace(s)..LeadingSpace(s) + |r|]
    ensures AllSpace(s[LeadingSpace(s) + |r|..])
    ensures |r| > 0 ==> !IsSpace(r[0]) && !IsSpace(r[|r| - 1])
    ensures |r| == 0 <==> AllSpace(s)
  {
    var t := s[LeadingSpace(s)..];
    t[..|t| - TrailingSpace(t)]
  }

  /** `s.replace(/,/g, '.')` */
  function CommaToDot(s: string): (r: string)
    ensures |r| == |s|
    ensures forall i | 0 <= i < |s| :: r[i] == (if s[i] == ',' then '.' else s[i])
  {
    if |s| == 0 then [] else [if s[0] == ',' then '.' else s[0]] + CommaToDot(s[1..])
  }

  /** `s.replace(/[^\d.]/g, '')` */
  function KeepNumeric(s: string): (r: string)
    ensures |r| <= |s|
    ensures forall i | 0 <= i < |r| :: IsNumeric(r[i])
  {
    if |s| == 0 then []
    else if IsNumeric(s[0]) then [s[0]] + KeepNumeric(s[1..])
    else KeepNumeric(s[1..])
  }

  /** The comma replacement and then the strip. */
  function Normalise(s: string): (r: string)
  {
    KeepNumeric(CommaToDot(s))
  }

  // ---------------------------------------------------------------------
  // parseFloat on what is left

  /** The length of the leading run of digits. */
  function DigitRun(s: string): (k: nat)
    ensures k <= |s|
    ensures forall i | 0 <= i < k :: IsDigit(s[i])
    ensures k < |s| ==> !IsDigit(s[k])
  {
    if |s| > 0 && IsDigit(s[0]) then 1 + DigitRun(s[1..]) else 0
  }

  function DigitValue(c: char): (d: nat)
    requires IsDigit(c)
    ensures d < 10
  {
    c as int - '0' as int
  }

  /** The value of a string of digits read as a whole number. */
  function IntValue(ds: string): (n: nat)
    requires AllDigits(ds)
  {
    if |ds| == 0 then 0 else 10 * IntValue(ds[..|ds| - 1]) + DigitValue(ds[|ds| - 1])
  }

  /** The value of a string of digits read after a decimal point. */
  function FracValue(ds: string): (x: real)
    requires AllDigits(ds)
    ensures 0.0 <= x <= 1.0
  {
    if |ds| == 0 then 0.0 else (DigitValue(ds[0]) as real + FracValue(ds[1..])) / 10.0
  }

  /** The digits right after a leading `.`, if `rest` starts with one. */
  function FractionDigits(rest: string): (frac: string)
    ensures AllDigits(frac)
  {
    if |rest| > 0 && rest[0] == '.' then rest[1..][..DigitRun(rest[1..])] else []
  }

  /** `parseFloat(t)` on a string with no sign, exponent or leading space:
      `None` unless there are digits before or just after the first `.`. */
  function ParseDecimalPrefix(t: string): (r: Option<real>)
    ensures r.Some? ==> r.value >= 0.0
  {
    var k := DigitRun(t);
    var frac := FractionDigits(t[k..]);
    if k == 0 && |frac| == 0 then None
    else Some(IntValue(t[..k]) as real + FracValue(frac))
  }

  /** `parseNumberRaw(s)`; `None` for a missing string and for `NaN`. */
  function ParseNumberRaw(s: Option<string>): (r: Option<real>)
    ensures s.None? ==> r.None?
    ensures s.Some? && AllSpace(s.value) ==> r.None?
    ensures r.Some? ==> r.value >= 0.0
  {
    match s
    case None => None
    case Some(str) =>
      var t := Trim(str);
      if |t| == 0 then None else ParseDecimalPrefix(Normalise(t))
  }

  // ---------------------------------------------------------------------
  // what the callers do with the number

  /** The test `!isNaN(n) && n >= MIN_VAL && n <= MAX_VAL` every caller
      makes before storing `Number(n.toFixed(2))`. */
  function AcceptValue(n: Option<real>): (r: Option<int>)
    ensures r.Some? <==> n.Some? && MIN_VAL <= n.value <= MAX_VAL
    ensures r.Some? ==> MIN_HUNDREDTHS <= r.value <= MAX_HUNDREDTHS
    ensures r.Some? ==> r.value == ToHundredths(n.value)
  {
    if n.Some? && MIN_VAL <= n.value <= MAX_VAL then Some(ToHundredths(n.value)) else None
  }

  /** Reads one input the way the handlers do: parse, then range check. */
  function ReadValue(s: string): Option<int> {
    AcceptValue(ParseNumberRaw(Some(s)))
  }

  // ---------------------------------------------------------------------
  // Properties

  lemma {:induction false} CommaToDotAppend(a: string, b: string)
    ensures CommaToDot(a + b) == CommaToDot(a) + CommaToDot(b)
    decreases |a|
  {
    if |a| > 0 {
      assert (a + b)[1..] == a[1..] + b;
      CommaToDotAppend(a[1..], b);
    } else {
      assert a + b == b;
    }
  }

  lemma {:induction false} KeepNumericAppend(a: string, b: string)
    ensures KeepNumeric(a + b) == KeepNumeric(a) + KeepNumeric(b)
    decreases |a|
  {
    if |a| > 0 {
      assert (a + b)[1..] == a[1..] + b;
      KeepNumericAppend(a[1..], b);
    } else {
      assert a + b == b;
    }
  }

  /** One character: a digit or a point is kept, anything else dropped.
      With `KeepNumericAppend` this fixes the strip on every string. */
  lemma KeepNumericOfChar(c: char)
    ensures KeepNumeric([c]) == if IsNumeric(c) then [c] else []
  {
    assert [c][1..] == [];
  }

  /** White space does not survive the strip. */
  lemma {:induction false} KeepNumericOfSpace(s: string)
    requires AllSpace(s)
    ensures KeepNumeric(s) == []
  {
    if |s| > 0 {
      KeepNumericOfSpace(s[1..]);
    }
  }

  /** Digits and dots survive it unchanged. */
  lemma {:induction false} KeepNumericOfNumeric(s: string)
    requires forall i | 0 <= i < |s| :: IsNumeric(s[i])
    ensures KeepNumeric(s) == s
  {
    if |s| > 0 {
      KeepNumericOfNumeric(s[1..]);
    }
  }

  lemma {:induction false} CommaToDotWithoutComma(s: string)
    requires forall i | 0 <= i < |s| :: s[i] != ','
    ensures CommaToDot(s) == s
  {
    if |s| > 0 {
      CommaToDotWithoutComma(s[1..]);
    }
  }

  /** The comma replacement followed by the strip works character by
      character, so it distributes over concatenation. */
  lemma NormaliseAppend(a: string, b: string)
    ensures Normalise(a + b) == Normalise(a) + Normalise(b)
  {
    CommaToDotAppend(a, b);
    KeepNumericAppend(CommaToDot(a), CommaToDot(b));
  }

  /** White space does not survive the strip. */
  lemma NormaliseOfSpace(w: string)
    requires AllSpace(w)
    ensures Normalise(w) == []
  {
    CommaToDotWithoutComma(w);
    KeepNumericOfSpace(w);
  }

  /** The white space the trim removes would not survive the strip. */
  lemma NormaliseAfterTrim(s: string)
    ensures Normalise(s) == Normalise(Trim(s))
  {
    var k, r := LeadingSpace(s), Trim(s);
    var lead, trail := s[..k], s[k + |r|..];
    assert s == lead + r + trail;
    assert AllSpace(lead) by {
      forall i | 0 <= i < |lead| ensures IsSpace(lead[i]) {
        assert lead[i] == s[i];
      }
    }
    NormaliseAppend(lead + r, trail);
    NormaliseAppend(lead, r);
    NormaliseOfSpace(lead);
    NormaliseOfSpace(trail);
  }

  /** The trim decides nothing the strip would not: the result is
      `parseFloat` of the normalised input. */
  lemma TrimIsRedundant(s: string)
    ensures ParseNumberRaw(Some(s)) == ParseDecimalPrefix(Normalise(s))
  {
    NormaliseAfterTrim(s);
    if |Trim(s)| == 0 {
      assert Normalise(Trim(s)) == [];
    }
  }

  /** A comma reads as a decimal point: `"2,5"` and `"2.5"` give the same. */
  lemma CommaReadsAsPoint(a: string, b: string)
    ensures ParseNumberRaw(Some(a + "," + b)) == ParseNumberRaw(Some(a + "." + b))
  {
    TrimIsRedundant(a + "," + b);
    TrimIsRedundant(a + "." + b);
    NormaliseCommaAsPoint(a, b);
  }

  lemma NormaliseCommaAsPoint(a: string, b: string)
    ensures Normalise(a + "," + b) == Normalise(a + "." + b)
  {
    NormaliseAppend(a + ",", b);
    NormaliseAppend(a, ",");
    NormaliseAppend(a + ".", b);
    NormaliseAppend(a, ".");
    assert Normalise(",") == "." == Normalise(".");
  }

  /** Any character other than a digit, a dot or a comma is dropped before
      `parseFloat` sees the string, wherever it stands. */
  lemma OtherCharacterIgnored(a: string, c: char, b: string)
    requires !IsNumeric(c) && c != ','
    ensures ParseNumberRaw(Some(a + [c] + b)) == ParseNumberRaw(Some(a + b))
  {
    assert Normalise([c]) == [] by {
      assert CommaToDot([c]) == [c];
      assert KeepNumeric([c]) == KeepNumeric([]);
    }
    NormaliseAppend(a + [c], b);
    NormaliseAppend(a, [c]);
    NormaliseAppend(a, b);
    assert Normalise(a + [c] + b) == Normalise(a + b);
    TrimIsRedundant(a + [c] + b);
    TrimIsRedundant(a + b);
  }

  /** A minus sign is stripped like any other character, so `"-5"` reads as
      `5`: no result is negative. */
  lemma NegativeSignIgnored(s: string)
    ensures ParseNumberRaw(Some("-" + s)) == ParseNumberRaw(Some(s))
  {
    assert Normalise("-") == [] by {
      assert CommaToDot("-") == "-";
      assert KeepNumeric("-") == KeepNumeric([]);
    }
    NormaliseAppend("-", s);
    TrimIsRedundant("-" + s);
    TrimIsRedundant(s);
  }

  // ---------------------------------------------------------------------
  // Round trip: the decimal text of a stored value reads back as that value

  function DigitChar(d: nat): (c: char)
    requires d < 10
    ensures IsDigit(c) && DigitValue(c) == d
  {
    ('0' as int + d) as char
  }

  /** The decimal digits of `n`, most significant first. */
  function DecimalString(n: nat): (s: string)
    ensures |s| > 0 && AllDigits(s)
  {
    if n < 10 then [DigitChar(n)] else DecimalString(n / 10) + [DigitChar(n % 10)]
  }

  lemma {:induction false} IntValueOfDecimal(n: nat)
    ensures IntValue(DecimalString(n)) == n
  {
    if n >= 10 {
      var s := DecimalString(n);
      assert s[..|s| - 1] == DecimalString(n / 10);
      IntValueOfDecimal(n / 10);
    } else {
      assert DecimalString(n)[..0] == [];
    }
  }

  /** A run of digits followed by a non-digit has exactly that run. */
  lemma {:induction false} DigitRunOf(ds: string, rest: string)
    requires AllDigits(ds)
    requires |rest| > 0 ==> !IsDigit(rest[0])
    ensures DigitRun(ds + rest) == |ds|
    decreases |ds|
  {
    if |ds| > 0 {
      assert (ds + rest)[1..] == ds[1..] + rest;
      DigitRunOf(ds[1..], rest);
    } else {
      assert ds + rest == rest;
    }
  }

  /** Text made only of digits and dots that starts and ends with a digit
      reads as `parseFloat` of itself. */
  lemma PlainNumberUnchanged(s: string)
    requires |s| > 0 && IsDigit(s[0]) && IsDigit(s[|s| - 1])
    requires forall i | 0 <= i < |s| :: IsNumeric(s[i])
    ensures ParseNumberRaw(Some(s)) == ParseDecimalPrefix(s)
  {
    CommaToDotWithoutComma(s);
    KeepNumericOfNumeric(s);
    TrimIsRedundant(s);
  }

  lemma FractionDigitsOf(frac: string)
    requires AllDigits(frac)
    ensures FractionDigits("." + frac) == frac
  {
    assert ("." + frac)[1..] == frac;
    DigitRunOf(frac, []);
    assert frac + [] == frac;
  }

  /** In `whole.frac` the leading digit run is `whole`. */
  lemma DigitsThenPoint(whole: string, frac: string)
    requires AllDigits(whole)
    ensures var t := whole + ("." + frac);
      DigitRun(t) == |whole| && t[..|whole|] == whole && t[|whole|..] == "." + frac
  {
    var rest := "." + frac;
    var t := whole + rest;
    DigitRunOf(whole, rest);
    assert t[..|whole|] == whole;
    assert t[|whole|..] == rest;
  }

  /** `parseFloat` of `whole.frac` with digits on both sides. */
  lemma ParseDecimalOf(whole: string, frac: string)
    requires |whole| > 0 && AllDigits(whole) && AllDigits(frac)
    ensures ParseDecimalPrefix(whole + ("." + frac)) == Some(IntValue(whole) as real + FracValue(frac))
  {
    DigitsThenPoint(whole, frac);
    FractionDigitsOf(frac);
  }

  /** A whole number written in decimal reads back as itself. */
  lemma WholeNumberRoundTrip(n: nat)
    ensures ParseNumberRaw(Some(DecimalString(n))) == Some(n as real)
  {
    var s := DecimalString(n);
    PlainNumberUnchanged(s);
    DigitRunOf(s, []);
    assert s + [] == s;
    assert s[..|s|] == s;
    IntValueOfDecimal(n);
  }

  /** `h` hundredths written with two decimals, as `toFixed(2)` writes them. */
  function TwoDecimals(h: nat): (s: string)
    ensures |s| > 0 && IsDigit(s[0]) && IsDigit(s[|s| - 1])
    ensures forall i | 0 <= i < |s| :: IsNumeric(s[i])
  {
    DecimalString(h / 100) + ("." + Cents(h))
  }

  /** The two digits after the point. */
  function Cents(h: nat): (s: string)
    ensures |s| == 2 && AllDigits(s)
  {
    [DigitChar(h / 10 % 10), DigitChar(h % 10)]
  }

  lemma CentsValue(h: nat)
    ensures (h / 100) as real + FracValue(Cents(h)) == h as real / 100.0
  {
    var c := Cents(h);
    assert c[1..][1..] == [];
    assert FracValue(c[1..]) == (h % 10) as real / 10.0;
    assert FracValue(c) == ((h / 10 % 10) as real + (h % 10) as real / 10.0) / 10.0;
    assert h == 100 * (h / 100) + 10 * (h / 10 % 10) + h % 10;
  }

  /** The two-decimal text of `h` hundredths parses to `h / 100`, and the
      rounding to hundredths gives back `h`. */
  lemma TwoDecimalsRoundTrip(h: nat)
    ensures ParseNumberRaw(Some(TwoDecimals(h))) == Some(h as real / 100.0)
    ensures ToHundredths(h as real / 100.0) == h
  {
    var whole, cents := DecimalString(h / 100), Cents(h);
    calc {
      ParseNumberRaw(Some(TwoDecimals(h)));
      { PlainNumberUnchanged(TwoDecimals(h)); }
      ParseDecimalPrefix(whole + ("." + cents));
      { ParseDecimalOf(whole, cents); }
      Some(IntValue(whole) as real + FracValue(cents));
      { IntValueOfDecimal(h / 100); CentsValue(h); }
      Some(h as real / 100.0);
    }
    assert 100.0 * (h as real / 100.0) == h as real;
  }

  /** A text that parses to `h / 100`, for `h` in range and a fixed point of
      the rounding, reads as `h`. */
  lemma ReadOfParsed(t: string, h: int)
    requires MIN_HUNDREDTHS <= h <= MAX_HUNDREDTHS
    requires ParseNumberRaw(Some(t)) == Some(h as real / 100.0)
    requires ToHundredths(h as real / 100.0) == h
    ensures ReadValue(t) == Some(h)
  {
    AcceptHundredths(ParseNumberRaw(Some(t)), h);
  }

  lemma AcceptHundredths(n: Option<real>, h: int)
    requires MIN_HUNDREDTHS <= h <= MAX_HUNDREDTHS
    requires n == Some(h as real / 100.0)
    requires ToHundredths(h as real / 100.0) == h
    ensures AcceptValue(n) == Some(h)
  {
  }

  /** So a stored value in range, written out and read again, is accepted as
      the same value. */
  lemma StoredValueReadsBack(h: nat)
    requires MIN_HUNDREDTHS <= h <= MAX_HUNDREDTHS
    ensures ReadValue(TwoDecimals(h)) == Some(h)
  {
    TwoDecimalsRoundTrip(h);
    ReadOfParsed(TwoDecimals(h), h);
  }
}
