/** Printing decimals and reading them back: decimal_string and the _decimal validator. */
module DecimalText {
  import opened Wrappers
  import opened Decimals

  /** A finite decimal: sign, coefficient, exponent, so that zero has a sign and 1.0 is not 1.00. */
  datatype Dec = Dec(neg: bool, coeff: nat, exp: int)

  function Pow10(k: nat): (p: nat)
    ensures p >= 1
  {
    if k == 0 then 1 else 10 * Pow10(k - 1)
  }

  function Scale(exp: int): real {
    if exp >= 0 then Pow10(exp) as real else 1.0 / Pow10(-exp) as real
  }

  function Signed(d: Dec): int {
    if d.neg then 0 - d.coeff else d.coeff
  }

  function Value(d: Dec): real {
    Signed(d) as real * Scale(d.exp)
  }

  predicate NegativeZero(d: Dec) {
    d.neg && d.coeff == 0
  }

  // ---- digits ----

  predicate IsDigit(c: char) {
    '0' <= c <= '9'
  }

  predicate AllDigits(s: string) {
    forall i | 0 <= i < |s| :: IsDigit(s[i])
  }

  function DigitOf(n: nat): char
    requires n < 10
  {
    ('0' as int + n) as char
  }

  function DigitsOf(n: nat): string {
    if n < 10 then [DigitOf(n)] else DigitsOf(n / 10) + [DigitOf(n % 10)]
  }

  function Zeros(k: nat): string {
    seq(k, i => '0')
  }

  function ValueOf(s: string): nat
    requires AllDigits(s)
  {
    if s == "" then 0 else 10 * ValueOf(s[..|s| - 1]) + (s[|s| - 1] as int - '0' as int)
  }

  lemma {:induction false} DigitsOfReads(n: nat)
    ensures AllDigits(DigitsOf(n)) && ValueOf(DigitsOf(n)) == n
    ensures DigitsOf(n) != "" && (n != 0 ==> DigitsOf(n)[0] != '0')
  {
    if n < 10 {
      assert DigitsOf(n)[..0] == "";
    } else {
      DigitsOfReads(n / 10);
      assert DigitsOf(n)[..|DigitsOf(n)| - 1] == DigitsOf(n / 10);
    }
  }

  lemma {:induction false} ValueOfConcat(a: string, b: string)
    requires AllDigits(a) && AllDigits(b)
    ensures AllDigits(a + b) && ValueOf(a + b) == ValueOf(a) * Pow10(|b|) + ValueOf(b)
  {
    if b == "" {
      assert a + b == a;
    } else {
      var n := |b| - 1;
      assert (a + b)[..|a + b| - 1] == a + b[..n];
      ValueOfConcat(a, b[..n]);
      Regroup(ValueOf(a), Pow10(n), ValueOf(b[..n]));
    }
  }

  lemma Regroup(v: nat, p: nat, w: nat)
    ensures 10 * (v * p + w) == v * (10 * p) + 10 * w
  {
  }

  lemma {:induction false} ZerosAreNothing(k: nat)
    ensures AllDigits(Zeros(k)) && ValueOf(Zeros(k)) == 0
  {
    if k > 0 {
      ZerosAreNothing(k - 1);
      assert Zeros(k)[..k - 1] == Zeros(k - 1);
    }
  }

  lemma {:induction false} ValueIsBounded(s: string)
    requires AllDigits(s)
    ensures ValueOf(s) < Pow10(|s|)
  {
    if s != "" {
      ValueIsBounded(s[..|s| - 1]);
    }
  }

  /** Digit strings of one length are determined by their value. */
  lemma {:induction false} SameLengthSameDigits(a: string, b: string)
    requires AllDigits(a) && AllDigits(b) && |a| == |b| && ValueOf(a) == ValueOf(b)
    ensures a == b
  {
    if a != "" {
      var n := |a| - 1;
      SameLengthSameDigits(a[..n], b[..n]);
      assert a == a[..n] + [a[n]] && b == b[..n] + [b[n]];
    }
  }

  /** So are digit strings without a leading zero. */
  predicate Whole(s: string) {
    s != "" && AllDigits(s) && (|s| > 1 ==> s[0] != '0')
  }

  lemma {:induction false} WholeIsDigits(s: string)
    requires Whole(s)
    ensures s == DigitsOf(ValueOf(s))
  {
    var n := |s| - 1;
    assert s == s[..n] + [s[n]];
    if n == 0 {
      assert s[..0] == "";
    } else {
      WholeIsDigits(s[..n]);
      LeadingDigitCounts(s[..n]);
    }
  }

  lemma {:induction false} LeadingDigitCounts(s: string)
    requires AllDigits(s) && s != "" && s[0] != '0'
    ensures ValueOf(s) > 0
  {
    if |s| > 1 {
      LeadingDigitCounts(s[..|s| - 1]);
    }
  }

  // ---- texts by their parts ----

  /** A plain decimal text. */
  function Render(neg: bool, whole: string, fraction: string): string {
    (if neg then "-" else "") + whole + if fraction == "" then "" else "." + fraction
  }

  /** Position of the first point, or the length. */
  function Point(s: string): (i: nat)
    ensures i <= |s| && (i < |s| ==> s[i] == '.') && forall j | 0 <= j < i :: s[j] != '.'
  {
    if s == "" || s[0] == '.' then 0 else 1 + Point(s[1..])
  }

  /** The pattern -?(\d+|\d*\.\d+) followed by the decimal constructor. */
  function Parse(text: string): Option<Dec> {
    var neg := text != "" && text[0] == '-';
    ParseUnsigned(neg, if neg then text[1..] else text)
  }

  function ParseUnsigned(neg: bool, body: string): Option<Dec> {
    var i := Point(body);
    if i == |body| then
      if body != "" && AllDigits(body) then Some(Dec(neg, ValueOf(body), 0)) else None
    else
      var whole, fraction := body[..i], body[i + 1..];
      if AllDigits(whole) && AllDigits(fraction) && fraction != "" then
        AllDigitsConcat(whole, fraction);
        Some(Dec(neg, ValueOf(whole + fraction), -|fraction|))
      else None
  }

  lemma AllDigitsConcat(a: string, b: string)
    requires AllDigits(a) && AllDigits(b)
    ensures AllDigits(a + b)
  {
  }

  lemma PointOf(whole: string, rest: string)
    requires AllDigits(whole) && (rest == "" || rest[0] == '.')
    ensures Point(whole + rest) == |whole|
  {
    var body := whole + rest;
    assert forall j | 0 <= j < |whole| :: body[j] == whole[j] && IsDigit(whole[j]);
    assert rest != "" ==> body[|whole|] == rest[0];
  }

  lemma SignIsApart(neg: bool, body: string)
    requires body != "" && body[0] != '-'
    ensures var text := (if neg then "-" else "") + body;
      && text != "" && (text[0] == '-' <==> neg) && (if neg then text[1..] else text) == body
  {
  }

  lemma ParseUnsignedParts(neg: bool, whole: string, fraction: string)
    requires AllDigits(whole) && AllDigits(fraction) && whole != ""
    ensures AllDigits(whole + fraction)
    ensures ParseUnsigned(neg, whole + if fraction == "" then "" else "." + fraction)
         == Some(Dec(neg, ValueOf(whole + fraction), -|fraction|))
  {
    hide ValueOf, Pow10, Point;
    AllDigitsConcat(whole, fraction);
    if fraction == "" {
      assert whole + "" == whole == whole + fraction;
      PointOf(whole, "");
    } else {
      var body := whole + ("." + fraction);
      PointOf(whole, "." + fraction);
      assert body[..|whole|] == whole && body[|whole| + 1..] == fraction;
    }
  }

  lemma ParseRender(neg: bool, whole: string, fraction: string)
    requires AllDigits(whole) && AllDigits(fraction) && whole != ""
    ensures AllDigits(whole + fraction)
    ensures Parse(Render(neg, whole, fraction)) == Some(Dec(neg, ValueOf(whole + fraction), -|fraction|))
  {
    hide *;
    var body := whole + if fraction == "" then "" else "." + fraction;
    RenderIs(neg, whole, fraction);
    SignIsApart(neg, body);
    ParseIs(neg, body);
    ParseUnsignedParts(neg, whole, fraction);
  }

  lemma RenderIs(neg: bool, whole: string, fraction: string)
    requires AllDigits(whole) && whole != ""
    ensures var body := whole + if fraction == "" then "" else "." + fraction;
      body != "" && body[0] != '-' && Render(neg, whole, fraction) == (if neg then "-" else "") + body
  {
    var body := whole + if fraction == "" then "" else "." + fraction;
    assert Render(neg, whole, fraction) == (if neg then "-" else "") + body;
    assert body[0] == whole[0] && IsDigit(whole[0]);
  }

  lemma ParseIs(neg: bool, body: string)
    requires body != "" && body[0] != '-'
    ensures Parse((if neg then "-" else "") + body) == ParseUnsigned(neg, body)
  {
    hide ParseUnsigned;
    SignIsApart(neg, body);
  }

  // ---- format(value, "f") and decimal_string ----

  function WholePart(d: Dec): string {
    var digits := DigitsOf(d.coeff);
    if d.exp >= 0 then (if d.coeff == 0 then "0" else digits + Zeros(d.exp))
    else var padded := Padded(d); padded[..|padded| + d.exp]
  }

  function FractionPart(d: Dec): string {
    if d.exp >= 0 then "" else var padded := Padded(d); padded[|padded| + d.exp..]
  }

  /** The coefficient with enough leading zeros for one digit before the point. */
  function Padded(d: Dec): (s: string)
    requires d.exp < 0
    ensures |s| > -d.exp
  {
    var digits := DigitsOf(d.coeff);
    if |digits| <= -d.exp then Zeros(1 - d.exp - |digits|) + digits else digits
  }

  function Format(d: Dec): string {
    Render(d.neg, WholePart(d), FractionPart(d))
  }

  function RStrip(s: string, c: char): string {
    if s != "" && s[|s| - 1] == c then RStrip(s[..|s| - 1], c) else s
  }

  function DecimalString(d: Dec): string {
    var text := Format(d);
    var shown := if '.' in text then RStrip(RStrip(text, '0'), '.') else text;
    if shown == "" then "0" else shown
  }

  lemma PartsOfPadded(d: Dec)
    requires d.exp < 0
    ensures AllDigits(Padded(d)) && ValueOf(Padded(d)) == d.coeff
    ensures Whole(WholePart(d)) && |FractionPart(d)| == -d.exp && WholePart(d) + FractionPart(d) == Padded(d)
  {
    PaddedIsDigits(d);
    hide Padded, ValueOf, DigitsOf;
    var padded := Padded(d);
    assert padded == padded[..|padded| + d.exp] + padded[|padded| + d.exp..];
  }

  lemma PaddedIsDigits(d: Dec)
    requires d.exp < 0
    ensures AllDigits(Padded(d)) && ValueOf(Padded(d)) == d.coeff
    ensures |Padded(d)| + d.exp > 1 ==> Padded(d)[0] != '0'
  {
    DigitsOfReads(d.coeff);
    assert d.coeff == 0 ==> |DigitsOf(d.coeff)| == 1;
    hide DigitsOf, ValueOf, AllDigits, Pow10, Zeros;
    var digits := DigitsOf(d.coeff);
    if |digits| <= -d.exp {
      PaddedWithZeros(1 - d.exp - |digits|, digits);
    }
  }

  lemma PaddedWithZeros(k: nat, digits: string)
    requires AllDigits(digits)
    ensures |Zeros(k)| == k && AllDigits(Zeros(k) + digits) && ValueOf(Zeros(k) + digits) == ValueOf(digits)
  {
    hide ValueOf, Pow10;
    ZerosAreNothing(k);
    ValueOfConcat(Zeros(k), digits);
  }

  lemma PartsOfInteger(d: Dec)
    requires d.exp >= 0
    ensures FractionPart(d) == "" && Whole(WholePart(d)) && ValueOf(WholePart(d)) == d.coeff * Pow10(d.exp)
  {
    DigitsOfReads(d.coeff);
    ZerosAreNothing(d.exp);
    if d.coeff == 0 {
      assert "0"[..0] == "";
    } else {
      ValueOfConcat(DigitsOf(d.coeff), Zeros(d.exp));
    }
  }

  lemma PartsAreDigits(d: Dec)
    ensures Whole(WholePart(d)) && AllDigits(FractionPart(d))
  {
    if d.exp < 0 {
      PartsOfPadded(d);
      forall i | 0 <= i < |FractionPart(d)| ensures IsDigit(FractionPart(d)[i]) {
        assert FractionPart(d)[i] == Padded(d)[|Padded(d)| + d.exp + i];
      }
    } else {
      PartsOfInteger(d);
    }
  }

  lemma {:induction false} RStripOfPrefix(prefix: string, s: string, c: char)
    requires prefix != "" && prefix[|prefix| - 1] != c
    ensures RStrip(prefix + s, c) == prefix + RStrip(s, c)
  {
    if s == "" {
      assert prefix + s == prefix && prefix + RStrip(s, c) == prefix;
    } else if s[|s| - 1] == c {
      assert (prefix + s)[..|prefix + s| - 1] == prefix + s[..|s| - 1];
      RStripOfPrefix(prefix, s[..|s| - 1], c);
    }
  }

  lemma {:induction false} RStripProperties(s: string, c: char)
    ensures |RStrip(s, c)| <= |s| && RStrip(s, c) == s[..|RStrip(s, c)|]
    ensures forall i | |RStrip(s, c)| <= i < |s| :: s[i] == c
    ensures RStrip(s, c) != "" ==> RStrip(s, c)[|RStrip(s, c)| - 1] != c
  {
    if s != "" && s[|s| - 1] == c {
      RStripProperties(s[..|s| - 1], c);
    }
  }

  /** decimal_string drops the trailing zeros of the fraction, and the point when nothing is left. */
  lemma DecimalStringIsRendered(d: Dec)
    ensures DecimalString(d) == Render(d.neg, WholePart(d), RStrip(FractionPart(d), '0'))
  {
    PartsAreDigits(d);
    var head := (if d.neg then "-" else "") + WholePart(d);
    NoPoint(d.neg, WholePart(d));
    hide WholePart, FractionPart, RStrip;
    if FractionPart(d) == "" {
      assert Format(d) == head + "" == head;
      assert RStrip("", '0') == "" by { RStripProperties("", '0'); }
      assert head + "" == head;
    } else {
      assert Format(d) == head + ("." + FractionPart(d));
      StripPointed(head, FractionPart(d));
      assert Format(d)[|head|] == '.';
    }
  }

  lemma StripPointed(head: string, fraction: string)
    requires head != "" && head[|head| - 1] != '.' && AllDigits(fraction)
    ensures var kept := RStrip(fraction, '0');
      RStrip(RStrip(head + ("." + fraction), '0'), '.') == head + if kept == "" then "" else "." + kept
  {
    hide RStrip, AllDigits, IsDigit;
    var pointed, kept := head + ".", RStrip(fraction, '0');
    assert head + ("." + fraction) == pointed + fraction;
    RStripOfPrefix(pointed, fraction, '0');
    if kept == "" {
      assert pointed + kept == pointed;
      StripPoint(head);
    } else {
      KeptEndsInDigit(fraction);
      assert pointed + kept == head + ("." + kept);
      RStripNothing(pointed + kept, '.');
    }
  }

  lemma KeptEndsInDigit(fraction: string)
    requires AllDigits(fraction) && RStrip(fraction, '0') != ""
    ensures RStrip(fraction, '0')[|RStrip(fraction, '0')| - 1] != '.'
  {
    RStripProperties(fraction, '0');
    hide RStrip;
    var kept := RStrip(fraction, '0');
    assert kept[|kept| - 1] == fraction[|kept| - 1];
  }

  lemma StripPoint(head: string)
    requires head != "" && head[|head| - 1] != '.'
    ensures RStrip(head + ".", '.') == head == head + ""
  {
    RStripOfPrefix(head, ".", '.');
    assert "."[..0] == "" && head + "" == head;
  }

  lemma RStripNothing(s: string, c: char)
    requires s != "" && s[|s| - 1] != c
    ensures RStrip(s, c) == s
  {
  }

  lemma NoPoint(neg: bool, whole: string)
    requires Whole(whole)
    ensures var head := (if neg then "-" else "") + whole;
      '.' !in head && head != "" && IsDigit(head[|head| - 1])
  {
    var sign := if neg then "-" else "";
    var head := sign + whole;
    forall i | 0 <= i < |head| ensures head[i] != '.' {
      assert i >= |sign| ==> head[i] == whole[i - |sign|];
    }
    assert head[|head| - 1] == whole[|whole| - 1];
  }

  // ---- values ----

  lemma ScaleIsPositive(exp: int)
    ensures Scale(exp) > 0.0
  {
  }

  lemma {:induction false} ScaleShift(exp: int, k: nat)
    ensures Scale(exp + k) == Scale(exp) * Pow10(k) as real
  {
    hide Scale;
    if k > 0 {
      ScaleShift(exp, k - 1);
      ScaleStep(exp + k - 1);
      TenTimes(Scale(exp), Pow10(k - 1), Pow10(k));
    }
  }

  lemma TenTimes(x: real, p: nat, q: nat)
    requires q == 10 * p
    ensures 10.0 * (x * p as real) == x * q as real
  {
    assert q as real == 10.0 * p as real;
    Associates(10.0, x, p as real);
    Associates(x, 10.0, p as real);
    assert 10.0 * x == x * 10.0;
  }

  lemma ScaleStep(exp: int)
    ensures Scale(exp + 1) == 10.0 * Scale(exp)
  {
    if exp < 0 {
      var p := Pow10(-exp - 1) as real;
      assert Pow10(-exp) as real == 10.0 * p;
      TenthOf(p);
    }
  }

  lemma TenthOf(p: real)
    requires p > 0.0
    ensures 1.0 / p == 10.0 * (1.0 / (10.0 * p))
  {
  }

  /** Moving the exponent up by k divides the coefficient by the k-th power of ten. */
  lemma SameValueShifted(neg: bool, coeff: nat, exp: int, k: nat)
    ensures Value(Dec(neg, coeff * Pow10(k), exp)) == Value(Dec(neg, coeff, exp + k))
  {
    hide Scale, Pow10;
    ScaleShift(exp, k);
    ShiftedProduct(neg, coeff, Pow10(k), Scale(exp));
  }

  lemma ShiftedProduct(neg: bool, c: nat, p: nat, s: real)
    ensures Signed(Dec(neg, c * p, 0)) as real * s == Signed(Dec(neg, c, 0)) as real * (s * p as real)
  {
    CastProduct(c, p);
    Associates(c as real, p as real, s);
    if neg {
      NegateProduct((c * p) as real, s);
      NegateProduct(c as real, s * p as real);
    }
  }

  lemma CastProduct(x: nat, y: nat)
    ensures (x * y) as real == x as real * y as real
  {
  }

  // ---- the round trip ----

  /** The digits decimal_string shows, before and after the point. */
  function ShownFraction(d: Dec): string {
    RStrip(FractionPart(d), '0')
  }

  /** Reading back what format printed gives the number itself when it has no positive exponent. */
  lemma ParseFormat(d: Dec)
    ensures Parse(Format(d)) == Some(if d.exp <= 0 then d else Dec(d.neg, d.coeff * Pow10(d.exp), 0))
  {
    hide Parse, Format, Pow10, WholePart, FractionPart;
    PartsAreDigits(d);
    assert Format(d) == Render(d.neg, WholePart(d), FractionPart(d)) by { FormatIs(d); }
    ParseRender(d.neg, WholePart(d), FractionPart(d));
    if d.exp < 0 {
      PartsOfPadded(d);
    } else {
      PartsOfInteger(d);
      assert WholePart(d) + FractionPart(d) == WholePart(d);
      assert d.exp == 0 ==> Pow10(d.exp) == 1 by { PowZero(); }
    }
  }

  lemma FormatIs(d: Dec)
    ensures Format(d) == Render(d.neg, WholePart(d), FractionPart(d))
  {
  }

  lemma PowZero()
    ensures Pow10(0) == 1
  {
  }

  lemma ParseFormatValue(d: Dec)
    ensures Parse(Format(d)).Some? && Value(Parse(Format(d)).value) == Value(d) && Parse(Format(d)).value.neg == d.neg
  {
    ParseFormat(d);
    hide Parse, Format, Value;
    if d.exp > 0 {
      SameValueShifted(d.neg, d.coeff, 0, d.exp);
    }
  }

  lemma KeptIsPrefix(fraction: string)
    requires AllDigits(fraction)
    ensures var kept := RStrip(fraction, '0');
      AllDigits(kept) && |kept| <= |fraction| && fraction == kept + Zeros(|fraction| - |kept|)
  {
    RStripProperties(fraction, '0');
  }

  lemma DroppedZeros(whole: string, kept: string, dropped: nat)
    requires AllDigits(whole + kept)
    ensures AllDigits(whole + (kept + Zeros(dropped)))
    ensures ValueOf(whole + (kept + Zeros(dropped))) == ValueOf(whole + kept) * Pow10(dropped)
  {
    hide ValueOf, Pow10;
    ZerosAreNothing(dropped);
    ValueOfConcat(whole + kept, Zeros(dropped));
    assert whole + (kept + Zeros(dropped)) == (whole + kept) + Zeros(dropped);
  }

  /** Trailing zeros of the fraction only move the exponent. */
  lemma ParseDecimalString(d: Dec)
    ensures var p := Parse(DecimalString(d));
      && p.Some? && Value(p.value) == Value(d) && p.value.neg == d.neg && p.value.exp == -|ShownFraction(d)|
      && AllDigits(WholePart(d) + ShownFraction(d)) && p.value.coeff == ValueOf(WholePart(d) + ShownFraction(d))
  {
    hide Parse, Format, Render, DecimalString, WholePart, FractionPart, RStrip, Value, ValueOf, Pow10, Zeros;
    var whole, fraction, kept := WholePart(d), FractionPart(d), ShownFraction(d);
    PartsAreDigits(d);
    KeptIsPrefix(fraction);
    DecimalStringIsRendered(d);
    FormatIs(d);
    ParseRender(d.neg, whole, kept);
    ParseRender(d.neg, whole, fraction);
    ParseFormatValue(d);
    DroppedZeros(whole, kept, |fraction| - |kept|);
    SameValueShifted(d.neg, ValueOf(whole + kept), -|fraction|, |fraction| - |kept|);
  }

  /** decimal_string loses nothing: reading it gives the same value back. */
  lemma DecimalStringRoundTrip(d: Dec)
    ensures Parse(DecimalString(d)).Some? && Value(Parse(DecimalString(d)).value) == Value(d)
  {
    ParseDecimalString(d);
  }

  /** No exponent, no trailing zero after the point, no bare point, no superfluous leading zero. */
  lemma DecimalStringIsPlain(d: Dec)
    ensures var s, sign := DecimalString(d), if d.neg then "-" else "";
      && s == sign + WholePart(d) + (if ShownFraction(d) == "" then "" else "." + ShownFraction(d))
      && Whole(WholePart(d)) && AllDigits(ShownFraction(d))
      && (ShownFraction(d) != "" ==> ShownFraction(d)[|ShownFraction(d)| - 1] != '0')
  {
    DecimalStringIsRendered(d);
    PartsAreDigits(d);
    RStripProperties(FractionPart(d), '0');
  }

  // ---- one text per value ----

  lemma SignOfValue(d: Dec)
    ensures d.coeff > 0 ==> if d.neg then Value(d) < 0.0 else Value(d) > 0.0
    ensures d.coeff == 0 ==> Value(d) == 0.0
  {
    hide Scale;
    ScaleIsPositive(d.exp);
    if d.coeff > 0 {
      PositiveProduct(d.coeff as real, Scale(d.exp));
      NegateProduct(d.coeff as real, Scale(d.exp));
    }
  }

  lemma Cancel(x: int, y: int, s: real)
    requires x as real * s == y as real * s && s > 0.0
    ensures x == y
  {
    assert (x - y) as real * s == 0.0;
  }

  /** Equal values of one sign at exponents -m <= -n: the coefficients differ by a power of ten. */
  lemma CoefficientsRelate(a: Dec, b: Dec)
    requires Value(a) == Value(b) && a.neg == b.neg && a.exp <= b.exp
    ensures a.coeff == b.coeff * Pow10(b.exp - a.exp)
  {
    hide Pow10, Scale;
    var k := b.exp - a.exp;
    SameValueShifted(b.neg, b.coeff, a.exp, k);
    ScaleIsPositive(a.exp);
    var shifted := Dec(b.neg, b.coeff * Pow10(k), a.exp);
    Cancel(Signed(a), Signed(shifted), Scale(a.exp));
  }

  lemma LastDigitOfMultiple(s: string, v: nat, k: nat)
    requires AllDigits(s) && s != "" && ValueOf(s) == v * Pow10(k) && k > 0
    ensures s[|s| - 1] == '0'
  {
    var q := v * Pow10(k - 1);
    assert v * Pow10(k) == 10 * q by { Regroup(v, Pow10(k - 1), 0); }
    assert ValueOf(s) % 10 == (s[|s| - 1] as int - '0' as int);
  }

  /** Two shown forms with as many decimals and the same digits' value are the same text. */
  lemma SamePartsSameValue(whole1: string, kept1: string, whole2: string, kept2: string)
    requires Whole(whole1) && Whole(whole2) && AllDigits(kept1) && AllDigits(kept2) && |kept1| == |kept2|
    requires ValueOf(whole1 + kept1) == ValueOf(whole2 + kept2)
    ensures whole1 == whole2 && kept1 == kept2
  {
    hide ValueOf, Pow10;
    ValueOfConcat(whole1, kept1);
    ValueOfConcat(whole2, kept2);
    ValueIsBounded(kept1);
    ValueIsBounded(kept2);
    QuotientIsUnique(ValueOf(whole1), ValueOf(kept1), ValueOf(whole2), ValueOf(kept2), Pow10(|kept1|));
    WholeIsDigits(whole1);
    WholeIsDigits(whole2);
    SameLengthSameDigits(kept1, kept2);
  }

  lemma QuotientIsUnique(a: nat, x: nat, b: nat, y: nat, p: nat)
    requires x < p && y < p && a * p + x == b * p + y
    ensures a == b && x == y
  {
    if a < b {
      Spread(b, a, p);
    } else if b < a {
      Spread(a, b, p);
    }
  }

  lemma {:induction false} Spread(x: nat, y: nat, p: nat)
    requires x > y
    ensures x * p >= y * p + p
  {
    if x == y + 1 {
      assert (y + 1) * p == y * p + p;
    } else {
      Spread(x - 1, y, p);
      assert x * p == (x - 1) * p + p;
    }
  }

  lemma ShownHasNoExtraDecimals(a: Dec, b: Dec)
    requires Value(a) == Value(b) && a.neg == b.neg
    ensures |ShownFraction(a)| <= |ShownFraction(b)|
  {
    hide Parse, DecimalString, WholePart, FractionPart, RStrip, Value, ValueOf, Pow10;
    ParseDecimalString(a);
    ParseDecimalString(b);
    DecimalStringIsPlain(a);
    var p, q := Parse(DecimalString(a)).value, Parse(DecimalString(b)).value;
    if |ShownFraction(a)| > |ShownFraction(b)| {
      CoefficientsRelate(p, q);
      LastDigitOfMultiple(WholePart(a) + ShownFraction(a), q.coeff, q.exp - p.exp);
    }
  }

  /** Apart from negative zero, decimal_string is a name for the value: equal texts are equal values,
      and equal values have one text, whatever their coefficients and exponents. */
  lemma DecimalStringNamesValue(a: Dec, b: Dec)
    requires !NegativeZero(a) && !NegativeZero(b)
    ensures DecimalString(a) == DecimalString(b) <==> Value(a) == Value(b)
  {
    hide Parse, DecimalString, WholePart, FractionPart, RStrip, Value, ValueOf, Pow10;
    ParseDecimalString(a);
    ParseDecimalString(b);
    if Value(a) == Value(b) {
      SignOfValue(a);
      SignOfValue(b);
      ShownHasNoExtraDecimals(a, b);
      ShownHasNoExtraDecimals(b, a);
      var p, q := Parse(DecimalString(a)).value, Parse(DecimalString(b)).value;
      CoefficientsRelate(p, q);
      assert Pow10(0) == 1 by { PowZero(); }
      DecimalStringIsPlain(a);
      DecimalStringIsPlain(b);
      SamePartsSameValue(WholePart(a), ShownFraction(a), WholePart(b), ShownFraction(b));
    }
  }

  // ---- the _decimal validator ----

  /** What counts as a digit, and of which value, and what as white space; both go beyond ASCII. */
  datatype Alphabet = Alphabet(digit: char -> Option<nat>, space: char -> bool)

  ghost predicate Sensible(a: Alphabet) {
    && (forall c :: IsDigit(c) ==> a.digit(c) == Some(c as int - '0' as int))
    && (forall c :: a.digit(c).Some? ==> a.digit(c).value < 10 && !a.space(c))
    && a.digit('-').None? && a.digit('.').None? && !a.space('-') && !a.space('.')
  }

  /** The text as the decimal constructor understands it: any digit is the ASCII digit of its value. */
  function Normalised(s: string, a: Alphabet): string {
    seq(|s|, i requires 0 <= i < |s| => if a.digit(s[i]).Some? && a.digit(s[i]).value < 10 then DigitOf(a.digit(s[i]).value) else s[i])
  }

  function LStrip(s: string, a: Alphabet): string {
    if s != "" && a.space(s[0]) then LStrip(s[1..], a) else s
  }

  function Strip(s: string, a: Alphabet): string {
    TrailingStrip(LStrip(s, a), a)
  }

  function TrailingStrip(s: string, a: Alphabet): string {
    if s != "" && a.space(s[|s| - 1]) then TrailingStrip(s[..|s| - 1], a) else s
  }

  predicate SignAllowed(d: Dec, zero: bool) {
    if zero then Signed(d) >= 0 else Signed(d) > 0
  }

  /** _decimal: Ok(None) for a missing optional value, Raised for a refusal. */
  function ReadDecimal(value: Option<string>, optional: bool, zero: bool, a: Alphabet): Try<Option<string>> {
    if value.None? || value.value == "" then (if optional then Ok(None) else Raised) else
    var number := Parse(Normalised(Strip(value.value, a), a));
    if number.None? || !SignAllowed(number.value, zero) then Raised else Ok(Some(Format(number.value)))
  }

  /** A plain decimal text is neither stripped nor normalised. */
  lemma PlainTextIsKept(neg: bool, whole: string, fraction: string, a: Alphabet)
    requires AllDigits(whole) && AllDigits(fraction) && whole != "" && Sensible(a)
    ensures var s := Render(neg, whole, fraction); s != "" && Normalised(Strip(s, a), a) == s
  {
    var s := Render(neg, whole, fraction);
    var last := if fraction == "" then whole[|whole| - 1] else fraction[|fraction| - 1];
    assert IsDigit(whole[0]) && IsDigit(last);
    assert s[0] == if neg then '-' else whole[0];
    assert s[|s| - 1] == last;
    assert !a.space(s[0]) && !a.space(s[|s| - 1]);
    assert Strip(s, a) == s;
    hide Strip;
    forall i | 0 <= i < |s| ensures IsDigit(s[i]) || s[i] == '-' || s[i] == '.' {
      PlainCharacter(neg, whole, fraction, i);
    }
    assert Normalised(s, a) == s;
  }

  lemma PlainCharacter(neg: bool, whole: string, fraction: string, i: nat)
    requires AllDigits(whole) && AllDigits(fraction) && i < |Render(neg, whole, fraction)|
    ensures var c := Render(neg, whole, fraction)[i]; IsDigit(c) || c == '-' || c == '.'
  {
    var sign := if neg then 1 else 0;
    if sign <= i < sign + |whole| {
      assert Render(neg, whole, fraction)[i] == whole[i - sign];
    } else if i > sign + |whole| {
      assert Render(neg, whole, fraction)[i] == fraction[i - sign - |whole| - 1];
    }
  }

  lemma FormatIsKept(d: Dec, a: Alphabet)
    requires Sensible(a)
    ensures Format(d) != "" && Normalised(Strip(Format(d), a), a) == Format(d)
    ensures DecimalString(d) != "" && Normalised(Strip(DecimalString(d), a), a) == DecimalString(d)
  {
    hide Strip, Normalised, Render, WholePart, FractionPart, RStrip, DecimalString, Format, Sensible;
    PartsAreDigits(d);
    FormatIs(d);
    KeptIsPrefix(FractionPart(d));
    DecimalStringIsRendered(d);
    PlainTextIsKept(d.neg, WholePart(d), FractionPart(d), a);
    PlainTextIsKept(d.neg, WholePart(d), RStrip(FractionPart(d), '0'), a);
  }

  lemma SameSign(p: Dec, d: Dec, zero: bool)
    requires Value(p) == Value(d)
    ensures SignAllowed(p, zero) == SignAllowed(d, zero)
  {
    hide Value;
    SignOfValue(p);
    SignOfValue(d);
  }

  /** What decimal_string prints is accepted exactly when its sign is allowed, with its value unchanged. */
  lemma PrintedIsReadable(d: Dec, optional: bool, zero: bool, a: Alphabet)
    requires Sensible(a)
    ensures var r := ReadDecimal(Some(DecimalString(d)), optional, zero, a);
      && (r.Ok? <==> SignAllowed(d, zero))
      && (r.Ok? ==> r.value.Some? && Parse(r.value.value).Some? && Value(Parse(r.value.value).value) == Value(d))
  {
    hide Strip, Normalised, DecimalString, Value, Parse, Format, SignAllowed, Sensible;
    FormatIsKept(d, a);
    DecimalStringRoundTrip(d);
    var p := Parse(DecimalString(d)).value;
    SameSign(p, d, zero);
    ParseFormatValue(p);
  }

  /** What the validator returns it accepts again, unchanged, whatever digits and spaces were typed at first. */
  lemma ReadingIsIdempotent(value: Option<string>, optional: bool, zero: bool, a: Alphabet)
    requires Sensible(a) && ReadDecimal(value, optional, zero, a).Ok?
    ensures ReadDecimal(ReadDecimal(value, optional, zero, a).value, optional, zero, a) == ReadDecimal(value, optional, zero, a)
  {
    if value.Some? && value.value != "" {
      var text := Normalised(Strip(value.value, a), a);
      var p := Parse(text).value;
      ParsedExponent(text);
      hide Strip, Normalised, Parse, Format, SignAllowed, Sensible;
      FormatIsKept(p, a);
      ParseFormat(p);
    }
  }

  lemma ParsedExponent(text: string)
    ensures Parse(text).Some? ==> Parse(text).value.exp <= 0
  {
  }

  // ---- what is read, character by character ----

  /** A text cut into its sign, the digits before the point, whether there is a point, and the digits after it. */
  datatype Cut = Cut(neg: bool, whole: string, pointed: bool, fraction: string)

  function Body(cut: Cut): string {
    cut.whole + if cut.pointed then "." + cut.fraction else ""
  }

  /** The pattern: digits, or a point followed by digits with or without digits before it. */
  predicate Matches(text: string, cut: Cut) {
    && text == (if cut.neg then "-" else "") + Body(cut)
    && AllDigits(cut.whole) && AllDigits(cut.fraction)
    && (if cut.pointed then cut.fraction != "" else cut.whole != "" && cut.fraction == "")
  }

  /** A text is read exactly when it matches the pattern. */
  lemma ParsesIff(text: string)
    ensures Parse(text).Some? <==> exists cut :: Matches(text, cut)
  {
    if Parse(text).Some? {
      var cut := CutOf(text);
    }
    forall cut | Matches(text, cut) ensures Parse(text).Some? {
      MatchParses(text, cut);
    }
  }

  lemma CutOf(text: string) returns (cut: Cut)
    requires Parse(text).Some?
    ensures Matches(text, cut)
  {
    var neg := text != "" && text[0] == '-';
    var body := if neg then text[1..] else text;
    assert text == (if neg then "-" else "") + body;
    assert ParseUnsigned(neg, body).Some?;
    cut := CutOfBody(neg, body);
    hide ParseUnsigned, Body;
  }

  lemma CutOfBody(neg: bool, body: string) returns (cut: Cut)
    requires ParseUnsigned(neg, body).Some?
    ensures cut.neg == neg && Body(cut) == body && AllDigits(cut.whole) && AllDigits(cut.fraction)
    ensures if cut.pointed then cut.fraction != "" else cut.whole != "" && cut.fraction == ""
  {
    hide ValueOf;
    var i := Point(body);
    if i == |body| {
      cut := Cut(neg, body, false, "");
    } else {
      cut := Cut(neg, body[..i], true, body[i + 1..]);
      assert body == body[..i] + ("." + body[i + 1..]);
    }
  }

  /** And it is the number of all its digits, with as many decimals as follow the point. */
  lemma MatchParses(text: string, cut: Cut)
    requires Matches(text, cut)
    ensures AllDigits(cut.whole + cut.fraction)
    ensures Parse(text) == Some(Dec(cut.neg, ValueOf(cut.whole + cut.fraction), -|cut.fraction|))
  {
    hide ValueOf, Parse, ParseUnsigned, Point;
    AllDigitsConcat(cut.whole, cut.fraction);
    BodyParses(cut);
    BodyIsUnsigned(cut);
    hide Body;
    ParseIs(cut.neg, Body(cut));
  }

  lemma BodyIsUnsigned(cut: Cut)
    requires AllDigits(cut.whole) && (if cut.pointed then cut.fraction != "" else cut.whole != "" && cut.fraction == "")
    ensures Body(cut) != "" && Body(cut)[0] != '-'
  {
    assert Body(cut)[0] == if cut.whole != "" then cut.whole[0] else '.';
  }

  lemma BodyParses(cut: Cut)
    requires AllDigits(cut.whole) && AllDigits(cut.fraction)
    requires if cut.pointed then cut.fraction != "" else cut.whole != "" && cut.fraction == ""
    ensures AllDigits(cut.whole + cut.fraction)
    ensures ParseUnsigned(cut.neg, Body(cut)) == Some(Dec(cut.neg, ValueOf(cut.whole + cut.fraction), -|cut.fraction|))
  {
    hide ValueOf, Point;
    AllDigitsConcat(cut.whole, cut.fraction);
    var body := Body(cut);
    PointOf(cut.whole, if cut.pointed then "." + cut.fraction else "");
    if cut.pointed {
      assert body[..|cut.whole|] == cut.whole && body[|cut.whole| + 1..] == cut.fraction;
    } else {
      assert body == cut.whole && cut.whole + cut.fraction == cut.whole;
    }
  }

  lemma {:induction false} LStripIs(s: string, a: Alphabet)
    ensures |LStrip(s, a)| <= |s| && LStrip(s, a) == s[|s| - |LStrip(s, a)|..]
    ensures forall i | 0 <= i < |s| - |LStrip(s, a)| :: a.space(s[i])
    ensures LStrip(s, a) != "" ==> !a.space(LStrip(s, a)[0])
  {
    if s != "" && a.space(s[0]) {
      LStripIs(s[1..], a);
    }
  }

  lemma {:induction false} TrailingStripIs(s: string, a: Alphabet)
    ensures |TrailingStrip(s, a)| <= |s| && TrailingStrip(s, a) == s[..|TrailingStrip(s, a)|]
    ensures forall i | |TrailingStrip(s, a)| <= i < |s| :: a.space(s[i])
    ensures TrailingStrip(s, a) != "" ==> !a.space(TrailingStrip(s, a)[|TrailingStrip(s, a)| - 1])
  {
    if s != "" && a.space(s[|s| - 1]) {
      TrailingStripIs(s[..|s| - 1], a);
    }
  }

  /** Stripping takes white space from both ends, all of it and nothing else. */
  lemma StripIs(s: string, a: Alphabet) returns (before: string, after: string)
    ensures s == before + Strip(s, a) + after
    ensures (forall c <- before :: a.space(c)) && (forall c <- after :: a.space(c))
    ensures Strip(s, a) != "" ==> !a.space(Strip(s, a)[0]) && !a.space(Strip(s, a)[|Strip(s, a)| - 1])
  {
    var left := LStrip(s, a);
    LStripIs(s, a);
    TrailingStripIs(left, a);
    assert Strip(s, a) == TrailingStrip(left, a);
    hide Strip, LStrip, TrailingStrip;
    before, after := s[..|s| - |left|], left[|Strip(s, a)|..];
    assert left == Strip(s, a) + after && s == before + left;
  }

  /** Every digit is read as the ASCII digit of its value, every other character as it is. */
  lemma NormalisedMeans(s: string, a: Alphabet, i: nat)
    requires Sensible(a) && i < |s|
    ensures |Normalised(s, a)| == |s|
    ensures a.digit(s[i]).Some? ==>
      IsDigit(Normalised(s, a)[i]) && Normalised(s, a)[i] as int - '0' as int == a.digit(s[i]).value
    ensures a.digit(s[i]).None? ==> Normalised(s, a)[i] == s[i]
  {
  }

  /** The sign rule by value: a fee may be zero, a price may not, and nothing may be negative. */
  lemma AllowedByValue(d: Dec, zero: bool)
    ensures SignAllowed(d, zero) <==> if zero then Value(d) >= 0.0 else Value(d) > 0.0
  {
    SignOfValue(d);
    hide Value;
  }

  /** The whole validator: a missing or empty value is passed on as missing when it is optional and refused otherwise;
      any other is accepted exactly when, stripped, it matches the pattern and its value obeys the sign rule, and then
      returned as a text of the same value. */
  lemma ReadExactly(value: Option<string>, optional: bool, zero: bool, a: Alphabet)
    ensures value == None || value == Some("") ==>
      ReadDecimal(value, optional, zero, a) == if optional then Ok(None) else Raised
    ensures value.Some? && value.value != "" ==>
      var number, r := Parse(Normalised(Strip(value.value, a), a)), ReadDecimal(value, optional, zero, a);
      && (r.Ok? <==> number.Some? && if zero then Value(number.value) >= 0.0 else Value(number.value) > 0.0)
      && (r.Ok? ==> r.value.Some? && Parse(r.value.value).Some? && Value(Parse(r.value.value).value) == Value(number.value))
  {
    if value.Some? && value.value != "" {
      var number := Parse(Normalised(Strip(value.value, a), a));
      hide Parse, Strip, Normalised, Value, SignAllowed, Format;
      if number.Some? {
        AllowedByValue(number.value, zero);
        ParseFormatValue(number.value);
      }
    }
  }
}
