/**
 * The text Python 2 prints for a reading in hundredths (`str(raw / 100.0)`):
 * an optional minus sign, the whole part, a point, and the hundredths with a
 * trailing zero dropped but at least one digit kept ("21.5", "21.05", "21.0").
 * `ParseCenti` reads such text back.
 */
module Decimal {
  import opened Wrappers
  import opened Text

  predicate IsDigit(c: char) {
    '0' <= c <= '9'
  }

  predicate AllDigits(s: string) {
    forall i :: 0 <= i < |s| ==> IsDigit(s[i])
  }

  function DigitChar(d: nat): (c: char)
    requires d < 10
    ensures IsDigit(c)
  {
    ('0' as int + d) as char
  }

  function DigitValue(c: char): (d: nat)
    requires IsDigit(c)
    ensures d < 10
  {
    c as int - '0' as int
  }

  /** `str(n)` for a non-negative integer: its decimal digits, most significant first. */
  function NatToString(n: nat): (s: string)
    ensures |s| > 0 && AllDigits(s)
    ensures s[0] == '0' ==> n == 0 && s == "0"
    decreases n
  {
    if n < 10 then [DigitChar(n)] else NatToString(n / 10) + [DigitChar(n % 10)]
  }

  /** The number a string of decimal digits denotes. */
  function DigitsValue(s: string): nat
    requires AllDigits(s)
    decreases |s|
  {
    if |s| == 0 then 0 else DigitsValue(s[..|s| - 1]) * 10 + DigitValue(s[|s| - 1])
  }

  lemma {:induction false} NatToStringRoundTrip(n: nat)
    ensures DigitsValue(NatToString(n)) == n
    decreases n
  {
    var s := NatToString(n);
    if n >= 10 {
      NatToStringRoundTrip(n / 10);
      assert s[..|s| - 1] == NatToString(n / 10);
    }
  }

  /** The hundredths of a reading as Python prints them after the point. */
  function Hundredths(f: nat): (s: string)
    requires f < 100
    ensures 1 <= |s| <= 2 && AllDigits(s)
    ensures s[|s| - 1] == '0' ==> s == "0"
  {
    if f % 10 == 0 then [DigitChar(f / 10)] else [DigitChar(f / 10), DigitChar(f % 10)]
  }

  /** The printed magnitude of a reading of m hundredths. */
  function UnsignedText(m: nat): string {
    NatToString(m / 100) + "." + Hundredths(m % 100)
  }

  /**
   * Python's text for a non-negative float with at most two decimals: a whole
   * part without leading zeros, a point, and one or two digits that end in 0
   * only when they are the single digit 0.
   */
  predicate IsUnsignedFloatText(u: string) {
    var k := IndexOf(u, '.');
    && 0 < k < |u|
    && AllDigits(u[..k])
    && (u[0] == '0' ==> k == 1)
    && var frac := u[k + 1..];
       AllDigits(frac) && 1 <= |frac| <= 2 && (frac[|frac| - 1] == '0' ==> frac == "0")
  }

  /** The same, with an optional leading minus sign. */
  predicate IsFloatText(s: string) {
    if |s| > 0 && s[0] == '-' then IsUnsignedFloatText(s[1..]) else IsUnsignedFloatText(s)
  }

  lemma UnsignedTextShape(m: nat)
    ensures IsUnsignedFloatText(UnsignedText(m))
    ensures IsDigit(UnsignedText(m)[0])
  {
    var w, f := NatToString(m / 100), Hundredths(m % 100);
    var u := w + "." + f;
    assert '.' !in w by {
      forall i | 0 <= i < |w| ensures w[i] != '.' { assert IsDigit(w[i]); }
    }
    IndexOfAfter(w, '.', f);
    assert u[..|w|] == w;
    assert u[|w| + 1..] == f;
    assert u[0] == w[0];
  }

  /**
   * `str(raw / 100.0)` for a reading in hundredths: exactly Python's text, a
   * minus sign for a negative reading only, no leading zeros, and no
   * trailing zero after the point except in "x.0".
   */
  function RenderCenti(raw: int): (r: string)
    ensures IsFloatText(r)
    ensures (|r| > 0 && r[0] == '-') <==> raw < 0
  {
    var m := if raw < 0 then -raw else raw;
    UnsignedTextShape(m);
    var u := UnsignedText(m);
    if raw < 0 then
      assert ("-" + u)[1..] == u;
      "-" + u
    else u
  }

  /** Reads "<digits>.<one or two digits>" as a number of hundredths. */
  function ParseUnsignedCenti(s: string): Option<nat> {
    var k := IndexOf(s, '.');
    if k == 0 || k == |s| then None
    else
      var whole, frac := s[..k], s[k + 1..];
      if !AllDigits(whole) || !AllDigits(frac) || !(1 <= |frac| <= 2) then None
      else
        var tenths := DigitValue(frac[0]) * 10;
        Some(DigitsValue(whole) * 100 + if |frac| == 1 then tenths else tenths + DigitValue(frac[1]))
  }

  /** Reads the text `RenderCenti` produces, with an optional leading minus sign. */
  function ParseCenti(s: string): Option<int> {
    if |s| > 0 && s[0] == '-' then
      match ParseUnsignedCenti(s[1..])
      case Some(m) => Some(-(m as int))
      case None => None
    else
      match ParseUnsignedCenti(s)
      case Some(m) => Some(m as int)
      case None => None
  }

  lemma UnsignedRoundTrip(m: nat)
    ensures ParseUnsignedCenti(UnsignedText(m)) == Some(m)
  {
    var w, f := NatToString(m / 100), Hundredths(m % 100);
    var s := w + "." + f;
    assert '.' !in w by {
      forall i | 0 <= i < |w| ensures w[i] != '.' { assert IsDigit(w[i]); }
    }
    IndexOfAfter(w, '.', f);
    assert s[..|w|] == w;
    assert s[|w| + 1..] == f;
    NatToStringRoundTrip(m / 100);
    HundredthsValue(m % 100);
    assert m == m / 100 * 100 + m % 100;
  }

  /** The digits after the point give back the hundredths. */
  lemma HundredthsValue(f: nat)
    requires f < 100
    ensures var h := Hundredths(f);
      (if |h| == 1 then DigitValue(h[0]) * 10 else DigitValue(h[0]) * 10 + DigitValue(h[1])) == f
  {
  }

  /** Reading the printed value back gives the raw reading: no two readings print alike. */
  lemma RenderCentiRoundTrip(raw: int)
    ensures ParseCenti(RenderCenti(raw)) == Some(raw)
  {
    if raw < 0 {
      NegativeRoundTrip(raw);
    } else {
      NonNegativeRoundTrip(raw);
    }
  }

  lemma NegativeRoundTrip(raw: int)
    requires raw < 0
    ensures ParseCenti(RenderCenti(raw)) == Some(raw)
  {
    var u := UnsignedText(-raw);
    UnsignedRoundTrip(-raw);
    assert RenderCenti(raw) == "-" + u;
    assert ("-" + u)[1..] == u;
    assert ParseUnsignedCenti(("-" + u)[1..]) == Some(-raw);
  }

  lemma NonNegativeRoundTrip(raw: int)
    requires raw >= 0
    ensures ParseCenti(RenderCenti(raw)) == Some(raw)
  {
    var u := UnsignedText(raw);
    UnsignedRoundTrip(raw);
    UnsignedTextShape(raw);
    assert RenderCenti(raw) == u;
    assert u[0] != '-';
  }

  /** The printed value never contains a space, a quote or a bar, so it can stand as a perfdata value. */
  lemma RenderCentiPlain(raw: int)
    ensures ' ' !in RenderCenti(raw) && '\'' !in RenderCenti(raw) && '|' !in RenderCenti(raw)
  {
    var m := if raw < 0 then -raw else raw;
    var w, f := NatToString(m / 100), Hundredths(m % 100);
    assert forall i :: 0 <= i < |w| ==> IsDigit(w[i]);
    assert forall i :: 0 <= i < |f| ==> IsDigit(f[i]);
    var u := UnsignedText(m);
    assert ' ' !in u && '\'' !in u && '|' !in u;
  }

  /** A reading prints as its magnitude, after a minus sign when it is negative. */
  lemma RenderCentiUnfold(raw: int)
    ensures RenderCenti(raw) == if raw < 0 then "-" + UnsignedText(-raw) else UnsignedText(raw)
  {
  }

  lemma Examples21()
    ensures UnsignedText(2150) == "21.5" && UnsignedText(2105) == "21.05" && UnsignedText(2100) == "21.0"
  {
    assert NatToString(21) == "21" by { assert NatToString(2) == "2"; }
  }

  lemma ExamplesBelowOne()
    ensures UnsignedText(5) == "0.05" && UnsignedText(0) == "0.0"
  {
    assert NatToString(0) == "0";
  }

  /** Concrete renderings, as Python 2 prints them. */
  lemma RenderCentiExamples()
    ensures RenderCenti(2150) == "21.5"
    ensures RenderCenti(2105) == "21.05"
    ensures RenderCenti(2100) == "21.0"
    ensures RenderCenti(-5) == "-0.05"
    ensures RenderCenti(0) == "0.0"
  {
    Examples21();
    ExamplesBelowOne();
    RenderCentiUnfold(2150);
    RenderCentiUnfold(2105);
    RenderCentiUnfold(2100);
    RenderCentiUnfold(-5);
    RenderCentiUnfold(0);
  }
}
