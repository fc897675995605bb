/** Decimal text to numbers and back, as std::stod and std::to_string do it, in exact reals. */
module NumberText {
  import opened Models
  import opened CommandText

  function Pow(base: real, n: nat): (p: real)
    ensures base >= 1.0 ==> p >= 1.0
  {
    if n == 0 then 1.0 else base * Pow(base, n - 1)
  }

  function DigitSpan(s: string): (n: nat)
    ensures n <= |s| && (n < |s| ==> !IsDigit(s[n])) && forall i | 0 <= i < n :: IsDigit(s[i])
  {
    if s == "" || !IsDigit(s[0]) then 0 else 1 + DigitSpan(s[1..])
  }

  /** The exponent that a text begins with; 0 when it does not begin with one. */
  function Exponent(s: string): int {
    if s == "" || (s[0] != 'e' && s[0] != 'E') then 0
    else
      var negative := |s| > 1 && s[1] == '-';
      var digits := if negative || (|s| > 1 && s[1] == '+') then s[2..] else s[1..];
      if negative then 0 - DigitRun(digits, 0) else DigitRun(digits, 0)
  }

  function Scaled(mantissa: nat, exponent: int): real {
    if exponent >= 0 then mantissa as real * Pow(10.0, exponent) else mantissa as real / Pow(10.0, -exponent)
  }

  /** Zero, or between the smallest normal double and where rounding leaves the largest one. */
  predicate InRange(v: real) {
    v == 0.0 || (v * Pow(2.0, 1022) >= 1.0 && v < Pow(2.0, 1024) - Pow(2.0, 970))
  }

  /** The unsigned number a text begins with. */
  function Magnitude(t: string): Option<real> {
    var whole := DigitSpan(t);
    var dotted := whole < |t| && t[whole] == '.';
    var fraction := if dotted then DigitSpan(t[whole + 1..]) else 0;
    if whole + fraction == 0 then None
    else
      var digits := t[..whole] + if dotted then t[whole + 1..][..fraction] else "";
      var rest := if dotted then t[whole + 1..][fraction..] else t[whole..];
      var v := Scaled(DigitRun(digits, 0), Exponent(rest) - fraction);
      if InRange(v) then Some(v) else None
  }

  /** The number a text begins with, or an exception. The text begins with a digit or a minus sign. */
  function Stod(s: string): Option<real> {
    if s == "" || s[0] != '-' then Magnitude(s)
    else
      match Magnitude(s[1..])
      case Some(v) => Some(-v)
      case None => None
  }

  // ----- a clock reading in microseconds -----

  function Padded(n: nat, places: nat): (s: string)
    ensures |s| == places && forall i | 0 <= i < places :: IsDigit(s[i])
  {
    if places == 0 then "" else Padded(n / 10, places - 1) + [DIGITS[n % 10]]
  }

  function Ten(k: nat): nat {
    if k == 0 then 1 else 10 * Ten(k - 1)
  }

  /** std::to_string of a time in seconds: six places. */
  function TimeDigits(micros: nat): string {
    Digits(micros / 1000000) + ("." + Padded(micros % 1000000, 6))
  }

  lemma TenTimes(m: nat, k: nat)
    requires k > 0
    ensures 10 * (m * Ten(k - 1)) == m * Ten(k)
  {
  }

  lemma AllDigits(s: string)
    requires forall i | 0 <= i < |s| :: IsDigit(s[i])
    ensures forall c | c in s :: IsDigit(c)
  {
  }

  lemma {:induction false} PaddedRead(digits: string, n: nat, places: nat)
    requires n < Ten(places) && forall i | 0 <= i < |digits| :: IsDigit(digits[i])
    ensures DigitRun(digits + Padded(n, places), 0) == DigitRun(digits, 0) * Ten(places) + n
    decreases places
  {
    if places == 0 {
      assert digits + "" == digits;
    } else {
      hide DigitRun;
      var shorter := digits + Padded(n / 10, places - 1);
      assert digits + Padded(n, places) == shorter + [DIGITS[n % 10]];
      AllDigits(shorter);
      PaddedRead(digits, n / 10, places - 1);
      DigitRunSnoc(shorter, DIGITS[n % 10], 0);
      TenTimes(DigitRun(digits, 0), places);
    }
  }

  lemma SpanEnds(digits: string, rest: string)
    requires (forall i | 0 <= i < |digits| :: IsDigit(digits[i])) && (rest == "" || !IsDigit(rest[0]))
    ensures DigitSpan(digits + rest) == |digits|
  {
    var n := DigitSpan(digits + rest);
    assert rest != "" ==> (digits + rest)[|digits|] == rest[0];
    assert forall i | 0 <= i < |digits| :: (digits + rest)[i] == digits[i];
  }

  lemma {:induction false} PowGrows(m: nat, n: nat)
    requires m <= n
    ensures Pow(2.0, m) <= Pow(2.0, n)
    decreases n - m
  {
    if m == n {
    } else {
      PowGrows(m, n - 1);
    }
  }

  lemma PowSmall()
    ensures Pow(2.0, 20) >= 1000000.0 && Pow(2.0, 64) >= 18000000000000000000.0
  {
    assert Pow(2.0, 10) == 1024.0;
    assert Pow(2.0, 20) == 1048576.0;
    assert Pow(2.0, 30) == 1073741824.0;
    assert Pow(2.0, 40) == 1099511627776.0;
    assert Pow(2.0, 50) == 1125899906842624.0;
    assert Pow(2.0, 60) == 1152921504606846976.0;
  }

  lemma PowDouble(n: nat)
    ensures Pow(2.0, n + 1) == 2.0 * Pow(2.0, n)
  {
  }

  lemma TimesMillion(x: real, y: real)
    requires x >= 1.0 && y >= 1000000.0
    ensures x / 1000000.0 * y >= 1.0
  {
    assert x / 1000000.0 * y >= x / 1000000.0 * 1000000.0;
  }

  /** Up to some 570000 years no time is out of range. */
  lemma Millionths(micros: nat)
    requires micros < 18000000000000000000
    ensures InRange(micros as real / 1000000.0)
  {
    hide Pow;
    var v := micros as real / 1000000.0;
    PowSmall();
    PowGrows(20, 1022);
    PowGrows(64, 970);
    PowGrows(971, 1024);
    PowDouble(970);
    if micros > 0 { TimesMillion(micros as real, Pow(2.0, 1022)); }
  }

  lemma DigitsShape(n: nat)
    ensures Digits(n) != "" && forall i | 0 <= i < |Digits(n)| :: IsDigit(Digits(n)[i])
  {
    forall i | 0 <= i < |Digits(n)| ensures IsDigit(Digits(n)[i]) { assert Digits(n)[i] in Digits(n); }
  }

  lemma TimeValue(micros: nat)
    ensures DigitRun(Digits(micros / 1000000) + Padded(micros % 1000000, 6), 0) == micros
    ensures Scaled(micros, Exponent("") - 6) == micros as real / 1000000.0
  {
    hide Digits, Padded, DigitRun;
    DigitsShape(micros / 1000000);
    assert Ten(6) == 1000000;
    PaddedRead(Digits(micros / 1000000), micros % 1000000, 6);
    DigitsRead(micros / 1000000);
    assert Pow(10.0, 3) == 1000.0;
    assert Pow(10.0, 6) == 1000000.0;
  }

  /** A printed time is read back to the microsecond. */
  lemma TimeRead(micros: nat)
    requires InRange(micros as real / 1000000.0)
    ensures Stod(TimeDigits(micros)) == Some(micros as real / 1000000.0)
  {
    hide Digits, Padded, DigitRun, InRange, Pow;
    var seconds, places := Digits(micros / 1000000), Padded(micros % 1000000, 6);
    var s := TimeDigits(micros);
    DigitsShape(micros / 1000000);
    SpanEnds(seconds, "." + places);
    SpanEnds(places, "");
    assert places + "" == places;
    assert s[|seconds|] == '.' && s[..|seconds|] == seconds && s[|seconds| + 1..] == places;
    assert s[0] == seconds[0];
    assert places[..6] == places && places[6..] == "";
    TimeValue(micros);
  }

  // ----- any decimal -----

  predicate AreDigits(s: string) {
    forall i | 0 <= i < |s| :: IsDigit(s[i])
  }

  /** One of the spellings of an exponent. */
  predicate Spells(rest: string, e: int) {
    || (e == 0 && rest == "")
    || rest == "e" + Decimal(e) || rest == "E" + Decimal(e)
    || (e >= 0 && (rest == "e+" + Decimal(e) || rest == "E+" + Decimal(e)))
  }

  lemma ExponentRead(rest: string, e: int)
    requires Spells(rest, e)
    ensures Exponent(rest) == e && (rest == "" || rest[0] == 'e' || rest[0] == 'E')
  {
    hide Digits, DigitRun;
    var digits := Digits(if e < 0 then -e else e);
    DigitsShape(if e < 0 then -e else e);
    DigitsRead(if e < 0 then -e else e);
    if rest != "" && (e < 0 || rest[1] == '+') {
      assert rest[2..] == digits;
    } else if rest != "" {
      assert rest[1] == digits[0] && rest[1..] == digits;
    }
  }

  /** The text of a decimal: its sign and fraction may be missing, and its exponent may be spelled in any way. */
  function DecimalText(negative: bool, whole: string, fraction: string, exponent: string): string {
    (if negative then "-" else "") + (whole + ((if fraction == "" then "" else "." + fraction) + exponent))
  }

  /** A mantissa of digits, then what is left of the text. */
  lemma MantissaRead(whole: string, fraction: string, rest: string)
    requires AreDigits(whole) && AreDigits(fraction) && whole != ""
    requires rest == "" || (!IsDigit(rest[0]) && rest[0] != '.')
    ensures var t := whole + ((if fraction == "" then "" else "." + fraction) + rest);
            && DigitSpan(t) == |whole| && t[..|whole|] == whole
            && (fraction == "" ==> t[|whole|..] == rest)
            && (fraction != "" ==>
                  && t[|whole|] == '.' && DigitSpan(t[|whole| + 1..]) == |fraction|
                  && t[|whole| + 1..][..|fraction|] == fraction && t[|whole| + 1..][|fraction|..] == rest)
  {
    var after := (if fraction == "" then "" else "." + fraction) + rest;
    SpanEnds(whole, after);
    if fraction != "" {
      SpanEnds(fraction, rest);
      assert (whole + after)[|whole| + 1..] == fraction + rest;
    } else {
      assert after == rest;
    }
  }

  lemma MagnitudeRead(whole: string, fraction: string, rest: string)
    requires AreDigits(whole) && AreDigits(fraction) && whole != ""
    requires rest == "" || (!IsDigit(rest[0]) && rest[0] != '.')
    ensures var v := Scaled(DigitRun(whole + fraction, 0), Exponent(rest) - |fraction|);
            Magnitude(whole + ((if fraction == "" then "" else "." + fraction) + rest))
            == if InRange(v) then Some(v) else None
  {
    hide DigitRun, InRange, Scaled, Exponent, DigitSpan;
    MantissaRead(whole, fraction, rest);
    var t := whole + ((if fraction == "" then "" else "." + fraction) + rest);
    if fraction == "" && rest != "" { assert t[|whole|] == t[|whole|..][0] == rest[0]; }
    assert whole + "" == whole;
  }

  lemma SignRead(t: string)
    requires t != "" && IsDigit(t[0])
    ensures Stod("" + t) == Magnitude(t)
    ensures Stod("-" + t) == if Magnitude(t).Some? then Some(-Magnitude(t).value) else None
  {
    hide Magnitude;
    assert ("-" + t)[1..] == t && "" + t == t;
  }

  lemma FirstDigit(whole: string, rest: string)
    requires AreDigits(whole) && whole != ""
    ensures whole + rest != "" && IsDigit((whole + rest)[0])
  {
    assert (whole + rest)[0] == whole[0];
  }

  /** stod on any such text: the digits scaled by the exponent less the places, if that is in range. */
  lemma DecimalTextRead(negative: bool, whole: string, fraction: string, exponent: string, e: int)
    requires AreDigits(whole) && AreDigits(fraction) && whole != "" && Spells(exponent, e)
    ensures var magnitude := Scaled(DigitRun(whole + fraction, 0), e - |fraction|);
            Stod(DecimalText(negative, whole, fraction, exponent))
            == if InRange(magnitude) then Some(if negative then -magnitude else magnitude) else None
  {
    hide DigitRun, InRange, Scaled, Spells, Exponent, Magnitude, Stod, AreDigits;
    var places := (if fraction == "" then "" else "." + fraction) + exponent;
    ExponentRead(exponent, e);
    MagnitudeRead(whole, fraction, exponent);
    FirstDigit(whole, places);
    SignRead(whole + places);
  }
}
