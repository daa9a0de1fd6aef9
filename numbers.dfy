/** Number text as the route planner writes and reads it: integers in a
    template string, `Math.round`, `toFixed(1)`, and `parseFloat` applied to
    the decimal tokens the coordinate patterns capture. Values are exact
    reals; binary floating point is not modelled. */
module Numbers {
  import opened Types

  predicate IsDigit(c: char)
  {
    '0' <= c <= '9'
  }

  function DigitValue(c: char): nat
    requires IsDigit(c)
  {
    c as int - '0' as int
  }

  function DigitChar(d: nat): (c: char)
    requires d < 10
    ensures IsDigit(c) && DigitValue(c) == d
  {
    ('0' as int + d) as char
  }

  predicate AllDigits(s: string)
  {
    forall i :: 0 <= i < |s| ==> IsDigit(s[i])
  }

  /** The value of a run of decimal digits, most significant first. */
  function DigitsValue(s: string): nat
    requires AllDigits(s)
  {
    if |s| == 0 then 0 else DigitsValue(s[..|s| - 1]) * 10 + DigitValue(s[|s| - 1])
  }

  /** The value of the digits written after a decimal point. */
  function FractionValue(s: string): (v: real)
    requires AllDigits(s)
    ensures 0.0 <= v < 1.0
  {
    if |s| == 0 then 0.0 else (DigitValue(s[0]) as real + FractionValue(s[1..])) / 10.0
  }

  /** The number of digits of s from position i on. */
  function DigitRun(s: string, i: nat): (k: nat)
    requires i <= |s|
    ensures i + k <= |s| && AllDigits(s[i..i + k])
    ensures i + k == |s| || !IsDigit(s[i + k])
    decreases |s| - i
  {
    if i < |s| && IsDigit(s[i]) then
      var k := DigitRun(s, i + 1);
      assert s[i..i + 1 + k] == [s[i]] + s[i + 1..i + 1 + k];
      1 + k
    else 0
  }

  lemma DigitRunAll(s: string, i: nat)
    requires i <= |s| && AllDigits(s[i..])
    ensures DigitRun(s, i) == |s| - i
    decreases |s| - i
  {
    if i < |s| {
      assert s[i] == s[i..][0];
      assert s[i + 1..] == s[i..][1..];
      DigitRunAll(s, i + 1);
    }
  }

  /** Decimal text of a natural number, without leading zeros. */
  function NatToString(n: nat): (s: string)
    ensures |s| > 0 && AllDigits(s) && DigitsValue(s) == n
    ensures s[0] == '0' ==> n == 0
    decreases n
  {
    if n < 10 then [DigitChar(n)]
    else
      var p := NatToString(n / 10);
      assert (p + [DigitChar(n % 10)])[..|p|] == p;
      p + [DigitChar(n % 10)]
  }

  /** `${i}` for a whole number i. */
  function IntToString(i: int): string
  {
    if i < 0 then "-" + NatToString(-i) else NatToString(i)
  }

  /** Reads text of the form -?digits as a whole number. */
  function IntValue(t: string): Option<int>
  {
    if |t| > 0 && t[0] == '-' then
      if |t| > 1 && AllDigits(t[1..]) then Some(-(DigitsValue(t[1..]) as int)) else None
    else if |t| > 0 && AllDigits(t) then Some(DigitsValue(t))
    else None
  }

  lemma {:induction false} IntToStringValue(i: int)
    ensures IntValue(IntToString(i)) == Some(i)
    ensures ' ' !in IntToString(i)
  {
    var s := IntToString(i);
    if i < 0 {
      assert s[1..] == NatToString(-i);
    }
  }

  /** parseFloat of digits[.digits] (the point and the fraction optional):
      the decimal value written; None (NaN) for any other text. */
  function UnsignedValue(u: string): Option<real>
  {
    var k := DigitRun(u, 0);
    if k == 0 then None
    else if k == |u| then
      assert u[0..k] == u;
      Some(DigitsValue(u) as real)
    else if u[k] == '.' && AllDigits(u[k + 1..]) then
      assert u[0..k] == u[..k];
      Some(DigitsValue(u[..k]) as real + FractionValue(u[k + 1..]))
    else None
  }

  /** parseFloat of a captured coordinate token -?digits[.digits]. */
  function TokenValue(t: string): Option<real>
  {
    if |t| > 0 && t[0] == '-' then
      match UnsignedValue(t[1..])
      case None => None
      case Some(v) => Some(-v)
    else UnsignedValue(t)
  }

  /** Math.round: the nearest integer, a half rounded up. */
  function Round(x: real): (r: int)
    ensures x - 0.5 < r as real <= x + 0.5
  {
    (x + 0.5).Floor
  }

  /** x.toFixed(1): the sign when x is negative, then the magnitude rounded to
      the nearest tenth (a half rounded away from zero) with one decimal. */
  function Fixed1(x: real): string
  {
    if x < 0.0 then "-" + Fixed1Magnitude(-x) else Fixed1Magnitude(x)
  }

  function Fixed1Magnitude(x: real): string
    requires x >= 0.0
  {
    var n := Round(x * 10.0);
    NatToString(n / 10) + "." + [DigitChar(n % 10)]
  }

  /** digits.d reads back as the digits' value plus d tenths. */
  lemma {:induction false} OneDecimalValue(p: string, d: char)
    requires |p| > 0 && AllDigits(p) && IsDigit(d)
    ensures UnsignedValue(p + ['.', d]) == Some(DigitsValue(p) as real + DigitValue(d) as real / 10.0)
  {
    var u := p + ['.', d];
    assert u[..|p|] == p && u[0..|p|] == p;
    assert u[|p| + 1..] == [d];
    DigitRunLength(u, |p|);
    assert u[|p|] == '.' && AllDigits(u[|p| + 1..]);
    assert FractionValue([d]) == DigitValue(d) as real / 10.0 by {
      assert [d][1..] == [];
      assert FractionValue([d][1..]) == 0.0;
    }
  }

  lemma {:induction false} Fixed1MagnitudeValue(x: real)
    requires x >= 0.0
    ensures UnsignedValue(Fixed1Magnitude(x)).Some?
    ensures var v := UnsignedValue(Fixed1Magnitude(x)).value;
      x - 0.05 < v <= x + 0.05 && (v * 10.0).Floor as real == v * 10.0
    ensures ' ' !in Fixed1Magnitude(x) && IsDigit(Fixed1Magnitude(x)[0])
  {
    var n := Round(x * 10.0);
    var p := NatToString(n / 10);
    var d := DigitChar(n % 10);
    assert Fixed1Magnitude(x) == p + ['.', d];
    OneDecimalValue(p, d);
    var v := DigitsValue(p) as real + DigitValue(d) as real / 10.0;
    assert v * 10.0 == n as real;
  }

  /** The digits at the start of s number exactly k. */
  lemma DigitRunLength(s: string, k: nat)
    requires k <= |s| && AllDigits(s[0..k]) && (k == |s| || !IsDigit(s[k]))
    ensures DigitRun(s, 0) == k
  {
    var r := DigitRun(s, 0);
    forall j | 0 <= j < k
      ensures IsDigit(s[j])
    {
      assert s[0..k][j] == s[j];
    }
    forall j | 0 <= j < r
      ensures IsDigit(s[j])
    {
      assert s[0..r][j] == s[j];
    }
  }

  /** A minus sign in front of a number text written to tenths negates its
      value and keeps it a whole number of tenths. */
  lemma {:induction false} NegatedTenths(m: string, y: real)
    requires UnsignedValue(m).Some? && ' ' !in m
    requires var u := UnsignedValue(m).value;
      y - 0.05 < u <= y + 0.05 && (u * 10.0).Floor as real == u * 10.0
    ensures TokenValue("-" + m).Some? && ' ' !in "-" + m
    ensures var v := TokenValue("-" + m).value;
      -y - 0.05 <= v <= -y + 0.05 && (v * 10.0).Floor as real == v * 10.0
  {
    var t := "-" + m;
    assert t[1..] == m && t[0] == '-';
    var u := UnsignedValue(m).value;
    var w := u * 10.0;
    assert (-w).Floor == -(w.Floor);
    assert (-u) * 10.0 == -w;
  }

  /** A number text without a sign reads the same through parseFloat. */
  lemma UnsignedTenths(m: string, y: real)
    requires UnsignedValue(m).Some? && ' ' !in m && IsDigit(m[0])
    requires var u := UnsignedValue(m).value;
      y - 0.05 < u <= y + 0.05 && (u * 10.0).Floor as real == u * 10.0
    ensures TokenValue(m).Some?
    ensures var v := TokenValue(m).value;
      y - 0.05 <= v <= y + 0.05 && (v * 10.0).Floor as real == v * 10.0
  {
  }

  predicate ReadsAsTenthsNear(t: string, x: real)
  {
    && TokenValue(t).Some? && ' ' !in t
    && var v := TokenValue(t).value;
      x - 0.05 <= v <= x + 0.05 && (v * 10.0).Floor as real == v * 10.0
  }

  lemma Fixed1Negative(x: real)
    requires x < 0.0
    ensures ReadsAsTenthsNear(Fixed1(x), x)
  {
    Fixed1MagnitudeValue(-x);
    NegatedTenths(Fixed1Magnitude(-x), -x);
  }

  lemma Fixed1NonNegative(x: real)
    requires x >= 0.0
    ensures ReadsAsTenthsNear(Fixed1(x), x)
  {
    Fixed1MagnitudeValue(x);
    UnsignedTenths(Fixed1Magnitude(x), x);
  }

  /** The text toFixed(1) writes reads back, through parseFloat, as a whole
      number of tenths within half a tenth of x. */
  lemma Fixed1Value(x: real)
    ensures TokenValue(Fixed1(x)).Some?
    ensures var v := TokenValue(Fixed1(x)).value;
      x - 0.05 <= v <= x + 0.05 && (v * 10.0).Floor as real == v * 10.0
    ensures ' ' !in Fixed1(x)
  {
    if x < 0.0 {
      Fixed1Negative(x);
    } else {
      Fixed1NonNegative(x);
    }
  }

  /** The index of the first space of t, or |t| when there is none. */
  function SpaceIndex(t: string): (i: nat)
    ensures i <= |t| && ' ' !in t[..i]
    ensures i < |t| ==> t[i] == ' '
  {
    if |t| == 0 || t[0] == ' ' then 0
    else
      var i := SpaceIndex(t[1..]);
      assert t[..1 + i] == [t[0]] + t[1..][..i];
      1 + i
  }

  lemma SpaceIndexAppend(a: string, w: string)
    requires ' ' !in a && |w| > 0 && w[0] == ' '
    ensures SpaceIndex(a + w) == |a|
  {
    var t := a + w;
    assert t[|a|] == ' ';
    assert t[..|a|] == a;
  }
}
