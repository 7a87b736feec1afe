/** The ratio primitive every summary uses, and the fixed-point rendering of
    a percentage for display. Rendering follows the Number.prototype.toFixed
    algorithm (section 21.1.3.3 of ECMA-262) on the exact value: a leading "-"
    for negatives, the nearest multiple of 10^-d with ties going up, zero
    padding, then a trailing "%". */
module Percentage {
  import opened Decimal
  import opened Outcomes

  /** `value` as a percentage of `total`; a zero total yields 0, never a fault. */
  function CalculatePercentage(value: real, total: real): (p: real)
    ensures total == 0.0 ==> p == 0.0
    ensures total != 0.0 ==> p * total == value * 100.0
  {
    if total == 0.0 then 0.0 else value / total * 100.0
  }

  /** The integer nearest to `x`; a tie (x = n + 0.5) goes to the larger one. */
  function RoundHalfUp(x: real): (n: int)
    ensures n as real - 0.5 <= x < n as real + 0.5
  {
    (x + 0.5).Floor
  }

  /** `x` scaled by 10^d, one decimal place at a time. */
  function Shift(x: real, d: nat): (y: real)
    ensures x >= 0.0 ==> y >= 0.0
  {
    if d == 0 then x else 10.0 * Shift(x, d - 1)
  }

  lemma {:induction false} ShiftIsProduct(x: real, d: nat)
    ensures Shift(x, d) == x * Pow10(d) as real
  {
    if d > 0 {
      ShiftIsProduct(x, d - 1);
      assert Pow10(d) as real == 10.0 * Pow10(d - 1) as real;
    }
  }

  /** The magnitude shown when `x >= 0` is rendered with `d` fraction
      digits, as an integer count of units of 10^-d: `x * 10^d` rounded
      half-up. */
  function ScaledMagnitude(x: real, d: nat): (n: nat)
    requires x >= 0.0
  {
    RoundHalfUp(Shift(x, d))
  }

  /** The numeral for `n` units of 10^-d: the digits of `n`, zero padded so
      that at least one digit precedes the point, with a point before the
      last `d` digits. */
  function PointedDigits(n: nat, d: nat): string
  {
    var m := NatToString(n);
    if d == 0 then m
    else
      var p := Padded(m, d);
      p[..|p| - d] + "." + p[|p| - d..]
  }

  /** `m` with zeros prefixed until more than `d` digits remain. */
  function Padded(m: string, d: nat): (p: string)
    requires AllDigits(m)
    ensures AllDigits(p) && |p| >= d + 1
    ensures DigitsValue(p) == DigitsValue(m)
    decreases d + 1 - |m|
  {
    if |m| > d then m
    else
      LeadingZerosValue(1, m);
      assert Zeros(1) == "0";
      Padded("0" + m, d)
  }

  /** Number.prototype.toFixed on the exact value `x`. */
  function ToFixed(x: real, d: nat): string
  {
    if x < 0.0 then "-" + PointedDigits(ScaledMagnitude(-x, d), d)
    else PointedDigits(ScaledMagnitude(x, d), d)
  }

  /** The display form of a percentage: `d` decimals (one unless the caller
      says otherwise) followed by "%". The rendered digits, read back, are
      the value scaled by 10^d and rounded half-up on its magnitude. */
  function FormatPercentage(value: real, d: nat := 1): (s: string)
    ensures |s| >= 2 && s[|s| - 1] == '%'
    ensures ReadFixed(s[..|s| - 1]) == Some(Scaled(value, d))
  {
    var t := ToFixed(value, d);
    ToFixedReadsBack(value, d);
    var s := t + "%";
    assert s[..|s| - 1] == t;
    s
  }

  /** The signed, rounded, scaled integer that `ToFixed(value, d)` shows, with
      its number of fraction digits. */
  function Scaled(value: real, d: nat): (int, nat)
  {
    if value < 0.0 then (-(ScaledMagnitude(-value, d) as int), d)
    else (ScaledMagnitude(value, d), d)
  }

  /** Reads a fixed-point numeral `[-]digits[.digits]` as the integer its
      digits spell (ignoring the point) and its number of fraction digits; the
      numeral denotes that integer divided by 10^fraction digits. */
  function ReadFixed(s: string): Option<(int, nat)>
  {
    if |s| > 0 && s[0] == '-' then
      match ReadUnsigned(s[1..])
      case Some((n, k)) => Some((-n, k))
      case None => None
    else ReadUnsigned(s)
  }

  function ReadUnsigned(s: string): Option<(int, nat)>
  {
    var i := FindChar(s, '.');
    var whole := s[..i];
    var frac := if i < |s| then s[i + 1..] else "";
    if |whole| == 0 || !AllDigits(whole) || !AllDigits(frac) || (i < |s| && |frac| == 0) then None
    else Some((DigitsValue(whole + frac) as int, |frac|))
  }

  lemma ReadWhole(m: string)
    requires |m| >= 1 && AllDigits(m)
    ensures ReadUnsigned(m) == Some((DigitsValue(m) as int, 0))
  {
    assert '.' !in m by {
      assert forall i :: 0 <= i < |m| ==> IsDigit(m[i]);
    }
    assert FindChar(m, '.') == |m|;
    assert m[..|m|] + "" == m;
  }

  lemma ReadPointed(a: string, b: string)
    requires |a| >= 1 && AllDigits(a)
    requires |b| >= 1 && AllDigits(b)
    ensures AllDigits(a + b)
    ensures ReadUnsigned(a + "." + b) == Some((DigitsValue(a + b) as int, |b|))
  {
    var s := a + "." + b;
    assert '.' !in a by {
      assert forall i :: 0 <= i < |a| ==> IsDigit(a[i]);
    }
    FindCharAfter(a, '.', b);
    assert s[..|a|] == a;
    assert s[|a| + 1..] == b;
  }

  lemma PointedDigitsReadBack(n: nat, d: nat)
    ensures |PointedDigits(n, d)| >= 1
    ensures PointedDigits(n, d)[0] != '-'
    ensures ReadUnsigned(PointedDigits(n, d)) == Some((n as int, d))
  {
    var m := NatToString(n);
    assert DigitsValue(m) == n by { NatToStringRoundTrip(n); }
    if d == 0 {
      assert ReadUnsigned(m) == Some((n as int, 0)) by { ReadWhole(m); }
    } else {
      var p := Padded(m, d);
      var f := p[..|p| - d] + "." + p[|p| - d..];
      assert f[0] != '-' && ReadUnsigned(f) == Some((n as int, d)) by { SplitReadsBack(p, d); }
      assert PointedDigits(n, d) == f;
    }
  }

  lemma SplitReadsBack(p: string, d: nat)
    requires AllDigits(p) && |p| >= d + 1 && d >= 1
    ensures var f := p[..|p| - d] + "." + p[|p| - d..];
      f[0] != '-' && ReadUnsigned(f) == Some((DigitsValue(p) as int, d))
  {
    SplitDigits(p, |p| - d);
    ReadSplit(p, p[..|p| - d], p[|p| - d..]);
  }

  /** Both parts of a digit string cut anywhere are digit strings. */
  lemma SplitDigits(p: string, k: nat)
    requires AllDigits(p) && k <= |p|
    ensures AllDigits(p[..k]) && AllDigits(p[k..]) && p[..k] + p[k..] == p
  {
    var a, b := p[..k], p[k..];
    forall i | 0 <= i < |a| ensures IsDigit(a[i]) {
      assert a[i] == p[i];
    }
    forall i | 0 <= i < |b| ensures IsDigit(b[i]) {
      assert b[i] == p[k + i];
    }
  }

  /** A digit string cut in two non-empty parts, with a point between them. */
  lemma ReadSplit(p: string, a: string, b: string)
    requires |a| >= 1 && AllDigits(a) && |b| >= 1 && AllDigits(b) && a + b == p
    ensures (a + "." + b)[0] != '-' && ReadUnsigned(a + "." + b) == Some((DigitsValue(p) as int, |b|))
  {
    ReadPointed(a, b);
    assert (a + "." + b)[0] == a[0];
  }

  /** `ToFixed` renders a numeral that reads back as the scaled, rounded value. */
  lemma ToFixedReadsBack(x: real, d: nat)
    ensures ReadFixed(ToFixed(x, d)) == Some(Scaled(x, d))
  {
    var n := if x < 0.0 then ScaledMagnitude(-x, d) else ScaledMagnitude(x, d);
    var f := PointedDigits(n, d);
    assert Scaled(x, d) == if x < 0.0 then (-(n as int), d) else (n as int, d);
    assert ToFixed(x, d) == if x < 0.0 then "-" + f else f;
    PointedReadsBack(n, d);
  }

  lemma PointedReadsBack(n: nat, d: nat)
    ensures ReadFixed(PointedDigits(n, d)) == Some((n as int, d))
    ensures ReadFixed("-" + PointedDigits(n, d)) == Some((-(n as int), d))
  {
    PointedDigitsReadBack(n, d);
    SignedReadsBack(PointedDigits(n, d), n, d);
  }

  /** An unsigned numeral reads back as itself, and with a "-" prefixed as its negation. */
  lemma SignedReadsBack(f: string, n: nat, d: nat)
    requires |f| >= 1 && f[0] != '-'
    requires ReadUnsigned(f) == Some((n as int, d))
    ensures ReadFixed(f) == Some((n as int, d))
    ensures ReadFixed("-" + f) == Some((-(n as int), d))
  {
    assert ("-" + f)[1..] == f;
  }

  /** The displayed numeral is within half a unit of the last shown place of
      the exact value, with ties resolved upward in magnitude. */
  lemma DisplayedValueIsNearest(value: real, d: nat)
    requires value >= 0.0
    ensures var n := Scaled(value, d).0 as real / Pow10(d) as real;
            n - 0.5 / Pow10(d) as real <= value < n + 0.5 / Pow10(d) as real
  {
    var q := Pow10(d) as real;
    var n := ScaledMagnitude(value, d) as real;
    assert q > 0.0;
    assert n - 0.5 <= value * q < n + 0.5 by {
      ShiftIsProduct(value, d);
    }
    WithinHalfUnit(value, n, q);
  }

  /** `n - 1/2 <= value * q < n + 1/2`, divided through by `q`. */
  lemma WithinHalfUnit(value: real, n: real, q: real)
    requires q > 0.0
    requires n - 0.5 <= value * q < n + 0.5
    ensures n / q - 0.5 / q <= value < n / q + 0.5 / q
  {
    assert value * q / q == value;
    assert (n - 0.5) / q <= value by { DivideBoth(n - 0.5, value * q, q); }
    assert value < (n + 0.5) / q by {
      DivideBoth(value * q, n + 0.5, q);
      assert value * q / q != (n + 0.5) / q;
    }
    assert n / q - 0.5 / q == (n - 0.5) / q;
    assert n / q + 0.5 / q == (n + 0.5) / q;
  }

  lemma DivideBoth(a: real, b: real, q: real)
    requires q > 0.0 && a <= b
    ensures a / q <= b / q
  {
  }

  /** Shares of one total add up like their parts. */
  lemma PercentageAdditive(a: real, b: real, total: real)
    ensures CalculatePercentage(a, total) + CalculatePercentage(b, total)
         == CalculatePercentage(a + b, total)
  {
    if total != 0.0 {
      assert (a / total * 100.0) + (b / total * 100.0) == (a + b) / total * 100.0;
    }
  }

  /** A part of a non-negative whole is between 0% and 100% of it. */
  lemma PercentageBounded(value: real, total: real)
    requires 0.0 <= value <= total
    ensures 0.0 <= CalculatePercentage(value, total) <= 100.0
  {
    if total != 0.0 {
      assert value / total <= 1.0;
    }
  }

  /** The whole is 100% of itself. */
  lemma WholeIsHundredPercent(total: real)
    requires total != 0.0
    ensures CalculatePercentage(total, total) == 100.0
  {
  }

  /** Nothing is 0% of any total. */
  lemma NoPartIsZeroPercent(total: real)
    ensures CalculatePercentage(0.0, total) == 0.0
  {
  }
}
