/** The percentage helpers on the values the test suites check. */
module PercentageExamples {
  import opened Decimal
  import opened Percentage

  lemma CalculatePercentageExamples()
    ensures CalculatePercentage(25.0, 100.0) == 25.0
    ensures CalculatePercentage(50.0, 100.0) == 50.0
    ensures -0.000005 < CalculatePercentage(1.0, 3.0) - 33.333333 < 0.000005
    ensures CalculatePercentage(10.0, 0.0) == 0.0
    ensures CalculatePercentage(0.0, 100.0) == 0.0
  {
  }

  /** A non-negative value whose magnitude rounds to `n` units shows the
      numeral of `n` followed by "%". */
  lemma Shows(value: real, d: nat, n: nat, numeral: string)
    requires value >= 0.0
    requires ScaledMagnitude(value, d) == n
    requires PointedDigits(n, d) == numeral
    ensures FormatPercentage(value, d) == numeral + "%"
  {
  }

  /** One decimal by default: 25.678 shows as "25.7%". */
  lemma FormatDefaultDecimals()
    ensures FormatPercentage(25.678) == "25.7%"
  {
    assert Shift(25.678, 1) == 256.78;
    assert NatToString(257) == "257";
    Shows(25.678, 1, 257, "25.7");
  }

  /** One decimal by default: 33.333333 shows as "33.3%". */
  lemma FormatDefaultDecimalsThird()
    ensures FormatPercentage(33.333333) == "33.3%"
  {
    assert Shift(33.333333, 1) == 333.33333;
    assert NatToString(333) == "333";
    Shows(33.333333, 1, 333, "33.3");
  }

  /** With no decimals 25.678 shows as "26%". */
  lemma FormatNoDecimals()
    ensures FormatPercentage(25.678, 0) == "26%"
  {
    assert NatToString(26) == "26";
    Shows(25.678, 0, 26, "26");
  }

  /** With two decimals 25.678 shows as "25.68%". */
  lemma FormatTwoDecimals()
    ensures FormatPercentage(25.678, 2) == "25.68%"
  {
    assert Shift(25.678, 2) == 2567.8;
    assert NatToString(2568) == "2568";
    Shows(25.678, 2, 2568, "25.68");
  }

  /** Whole numbers are padded to one decimal: 75 shows as "75.0%". */
  lemma FormatPadsWholeNumbers()
    ensures FormatPercentage(75.0) == "75.0%"
  {
    assert Shift(75.0, 1) == 750.0;
    assert NatToString(750) == "750";
    Shows(75.0, 1, 750, "75.0");
  }

  /** 25 shows as "25.0%". */
  lemma FormatPadsQuarter()
    ensures FormatPercentage(25.0) == "25.0%"
  {
    assert Shift(25.0, 1) == 250.0;
    assert NatToString(250) == "250";
    Shows(25.0, 1, 250, "25.0");
  }

  /** Halves round up: 31.25 shows as "31.3%". */
  lemma FormatRoundsHalfUp()
    ensures FormatPercentage(31.25) == "31.3%"
  {
    assert Shift(31.25, 1) == 312.5;
    assert NatToString(313) == "313";
    Shows(31.25, 1, 313, "31.3");
  }

  /** 18.75 shows as "18.8%". */
  lemma FormatRoundsHalfUpAgain()
    ensures FormatPercentage(18.75) == "18.8%"
  {
    assert Shift(18.75, 1) == 187.5;
    assert NatToString(188) == "188";
    Shows(18.75, 1, 188, "18.8");
  }

  /** Values already at one decimal are shown unchanged: 87.5 as "87.5%". */
  lemma FormatKeepsOneDecimal()
    ensures FormatPercentage(87.5) == "87.5%"
  {
    assert Shift(87.5, 1) == 875.0;
    assert NatToString(875) == "875";
    Shows(87.5, 1, 875, "87.5");
  }

  /** 12.5 shows as "12.5%". */
  lemma FormatKeepsOneDecimalAgain()
    ensures FormatPercentage(12.5) == "12.5%"
  {
    assert Shift(12.5, 1) == 125.0;
    assert NatToString(125) == "125";
    Shows(12.5, 1, 125, "12.5");
  }

  /** Values below one unit keep a leading zero: 0.04 shows as "0.0%". */
  lemma FormatBelowHalfUnit()
    ensures FormatPercentage(0.04, 1) == "0.0%"
  {
    assert Shift(0.04, 1) == 0.4;
    assert NatToString(0) == "0";
    assert Padded("0", 1) == "00";
    Shows(0.04, 1, 0, "0.0");
  }

  /** 0.05 shows as "0.1%". */
  lemma FormatHalfUnit()
    ensures FormatPercentage(0.05, 1) == "0.1%"
  {
    assert Shift(0.05, 1) == 0.5;
    assert NatToString(1) == "1";
    assert Padded("1", 1) == "01";
    Shows(0.05, 1, 1, "0.1");
  }

  /** Negatives keep their sign and round their magnitude half-up. */
  lemma FormatNegative()
    ensures FormatPercentage(-12.25, 1) == "-12.3%"
  {
    assert ScaledMagnitude(12.25, 1) == 123 by {
      assert Shift(12.25, 1) == 122.5;
    }
    assert PointedDigits(123, 1) == "12.3" by {
      assert NatToString(123) == "123";
    }
    ShowsNegative(-12.25, 1, 123, "12.3");
  }

  /** A negative value whose magnitude rounds to `n` units shows "-", the
      numeral of `n`, and "%". */
  lemma ShowsNegative(value: real, d: nat, n: nat, numeral: string)
    requires value < 0.0
    requires ScaledMagnitude(-value, d) == n
    requires PointedDigits(n, d) == numeral
    ensures FormatPercentage(value, d) == "-" + numeral + "%"
  {
  }
}
