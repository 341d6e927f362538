/**
 * The text a counter shows on a frame of animateNumber (js/app.js): the
 * display rule is chosen by the counter's end value, applied to the frame's
 * integer value, and framed by the prefix and suffix.
 */
module NumberFormat {

  predicate IsDigit(c: char) {
    '0' <= c <= '9'
  }

  predicate AllDigits(s: string) {
    forall i :: 0 <= i < |s| ==> IsDigit(s[i])
  }

  function DigitChar(d: int): (c: char)
    requires 0 <= d < 10
    ensures IsDigit(c) && (c == '0' <==> d == 0)
  {
    ('0' as int + d) as char
  }

  function DigitValue(c: char): (d: int)
    requires IsDigit(c)
    ensures 0 <= d < 10 && DigitChar(d) == c
  {
    c as int - '0' as int
  }

  /** Number.prototype.toString of a non-negative integer: decimal digits, no leading zero. */
  function Digits(n: nat): (s: string)
    ensures 1 <= |s| && AllDigits(s)
    ensures s[0] == '0' <==> n == 0
    decreases n
  {
    if n < 10 then [DigitChar(n)] else Digits(n / 10) + [DigitChar(n % 10)]
  }

  /** Reading a digit string back as a number. */
  function Value(s: string): nat
    requires AllDigits(s)
    decreases |s|
  {
    if s == [] then 0 else Value(s[..|s| - 1]) * 10 + DigitValue(s[|s| - 1])
  }

  /** The digits read back give the number. */
  lemma {:induction false} ValueOfDigits(n: nat)
    ensures Value(Digits(n)) == n
    decreases n
  {
    if n >= 10 {
      var s := Digits(n);
      assert s[..|s| - 1] == Digits(n / 10);
      ValueOfDigits(n / 10);
    }
  }

  /** Three digits, zero-padded: one group of a grouped number. */
  function Pad3(b: int): (s: string)
    requires 0 <= b < 1000
    ensures |s| == 3 && AllDigits(s)
  {
    [DigitChar(b / 100), DigitChar(b / 10 % 10), DigitChar(b % 10)]
  }

  /**
   * toLocaleString of a non-negative integer, under the assumption of a locale
   * that separates groups of three digits with a comma and nothing else.
   */
  function Grouped(n: nat): string
    decreases n
  {
    if n < 1000 then Digits(n) else Grouped(n / 1000) + "," + Pad3(n % 1000)
  }

  /** The string with every comma taken out. */
  function Ungroup(s: string): (r: string)
    ensures ',' !in r
    decreases |s|
  {
    if s == [] then [] else (if s[0] == ',' then [] else [s[0]]) + Ungroup(s[1..])
  }

  lemma {:induction false} UngroupAppend(a: string, b: string)
    ensures Ungroup(a + b) == Ungroup(a) + Ungroup(b)
    decreases |a|
  {
    if a == [] {
      assert a + b == b;
    } else {
      assert (a + b)[0] == a[0] && (a + b)[1..] == a[1..] + b;
      UngroupAppend(a[1..], b);
    }
  }

  lemma {:induction false} UngroupDigits(s: string)
    requires AllDigits(s)
    ensures Ungroup(s) == s
    decreases |s|
  {
    if s != [] {
      UngroupDigits(s[1..]);
    }
  }

  /** Appending three digits to a number's digits multiplies it by 1000. */
  lemma DigitsSplit(a: nat, b: nat)
    requires 1 <= a && b < 1000
    ensures Digits(a * 1000 + b) == Digits(a) + Pad3(b)
  {
    var n := a * 1000 + b;
    assert n / 10 == a * 100 + b / 10 && n % 10 == b % 10;
    var m := a * 100 + b / 10;
    assert m / 10 == a * 10 + b / 100 && m % 10 == b / 10 % 10;
    var k := a * 10 + b / 100;
    assert k / 10 == a && k % 10 == b / 100;
    assert Digits(k) == Digits(a) + [DigitChar(b / 100)];
    assert Digits(m) == Digits(k) + [DigitChar(b / 10 % 10)];
    assert Digits(n) == Digits(m) + [DigitChar(b % 10)];
  }

  /** Taking the commas out of the grouped form gives the plain digits. */
  lemma {:induction false} UngroupGrouped(n: nat)
    ensures Ungroup(Grouped(n)) == Digits(n)
    decreases n
  {
    if n < 1000 {
      UngroupDigits(Digits(n));
    } else {
      var hi, lo := n / 1000, n % 1000;
      UngroupGrouped(hi);
      UngroupAppend(Grouped(hi) + ",", Pad3(lo));
      UngroupAppend(Grouped(hi), ",");
      UngroupDigits(Pad3(lo));
      DigitsSplit(hi, lo);
    }
  }

  /** Below 1000 the decimal digits are one to three characters long. */
  lemma {:induction false} DigitsBelowThousand(n: nat)
    requires n < 1000
    ensures n < 10 ==> |Digits(n)| == 1
    ensures n < 100 ==> |Digits(n)| <= 2
    ensures |Digits(n)| <= 3
    decreases n
  {
    if n >= 10 {
      DigitsBelowThousand(n / 10);
    }
  }

  /**
   * The shape of a grouped number: a leading group of one to three digits
   * (no leading zero unless it is "0" alone), then any number of groups of a
   * comma and exactly three digits.
   */
  predicate WellGrouped(s: string)
    decreases |s|
  {
    (1 <= |s| <= 3 && AllDigits(s) && (s[0] == '0' ==> |s| == 1)) ||
    (|s| >= 5 && s[|s| - 4] == ',' && AllDigits(s[|s| - 3..]) && WellGrouped(s[..|s| - 4]))
  }

  /** Grouped(n) has that shape, and from 1000 up it ends in a comma and three digits. */
  lemma {:induction false} GroupedShape(n: nat)
    ensures WellGrouped(Grouped(n))
    ensures 1000 <= n ==> var g := Grouped(n);
      |g| >= 5 && g[|g| - 4] == ',' && AllDigits(g[|g| - 3..])
    decreases n
  {
    var g := Grouped(n);
    if n < 1000 {
      DigitsBelowThousand(n);
    } else {
      GroupedShape(n / 1000);
      var h := Grouped(n / 1000);
      assert g == h + "," + Pad3(n % 1000);
      assert g[..|g| - 4] == h;
      assert g[|g| - 3..] == Pad3(n % 1000);
    }
  }

  /** The grouped text, read back without its commas, is the number. */
  lemma GroupedRoundTrip(n: nat)
    ensures AllDigits(Ungroup(Grouped(n))) && Value(Ungroup(Grouped(n))) == n
  {
    UngroupGrouped(n);
    ValueOfDigits(n);
  }

  /**
   * (x / 10000).toFixed(0) for a non-negative integer x: the integer nearest to
   * x / 10000, the larger one on a tie (section 21.1.3.3 of ECMA-262).
   */
  function RoundTenThousands(x: nat): (r: nat)
    ensures x - 5000 < 10000 * r <= x + 5000
  {
    (x + 5000) / 10000
  }

  /** Number.prototype.toString of an integer. */
  function IntToString(x: int): string
  {
    if x < 0 then "-" + Digits(-x) else Digits(x)
  }

  /**
   * The display value of a frame whose integer value is `current` in a count
   * towards `end`.  Counting runs from 0 towards `end`, so `current` is
   * non-negative whenever `end` reaches the grouping range.
   */
  function DisplayValue(current: int, end: int): string
    requires end >= 1000 ==> current >= 0
  {
    if end >= 1000000 then Digits(RoundTenThousands(current))
    else if end >= 1000 then Grouped(current)
    else IntToString(current)
  }

  /** The element's text on a frame: prefix, display value, suffix. */
  function FrameText(current: int, end: int, prefix: string, suffix: string): string
    requires end >= 1000 ==> current >= 0
  {
    prefix + DisplayValue(current, end) + suffix
  }

  /** The text left on the element once the count is complete (progress 1, current == end). */
  function FinalText(end: int, prefix: string, suffix: string): string
  {
    FrameText(end, end, prefix, suffix)
  }

  /**
   * What the final text says about the number: in the millions range it is the
   * plain digits of the count of ten-thousands rounded to nearest (ties up);
   * in the thousands range it is comma-grouped in threes from the right and,
   * without its commas, the digits of `end`; below that it is `end` in decimal.
   */
  lemma FinalTextMeaning(end: int, prefix: string, suffix: string)
    ensures var d := DisplayValue(end, end);
      FinalText(end, prefix, suffix) == prefix + d + suffix &&
      (end >= 1000000 ==> d == Digits(RoundTenThousands(end)) && end - 5000 < 10000 * Value(d) <= end + 5000) &&
      (1000 <= end < 1000000 ==> WellGrouped(d) && ',' in d && Ungroup(d) == Digits(end) && Value(Ungroup(d)) == end) &&
      (0 <= end < 1000 ==> d == Digits(end) && Value(d) == end)
  {
    if end >= 1000000 {
      ValueOfDigits(RoundTenThousands(end));
    } else if end >= 1000 {
      GroupedShape(end);
      GroupedRoundTrip(end);
      UngroupGrouped(end);
      var d := Grouped(end);
      assert d[|d| - 4] == ',';
    } else if end >= 0 {
      ValueOfDigits(end);
    }
  }

  /** The three magnitudes, and a tie that rounds up where a floor would not. */
  lemma FinalTextExamples()
    ensures FinalText(2500000, "", "") == "250"
    ensures FinalText(2505000, "", "") == "251"
    ensures FinalText(2500, "", "+") == "2,500+"
    ensures FinalText(850, "$", "") == "$850"
  {
    assert Digits(250) == "250" by {
      assert Digits(25) == "25" by { assert Digits(2) == "2"; }
    }
    assert Digits(251) == "251" by {
      assert Digits(25) == "25" by { assert Digits(2) == "2"; }
    }
    assert Pad3(500) == "500";
    assert Grouped(2500) == "2,500" by { assert Grouped(2) == "2"; }
    assert Digits(850) == "850" by {
      assert Digits(85) == "85" by { assert Digits(8) == "8"; }
    }
  }
}
