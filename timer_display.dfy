/** The countdown text written by `UpdateTimerDisplay`:
    `string.Format("{0}:{1:00}", (int)t.TotalMinutes, t.Seconds)` for a TimeSpan of
    `t` whole seconds. Both components follow C#: the cast truncates toward zero and
    `TimeSpan.Seconds` carries the sign of the span; "{0}" prints an int in decimal
    with a leading '-', and the custom format "00" pads the magnitude to two digits. */
module TimerDisplay {
  import opened Wrappers

  predicate IsDigit(ch: char) { '0' <= ch <= '9' }

  predicate AllDigits(s: string) { forall i :: 0 <= i < |s| ==> IsDigit(s[i]) }

  function Digit(d: int): (ch: char)
    requires 0 <= d < 10
    ensures IsDigit(ch)
  {
    ('0' as int + d) as char
  }

  function DigitValue(ch: char): (d: int)
    requires IsDigit(ch)
    ensures 0 <= d < 10
  {
    ch as int - '0' as int
  }

  /** The decimal numeral of `n`, without leading zeros. */
  function Decimal(n: nat): (s: string)
    ensures |s| >= 1 && AllDigits(s)
    ensures |s| > 1 ==> s[0] != '0'
  {
    if n < 10 then [Digit(n)] else Decimal(n / 10) + [Digit(n % 10)]
  }

  /** Integer division truncating toward zero, as C# does it. */
  function TruncDiv(a: int, b: int): int
    requires b > 0
  {
    if a >= 0 then a / b else -((-a) / b)
  }

  /** The C# remainder: it has the sign of the dividend. */
  function TruncRem(a: int, b: int): int
    requires b > 0
  {
    a - b * TruncDiv(a, b)
  }

  /** An int formatted with "{0}". */
  function IntText(i: int): string {
    if i < 0 then "-" + Decimal(-i) else Decimal(i)
  }

  /** A natural number padded to at least two digits. */
  function ZeroPad2(n: nat): string {
    if n < 10 then "0" + Decimal(n) else Decimal(n)
  }

  /** An int formatted with "{0:00}". */
  function TwoDigitText(i: int): string {
    if i < 0 then "-" + ZeroPad2(-i) else ZeroPad2(i)
  }

  /** The text `UpdateTimerDisplay` shows for `t` remaining seconds. */
  function Format(t: int): string {
    IntText(TruncDiv(t, 60)) + ":" + TwoDigitText(TruncRem(t, 60))
  }

  /** The value of a decimal numeral, read left to right. */
  function ParseDecimal(s: string): (n: nat)
    requires |s| >= 1 && AllDigits(s)
  {
    if |s| == 1 then DigitValue(s[0])
    else 10 * ParseDecimal(s[..|s| - 1]) + DigitValue(s[|s| - 1])
  }

  /** Reads a non-negative "M:SS" display back into seconds: whole minutes, a colon,
      then exactly two digits of seconds below 60. */
  function ParseDisplay(s: string): Option<nat> {
    if |s| < 4 || s[|s| - 3] != ':' then None
    else
      var minutes, seconds := s[..|s| - 3], s[|s| - 2..];
      if AllDigits(minutes) && AllDigits(seconds) && ParseDecimal(seconds) < 60
      then Some(60 * ParseDecimal(minutes) + ParseDecimal(seconds))
      else None
  }

  lemma {:induction false} ParseDecimalOfDecimal(n: nat)
    ensures ParseDecimal(Decimal(n)) == n
  {
    if n >= 10 {
      var s := Decimal(n);
      assert s[..|s| - 1] == Decimal(n / 10);
      ParseDecimalOfDecimal(n / 10);
    }
  }

  /** The padded seconds of a non-negative time are two digits that read back as
      those seconds. */
  lemma ZeroPad2RoundTrip(n: nat)
    requires n < 60
    ensures |ZeroPad2(n)| == 2 && AllDigits(ZeroPad2(n))
    ensures ParseDecimal(ZeroPad2(n)) == n
  {
    var s := ZeroPad2(n);
    if n < 10 {
      assert s == ['0', Digit(n)];
      assert s[..1] == "0";
    } else {
      assert Decimal(n / 10) == [Digit(n / 10)];
      assert s == [Digit(n / 10), Digit(n % 10)];
      assert s[..1] == [Digit(n / 10)];
    }
  }

  /** For non-negative times the display is the minutes numeral, a colon and two
      second digits. */
  lemma FormatOfNonNegative(t: int)
    requires t >= 0
    ensures Format(t) == Decimal(t / 60) + ":" + ZeroPad2(t % 60)
    ensures |ZeroPad2(t % 60)| == 2 && AllDigits(ZeroPad2(t % 60))
  {
    ZeroPad2RoundTrip(t % 60);
  }

  /** A text whose last three characters are a colon and two second digits, after
      minutes digits, reads back as its value. */
  lemma ParseDisplaySplit(s: string, minutes: string, seconds: string)
    requires |minutes| >= 1 && AllDigits(minutes)
    requires |seconds| == 2 && AllDigits(seconds) && ParseDecimal(seconds) < 60
    requires |s| >= 4 && s[|s| - 3] == ':' && s[..|s| - 3] == minutes && s[|s| - 2..] == seconds
    ensures ParseDisplay(s) == Some(60 * ParseDecimal(minutes) + ParseDecimal(seconds))
  {
  }

  /** Minutes digits, a colon and two second digits read back as their value. */
  lemma ParseDisplayOfParts(minutes: string, seconds: string)
    requires |minutes| >= 1 && AllDigits(minutes)
    requires |seconds| == 2 && AllDigits(seconds) && ParseDecimal(seconds) < 60
    ensures ParseDisplay(minutes + ":" + seconds)
            == Some(60 * ParseDecimal(minutes) + ParseDecimal(seconds))
  {
    var s := minutes + ":" + seconds;
    assert s[..|s| - 3] == minutes;
    assert s[|s| - 2..] == seconds;
    ParseDisplaySplit(s, minutes, seconds);
  }

  /** The display of a non-negative time reads back as that time. */
  lemma DisplayRoundTrip(t: int)
    requires t >= 0
    ensures ParseDisplay(Format(t)) == Some(t)
  {
    FormatOfNonNegative(t);
    ParseDecimalOfDecimal(t / 60);
    ZeroPad2RoundTrip(t % 60);
    ParseDisplayOfParts(Decimal(t / 60), ZeroPad2(t % 60));
  }

  /** Distinct non-negative times never show the same text. */
  lemma DisplayInjective(t1: int, t2: int)
    requires t1 >= 0 && t2 >= 0
    ensures Format(t1) == Format(t2) ==> t1 == t2
  {
    DisplayRoundTrip(t1);
    DisplayRoundTrip(t2);
  }

  /** A non-negative time shows no minus sign. */
  lemma NoSignWhenNonNegative(t: int)
    requires t >= 0
    ensures forall i :: 0 <= i < |Format(t)| ==> Format(t)[i] != '-'
  {
  }

  /** The displays for 125, 59 and 0 seconds. */
  lemma FormatExamples()
    ensures Format(125) == "2:05"
    ensures Format(59) == "0:59"
    ensures Format(0) == "0:00"
  {
    assert Decimal(2) == "2" && ZeroPad2(5) == "05";
    assert Decimal(5) == "5" && ZeroPad2(59) == "59";
    assert Decimal(0) == "0" && ZeroPad2(0) == "00";
  }
}
