/**
 * The `m:ss` time display of the audio player, over whole non-negative
 * seconds.
 */
module TimeFormat {
  import opened Wrappers

  predicate IsDigit(c: char) { '0' <= c <= '9' }

  predicate IsDigits(s: string) { forall i :: 0 <= i < |s| ==> IsDigit(s[i]) }

  function DigitChar(d: nat): (c: char)
    requires d < 10
    ensures IsDigit(c) && c as int - '0' as int == d
  {
    ('0' as int + d) as char
  }

  /** The number a string of decimal digits denotes. */
  function DigitsValue(s: string): nat
    requires IsDigits(s)
  {
    if s == [] then 0
    else 10 * DigitsValue(s[..|s| - 1]) + (s[|s| - 1] as int - '0' as int)
  }

  /** How JavaScript renders a non-negative whole number below 10^21 as
      text: decimal digits, with no leading zero. (From 10^21 up JavaScript
      switches to exponent notation, which no time display reaches.) */
  function Decimal(n: nat): (s: string)
    ensures |s| >= 1 && IsDigits(s)
    ensures n >= 10 ==> s[0] != '0'
    ensures n < 10 <==> |s| == 1
  {
    if n < 10 then [DigitChar(n)] else Decimal(n / 10) + [DigitChar(n % 10)]
  }

  /** Reading back the digits of a number gives the number. */
  lemma {:induction false} DecimalRoundTrip(n: nat)
    ensures DigitsValue(Decimal(n)) == n
  {
    if n >= 10 {
      DecimalRoundTrip(n / 10);
      var s := Decimal(n);
      assert s[..|s| - 1] == Decimal(n / 10);
    }
  }

  /** The seconds field: two characters for any value below 60. */
  lemma TwoDigitSeconds(seconds: nat)
    requires seconds < 60
    ensures |(if seconds < 10 then "0" else "") + Decimal(seconds)| == 2
  {
    if seconds >= 10 {
      assert Decimal(seconds) == Decimal(seconds / 10) + [DigitChar(seconds % 10)];
    }
  }

  /** `formatTime`: whole minutes, a colon, then the remaining seconds with
      a leading zero below ten. The minutes are not padded, so the colon is
      always third from the end. */
  function FormatTime(time: nat): (r: string)
    ensures |r| >= 4 && r[|r| - 3] == ':'
    ensures r[..|r| - 3] == Decimal(time / 60)
    ensures IsDigits(r[|r| - 2..])
  {
    var minutes := time / 60;
    var seconds := time % 60;
    TwoDigitSeconds(seconds);
    Decimal(minutes) + ":" + (if seconds < 10 then "0" else "") + Decimal(seconds)
  }

  /** The minutes part: everything before the colon. */
  function MinutesPart(r: string): string
    requires |r| >= 3
  {
    r[..|r| - 3]
  }

  /** The seconds part: the two characters after the colon. */
  function SecondsPart(r: string): string
    requires |r| >= 3
  {
    r[|r| - 2..]
  }

  /** The display is the unpadded minutes, a colon at the third position
      from the end, and exactly two digits for the seconds, which read as a
      number in [0, 59]. */
  lemma FormatTimeFields(time: nat)
    ensures var r := FormatTime(time);
            |r| >= 4 && r[|r| - 3] == ':'
            && MinutesPart(r) == Decimal(time / 60)
            && IsDigits(SecondsPart(r))
            && DigitsValue(MinutesPart(r)) == time / 60
            && DigitsValue(SecondsPart(r)) == time % 60
            && DigitsValue(SecondsPart(r)) <= 59
  {
    var seconds := time % 60;
    var m := Decimal(time / 60);
    var sec := (if seconds < 10 then "0" else "") + Decimal(seconds);
    assert |sec| == 2 by {
      if seconds >= 10 {
        assert Decimal(seconds) == Decimal(seconds / 10) + [DigitChar(seconds % 10)];
      }
    }
    var r := FormatTime(time);
    assert r == m + ":" + sec;
    assert MinutesPart(r) == m;
    assert SecondsPart(r) == sec;
    DecimalRoundTrip(time / 60);
    DecimalRoundTrip(seconds);
    if seconds < 10 {
      assert sec[..1] == "0";
    } else {
      assert sec == Decimal(seconds);
    }
  }

  /** Reads an `m:ss` display back into seconds. */
  function ParseTime(r: string): Option<nat> {
    if |r| >= 4 && r[|r| - 3] == ':' && IsDigits(MinutesPart(r)) && IsDigits(SecondsPart(r))
    then Some(60 * DigitsValue(MinutesPart(r)) + DigitsValue(SecondsPart(r)))
    else None
  }

  /** Reading the display back gives the time it shows. */
  lemma ParseFormatTime(time: nat)
    ensures ParseTime(FormatTime(time)) == Some(time)
  {
    FormatTimeFields(time);
  }

  /** Different times are displayed differently. */
  lemma FormatTimeInjective(a: nat, b: nat)
    requires FormatTime(a) == FormatTime(b)
    ensures a == b
  {
    ParseFormatTime(a);
    ParseFormatTime(b);
  }

  /** 125 seconds display as `2:05`: the minutes are not padded. */
  lemma FormatTimeExample()
    ensures FormatTime(125) == "2:05"
  {
    assert Decimal(2) == "2";
    assert Decimal(5) == "5";
  }
}
