/** The `formatTime` helper that renders elapsed seconds as `m:ss`. The stats bar
    (src/components/GameStats.tsx, lines 11-15) and the win dialog
    (src/components/WinModal.tsx, lines 13-17) each declare a copy; the two
    copies are the same text, so one function stands for both. The operators
    follow JavaScript: `Math.floor(seconds / 60)` rounds down, `%` keeps the
    sign of its left operand, `toString` writes a minus sign and decimal
    digits, and `padStart(2, '0')` pads on the left to two characters. */
module TimeFormat {

  datatype Option<T> = None | Some(value: T)

  predicate IsDigit(c: char) {
    '0' <= c <= '9'
  }

  function Digit(d: nat): (c: char)
    requires d < 10
    ensures IsDigit(c)
  {
    (('0' as int) + d) as char
  }

  function DigitValue(c: char): (d: nat)
    requires IsDigit(c)
    ensures d < 10 && Digit(d) == c
  {
    (c as int) - ('0' as int)
  }

  /** The decimal numeral of `n`, as `Number.prototype.toString` writes it:
      at least one digit, and no leading zero except in "0" itself. */
  function NatToString(n: nat): (s: string)
    ensures 1 <= |s| && forall i :: 0 <= i < |s| ==> IsDigit(s[i])
    ensures s[0] == '0' ==> n == 0
    decreases n
  {
    if n < 10 then [Digit(n)] else NatToString(n / 10) + [Digit(n % 10)]
  }

  /** `toString` of an integer: a minus sign before the numeral of a negative one. */
  function IntToString(n: int): (s: string)
    ensures 1 <= |s|
    ensures (s[0] == '-') <==> n < 0
  {
    if n < 0 then "-" + NatToString(-n) else NatToString(n)
  }

  /** `padStart(width, fill)`: `s` itself when it is long enough, otherwise `s`
      preceded by as many copies of `fill` as bring it to `width`. */
  function PadStart(s: string, width: nat, fill: char): (r: string)
    ensures |r| == if |s| < width then width else |s|
    ensures r[|r| - |s|..] == s
    ensures forall i :: 0 <= i < |r| - |s| ==> r[i] == fill
  {
    if |s| >= width then s else seq(width - |s|, _ => fill) + s
  }

  /** `Math.floor(seconds / 60)`: the largest whole number of minutes that fits. */
  function Minutes(seconds: int): (m: int)
    ensures m * 60 <= seconds < m * 60 + 60
  {
    seconds / 60
  }

  /** `seconds % 60` with JavaScript's remainder, which takes the sign of `seconds`. */
  function SecondsPart(seconds: int): (s: int)
    ensures seconds >= 0 ==> 0 <= s < 60
    ensures seconds < 0 ==> -60 < s <= 0
    ensures (seconds - s) % 60 == 0
  {
    if seconds >= 0 then seconds % 60 else -((-seconds) % 60)
  }

  /** The displayed time: at least four characters, a minus sign in front
      exactly for a negative count, and for a non-negative count a colon
      three characters from the end. */
  function FormatTime(seconds: int): (r: string)
    ensures |r| >= 4 && ((r[0] == '-') <==> seconds < 0)
    ensures seconds >= 0 ==> r[|r| - 3] == ':'
  {
    MinutesSign(seconds);
    if seconds >= 0 then
      PaddedSecondsPart(SecondsPart(seconds));
      IntToString(Minutes(seconds)) + ":" + PadStart(IntToString(SecondsPart(seconds)), 2, '0')
    else
      IntToString(Minutes(seconds)) + ":" + PadStart(IntToString(SecondsPart(seconds)), 2, '0')
  }

  /** The minutes are negative exactly when the count is. */
  lemma MinutesSign(seconds: int)
    ensures Minutes(seconds) < 0 <==> seconds < 0
  {
  }

  /** For a non-negative count the minutes and the seconds part recompose it,
      and the seconds part is below a minute. */
  lemma SplitRoundTrip(seconds: int)
    requires seconds >= 0
    ensures Minutes(seconds) >= 0 && 0 <= SecondsPart(seconds) < 60
    ensures Minutes(seconds) * 60 + SecondsPart(seconds) == seconds
  {
  }

  /** The seconds part of the display: two digits, the tens first. */
  lemma PaddedSecondsPart(secs: int)
    requires 0 <= secs < 60
    ensures PadStart(IntToString(secs), 2, '0') == [Digit(secs / 10), Digit(secs % 10)]
  {
    if secs < 10 {
      assert IntToString(secs) == [Digit(secs)];
    } else {
      assert NatToString(secs / 10) == [Digit(secs / 10)];
      assert IntToString(secs) == [Digit(secs / 10), Digit(secs % 10)];
    }
  }

  /** For a non-negative count: the minutes numeral, one colon, and exactly two
      digits for the seconds below a minute, the first being a zero below ten. */
  lemma FormatTimeLayout(seconds: int)
    requires seconds >= 0
    ensures var secs := seconds % 60;
      FormatTime(seconds) == NatToString(seconds / 60) + ":" + [Digit(secs / 10), Digit(secs % 10)]
  {
    var secs := seconds % 60;
    var m := NatToString(seconds / 60);
    var ss := [Digit(secs / 10), Digit(secs % 10)];
    PaddedSecondsPart(secs);
    assert IntToString(Minutes(seconds)) == m;
    assert PadStart(IntToString(SecondsPart(seconds)), 2, '0') == ss;
  }

  /** Reads a non-empty string of decimal digits. */
  function ParseDigits(s: string): Option<nat> {
    if s == [] || !IsDigit(s[|s| - 1]) then None
    else if |s| == 1 then Some(DigitValue(s[0]))
    else match ParseDigits(s[..|s| - 1])
      case None => None
      case Some(v) => Some(10 * v + DigitValue(s[|s| - 1]))
  }

  /** Reads back a displayed time: a numeral, a colon and two digits below 60. */
  function ParseTime(s: string): Option<nat> {
    if |s| < 4 || s[|s| - 3] != ':' then None
    else match (ParseDigits(s[..|s| - 3]), ParseDigits(s[|s| - 2..]))
      case (Some(m), Some(ss)) => if ss < 60 then Some(m * 60 + ss) else None
      case _ => None
  }

  lemma {:induction false} ParseNatToString(n: nat)
    ensures ParseDigits(NatToString(n)) == Some(n)
    decreases n
  {
    if n >= 10 {
      var s := NatToString(n);
      assert s[..|s| - 1] == NatToString(n / 10);
      ParseNatToString(n / 10);
    }
  }

  lemma ParseTwoDigits(secs: int)
    requires 0 <= secs < 60
    ensures ParseDigits([Digit(secs / 10), Digit(secs % 10)]) == Some(secs)
  {
    var ds := [Digit(secs / 10), Digit(secs % 10)];
    assert ds[..1] == [Digit(secs / 10)];
  }

  /** Reading a numeral, a colon and two digits. */
  lemma ParseLaidOutTime(m: nat, secs: int)
    requires 0 <= secs < 60
    ensures ParseTime(NatToString(m) + ":" + [Digit(secs / 10), Digit(secs % 10)]) == Some(m * 60 + secs)
  {
    var s := NatToString(m) + ":" + [Digit(secs / 10), Digit(secs % 10)];
    assert s[..|s| - 3] == NatToString(m);
    assert s[|s| - 2..] == [Digit(secs / 10), Digit(secs % 10)];
    ParseNatToString(m);
    ParseTwoDigits(secs);
  }

  /** Reading a displayed time gives back the count of seconds. */
  lemma FormatTimeRoundTrip(seconds: int)
    requires seconds >= 0
    ensures ParseTime(FormatTime(seconds)) == Some(seconds)
  {
    var m, secs := seconds / 60, seconds % 60;
    assert m * 60 + secs == seconds;
    var t := NatToString(m) + ":" + [Digit(secs / 10), Digit(secs % 10)];
    ParseLaidOutTime(m, secs);
    assert ParseTime(t) == Some(seconds);
    FormatTimeLayout(seconds);
    assert FormatTime(seconds) == t;
  }

  /** Two non-negative counts are displayed alike exactly when they are equal. */
  lemma FormatTimeInjective(a: int, b: int)
    requires a >= 0 && b >= 0
    ensures FormatTime(a) == FormatTime(b) <==> a == b
  {
    FormatTimeRoundTrip(a);
    FormatTimeRoundTrip(b);
  }

  /** Displays under a minute and a few minutes. */
  lemma FormatTimeExamples()
    ensures FormatTime(0) == "0:00"
    ensures FormatTime(65) == "1:05"
  {
    assert Digit(0) == '0' && Digit(5) == '5';
    assert FormatTime(0) == "0:00" by {
      FormatTimeLayout(0);
      assert NatToString(0) == "0";
      assert "0" + ":" + ['0', '0'] == "0:00";
    }
    assert FormatTime(65) == "1:05" by {
      FormatTimeLayout(65);
      assert 65 / 60 == 1 && 65 % 60 == 5 && 5 / 10 == 0 && 5 % 10 == 5;
      assert NatToString(1) == "1";
      assert "1" + ":" + ['0', '5'] == "1:05";
    }
  }

  /** A display with two-digit minutes. */
  lemma FormatTimeTenMinutes()
    ensures FormatTime(600) == "10:00"
  {
    assert NatToString(10) == "10" by {
      assert Digit(0) == '0' && Digit(1) == '1';
      assert NatToString(10) == NatToString(1) + [Digit(0)];
    }
    assert FormatTime(600) == NatToString(10) + ":" + [Digit(0), Digit(0)] by {
      FormatTimeLayout(600);
      assert 600 / 60 == 10 && 600 % 60 == 0;
    }
    assert Digit(0) == '0';
    assert "10" + ":" + ['0', '0'] == "10:00";
  }

  /** A negative count, which the game never produces, shows a minus sign in
      both parts, and `padStart` leaves the two-character "-5" alone. */
  lemma FormatTimeNegative()
    ensures FormatTime(-5) == "-1:-5"
  {
    assert Minutes(-5) == -1 && SecondsPart(-5) == -5;
    assert IntToString(-1) == "-1" && IntToString(-5) == "-5";
    assert PadStart("-5", 2, '0') == "-5";
  }
}
