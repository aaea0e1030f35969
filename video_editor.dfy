/**
 * The video editor's `formatTime`: a time in seconds shown as minutes, a
 * colon and two-digit seconds.
 */
module VideoEditor {
  import opened JsString

  /** ECMAScript's `Math.trunc`: the integer part, rounded toward zero. */
  function Trunc(x: real): (t: int)
    ensures x >= 0.0 ==> t == x.Floor
    ensures x < 0.0 ==> t == -((-x).Floor)
  {
    if x < 0.0 then -((-x).Floor) else x.Floor
  }

  /** ECMAScript's `%` on numbers: the remainder has the dividend's sign. */
  function JsRem(x: real, m: real): (r: real)
    requires m != 0.0
  {
    x - m * Trunc(x / m) as real
  }

  /** `s.padStart(2, '0')` */
  function PadStart2(s: string): (r: string)
    ensures |s| >= 2 ==> r == s
    ensures |s| < 2 ==> |r| == 2 && r[2 - |s|..] == s && forall i :: 0 <= i < 2 - |s| ==> r[i] == '0'
  {
    if |s| >= 2 then s else if |s| == 1 then "0" + s else "00"
  }

  /** `Math.floor(seconds / 60)` */
  function Minutes(seconds: real): int {
    (seconds / 60.0).Floor
  }

  /** `Math.floor(seconds % 60)` */
  function Seconds(seconds: real): int {
    JsRem(seconds, 60.0).Floor
  }

  /** `formatTime(seconds)` */
  function FormatTime(seconds: real): string {
    IntToString(Minutes(seconds)) + ":" + PadStart2(IntToString(Seconds(seconds)))
  }

  /** For a non-negative time the seconds field is a whole number of seconds
      below a minute, and minutes and seconds together are the whole seconds
      of the time. */
  lemma MinutesSeconds(seconds: real)
    requires seconds >= 0.0
    ensures Minutes(seconds) >= 0
    ensures 0 <= Seconds(seconds) <= 59
    ensures Minutes(seconds) * 60 + Seconds(seconds) == seconds.Floor
  {
    var m := Minutes(seconds);
    assert m as real <= seconds / 60.0 < m as real + 1.0;
    var r := JsRem(seconds, 60.0);
    assert r == seconds - 60.0 * m as real;
    assert 0.0 <= r < 60.0;
    var s := r.Floor;
    assert s as real <= r < s as real + 1.0;
    assert (m * 60 + s) as real <= seconds < (m * 60 + s) as real + 1.0;
  }

  /** The two characters `padStart` makes of a number below 100. */
  function TwoDigits(n: nat): (r: string)
    requires n < 100
  {
    [DigitChar(n / 10), DigitChar(n % 10)]
  }

  lemma PadStartTwoDigits(n: nat)
    requires n < 100
    ensures PadStart2(IntToString(n)) == TwoDigits(n)
  {
    if n >= 10 {
      assert NatToString(n) == NatToString(n / 10) + [DigitChar(n % 10)];
    }
  }

  /** A non-negative time is shown as its decimal minutes, one colon and
      its seconds as exactly two zero-padded digits. */
  lemma FormatTimeShape(seconds: real)
    requires seconds >= 0.0
    ensures var m, s := Minutes(seconds), Seconds(seconds);
      m >= 0 && 0 <= s < 60 &&
      FormatTime(seconds) == NatToString(m) + ":" + TwoDigits(s)
  {
    MinutesSeconds(seconds);
    PadStartTwoDigits(Seconds(seconds));
  }

  /** The seconds field is the last two characters, both digits, and the
      only colon is the one before them. */
  lemma FormatTimeOneColon(seconds: real)
    requires seconds >= 0.0
    ensures var r := FormatTime(seconds);
      |r| >= 4 && r[|r| - 3] == ':' && IsDigit(r[|r| - 2]) && IsDigit(r[|r| - 1]) &&
      forall i :: 0 <= i < |r| && i != |r| - 3 ==> r[i] != ':'
  {
    FormatTimeShape(seconds);
    var m, s := Minutes(seconds), Seconds(seconds);
    var d := NatToString(m);
    var r := FormatTime(seconds);
    assert r == d + ":" + TwoDigits(s);
    forall i | 0 <= i < |r| && i != |r| - 3 ensures r[i] != ':' {
      if i < |d| {
        assert r[i] == d[i];
      }
    }
  }

  /** Reading the two fields back as decimal numbers recovers the minutes
      and seconds, and so the whole seconds of the time. */
  lemma FormatTimeRoundTrip(seconds: real)
    requires seconds >= 0.0
    ensures var r := FormatTime(seconds);
      |r| >= 4 &&
      ParseDigits(r[..|r| - 3]) == Minutes(seconds) &&
      ParseDigits(r[|r| - 2..]) == Seconds(seconds) &&
      ParseDigits(r[..|r| - 3]) * 60 + ParseDigits(r[|r| - 2..]) == seconds.Floor
  {
    FormatTimeShape(seconds);
    MinutesSeconds(seconds);
    var m, s := Minutes(seconds), Seconds(seconds);
    var d := NatToString(m);
    var r := FormatTime(seconds);
    assert r == d + ":" + TwoDigits(s);
    assert r[..|r| - 3] == d;
    assert r[|r| - 2..] == TwoDigits(s);
    ParseNatToString(m);
    var t := TwoDigits(s);
    assert t[..1] == [DigitChar(s / 10)];
    assert [DigitChar(s / 10)][..0] == [];
    assert ParseDigits([DigitChar(s / 10)]) == s / 10;
    assert ParseDigits(t) == (s / 10) * 10 + s % 10;
  }
}
