/**
 * Times of day at second resolution, as produced by parsing a `Time` cell with
 * the format `%H:%M:%S`, and their `HH:MM:SS` text form (what `str` gives for a
 * time of day without a fractional part).
 */
module Clock {
  import opened Wrappers

  const SecondsPerDay: int := 86400

  /** A time of day, counted in seconds since midnight. */
  type Time = t: int | 0 <= t < SecondsPerDay

  /** The time of day `h:m:s`. */
  function Hms(h: nat, m: nat, s: nat): Time
    requires h < 24 && m < 60 && s < 60
  {
    h * 3600 + m * 60 + s
  }

  predicate IsDigit(c: char) {
    '0' <= c <= '9'
  }

  function DigitChar(d: nat): (c: char)
    requires d < 10
    ensures IsDigit(c)
  {
    ('0' as int + d) as char
  }

  function DigitValue(c: char): (d: nat)
    requires IsDigit(c)
    ensures d < 10 && DigitChar(d) == c
  {
    c as int - '0' as int
  }

  /** Two-digit, zero-padded decimal text of `n`. */
  function TwoDigits(n: nat): (s: string)
    requires n < 100
    ensures |s| == 2 && IsDigit(s[0]) && IsDigit(s[1])
    ensures DigitValue(s[0]) * 10 + DigitValue(s[1]) == n
  {
    [DigitChar(n / 10), DigitChar(n % 10)]
  }

  /** The `HH:MM:SS` text of a time of day. */
  function FormatTime(t: Time): (s: string)
    ensures |s| == 8 && s[2] == ':' && s[5] == ':'
    ensures forall i :: 0 <= i < 8 && i != 2 && i != 5 ==> IsDigit(s[i])
  {
    TwoDigits(t / 3600) + ":" + TwoDigits((t % 3600) / 60) + ":" + TwoDigits(t % 60)
  }

  /**
   * Reads strict `HH:MM:SS` text back into a time of day; anything else
   * (wrong shape, hour over 23, minute or second over 59) gives `None`.
   */
  function ReadTime(s: string): (r: Option<Time>)
    ensures r.Some? ==> |s| == 8 && s[2] == ':' && s[5] == ':'
  {
    if |s| == 8 && s[2] == ':' && s[5] == ':'
       && IsDigit(s[0]) && IsDigit(s[1]) && IsDigit(s[3])
       && IsDigit(s[4]) && IsDigit(s[6]) && IsDigit(s[7])
    then
      var h := DigitValue(s[0]) * 10 + DigitValue(s[1]);
      var m := DigitValue(s[3]) * 10 + DigitValue(s[4]);
      var sec := DigitValue(s[6]) * 10 + DigitValue(s[7]);
      if h < 24 && m < 60 && sec < 60 then Some(Hms(h, m, sec)) else None
    else
      None
  }

  /** A time of day is its hours, minutes and seconds put back together. */
  lemma HmsOfParts(t: Time)
    ensures t / 3600 < 24 && (t % 3600) / 60 < 60
    ensures Hms(t / 3600, (t % 3600) / 60, t % 60) == t
  {
  }

  /** Reading the text of a time gives the time back: the text loses nothing. */
  lemma ReadFormatTime(t: Time)
    ensures ReadTime(FormatTime(t)) == Some(t)
  {
    HmsOfParts(t);
    var hh, mm, ss := TwoDigits(t / 3600), TwoDigits((t % 3600) / 60), TwoDigits(t % 60);
    var s := FormatTime(t);
    assert s == hh + ":" + mm + ":" + ss;
    assert s[0] == hh[0] && s[1] == hh[1] && s[3] == mm[0] && s[4] == mm[1] && s[6] == ss[0] && s[7] == ss[1];
  }

  /** Distinct times of day have distinct texts. */
  lemma FormatTimeInjective(a: Time, b: Time)
    ensures FormatTime(a) == FormatTime(b) ==> a == b
  {
    ReadFormatTime(a);
    ReadFormatTime(b);
  }
}
