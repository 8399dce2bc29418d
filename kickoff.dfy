/** Kickoff times: a UTC time of day, shifted to Africa/Lagos and rendered
    the way `strftime('%H:%M')` renders it. */
module KickoffTime {
  import opened Wrappers

  type Hour = h: int | 0 <= h < 24
  type Minute = m: int | 0 <= m < 60

  /** A time of day to the minute; the date and the seconds play no part
      in the `%H:%M` rendering. */
  datatype Clock = Clock(hour: Hour, minute: Minute)

  const MinutesPerDay := 24 * 60

  /** Africa/Lagos keeps West Africa Time all year: UTC+1, no daylight saving. */
  const LagosOffsetMinutes := 60

  function MinuteOfDay(c: Clock): (n: nat)
    ensures n < MinutesPerDay
  {
    c.hour * 60 + c.minute
  }

  function ClockAt(n: nat): (c: Clock)
    requires n < MinutesPerDay
    ensures MinuteOfDay(c) == n
  {
    Clock(n / 60, n % 60)
  }

  /** The wall-clock time in Africa/Lagos at the instant whose UTC time of day is `utc`. */
  function ToLagos(utc: Clock): Clock
  {
    ClockAt((MinuteOfDay(utc) + LagosOffsetMinutes) % MinutesPerDay)
  }

  /** The conversion moves the hour forward by one, wrapping past midnight,
      and leaves the minutes alone. */
  lemma LagosIsOneHourAhead(utc: Clock)
    ensures ToLagos(utc) == Clock((utc.hour + 1) % 24, utc.minute)
  {
    var n := MinuteOfDay(utc) + LagosOffsetMinutes;
    if utc.hour == 23 {
      assert n == 24 * 60 + utc.minute;
      assert n % MinutesPerDay == utc.minute;
    } else {
      assert n == (utc.hour + 1) * 60 + utc.minute;
      assert n < MinutesPerDay;
    }
  }

  predicate IsDigit(c: char)
  {
    '0' <= c <= '9'
  }

  function DigitValue(c: char): int
  {
    c as int - '0' as int
  }

  /** A number below 100 as two decimal digits, zero-padded like `%H` and `%M`. */
  function TwoDigits(n: nat): (s: string)
    requires n < 100
    ensures |s| == 2 && IsDigit(s[0]) && IsDigit(s[1])
    ensures 10 * DigitValue(s[0]) + DigitValue(s[1]) == n
  {
    [('0' as int + n / 10) as char, ('0' as int + n % 10) as char]
  }

  /** `strftime('%H:%M')`. */
  function Render(c: Clock): (s: string)
    ensures |s| == 5 && s[2] == ':'
    ensures IsDigit(s[0]) && IsDigit(s[1]) && IsDigit(s[3]) && IsDigit(s[4])
    ensures 10 * DigitValue(s[0]) + DigitValue(s[1]) == c.hour
    ensures 10 * DigitValue(s[3]) + DigitValue(s[4]) == c.minute
  {
    TwoDigits(c.hour) + ":" + TwoDigits(c.minute)
  }

  /** Reads an `HH:MM` string back; None for anything Render cannot produce. */
  function Parse(s: string): Option<Clock>
  {
    if |s| == 5 && s[2] == ':' && IsDigit(s[0]) && IsDigit(s[1]) && IsDigit(s[3]) && IsDigit(s[4]) then
      var h := 10 * DigitValue(s[0]) + DigitValue(s[1]);
      var m := 10 * DigitValue(s[3]) + DigitValue(s[4]);
      if 0 <= h < 24 && 0 <= m < 60 then Some(Clock(h, m)) else None
    else
      None
  }

  lemma RenderThenParse(c: Clock)
    ensures Parse(Render(c)) == Some(c)
  {
  }

  /** Render is onto the strings Parse accepts: together with RenderThenParse,
      `%H:%M` is a one-to-one rendering of the times of day. */
  lemma ParseThenRender(s: string)
    requires Parse(s).Some?
    ensures Render(Parse(s).value) == s
  {
    var r := Render(Parse(s).value);
    assert r[0] == s[0] && r[1] == s[1] && r[3] == s[3] && r[4] == s[4];
  }

  /** The kickoff text of a match line: the UTC kickoff shown in Africa/Lagos as `HH:MM`. */
  function Kickoff(utc: Clock): (s: string)
    ensures |s| == 5 && '\n' !in s
    ensures Parse(s) == Some(Clock((utc.hour + 1) % 24, utc.minute))
  {
    LagosIsOneHourAhead(utc);
    RenderThenParse(ToLagos(utc));
    Render(ToLagos(utc))
  }

  /** A 23:30 UTC kickoff shows as "00:30": the hour wraps, the date is not shown. */
  lemma LateKickoffWraps()
    ensures Kickoff(Clock(23, 30)) == "00:30"
  {
    LagosIsOneHourAhead(Clock(23, 30));
  }
}
