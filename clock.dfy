/**
 * Times of day as minutes since midnight, with the wrap-around of
 * PostgreSQL's `time + interval` and the `%H:%M` text form the booking
 * dialogue stores a time in.
 */
module Clock {
  import opened Wrappers
  import opened Text

  const MinutesPerDay := 1440

  /** A `time` column value at minute resolution: 00:00 .. 23:59. */
  type TimeOfDay = t: int | 0 <= t < MinutesPerDay

  /** `time + interval 'd minutes'` in PostgreSQL: the result wraps past midnight. */
  function AddMinutes(t: TimeOfDay, d: int): (r: TimeOfDay)
    ensures 0 <= t + d < MinutesPerDay ==> r == t + d
    ensures MinutesPerDay <= t + d < 2 * MinutesPerDay ==> r == t + d - MinutesPerDay
  {
    (t + d) % MinutesPerDay
  }

  function Hour(t: TimeOfDay): nat { t / 60 }
  function Minute(t: TimeOfDay): nat { t % 60 }

  /** `t.strftime("%H:%M")`. */
  function FormatClock(t: TimeOfDay): (s: string)
    ensures |s| == 5 && s[2] == ':'
  {
    Pad2(Hour(t)) + ":" + Pad2(Minute(t))
  }

  /** One field of `%H:%M` as `strptime` accepts it: one or two digits, at most `max`. */
  predicate ClockField(f: string, max: nat) {
    1 <= |f| <= 2 && IsDigits(f) && DigitsValue(f) <= max
  }

  /**
   * `datetime.strptime(s, "%H:%M").time()`: hours 0..23 and minutes 0..59,
   * each written with one or two digits, separated by the first colon,
   * with nothing before or after. `None` stands for the `ValueError`.
   */
  function ParseClock(s: string): (r: Option<TimeOfDay>)
    ensures r.Some? ==> exists i :: 0 <= i < |s| && s[i] == ':'
                          && ClockField(s[..i], 23) && ClockField(s[i + 1..], 59)
                          && r.value == DigitsValue(s[..i]) * 60 + DigitsValue(s[i + 1..])
  {
    if ':' !in s then None
    else
      var i := IndexOf(s, ':');
      var h, m := s[..i], s[i + 1..];
      if ClockField(h, 23) && ClockField(m, 59) then Some(DigitsValue(h) * 60 + DigitsValue(m))
      else None
  }

  /**
   * The converse of `ParseClock`'s contract: hours and minutes of one or
   * two digits each, in range, around a colon are accepted as that time,
   * so "9:30" and "10:5" are read as 09:30 and 10:05.
   */
  lemma ParseClockAccepts(s: string, i: nat)
    requires i < |s| && s[i] == ':'
    requires ClockField(s[..i], 23) && ClockField(s[i + 1..], 59)
    ensures ParseClock(s) == Some(DigitsValue(s[..i]) * 60 + DigitsValue(s[i + 1..]))
  {
    assert ':' !in s[..i];
  }

  /** A time written with `strftime("%H:%M")` reads back as the same time. */
  lemma ClockRoundTrip(t: TimeOfDay)
    ensures ParseClock(FormatClock(t)) == Some(t)
  {
    var h, m := Pad2(Hour(t)), Pad2(Minute(t));
    var s := FormatClock(t);
    assert s[..2] == h && s[3..] == m;
    assert ':' !in s[..2];
    assert IndexOf(s, ':') == 2;
  }
}
