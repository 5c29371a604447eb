/**
 * The page's conversion between a local wall-clock time of a weekday and a
 * UTC week-minute (`to_utc`, `from_utc`), and the schedule the form submits.
 * The local offset is a whole number of minutes east of UTC.
 */
module LocalTime {
  import opened Wrappers
  import opened Decimal
  import opened Schedule
  import opened Clock

  /** A numeric field of the date library's parser: one or two digits, as many as there are. */
  function ScanNumber(s: string): (r: Option<(nat, string)>)
    ensures r.Some? ==> r.value.0 < 100 && |r.value.1| < |s|
  {
    if |s| >= 1 && IsDigit(s[0]) then
      if |s| >= 2 && IsDigit(s[1]) then Some((DigitValue(s[0]) * 10 + DigitValue(s[1]), s[2..]))
      else Some((DigitValue(s[0]), s[1..]))
    else None
  }

  /** `NaiveTime::parse_from_str(s, "%H:%M")`: hour, `:`, minute, nothing after; hour below 24, minute below 60. */
  function ParseHm(s: string): (r: Option<(nat, nat)>)
    ensures r.Some? ==> r.value.0 < 24 && r.value.1 < 60
  {
    match ScanNumber(s)
    case None => None
    case Some((h, rest)) =>
      if |rest| >= 1 && rest[0] == ':' then
        match ScanNumber(rest[1..])
        case None => None
        case Some((m, tail)) => if tail == [] && h < 24 && m < 60 then Some((h, m)) else None
      else None
  }

  /** `to_utc(time, day)`: minutes from Monday 00:00 UTC to local `time` on day `day` (0 = Monday); 0 when `time` does not parse. */
  function ToUtc(time: string, day: nat, offset: int): (r: int)
    ensures ParseHm(time).None? ==> r == 0
    ensures ParseHm(time).Some? ==> day * 1440 <= r + offset < day * 1440 + 1440
  {
    match ParseHm(time)
    case None => 0
    case Some((h, m)) => day * 1440 + h * 60 + m - offset
  }

  /** `from_utc(minutes)`: the local wall-clock time, `HH:MM`, of Monday 00:00 UTC plus `minutes`. */
  function FromUtc(minutes: int, offset: int): (s: string)
    ensures WellFormed(s)
    ensures (DigitValue(s[0]) * 10 + DigitValue(s[1])) * 60 + DigitValue(s[3]) * 10 + DigitValue(s[4])
            == (minutes + offset) % 1440
  {
    var t := (minutes + offset) % 1440;
    var hh, mm := Pad2(t / 60), Pad2(t % 60);
    assert DigitValue(hh[0]) * 10 + DigitValue(hh[1]) == t / 60 by { Pad2Digits(t / 60); }
    assert DigitValue(mm[0]) * 10 + DigitValue(mm[1]) == t % 60 by { Pad2Digits(t % 60); }
    hh + ":" + mm
  }

  /** The two characters of a padded field are its tens and its units. */
  lemma Pad2Digits(n: nat)
    requires n < 100
    ensures DigitValue(Pad2(n)[0]) * 10 + DigitValue(Pad2(n)[1]) == n
  {
    var s := Pad2(n);
    assert s[..1][..0] == [] && s[..1] == [s[0]];
  }

  /** A minute before Monday 00:00 UTC, shown at UTC, is Sunday's 23:59. */
  lemma FromUtcBeforeWeekStart()
    ensures FromUtc(-1, 0) == "23:59"
  {
  }

  /** A zero-padded `HH:MM` with an hour below 24 and a minute below 60, as a time input field produces. */
  predicate WellFormed(s: string) {
    && |s| == 5 && IsDigit(s[0]) && IsDigit(s[1]) && s[2] == ':' && IsDigit(s[3]) && IsDigit(s[4])
    && DigitValue(s[0]) * 10 + DigitValue(s[1]) < 24
    && DigitValue(s[3]) * 10 + DigitValue(s[4]) < 60
  }

  /** A well-formed time parses to its two fields. */
  lemma ParseWellFormed(s: string)
    requires WellFormed(s)
    ensures ParseHm(s) == Some((DigitValue(s[0]) * 10 + DigitValue(s[1]), DigitValue(s[3]) * 10 + DigitValue(s[4])))
  {
    assert s[2..][0] == ':' && s[2..][1..] == s[3..];
    assert s[3..][2..] == [];
  }

  /** `to_utc` of a parsable time: the local minute of the week minus the offset, not reduced to one week. */
  lemma ToUtcValue(time: string, day: nat, offset: int)
    requires WellFormed(time)
    ensures ToUtc(time, day, offset) ==
      day * 1440 + (DigitValue(time[0]) * 10 + DigitValue(time[1])) * 60
                 + DigitValue(time[3]) * 10 + DigitValue(time[4]) - offset
  {
    ParseWellFormed(time);
  }

  /** Reading a stored trigger back gives the time that was entered, whatever the day and the offset. */
  lemma RoundTrip(time: string, day: nat, offset: int)
    requires WellFormed(time)
    ensures FromUtc(ToUtc(time, day, offset), offset) == time
  {
    var h := DigitValue(time[0]) * 10 + DigitValue(time[1]);
    var m := DigitValue(time[3]) * 10 + DigitValue(time[4]);
    ToUtcValue(time, day, offset);
    MinuteOfDay(day, h, m);
    PaddedFields(time);
  }

  /** Within day `day`, the minute h·60 + m has hour h and minute m. */
  lemma MinuteOfDay(day: nat, h: nat, m: nat)
    requires h < 24 && m < 60
    ensures var t := (day * 1440 + h * 60 + m) % 1440; t / 60 == h && t % 60 == m
  {
    assert (day * 1440 + h * 60 + m) % 1440 == h * 60 + m;
  }

  /** A well-formed time is the padding of its own two fields. */
  lemma PaddedFields(time: string)
    requires WellFormed(time)
    ensures Pad2(DigitValue(time[0]) * 10 + DigitValue(time[1])) + ":" + Pad2(DigitValue(time[3]) * 10 + DigitValue(time[4])) == time
  {
    var h := DigitValue(time[0]) * 10 + DigitValue(time[1]);
    var m := DigitValue(time[3]) * 10 + DigitValue(time[4]);
    var p, q := Pad2(h), Pad2(m);
    assert p[0] == DigitChar(h / 10) == time[0];
    assert p[1] == DigitChar(h % 10) == time[1];
    assert q[0] == DigitChar(m / 10) == time[3];
    assert q[1] == DigitChar(m % 10) == time[4];
  }

  /** The other direction: a week-minute shown as local time and entered again on its local day is the same minute. */
  lemma RoundTripMinutes(minutes: int, offset: int)
    requires minutes + offset >= 0
    ensures ToUtc(FromUtc(minutes, offset), (minutes + offset) / 1440, offset) == minutes
  {
    var t := (minutes + offset) % 1440;
    var s := FromUtc(minutes, offset);
    var h, m := t / 60, t % 60;
    assert s == Pad2(h) + ":" + Pad2(m);
    assert WellFormed(s) by {
      assert DigitValue(s[0]) * 10 + DigitValue(s[1]) == h;
      assert DigitValue(s[3]) * 10 + DigitValue(s[4]) == m;
    }
    ToUtcValue(s, (minutes + offset) / 1440, offset);
    assert DigitValue(s[0]) * 10 + DigitValue(s[1]) == h;
    assert DigitValue(s[3]) * 10 + DigitValue(s[4]) == m;
  }

  /** The result is not reduced into the week: half past midnight on Monday, one hour east of UTC, is minute -30. */
  lemma ToUtcCanBeNegative()
    ensures ToUtc("00:30", MONDAY, 60) == -30
  {
    ToUtcValue("00:30", MONDAY, 60);
  }

  /** Monday 00:30 at one hour east of UTC is stored as minute -30, which no week-minute ever equals. */
  lemma EarlyMondayNeverFires(t: int)
    ensures WeekMinute(t) != ToUtc("00:30", MONDAY, 60)
  {
    ToUtcCanBeNegative();
  }

  /** Sunday 23:00 at five hours west of UTC is stored as minute 10320, past the last week-minute 10079. */
  lemma LateSundayNeverFires(t: int)
    ensures ToUtc("23:00", SUNDAY, -300) == 10320
    ensures WeekMinute(t) != ToUtc("23:00", SUNDAY, -300)
  {
    ToUtcValue("23:00", SUNDAY, -300);
  }

  /** A time that does not parse becomes minute 0 on every day. */
  lemma ToUtcUnparsable(time: string, day: nat, offset: int)
    requires ParseHm(time).None?
    ensures ToUtc(time, day, offset) == 0
  {
  }

  /** The same parsable time on the next day is exactly one day later. */
  lemma ToUtcNextDay(time: string, day: nat, offset: int)
    requires ParseHm(time).Some?
    ensures ToUtc(time, day + 1, offset) == ToUtc(time, day, offset) + 1440
  {
  }

  /** The pairs the form submits: day `d`'s time converted with day index `d`, Monday = 0 .. Sunday = 6, and its goal. */
  function FormSchedule(times: seq<string>, goals: seq<int>, offset: int): (r: Schedule)
    requires |times| == DAYS && |goals| == DAYS
    ensures forall d :: 0 <= d < DAYS ==> r[d] == Slot(ToUtc(times[d], d, offset), goals[d])
  {
    seq(DAYS, d requires 0 <= d < DAYS => Slot(ToUtc(times[d], d, offset), goals[d]))
  }

  /** With every day at the same parsable time, consecutive days' triggers are 1440 minutes apart. */
  lemma FormScheduleSpacing(time: string, goals: seq<int>, offset: int, d: nat)
    requires |goals| == DAYS && d + 1 < DAYS && ParseHm(time).Some?
    ensures var r := FormSchedule(seq(DAYS, _ => time), goals, offset);
      r[d + 1].trigger == r[d].trigger + 1440
  {
    ToUtcNextDay(time, d, offset);
  }

  /** A well-formed local time on a day, with an offset of at most a day, gives a trigger within a day of that day's UTC span. */
  lemma FormTriggerNearDay(time: string, d: nat, offset: int)
    requires WellFormed(time) && -1440 < offset < 1440
    ensures d * 1440 - 1440 < ToUtc(time, d, offset) < d * 1440 + 2880
  {
    ToUtcValue(time, d, offset);
  }
}
