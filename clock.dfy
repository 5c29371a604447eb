/**
 * The week-minute clock of the notification loop: minutes elapsed since
 * Monday 00:00 UTC of the current week, for an instant given as seconds
 * since 1970-01-01 00:00 UTC (the value of the system clock).
 */
module Clock {

  const SECONDS_PER_MINUTE: int := 60
  const SECONDS_PER_DAY: int := 86400
  const MINUTES_PER_DAY: int := 1440
  const MINUTES_PER_WEEK: int := 10080
  const SECONDS_PER_WEEK: int := 604800
  /** 1970-01-01 was a Thursday: day 3 when Monday is day 0. */
  const EPOCH_WEEKDAY: int := 3

  /** The UTC calendar day of `t`, counted from 1970-01-01 (`date_naive`). */
  function DayNumber(t: int): int {
    t / SECONDS_PER_DAY
  }

  /** `weekday().num_days_from_monday()`. */
  function WeekdayFromMonday(t: int): (w: int)
    ensures 0 <= w < 7
  {
    (DayNumber(t) + EPOCH_WEEKDAY) % 7
  }

  function HourOfDay(t: int): (h: int)
    ensures 0 <= h < 24
  {
    (t % SECONDS_PER_DAY) / 3600
  }

  function MinuteOfHour(t: int): (m: int)
    ensures 0 <= m < 60
  {
    (t % 3600) / SECONDS_PER_MINUTE
  }

  /** Monday of this week at 00:00:00 UTC: today's date minus the weekday, at midnight. */
  function MondayMidnight(t: int): (m: int)
    ensures m <= t < m + SECONDS_PER_WEEK
  {
    var r := t - DayNumber(t) * SECONDS_PER_DAY;
    assert 0 <= r < SECONDS_PER_DAY;
    (DayNumber(t) - WeekdayFromMonday(t)) * SECONDS_PER_DAY
  }

  /** Whole minutes from `MondayMidnight(t)` to `t`, truncated; always a minute of the week. */
  function WeekMinute(t: int): (m: int)
    ensures 0 <= m < MINUTES_PER_WEEK
  {
    var r := t - DayNumber(t) * SECONDS_PER_DAY;
    assert 0 <= r < SECONDS_PER_DAY;
    assert t - MondayMidnight(t) == r + WeekdayFromMonday(t) * SECONDS_PER_DAY;
    (t - MondayMidnight(t)) / SECONDS_PER_MINUTE
  }

  /** The week starts at a midnight that is a Monday, at most a week before `t`. */
  lemma MondayMidnightIsWeekStart(t: int)
    ensures MondayMidnight(t) % SECONDS_PER_DAY == 0
    ensures WeekdayFromMonday(MondayMidnight(t)) == 0
    ensures MondayMidnight(t) <= t < MondayMidnight(t) + SECONDS_PER_WEEK
    ensures WeekMinute(MondayMidnight(t)) == 0
  {
    var d, w := DayNumber(t), WeekdayFromMonday(t);
    var m := MondayMidnight(t);
    assert m == (d - w) * SECONDS_PER_DAY;
    assert DayNumber(m) == d - w;
    assert (d + EPOCH_WEEKDAY) % 7 == w;
    assert (d - w + EPOCH_WEEKDAY) % 7 == 0;
    assert MondayMidnight(m) == m;
  }

  /** Division with a known quotient and remainder. */
  lemma DivModOf(x: int, k: int, q: int, r: int)
    requires k > 0 && x == q * k + r && 0 <= r < k
    ensures x / k == q && x % k == r
  {
    var q0, r0 := x / k, x % k;
    assert (q0 - q) * k == r - r0;
    if q0 > q {
      MulAtLeast(q0 - q, k);
    } else if q0 < q {
      MulAtLeast(q - q0, k);
    }
  }

  lemma MulAtLeast(a: int, k: int)
    requires a >= 1 && k > 0
    ensures a * k >= k
  {
  }

  /** The week-minute counts the weekday's days, the hour and the minute of `t`. */
  lemma WeekMinuteOfCalendar(t: int)
    ensures WeekMinute(t) == WeekdayFromMonday(t) * MINUTES_PER_DAY + HourOfDay(t) * 60 + MinuteOfHour(t)
    ensures t - MondayMidnight(t) == WeekMinute(t) * SECONDS_PER_MINUTE + t % SECONDS_PER_MINUTE
  {
    var d, w := DayNumber(t), WeekdayFromMonday(t);
    var r := t - d * SECONDS_PER_DAY;
    DivModOf(t, SECONDS_PER_DAY, d, r);
    assert t - MondayMidnight(t) == r + w * SECONDS_PER_DAY;
    var h, q := r / 3600, r % 3600;
    DivModOf(r, 3600, h, q);
    DivModOf(t, 3600, d * 24 + h, q);
    var mm, s := q / 60, q % 60;
    DivModOf(q, 60, mm, s);
    DivModOf(t, 60, (d * 24 + h) * 60 + mm, s);
    DivModOf(r + w * SECONDS_PER_DAY, 60, w * MINUTES_PER_DAY + h * 60 + mm, s);
  }

  /** An independent closed form: the minute count since the epoch, shifted to Monday and reduced modulo a week. */
  lemma WeekMinuteClosedForm(t: int)
    ensures WeekMinute(t) == (t / SECONDS_PER_MINUTE + EPOCH_WEEKDAY * MINUTES_PER_DAY) % MINUTES_PER_WEEK
  {
    var d, w := DayNumber(t), WeekdayFromMonday(t);
    var r := t - d * SECONDS_PER_DAY;
    DivModOf(t, SECONDS_PER_DAY, d, r);
    assert t - MondayMidnight(t) == r + w * SECONDS_PER_DAY;
    var mm, s := r / 60, r % 60;
    DivModOf(r, 60, mm, s);
    DivModOf(r + w * SECONDS_PER_DAY, 60, w * MINUTES_PER_DAY + mm, s);
    DivModOf(t, 60, d * MINUTES_PER_DAY + mm, s);
    var q := (d + EPOCH_WEEKDAY) / 7;
    DivModOf(d + EPOCH_WEEKDAY, 7, q, w);
    DivModOf(t / 60 + EPOCH_WEEKDAY * MINUTES_PER_DAY, MINUTES_PER_WEEK, q, w * MINUTES_PER_DAY + mm);
  }

  /** One minute later the week-minute advances by one, and Sunday 23:59 rolls over to Monday 00:00. */
  lemma WeekMinuteNextMinute(t: int)
    ensures WeekMinute(t + SECONDS_PER_MINUTE) == (WeekMinute(t) + 1) % MINUTES_PER_WEEK
    ensures WeekMinute(t) == MINUTES_PER_WEEK - 1 ==> WeekMinute(t + SECONDS_PER_MINUTE) == 0
  {
    WeekMinuteClosedForm(t);
    WeekMinuteClosedForm(t + SECONDS_PER_MINUTE);
    DivModOf(t + 60, 60, t / 60 + 1, t % 60);
    var a := t / 60 + EPOCH_WEEKDAY * MINUTES_PER_DAY;
    var q, r := a / MINUTES_PER_WEEK, a % MINUTES_PER_WEEK;
    DivModOf(a, MINUTES_PER_WEEK, q, r);
    if r + 1 < MINUTES_PER_WEEK {
      DivModOf(a + 1, MINUTES_PER_WEEK, q, r + 1);
    } else {
      DivModOf(a + 1, MINUTES_PER_WEEK, q + 1, 0);
    }
  }
}
