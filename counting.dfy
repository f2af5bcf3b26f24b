/**
 * The `Count` value of others/countdown.js: the breakdown of a signed millisecond
 * delta into days, hours, minutes and seconds, with a calendar-adjusted day count.
 */
module Counting {

  /** The result of `new Date(ms).getDay()`: 0 is Sunday, 6 is Saturday. */
  type Weekday = d: int | 0 <= d < 7

  const MsPerSecond: int := 1000
  const SecondsPerMinute: int := 60
  const SecondsPerHour: int := 3600
  const SecondsPerDay: int := 86400
  const MsPerDay: int := 86400000

  /** JavaScript's `%`: truncates toward zero, so the remainder takes the sign of `a`. */
  function JsRem(a: int, b: int): (r: int)
    requires b > 0
    ensures -b < r < b
    ensures a >= 0 ==> 0 <= r
    ensures a <= 0 ==> r <= 0
    ensures (a - r) % b == 0
    ensures a >= 0 ==> r == a % b
  {
    if a >= 0 then
      DivUnique(a - a % b, b, a / b, 0);
      a % b
    else
      assert a + (-a) % b == b * -((-a) / b);
      DivUnique(a + (-a) % b, b, -((-a) / b), 0);
      -((-a) % b)
  }

  /** How many weekdays forward `destiny` lies from `today`. */
  function DaysOff(today: Weekday, destiny: Weekday): (r: int)
    ensures 0 <= r <= 6
    ensures (today + r) % 7 == destiny
  {
    if destiny >= today then destiny - today else destiny - today + 7
  }

  datatype Count = Count(
    day: int,          // calendar-adjusted day count
    days: int,         // whole 24-hour periods in the delta
    outTime: bool,     // the deadline has passed
    hour: int,
    minute: int,
    second: int,
    secondTotal: int)  // the raw delta, in milliseconds

  /**
   * `new Count(duration, moment)`; `weekday` stands for `new Date(ms).getDay()`.
   * `Math.floor(x / n)` for a positive `n` is Dafny's `/`; JavaScript's `%` is `JsRem`.
   */
  function Calculate(duration: int, moment: int, weekday: int -> Weekday): (c: Count)
    ensures c.outTime <==> duration < 0
    ensures c.secondTotal == duration
    ensures c.day == c.days || c.day == c.days + 1
    ensures c.day == c.days <==> JsRem(c.days, 7) == DaysOff(weekday(moment), weekday(moment + duration))
    ensures c.days < 0 && JsRem(c.days, 7) != 0 ==> c.day == c.days + 1
  {
    var seconds := duration / MsPerSecond;
    var daysOff := DaysOff(weekday(moment), weekday(moment + duration));
    var daysLeft := seconds / SecondsPerDay;
    Count(
      day := if JsRem(daysLeft, 7) != daysOff then daysLeft + 1 else daysLeft,
      days := daysLeft,
      outTime := duration < 0,
      hour := JsRem(seconds, SecondsPerDay) / SecondsPerHour,
      minute := JsRem(seconds, SecondsPerHour) / SecondsPerMinute,
      second := JsRem(seconds, SecondsPerMinute),
      secondTotal := duration)
  }

  lemma MulNonNegative(x: int, y: int)
    requires x >= 0 && y >= 0
    ensures x * y >= 0
  {
  }

  /** Division with a remainder in range determines the quotient. */
  lemma DivUnique(a: int, b: int, q: int, r: int)
    requires b > 0 && 0 <= r < b && a == b * q + r
    ensures a / b == q && a % b == r
  {
    var q', r' := a / b, a % b;
    assert b * q' + r' == b * q + r;
    var d := q - q';
    assert b * d == r' - r by {
      assert b * q == b * d + b * q';
    }
    if d >= 1 {
      assert b * d == b + b * (d - 1);
      MulNonNegative(b, d - 1);
    } else if d <= -1 {
      assert b * d == -b - b * (-d - 1);
      MulNonNegative(b, -d - 1);
    }
  }

  /** Flooring milliseconds to seconds and then to days is flooring milliseconds to days. */
  lemma MsFloorToDays(a: int)
    ensures a / MsPerSecond / SecondsPerDay == a / MsPerDay
  {
    var q1, r1 := a / 1000, a % 1000;
    var q2, r2 := q1 / 86400, q1 % 86400;
    assert a == 1000 * q1 + r1;
    assert q1 == 86400 * q2 + r2;
    assert a == 86400000 * q2 + (1000 * r2 + r1);
    DivUnique(a, 86400000, q2, 1000 * r2 + r1);
  }

  /** Taking a remainder by a multiple of `n` first does not change the remainder by `n`. */
  lemma ModOfMod(a: int, n: int, k: int)
    requires a >= 0 && n > 0 && k > 0
    ensures (a % (n * k)) % n == a % n
  {
    var q, r := a / (n * k), a % (n * k);
    assert a == n * (k * q) + r by {
      assert (n * k) * q == n * (k * q);
    }
    var q', r' := r / n, r % n;
    assert a == n * (k * q + q') + r' by {
      assert r == n * q' + r';
    }
    DivUnique(a, n, k * q + q', r');
  }

  /**
   * For a deadline that has not passed, the hours, minutes and seconds are clock
   * readings in range and, with the days, add back up to the whole seconds of the delta.
   */
  lemma {:induction false} CountBreakdown(duration: int, moment: int, weekday: int -> Weekday)
    requires duration >= 0
    ensures var c := Calculate(duration, moment, weekday);
      && !c.outTime
      && c.days >= 0
      && 0 <= c.hour <= 23 && 0 <= c.minute <= 59 && 0 <= c.second <= 59
      && c.days * SecondsPerDay + c.hour * SecondsPerHour + c.minute * SecondsPerMinute + c.second
         == duration / MsPerSecond
  {
    var c := Calculate(duration, moment, weekday);
    var s := duration / MsPerSecond;
    var d, rd := s / SecondsPerDay, s % SecondsPerDay;
    var h, rh := rd / SecondsPerHour, rd % SecondsPerHour;
    assert c.hour == h;
    ModOfMod(s, SecondsPerHour, 24);
    assert rh == s % SecondsPerHour;
    assert c.minute == rh / SecondsPerMinute;
    ModOfMod(s, SecondsPerMinute, 60);
    assert c.second == rh % SecondsPerMinute;
    assert s == d * SecondsPerDay + rd;
    assert rd == h * SecondsPerHour + rh;
    assert rh == c.minute * SecondsPerMinute + c.second;
  }

  /**
   * For a passed deadline every part is zero or negative: JavaScript's `%` keeps the
   * sign of the negative delta and `Math.floor` rounds the hours and minutes down.
   */
  lemma {:induction false} CountBreakdownOverdue(duration: int, moment: int, weekday: int -> Weekday)
    requires duration < 0
    ensures var c := Calculate(duration, moment, weekday);
      && c.outTime
      && c.days < 0
      && -24 <= c.hour <= 0 && -60 <= c.minute <= 0 && -59 <= c.second <= 0
  {
    var c := Calculate(duration, moment, weekday);
    var s := duration / MsPerSecond;
    assert s < 0;
    var rd := JsRem(s, SecondsPerDay);
    assert -SecondsPerDay < rd <= 0;
    assert c.hour == rd / SecondsPerHour;
    var rm := JsRem(s, SecondsPerHour);
    assert -SecondsPerHour < rm <= 0;
  }

  /** The local calendar day of an instant, for a zone `tz` milliseconds ahead of UTC. */
  function CalendarDay(tz: int, ms: int): int
  {
    (ms + tz) / MsPerDay
  }

  /** `getDay()` in a zone with a fixed offset: 1 January 1970 (UTC) was a Thursday. */
  function ZoneWeekday(tz: int, ms: int): Weekday
  {
    (CalendarDay(tz, ms) + 4) % 7
  }

  /** Two instants `duration` apart span `duration / MsPerDay` or one more calendar days. */
  lemma CalendarDaysSpan(a: int, duration: int)
    ensures var span := (a + duration) / MsPerDay - a / MsPerDay;
      span == duration / MsPerDay || span == duration / MsPerDay + 1
  {
    var qa, ra := a / MsPerDay, a % MsPerDay;
    var qd, rd := duration / MsPerDay, duration % MsPerDay;
    assert a + duration == MsPerDay * (qa + qd) + (ra + rd);
    if ra + rd < MsPerDay {
      DivUnique(a + duration, MsPerDay, qa + qd, ra + rd);
    } else {
      DivUnique(a + duration, MsPerDay, qa + qd + 1, ra + rd - MsPerDay);
    }
  }

  /** The weekday distance is the calendar-day distance modulo 7. */
  lemma DaysOffIsSpanMod7(x: int, y: int)
    ensures DaysOff((x + 4) % 7, (y + 4) % 7) == (y - x) % 7
  {
    var r := DaysOff((x + 4) % 7, (y + 4) % 7);
    var qx, qy := (x + 4) / 7, (y + 4) / 7;
    var k := if (y + 4) % 7 >= (x + 4) % 7 then 0 else 1;
    assert r == (y + 4) % 7 - (x + 4) % 7 + 7 * k;
    assert y - x == 7 * (qy - qx - k) + r;
    DivUnique(y - x, 7, qy - qx - k, r);
  }

  /**
   * The reason for the day adjustment: in a zone with a fixed offset, `day` of a
   * deadline that has not passed is the number of local midnights between `moment`
   * and the deadline, which the raw count `days` of 24-hour periods can miss by one.
   */
  lemma {:induction false} DayCountsMidnights(duration: int, moment: int, tz: int, weekday: int -> Weekday)
    requires duration >= 0
    requires forall ms :: weekday(ms) == ZoneWeekday(tz, ms)
    ensures Calculate(duration, moment, weekday).day
            == CalendarDay(tz, moment + duration) - CalendarDay(tz, moment)
  {
    var c := Calculate(duration, moment, weekday);
    var a := moment + tz;
    var span := CalendarDay(tz, moment + duration) - CalendarDay(tz, moment);
    assert a + duration == moment + duration + tz;
    MsFloorToDays(duration);
    assert c.days == duration / MsPerDay;
    CalendarDaysSpan(a, duration);
    DaysOffIsSpanMod7(CalendarDay(tz, moment), CalendarDay(tz, moment + duration));
    var off := DaysOff(weekday(moment), weekday(moment + duration));
    assert off == span % 7;
    assert c.days >= 0;
    assert JsRem(c.days, 7) == c.days % 7;
    if span == c.days + 1 {
      assert (c.days + 1) % 7 != c.days % 7 by {
        DivUnique(c.days + 1, 7, c.days / 7 + (if c.days % 7 == 6 then 1 else 0),
                  if c.days % 7 == 6 then 0 else c.days % 7 + 1);
      }
    }
  }

  /** The example of a delta of one hour, one minute and one second. */
  lemma CountExample(moment: int, weekday: int -> Weekday)
    ensures var c := Calculate(3661000, moment, weekday);
      c.days == 0 && c.hour == 1 && c.minute == 1 && c.second == 1 && c.secondTotal == 3661000 && !c.outTime
  {
  }
}
