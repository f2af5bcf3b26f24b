/**
 * The two text formatters of others/countdown.js: `daysTransfer`, a label for a day
 * count, and `countDownToText`, a compact day/hour/minute/second reading. Each is
 * paired with a parser or an injectivity lemma showing that no information is lost.
 */
module Formatters {
  import opened Basics
  import opened Counting

  predicate IsDigit(c: char)
  {
    '0' <= c <= '9'
  }

  predicate AllDigits(s: string)
  {
    forall i :: 0 <= i < |s| ==> IsDigit(s[i])
  }

  function DigitChar(d: nat): (c: char)
    requires d < 10
    ensures IsDigit(c)
  {
    ('0' as int + d) as char
  }

  function DigitValue(c: char): (d: nat)
    requires IsDigit(c)
    ensures d < 10
  {
    c as int - '0' as int
  }

  /** The decimal text of `n`, as JavaScript writes a non-negative integer into a template. */
  function NatToString(n: nat): (s: string)
    ensures |s| >= 1 && AllDigits(s)
    ensures s[0] == '0' ==> n == 0
    decreases n
  {
    if n < 10 then [DigitChar(n)] else NatToString(n / 10) + [DigitChar(n % 10)]
  }

  /** The number a string of decimal digits denotes. */
  function DigitsValue(s: string): nat
    requires AllDigits(s)
  {
    if s == [] then 0 else DigitsValue(s[..|s| - 1]) * 10 + DigitValue(s[|s| - 1])
  }

  lemma {:induction false} DigitsRoundTrip(n: nat)
    ensures DigitsValue(NatToString(n)) == n
    decreases n
  {
    if n >= 10 {
      var s := NatToString(n);
      DigitsRoundTrip(n / 10);
      assert s[..|s| - 1] == NatToString(n / 10);
      assert DigitValue(DigitChar(n % 10)) == n % 10;
    }
  }

  lemma NatToStringInjective(m: nat, n: nat)
    requires NatToString(m) == NatToString(n)
    ensures m == n
  {
    DigitsRoundTrip(m);
    DigitsRoundTrip(n);
  }

  /** The largest integer a JavaScript number holds together with all smaller ones, 2^53 - 1. */
  const MaxSafeInteger: int := 0x1F_FFFF_FFFF_FFFF

  /**
   * The decimal text of an integer as a template literal writes it, a minus sign in front
   * of a negative one; for a number held exactly, that is every integer up to MaxSafeInteger.
   */
  function IntToString(i: int): (s: string)
    ensures |s| >= 1
    ensures s[0] == '-' <==> i < 0
    ensures i >= 0 ==> s == NatToString(i)
  {
    if i < 0 then "-" + NatToString(-i) else NatToString(i)
  }

  lemma IntToStringInjective(i: int, j: int)
    requires IntToString(i) == IntToString(j)
    ensures i == j
  {
    if i < 0 && j < 0 {
      assert NatToString(-i) == IntToString(i)[1..] == NatToString(-j);
      NatToStringInjective(-i, -j);
    } else if i >= 0 && j >= 0 {
      NatToStringInjective(i, j);
    }
  }

  const TwoTo31: int := 0x8000_0000
  const TwoTo32: int := 0x1_0000_0000

  lemma ModOfInt32(n: int)
    ensures -TwoTo31 <= n < TwoTo31 ==> n % TwoTo32 == if n < 0 then n + TwoTo32 else n
  {
    if -TwoTo31 <= n < 0 {
      DivUnique(n, TwoTo32, -1, n + TwoTo32);
    } else if 0 <= n < TwoTo31 {
      DivUnique(n, TwoTo32, 0, n);
    }
  }

  /** JavaScript's `n | 0` for an integer `n`: the signed 32-bit integer equal to `n` modulo 2^32. */
  function ToInt32(n: int): (r: int)
    ensures -TwoTo31 <= r < TwoTo31
    ensures (n - r) % TwoTo32 == 0
    ensures -TwoTo31 <= n < TwoTo31 ==> r == n
  {
    var m := n % TwoTo32;
    ModOfInt32(n);
    if m >= TwoTo31 then
      DivUnique(n - (m - TwoTo32), TwoTo32, n / TwoTo32 + 1, 0);
      m - TwoTo32
    else
      DivUnique(n - m, TwoTo32, n / TwoTo32, 0);
      m
  }

  /** Integers 2^32 apart are the same 32-bit integer. */
  lemma ToInt32Wraps(n: int)
    ensures ToInt32(n + TwoTo32) == ToInt32(n)
  {
    DivUnique(n + TwoTo32, TwoTo32, n / TwoTo32 + 1, n % TwoTo32);
  }

  // ---------------------------------------------------------------------------
  // daysTransfer

  const DaysSet: seq<string> := ["今日", "明日", "后天"]
  /** Two weeks of weekday names starting on Sunday, so that `weekday + day` never runs off the end. */
  const WeekDaySet: string := "日一二三四五六日一二三四五六"

  /** The name of a weekday, 0 being Sunday. */
  function WeekdayName(d: Weekday): char
  {
    "日一二三四五六"[d]
  }

  /**
   * `daysTransfer(day)` for a non-negative integer `day`; `today` is the weekday
   * `new Date().getDay()` reads when the label is made.
   */
  function DaysTransfer(day: nat, today: Weekday): (name: string)
  {
    if day < 3 then DaysSet[day]
    else if day < 8 then
      var destinyDay := today + day;
      (if destinyDay > 6 then "下" else "本") + "周" + [WeekDaySet[destinyDay]]
    else
      IntToString(ToInt32(day)) + "天后"
  }

  lemma DaysTransferExamples(today: Weekday)
    ensures DaysTransfer(0, today) == "今日"
    ensures DaysTransfer(1, today) == "明日"
    ensures DaysTransfer(2, today) == "后天"
    ensures DaysTransfer(10, today) == "10天后"
  {
    assert NatToString(10) == "10";
  }

  /**
   * Three to seven days ahead the label names the weekday `day` days after `today`,
   * marked "下周" (next week) exactly when that day lies past the coming Saturday.
   */
  lemma {:induction false} DaysTransferNamesWeekday(day: nat, today: Weekday)
    requires 3 <= day < 8
    ensures today + day < |WeekDaySet|
    ensures DaysTransfer(day, today)
      == [if today + day > 6 then '下' else '本', '周', WeekdayName((today + day) % 7)]
  {
    var i := today + day;
    assert WeekDaySet == "日一二三四五六" + "日一二三四五六";
    if i >= 7 {
      assert WeekDaySet[i] == "日一二三四五六"[i - 7];
    }
  }

  /** Only the labels for eight or more days end in "后" (after). */
  lemma DaysTransferLastChar(day: nat, today: Weekday)
    ensures var name := DaysTransfer(day, today);
      |name| >= 2 && (name[|name| - 1] == '后' <==> day >= 8)
  {
    if 3 <= day < 8 {
      DaysTransferNamesWeekday(day, today);
    }
  }

  /**
   * Day counts below 2^31 given the same `today` never share a label. Larger counts
   * wrap in `day | 0`: see DaysTransferWraps.
   */
  lemma {:induction false} DaysTransferInjective(d1: nat, d2: nat, today: Weekday)
    requires d1 < TwoTo31 && d2 < TwoTo31
    requires DaysTransfer(d1, today) == DaysTransfer(d2, today)
    ensures d1 == d2
  {
    var l := DaysTransfer(d1, today);
    DaysTransferLastChar(d1, today);
    DaysTransferLastChar(d2, today);
    if d1 >= 8 && d2 >= 8 {
      assert NatToString(d1) == l[..|l| - 2] == NatToString(d2);
      NatToStringInjective(d1, d2);
    } else if 3 <= d1 < 8 && 3 <= d2 < 8 {
      DaysTransferNamesWeekday(d1, today);
      DaysTransferNamesWeekday(d2, today);
      assert WeekdayName((today + d1) % 7) == WeekdayName((today + d2) % 7);
    }
  }

  /**
   * From eight days on the label is the count truncated to 32 bits: counts 2^32 apart
   * share a label, and from 2^31 on the label starts with a minus sign.
   */
  lemma DaysTransferWraps(day: nat, today: Weekday)
    requires day >= 8
    ensures DaysTransfer(day + TwoTo32, today) == DaysTransfer(day, today)
    ensures DaysTransfer(day, today)[0] == '-' <==> day % TwoTo32 >= TwoTo31
  {
    ToInt32Wraps(day);
  }

  // ---------------------------------------------------------------------------
  // countDownToText

  /**
   * `countDownToText(second, minute, hour, day)` for non-negative integers: the day and
   * hour parts are left out when they are zero, minutes and seconds are always written,
   * truncated to 32 bits by `| 0`.
   */
  function CountDownToText(second: nat, minute: nat, hour: nat, day: nat): (text: string)
  {
    var dayText := if day != 0 then NatToString(day) + "天" else "";
    var hourText := if hour != 0 then NatToString(hour) + "时" else "";
    dayText + hourText + IntToString(ToInt32(minute)) + "分" + IntToString(ToInt32(second)) + "秒"
  }

  /** One number followed by its unit character. */
  datatype Field = Field(value: nat, unit: char)

  /** The four numbers a countdown text carries. */
  datatype Clock = Clock(day: nat, hour: nat, minute: nat, second: nat)

  /**
   * The clocks whose text the source writes digit for digit: day and hour held exactly by
   * a JavaScript number, minute and second left alone by `| 0`.
   */
  predicate InRange(c: Clock)
  {
    c.day <= MaxSafeInteger && c.hour <= MaxSafeInteger && c.minute < TwoTo31 && c.second < TwoTo31
  }

  function Render(fs: seq<Field>): string
  {
    if fs == [] then "" else NatToString(fs[0].value) + [fs[0].unit] + Render(fs[1..])
  }

  /** The number of decimal digits `s` starts with. */
  function LeadingDigits(s: string): (k: nat)
    ensures k <= |s|
    ensures forall i :: 0 <= i < k ==> IsDigit(s[i])
    ensures k < |s| ==> !IsDigit(s[k])
  {
    if s != [] && IsDigit(s[0]) then 1 + LeadingDigits(s[1..]) else 0
  }

  /**
   * The field a text starts with, and the number of characters it takes: a number written
   * without leading zeros, then one character that is not a digit.
   */
  function FirstField(s: string): (r: Option<(Field, nat)>)
    ensures r.Some? ==> var (f, len) := r.value;
      && len == |NatToString(f.value)| + 1 <= |s|
      && s[..len] == NatToString(f.value) + [f.unit]
      && !IsDigit(f.unit)
  {
    var k := LeadingDigits(s);
    if k == 0 || k == |s| then None
    else
      assert AllDigits(s[..k]);
      var v := DigitsValue(s[..k]);
      if s[..k] != NatToString(v) then None
      else
        assert s[..k + 1] == s[..k] + [s[k]];
        Some((Field(v, s[k]), k + 1))
  }

  /** Splits a text into fields, or gives None if it is not a sequence of fields. */
  function Fields(s: string): Option<seq<Field>>
    decreases |s|
  {
    if s == [] then Some([])
    else match FirstField(s)
      case None => None
      case Some((f, len)) =>
        match Fields(s[len..])
        case None => None
        case Some(rest) => Some([f] + rest)
  }

  predicate UnitsAreNotDigits(fs: seq<Field>)
  {
    forall i :: 0 <= i < |fs| ==> !IsDigit(fs[i].unit)
  }

  lemma FirstFieldOfNumber(n: nat, u: char, rest: string)
    requires !IsDigit(u)
    ensures FirstField(NatToString(n) + [u] + rest) == Some((Field(n, u), |NatToString(n)| + 1))
  {
    var d := NatToString(n);
    var s := d + [u] + rest;
    assert forall i :: 0 <= i < |d| ==> s[i] == d[i];
    assert s[|d|] == u;
    assert LeadingDigits(s) == |d|;
    assert s[..|d|] == d;
    DigitsRoundTrip(n);
  }

  lemma {:induction false} FieldsOfRender(fs: seq<Field>)
    requires UnitsAreNotDigits(fs)
    ensures Fields(Render(fs)) == Some(fs)
  {
    if fs != [] {
      var d := NatToString(fs[0].value);
      var rest := Render(fs[1..]);
      var s := d + [fs[0].unit] + rest;
      assert Render(fs) == s;
      FirstFieldOfNumber(fs[0].value, fs[0].unit, rest);
      assert s[|d| + 1..] == rest;
      FieldsOfRender(fs[1..]);
      assert [fs[0]] + fs[1..] == fs;
    }
  }

  lemma {:induction false} RenderOfFields(s: string, fs: seq<Field>)
    requires Fields(s) == Some(fs)
    ensures Render(fs) == s && UnitsAreNotDigits(fs)
    decreases |s|
  {
    if s != [] {
      var (f, len) := FirstField(s).value;
      var rest := Fields(s[len..]).value;
      assert fs == [f] + rest;
      RenderOfFields(s[len..], rest);
      assert fs[0] == f && fs[1..] == rest;
      assert s == s[..len] + s[len..];
    }
  }

  function CountDownToFields(c: Clock): seq<Field>
  {
    (if c.day != 0 then [Field(c.day, '天')] else [])
    + (if c.hour != 0 then [Field(c.hour, '时')] else [])
    + [Field(c.minute, '分'), Field(c.second, '秒')]
  }

  function ClockOfFields(fs: seq<Field>): Option<Clock>
  {
    if |fs| < 2 || fs[|fs| - 2].unit != '分' || fs[|fs| - 1].unit != '秒' then None
    else
      var minute, second := fs[|fs| - 2].value, fs[|fs| - 1].value;
      var head := fs[..|fs| - 2];
      var c :=
        if head == [] then Some(Clock(0, 0, minute, second))
        else if |head| == 1 && head[0].unit == '时' && head[0].value != 0 then
          Some(Clock(0, head[0].value, minute, second))
        else if |head| == 1 && head[0].unit == '天' && head[0].value != 0 then
          Some(Clock(head[0].value, 0, minute, second))
        else if |head| == 2 && head[0].unit == '天' && head[0].value != 0
                && head[1].unit == '时' && head[1].value != 0 then
          Some(Clock(head[0].value, head[1].value, minute, second))
        else None;
      if c.Some? && InRange(c.value) then c else None
  }

  /** Reads the day, hour, minute and second back out of a countdown text. */
  function ParseCountDownText(text: string): Option<Clock>
  {
    match Fields(text)
    case None => None
    case Some(fs) => ClockOfFields(fs)
  }

  lemma CountDownTextIsRender(c: Clock)
    requires InRange(c)
    ensures CountDownToText(c.second, c.minute, c.hour, c.day) == Render(CountDownToFields(c))
  {
    var fs := CountDownToFields(c);
    var tail := [Field(c.minute, '分'), Field(c.second, '秒')];
    assert Render(tail) == NatToString(c.minute) + "分" + NatToString(c.second) + "秒" by {
      assert tail[1..] == [Field(c.second, '秒')];
      assert tail[1..][1..] == [];
      assert Render(tail[1..]) == NatToString(c.second) + "秒";
    }
    if c.day != 0 && c.hour != 0 {
      assert fs[1..] == [Field(c.hour, '时')] + tail;
      assert fs[1..][1..] == tail;
    } else if c.day != 0 {
      assert fs[1..] == tail;
    } else if c.hour != 0 {
      assert fs == [Field(c.hour, '时')] + tail;
      assert fs[1..] == tail;
    } else {
      assert fs == tail;
    }
  }

  lemma ClockOfCountDownFields(c: Clock, fs: seq<Field>)
    ensures ClockOfFields(fs) == Some(c) <==> InRange(c) && fs == CountDownToFields(c)
  {
    if InRange(c) && fs == CountDownToFields(c) {
      var head := fs[..|fs| - 2];
      if c.day != 0 && c.hour != 0 {
        assert head == [Field(c.day, '天'), Field(c.hour, '时')];
      } else if c.day != 0 {
        assert head == [Field(c.day, '天')];
      } else if c.hour != 0 {
        assert head == [Field(c.hour, '时')];
      } else {
        assert head == [];
      }
    }
    if ClockOfFields(fs) == Some(c) {
      assert fs == fs[..|fs| - 2] + [fs[|fs| - 2], fs[|fs| - 1]];
    }
  }

  /**
   * `| 0` writes a second count from 2^31 to 2^32 - 1 as a negative number, and the
   * parser does not read that text back.
   */
  lemma CountDownTextWraps(second: nat)
    requires TwoTo31 <= second < TwoTo32
    ensures CountDownToText(second, 0, 0, 0) == "0分-" + NatToString(TwoTo32 - second) + "秒"
    ensures ParseCountDownText(CountDownToText(second, 0, 0, 0)) == None
  {
    DivUnique(second, TwoTo32, 0, second);
    var rest := "-" + NatToString(TwoTo32 - second) + "秒";
    assert IntToString(ToInt32(second)) + "秒" == rest;
    assert IntToString(ToInt32(0)) == "0";
    var text := NatToString(0) + ['分'] + rest;
    assert CountDownToText(second, 0, 0, 0) == text;
    FirstFieldOfNumber(0, '分', rest);
    assert text[2..] == rest;
    assert LeadingDigits(rest) == 0;
    assert Fields(rest) == None;
  }

  /**
   * The text of a countdown parses back to exactly the four numbers it was made from,
   * for the numbers it writes digit for digit.
   */
  lemma {:induction false} CountDownTextRoundTrip(second: nat, minute: nat, hour: nat, day: nat)
    requires InRange(Clock(day, hour, minute, second))
    ensures ParseCountDownText(CountDownToText(second, minute, hour, day)) == Some(Clock(day, hour, minute, second))
  {
    var c := Clock(day, hour, minute, second);
    CountDownTextIsRender(c);
    FieldsOfRender(CountDownToFields(c));
    ClockOfCountDownFields(c, CountDownToFields(c));
  }

  /** Every text the parser accepts is the countdown text of what it reads. */
  lemma {:induction false} ParsedTextIsCountDownText(text: string, c: Clock)
    requires ParseCountDownText(text) == Some(c)
    ensures InRange(c)
    ensures CountDownToText(c.second, c.minute, c.hour, c.day) == text
  {
    var fs :| Fields(text) == Some(fs);
    RenderOfFields(text, fs);
    ClockOfCountDownFields(c, fs);
    CountDownTextIsRender(c);
  }

  /**
   * The use the source's own example makes of the two parts together: the countdown
   * text of a Count for a deadline not yet passed reads back the Count's own days, hours,
   * minutes and seconds, which add up to the whole seconds left.
   */
  lemma {:induction false} CountTextReadsBack(duration: int, moment: int, weekday: int -> Weekday)
    requires duration >= 0 && duration / MsPerDay <= MaxSafeInteger
    ensures var c := Calculate(duration, moment, weekday);
      && c.days >= 0 && c.hour >= 0 && c.minute >= 0 && c.second >= 0
      && ParseCountDownText(CountDownToText(c.second, c.minute, c.hour, c.days))
         == Some(Clock(c.days, c.hour, c.minute, c.second))
      && c.days * SecondsPerDay + c.hour * SecondsPerHour + c.minute * SecondsPerMinute + c.second
         == duration / MsPerSecond
  {
    var c := Calculate(duration, moment, weekday);
    CountBreakdown(duration, moment, weekday);
    CountDownTextRoundTrip(c.second, c.minute, c.hour, c.days);
  }
}
