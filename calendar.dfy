/**
 * Local wall-clock time as the scheduler sees it, the bootstrap of a novel's first due
 * date, and calculate_next_unlock_date, which steps one calendar day at a time.
 */
module Calendar {

  const SecondsPerDay := 86400

  /**
   * A local instant: a day number (day 0 is Thursday 1 January 1970) and the second
   * within that day. A day is always 86400 seconds: daylight-saving shifts are not modelled.
   */
  datatype Moment = Moment(day: int, sec: int)

  predicate ValidMoment(m: Moment) { 0 <= m.sec < SecondsPerDay }

  /** a is strictly earlier than b. */
  predicate Before(a: Moment, b: Moment) {
    a.day < b.day || (a.day == b.day && a.sec < b.sec)
  }

  predicate AtOrBefore(a: Moment, b: Moment) { !Before(b, a) }

  /** date('w'): 0 is Sunday, 6 is Saturday. */
  function Weekday(day: int): (w: int)
    ensures 0 <= w < 7
  {
    (day + 4) % 7
  }

  predicate IsWeekend(day: int) { Weekday(day) == 0 || Weekday(day) == 6 }

  /** A day counts toward the interval unless weekends are skipped and it is Saturday or Sunday. */
  predicate Counts(day: int, skipWeekends: bool) { !skipWeekends || !IsWeekend(day) }

  lemma WeekdayStep(day: int)
    ensures Weekday(day + 1) == if Weekday(day) == 6 then 0 else Weekday(day) + 1
  {
  }

  /**
   * The first due date of a schedule (gpc_run_novel_unlock, when the novel has none):
   * today at the anchor time if that is strictly later than now, else one day later;
   * with weekend skipping a Sunday moves one day on and a Saturday two.
   * It is the earliest moment at the anchor time, strictly after now, on a day that counts.
   */
  function FirstDueDate(now: Moment, anchor: int, skipWeekends: bool): (r: Moment)
    requires ValidMoment(now) && 0 <= anchor < SecondsPerDay
    ensures r.sec == anchor && ValidMoment(r)
    ensures Before(now, r) && Counts(r.day, skipWeekends)
    ensures forall d :: Before(now, Moment(d, anchor)) && Counts(d, skipWeekends) ==> r.day <= d
  {
    WeekdayStep(now.day);
    WeekdayStep(now.day + 1);
    WeekdayStep(now.day + 2);
    var today := Moment(now.day, anchor);
    var base := if anchor <= now.sec then Moment(now.day + 1, anchor) else today;
    if skipWeekends && Weekday(base.day) == 0 then Moment(base.day + 1, anchor)
    else if skipWeekends && Weekday(base.day) == 6 then Moment(base.day + 2, anchor)
    else base
  }

  /** The first day after `day` that counts. */
  function NextCountingDay(day: int, skipWeekends: bool): (r: int)
    ensures day < r <= day + 3 && Counts(r, skipWeekends)
    ensures forall d :: day < d < r ==> !Counts(d, skipWeekends)
  {
    WeekdayStep(day);
    WeekdayStep(day + 1);
    WeekdayStep(day + 2);
    if Counts(day + 1, skipWeekends) then day + 1
    else if Counts(day + 2, skipWeekends) then day + 2
    else day + 3
  }

  /** The day reached after counting n days from `day` (n <= 0 stays put). */
  function AdvanceDays(day: int, n: int, skipWeekends: bool): int
    decreases n
  {
    if n <= 0 then day else AdvanceDays(NextCountingDay(day, skipWeekends), n - 1, skipWeekends)
  }

  /** The number of counting days in the half-open range (a, b]. */
  function CountingDays(a: int, b: int, skipWeekends: bool): nat
    decreases b - a
  {
    if b <= a then 0
    else CountingDays(a, b - 1, skipWeekends) + (if Counts(b, skipWeekends) then 1 else 0)
  }

  /** How many more weekend days follow before the next weekday (drives loop termination). */
  function WeekendSlack(day: int): nat {
    if Weekday(day) == 5 then 2 else if Weekday(day) == 6 then 1 else 0
  }

  /**
   * calculate_next_unlock_date: step one calendar day at a time, counting a day unless
   * weekends are skipped and it falls on Saturday or Sunday, until days_interval days
   * have been counted; the time of day is kept.
   */
  method CalculateNextUnlockDate(current: Moment, daysInterval: int, skipWeekends: bool)
    returns (next: Moment)
    ensures next == Moment(AdvanceDays(current.day, daysInterval, skipWeekends), current.sec)
    ensures daysInterval <= 0 ==> next == current
    ensures daysInterval >= 1 ==> current.day < next.day && Counts(next.day, skipWeekends) &&
                                  CountingDays(current.day, next.day, skipWeekends) == daysInterval
  {
    next := current;
    var daysAdded := 0;
    while daysAdded < daysInterval
      invariant next.sec == current.sec
      invariant 0 <= daysAdded && (daysInterval > 0 ==> daysAdded <= daysInterval)
      invariant daysInterval <= 0 ==> next == current
      invariant daysInterval > 0 ==>
        AdvanceDays(next.day, daysInterval - daysAdded, skipWeekends)
          == AdvanceDays(current.day, daysInterval, skipWeekends)
      decreases daysInterval - daysAdded, WeekendSlack(next.day)
    {
      var previous := next.day;
      WeekdayStep(previous);
      next := Moment(next.day + 1, next.sec);
      if skipWeekends {
        if Weekday(next.day) == 0 || Weekday(next.day) == 6 {
          SkippedDayChangesNothing(previous, daysInterval - daysAdded, skipWeekends);
          continue;
        }
      }
      daysAdded := daysAdded + 1;
    }
    if daysInterval >= 1 {
      AdvanceDaysCounts(current.day, daysInterval, skipWeekends);
    }
  }

  /** Stepping onto a day that does not count leaves the target day unchanged. */
  lemma SkippedDayChangesNothing(day: int, n: int, skipWeekends: bool)
    requires n > 0 && !Counts(day + 1, skipWeekends)
    ensures AdvanceDays(day + 1, n, skipWeekends) == AdvanceDays(day, n, skipWeekends)
  {
    var r := NextCountingDay(day, skipWeekends);
    var r' := NextCountingDay(day + 1, skipWeekends);
    assert r < r' ==> !Counts(r, skipWeekends);
    assert r' < r ==> !Counts(r', skipWeekends);
  }

  lemma {:induction false} NoCountingDays(a: int, b: int, skipWeekends: bool)
    requires forall d :: a < d <= b ==> !Counts(d, skipWeekends)
    ensures CountingDays(a, b, skipWeekends) == 0
    decreases b - a
  {
    if b > a {
      NoCountingDays(a, b - 1, skipWeekends);
    }
  }

  lemma {:induction false} CountingDaysSplit(a: int, b: int, c: int, skipWeekends: bool)
    requires a <= b <= c
    ensures CountingDays(a, c, skipWeekends) == CountingDays(a, b, skipWeekends) + CountingDays(b, c, skipWeekends)
    decreases c - b
  {
    if c > b {
      CountingDaysSplit(a, b, c - 1, skipWeekends);
    }
  }

  /**
   * For an interval of at least one day the result is strictly later, is itself a counting
   * day (with weekend skipping: never Saturday or Sunday), and exactly n counting days lie
   * in (day, result].
   */
  lemma {:induction false} AdvanceDaysCounts(day: int, n: int, skipWeekends: bool)
    requires n >= 1
    ensures var r := AdvanceDays(day, n, skipWeekends);
      day < r && Counts(r, skipWeekends) && CountingDays(day, r, skipWeekends) == n
    decreases n
  {
    var first := NextCountingDay(day, skipWeekends);
    NoCountingDays(day, first - 1, skipWeekends);
    assert CountingDays(day, first, skipWeekends) == 1;
    if n > 1 {
      AdvanceDaysCounts(first, n - 1, skipWeekends);
      CountingDaysSplit(day, first, AdvanceDays(first, n - 1, skipWeekends), skipWeekends);
    }
  }

  /** The counting characterisation pins the result down: no other day satisfies it. */
  lemma AdvanceDaysUnique(day: int, n: int, skipWeekends: bool, r': int)
    requires n >= 1 && day < r' && Counts(r', skipWeekends)
    requires CountingDays(day, r', skipWeekends) == n
    ensures r' == AdvanceDays(day, n, skipWeekends)
  {
    var r := AdvanceDays(day, n, skipWeekends);
    AdvanceDaysCounts(day, n, skipWeekends);
    if r < r' {
      CountingDaysSplit(day, r, r' - 1, skipWeekends);
      CountingDaysSplit(day, r - 1, r, skipWeekends);
    } else if r' < r {
      CountingDaysSplit(day, r', r - 1, skipWeekends);
      CountingDaysSplit(day, r' - 1, r', skipWeekends);
    }
  }

  /** Without weekend skipping the result is exactly n calendar days later. */
  lemma {:induction false} AdvanceDaysPlain(day: int, n: int)
    ensures AdvanceDays(day, n, false) == if n <= 0 then day else day + n
    decreases n
  {
    if n > 0 {
      AdvanceDaysPlain(day + 1, n - 1);
    }
  }

  /** The calculator never moves a date backwards. */
  lemma {:induction false} AdvanceDaysNotEarlier(day: int, n: int, skipWeekends: bool)
    ensures day <= AdvanceDays(day, n, skipWeekends)
    decreases n
  {
    if n > 0 {
      AdvanceDaysNotEarlier(NextCountingDay(day, skipWeekends), n - 1, skipWeekends);
    }
  }
}
