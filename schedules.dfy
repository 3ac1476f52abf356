/**
 * The per-novel unlock schedules as the settings page saves them (gpc_unlock_schedules),
 * the parsing of their "HH:MM" run time, and the daily trigger's start time.
 */
module Schedules {
  import opened Wrappers
  import opened PhpText
  import opened Calendar

  /**
   * One saved schedule. skipWeekends false also stands for a record without the
   * 'skip_weekends' key, which PHP reads as empty.
   */
  datatype Schedule = Schedule(
    novelId: int,
    novelName: string,
    searchTerm: string,
    days: int,
    time: string,
    enabled: bool,
    skipWeekends: bool)

  /** One row of the submitted form, after sanitize_text_field. */
  datatype FormRow = FormRow(
    novelId: string,
    novelName: string,
    searchTerm: string,
    unlockDays: string,
    unlockTime: string,
    enabledChecked: bool,
    skipWeekendsChecked: bool)

  /** The save handler keeps a row when its novel id is not empty. */
  predicate Kept(row: FormRow) { !IsEmpty(row.novelId) }

  /** The positions, from i on, of the rows the save handler keeps, in increasing order. */
  function KeptIndices(rows: seq<FormRow>, i: nat): (idx: seq<nat>)
    requires i <= |rows|
    ensures forall j :: 0 <= j < |idx| ==> i <= idx[j] < |rows| && Kept(rows[idx[j]])
    ensures forall j, k :: 0 <= j < k < |idx| ==> idx[j] < idx[k]
    ensures forall m :: i <= m < |rows| && Kept(rows[m]) ==> m in idx
    decreases |rows| - i
  {
    if i == |rows| then []
    else
      var rest := KeptIndices(rows, i + 1);
      if Kept(rows[i]) then [i] + rest else rest
  }

  /** The schedule stored for one kept row; keepSkip says whether the checkbox is copied. */
  function Record(row: FormRow, keepSkip: bool): Schedule {
    Schedule(IntVal(row.novelId), row.novelName, row.searchTerm, IntVal(row.unlockDays),
             row.unlockTime, row.enabledChecked, keepSkip && row.skipWeekendsChecked)
  }

  /**
   * The foreach of the save handler from row i on: one schedule per kept row, in form
   * order, the j-th built from the row at the j-th kept position.
   */
  function SaveFrom(rows: seq<FormRow>, i: nat, keepSkip: bool): (saved: seq<Schedule>)
    requires i <= |rows|
    ensures var idx := KeptIndices(rows, i);
      |saved| == |idx| && forall j :: 0 <= j < |saved| ==> saved[j] == Record(rows[idx[j]], keepSkip)
    decreases |rows| - i
  {
    if i == |rows| then []
    else
      var rest := SaveFrom(rows, i + 1, keepSkip);
      if Kept(rows[i]) then [Record(rows[i], keepSkip)] + rest else rest
  }

  /**
   * The save handler as written: every kept row becomes a schedule, in form order, but
   * the 'skip_weekends' checkbox is never copied into it.
   */
  function SaveSchedules(rows: seq<FormRow>): (saved: seq<Schedule>)
    ensures var idx := KeptIndices(rows, 0);
      |saved| == |idx| &&
      forall j :: 0 <= j < |saved| ==>
        var row := rows[idx[j]];
        saved[j] == Schedule(IntVal(row.novelId), row.novelName, row.searchTerm,
                             IntVal(row.unlockDays), row.unlockTime, row.enabledChecked, false)
  {
    SaveFrom(rows, 0, false)
  }

  /** However the form was filled in, no saved schedule skips weekends. */
  lemma SavedSchedulesNeverSkipWeekends(rows: seq<FormRow>)
    ensures forall s :: s in SaveSchedules(rows) ==> !s.skipWeekends
  {
  }

  /** The default new row ("Skip Sat/Sun" ticked) is saved as a schedule that does not skip weekends. */
  lemma TickedSkipWeekendsIsLost()
    ensures var row := FormRow("12", "Novel", "", "1", "02:00", true, true);
      SaveSchedules([row]) == [Schedule(12, "Novel", "", 1, "02:00", true, false)]
  {
    var row := FormRow("12", "Novel", "", "1", "02:00", true, true);
    assert KeptIndices([row], 0) == [0];
    assert IntVal("12") == 12 by { IntValOfIntToString(12); assert IntToString(12) == "12"; }
    assert IntVal("1") == 1 by { IntValOfIntToString(1); assert IntToString(1) == "1"; }
  }

  /** The save handler with the checkbox stored, as the form and the runner expect. */
  function SaveSchedulesKeepingSkip(rows: seq<FormRow>): (saved: seq<Schedule>)
    ensures var idx := KeptIndices(rows, 0);
      |saved| == |idx| && |saved| == |SaveSchedules(rows)| &&
      forall j :: 0 <= j < |saved| ==>
        saved[j].skipWeekends == rows[idx[j]].skipWeekendsChecked &&
        saved[j] == SaveSchedules(rows)[j].(skipWeekends := rows[idx[j]].skipWeekendsChecked)
  {
    SaveFrom(rows, 0, true)
  }

  /**
   * explode(':', $time), then (int) of the first part and of the second part when
   * there is one (0 otherwise): the hour and minute of the run time.
   */
  function ParseTime(s: string): (int, int) {
    match FirstFrom(s, 0, ':')
    case None => (IntVal(s), 0)
    case Some(c) =>
      var rest := s[c + 1..];
      var minute := match FirstFrom(rest, 0, ':')
        case None => rest
        case Some(c') => rest[..c'];
      (IntVal(s[..c]), IntVal(minute))
  }

  /** The run time parses to a real hour and minute of the day. */
  predicate ValidTime(s: string) {
    var (h, m) := ParseTime(s);
    0 <= h < 24 && 0 <= m < 60
  }

  /** The second of the day the run time denotes. */
  function AnchorSeconds(s: string): (a: int)
    requires ValidTime(s)
    ensures 0 <= a < SecondsPerDay
  {
    var (h, m) := ParseTime(s);
    h * 3600 + m * 60
  }

  /** The "HH:MM" value an <input type="time"> submits. */
  predicate WellFormedTime(s: string) {
    |s| == 5 && IsDigit(s[0]) && IsDigit(s[1]) && s[2] == ':' && IsDigit(s[3]) && IsDigit(s[4]) &&
    DigitValue(s[0]) * 10 + DigitValue(s[1]) < 24 && DigitValue(s[3]) * 10 + DigitValue(s[4]) < 60
  }

  function HourOf(s: string): int requires WellFormedTime(s) { DigitValue(s[0]) * 10 + DigitValue(s[1]) }

  function MinuteOf(s: string): int requires WellFormedTime(s) { DigitValue(s[3]) * 10 + DigitValue(s[4]) }

  lemma TwoDigitsValue(t: string)
    requires |t| == 2 && IsDigit(t[0]) && IsDigit(t[1])
    ensures IntVal(t) == DigitValue(t[0]) * 10 + DigitValue(t[1])
  {
    assert !IsSpace(t[0]) && t[0] != '-' && t[0] != '+';
    assert SpaceRun(t, 0) == 0;
    DigitRunToEnd(t, 0);
    assert t[0..2] == t;
    assert t[..1] == [t[0]];
    assert DigitsValue(t[..1]) == DigitValue(t[0]) by {
      assert t[..1][..0] == [];
    }
  }

  /** Parsing an "HH:MM" value yields its hour and minute, so it is a valid run time. */
  lemma ParseWellFormedTime(s: string)
    requires WellFormedTime(s)
    ensures ParseTime(s) == (HourOf(s), MinuteOf(s)) && ValidTime(s)
    ensures AnchorSeconds(s) == HourOf(s) * 3600 + MinuteOf(s) * 60
  {
    assert s[0] != ':' && s[1] != ':';
    assert FirstFrom(s, 0, ':') == Some(2);
    var rest := s[3..];
    assert rest[0] != ':' && rest[1] != ':';
    assert FirstFrom(rest, 0, ':').None?;
    TwoDigitsValue(s[..2]);
    TwoDigitsValue(rest);
  }

  /** The second of the day an "HH:MM" value denotes. */
  function ClockSeconds(s: string): int
    requires WellFormedTime(s)
  {
    HourOf(s) * 3600 + MinuteOf(s) * 60
  }

  /** String order on "HH:MM" values is the order of the times they denote. */
  lemma WellFormedTimeOrder(a: string, b: string)
    requires WellFormedTime(a) && WellFormedTime(b)
    ensures StrLess(a, b) <==> ClockSeconds(a) < ClockSeconds(b)
  {
    var a1, b1 := a[1..], b[1..];
    var a2, b2 := a1[1..], b1[1..];
    var a3, b3 := a2[1..], b2[1..];
    var a4, b4 := a3[1..], b3[1..];
    assert a4[1..] == [] && b4[1..] == [];
    assert StrLess(a4, b4) <==> a[4] < b[4];
    assert StrLess(a3, b3) <==> a[3] < b[3] || (a[3] == b[3] && a[4] < b[4]);
    assert StrLess(a2, b2) <==> StrLess(a3, b3);
    assert StrLess(a1, b1) <==> a[1] < b[1] || (a[1] == b[1] && StrLess(a3, b3));
    assert StrLess(a, b) <==> a[0] < b[0] || (a[0] == b[0] && StrLess(a1, b1));
  }

  lemma {:induction false} StrLessIrreflexive(a: string)
    ensures !StrLess(a, a)
  {
    if a != [] { StrLessIrreflexive(a[1..]); }
  }

  lemma {:induction false} StrLessTransitive(a: string, b: string, c: string)
    requires StrLess(a, b) && StrLess(b, c)
    ensures StrLess(a, c)
  {
    if a != [] && a[0] == b[0] && b[0] == c[0] {
      StrLessTransitive(a[1..], b[1..], c[1..]);
    }
  }

  lemma {:induction false} StrLessTotal(a: string, b: string)
    ensures StrLess(a, b) || a == b || StrLess(b, a)
  {
    if a != [] && b != [] && a[0] == b[0] {
      StrLessTotal(a[1..], b[1..]);
      if a[1..] == b[1..] {
        assert a == [a[0]] + a[1..] && b == [b[0]] + b[1..];
      }
    }
  }

  /** One step of the fold keeps the accumulated time below both the old one and the step's own. */
  lemma EarliestStep(s: Schedule, earliest: string, next: string, r: string)
    requires next == if s.enabled && StrLess(s.time, earliest) then s.time else earliest
    requires !StrLess(next, r)
    ensures !StrLess(earliest, r)
    ensures s.enabled ==> !StrLess(s.time, r)
  {
    if StrLess(earliest, r) && next != earliest {
      StrLessTransitive(next, earliest, r);
    }
    if s.enabled && StrLess(s.time, r) && next != s.time {
      StrLessTotal(s.time, earliest);
      if StrLess(earliest, s.time) { StrLessTransitive(earliest, s.time, r); }
    }
  }

  /** Folds the enabled schedules' times into the earliest one, by PHP's string '<'. */
  function EarliestFrom(schedules: seq<Schedule>, earliest: string): (r: string)
    ensures r == earliest || exists i :: 0 <= i < |schedules| && schedules[i].enabled && r == schedules[i].time
    ensures !StrLess(earliest, r)
    ensures forall i :: 0 <= i < |schedules| && schedules[i].enabled ==> !StrLess(schedules[i].time, r)
  {
    if schedules == [] then StrLessIrreflexive(earliest); earliest
    else
      var s := schedules[0];
      var next := if s.enabled && StrLess(s.time, earliest) then s.time else earliest;
      var r := EarliestFrom(schedules[1..], next);
      assert forall i :: 1 <= i < |schedules| ==> schedules[i] == schedules[1..][i - 1];
      EarliestStep(s, earliest, next, r);
      r
  }

  /**
   * The run time the daily trigger uses when the schedules are saved: the smallest
   * enabled time, starting from "23:59" (also the answer when none is enabled).
   */
  function EarliestEnabledTime(schedules: seq<Schedule>): string {
    EarliestFrom(schedules, "23:59")
  }

  /** Not earlier in string order means not earlier in time, for "HH:MM" values. */
  lemma NotStrLessSeconds(a: string, b: string)
    requires WellFormedTime(a) && WellFormedTime(b) && !StrLess(a, b)
    ensures ClockSeconds(b) <= ClockSeconds(a)
  {
    WellFormedTimeOrder(a, b);
  }

  /** For well-formed times the earliest string is the earliest time of day. */
  lemma EarliestIsMinimumTime(schedules: seq<Schedule>)
    requires forall i :: 0 <= i < |schedules| && schedules[i].enabled ==> WellFormedTime(schedules[i].time)
    ensures var e := EarliestEnabledTime(schedules);
      WellFormedTime(e) && ClockSeconds(e) <= ClockSeconds("23:59") &&
      forall i :: 0 <= i < |schedules| && schedules[i].enabled ==>
        ClockSeconds(e) <= ClockSeconds(schedules[i].time)
  {
    var e := EarliestEnabledTime(schedules);
    assert WellFormedTime("23:59");
    assert WellFormedTime(e);
    NotStrLessSeconds("23:59", e);
    forall i | 0 <= i < |schedules| && schedules[i].enabled
      ensures ClockSeconds(e) <= ClockSeconds(schedules[i].time)
    {
      NotStrLessSeconds(schedules[i].time, e);
    }
  }

  /**
   * The first run of the daily trigger: today at the given second if that is not yet
   * past, else tomorrow; it is the earliest moment at that second not before now.
   */
  function FirstTriggerTime(now: Moment, anchor: int): (r: Moment)
    requires ValidMoment(now) && 0 <= anchor < SecondsPerDay
    ensures r.sec == anchor && AtOrBefore(now, r)
    ensures forall d :: AtOrBefore(now, Moment(d, anchor)) ==> r.day <= d
  {
    var today := Moment(now.day, anchor);
    if Before(today, now) then Moment(now.day + 1, anchor) else today
  }

  /** The trigger set by the save handler: none when no schedule was saved. */
  function DailyTrigger(schedules: seq<Schedule>, now: Moment): (r: Option<Moment>)
    requires ValidMoment(now)
    requires forall i :: 0 <= i < |schedules| && schedules[i].enabled ==> WellFormedTime(schedules[i].time)
    ensures r.None? <==> schedules == []
    ensures r.Some? ==>
              ValidTime(EarliestEnabledTime(schedules)) &&
              r.value == FirstTriggerTime(now, AnchorSeconds(EarliestEnabledTime(schedules)))
    ensures r.Some? ==> AtOrBefore(now, r.value)
    ensures r.Some? ==> forall i :: 0 <= i < |schedules| && schedules[i].enabled ==>
      r.value.sec <= ClockSeconds(schedules[i].time)
  {
    if schedules == [] then None
    else
      var e := EarliestEnabledTime(schedules);
      EarliestIsMinimumTime(schedules);
      ParseWellFormedTime(e);
      Some(FirstTriggerTime(now, AnchorSeconds(e)))
  }
}
