/**
 * gpc_run_novel_unlock: for each enabled schedule whose novel exists, the novel's due
 * date is read or bootstrapped, and a due novel's oldest advance episode is unlocked,
 * moving the due date on by the schedule's interval. Preview mode writes nothing.
 */
module Runner {
  import opened Wrappers
  import opened Calendar
  import opened Snapshots
  import opened Schedules
  import opened Selection
  import opened Access

  datatype RowStatus =
    | Unlocked(episode: PostId, nextDue: Moment)   // "Unlocked! Next: ..."
    | WillUnlock(episode: PostId)                  // preview: "Will unlock"
    | NoEpisode                                    // "No episodes to unlock"
    | NotDue                                       // "Next unlock in ..."

  /** One row of the runner's table: the novel, the due date shown, and the outcome. */
  datatype Row = Row(novel: PostId, due: Moment, status: RowStatus)

  /** Every enabled schedule names a run time that parses to a real time of day. */
  predicate TimesValid(schedules: seq<Schedule>) {
    forall i :: 0 <= i < |schedules| && schedules[i].enabled ==> ValidTime(schedules[i].time)
  }

  /** The stored due date, or the bootstrapped first one when there is none. */
  function CurrentDue(c: Snapshot, s: Schedule, now: Moment): (r: Moment)
    requires ValidMoment(now) && ValidTime(s.time)
    ensures s.novelId in c.due ==> r == c.due[s.novelId]
    ensures s.novelId !in c.due ==> r == FirstDueDate(now, AnchorSeconds(s.time), s.skipWeekends) && Before(now, r)
  {
    if s.novelId in c.due then c.due[s.novelId] else FirstDueDate(now, AnchorSeconds(s.time), s.skipWeekends)
  }

  /** A schedule is due when forced or when its due date is not after now. */
  predicate IsDue(due: Moment, now: Moment, force: bool) {
    force || AtOrBefore(due, now)
  }

  /** calculate_next_unlock_date applied to the old due date (not to now). */
  function NextDue(due: Moment, s: Schedule): (r: Moment)
    ensures AtOrBefore(due, r) && r.sec == due.sec
  {
    AdvanceDaysNotEarlier(due.day, s.days, s.skipWeekends);
    Moment(AdvanceDays(due.day, s.days, s.skipWeekends), due.sec)
  }

  /** The selector reads no due date, so the bootstrap write does not change its choice. */
  lemma {:induction false} CandidateIgnoresDueDates(c: Snapshot, d: map<PostId, Moment>, ids: seq<PostId>, term: string)
    ensures OldestCandidate(c.(due := d), ids, term) == OldestCandidate(c, ids, term)
  {
    if ids != [] {
      var c' := c.(due := d);
      CandidateIgnoresDueDates(c, d, ids[1..], term);
      var rest := OldestCandidate(c, ids[1..], term);
      PreferIgnoresDueDates(c, d, ids[0], term, rest);
      assert OldestCandidate(c', ids, term) == Prefer(c', ids[0], term, rest);
    }
  }

  /** Whether a post is a candidate, and its number, do not depend on due dates. */
  lemma PreferIgnoresDueDates(c: Snapshot, d: map<PostId, Moment>, p: PostId, term: string, rest: Option<PostId>)
    ensures Prefer(c.(due := d), p, term, rest) == Prefer(c, p, term, rest)
  {
    var c' := c.(due := d);
    assert HasTermWithSlug(c', p, "advance") == HasTermWithSlug(c, p, "advance");
    assert GetMeta(c', p, EpisodeNumberKey) == GetMeta(c, p, EpisodeNumberKey);
    assert rest.Some? ==> GetMeta(c', rest.value, EpisodeNumberKey) == GetMeta(c, rest.value, EpisodeNumberKey);
  }

  lemma SelectionIgnoresDueDates(c: Snapshot, d: map<PostId, Moment>, schedules: seq<Schedule>, novel: PostId)
    ensures OldestAdvanceEpisode(c.(due := d), schedules, novel) == OldestAdvanceEpisode(c, schedules, novel)
  {
    if novel in c.posts {
      CandidateIgnoresDueDates(c, d, c.listing, SearchTerm(c, schedules, novel));
    }
  }

  /** Writing a novel's due date twice keeps only the second value. */
  lemma OverwriteDue(m: map<PostId, Moment>, novel: PostId, first: Moment, second: Moment)
    ensures m[novel := first][novel := second] == m[novel := second]
  {
  }

  /** Finding or creating the "Free" term reads and writes no due date. */
  lemma FreeTermIgnoresDueDates(c: Snapshot, d: map<PostId, Moment>)
    ensures FreeTermForUnlock(c.(due := d)) == (FreeTermForUnlock(c).0.(due := d), FreeTermForUnlock(c).1)
  {
    var c' := c.(due := d);
    assert c'.terms == c.terms;
    if GetTermBy(c.terms, ByName, "Free").None? {
      var (ins, t) := InsertTerm(c, "Free", "free");
      assert InsertTerm(c', "Free", "free") == (ins.(due := d), t);
    }
  }

  /** unlock_episode reads and writes no due date. */
  lemma UnlockIgnoresDueDates(c: Snapshot, d: map<PostId, Moment>, acfActive: bool, p: PostId)
    ensures UnlockEpisode(c.(due := d), acfActive, p) == UnlockEpisode(c, acfActive, p).(due := d)
  {
    var c3 := FreeAndClear(c, p);
    FreeAndClearIgnoresDueDates(c, d, p);
    if acfActive {
      assert UpdateField(c3.(due := d), p, "section", "free") == UpdateField(c3, p, "section", "free").(due := d);
    }
  }

  /** Replacing the terms and clearing the gate read and write no due date. */
  lemma FreeAndClearIgnoresDueDates(c: Snapshot, d: map<PostId, Moment>, p: PostId)
    ensures FreeAndClear(c.(due := d), p) == FreeAndClear(c, p).(due := d)
  {
    var (c1, t) := FreeTermForUnlock(c);
    FreeTermIgnoresDueDates(c, d);
    var c2 := SetTerms(c1, p, t);
    assert SetTerms(c1.(due := d), p, t) == c2.(due := d);
    assert ClearGate(c2.(due := d), p) == ClearGate(c2, p).(due := d);
  }

  /**
   * One pass of the loop body for schedule s. `schedules` is the whole saved list, which
   * the selector consults for the novel's search term.
   */
  function RunSchedule(c: Snapshot, schedules: seq<Schedule>, s: Schedule, now: Moment,
                       preview: bool, force: bool, acfActive: bool): (r: (Snapshot, Option<Row>))
    requires ValidMoment(now) && (s.enabled ==> ValidTime(s.time))
    ensures r.1.None? <==> !s.enabled || s.novelId !in c.posts
    ensures r.1.None? || preview ==> r.0 == c
    ensures r.1.Some? ==> r.1.value.novel == s.novelId && r.1.value.due == CurrentDue(c, s, now)
    ensures forall q :: q in c.due ==> q in r.0.due && AtOrBefore(c.due[q], r.0.due[q])
  {
    if !s.enabled || s.novelId !in c.posts then (c, None)
    else
      var novel := s.novelId;
      var due := CurrentDue(c, s, now);
      var c1 := if novel !in c.due && !preview then c.(due := c.due[novel := due]) else c;
      if !IsDue(due, now, force) then (c1, Some(Row(novel, due, NotDue)))
      else
        var (c2, status) := ActOnDue(c1, schedules, s, due, preview, acfActive);
        DueOrderKept(c.due, c1.due, c2.due, novel, due, status.Unlocked?, if status.Unlocked? then status.nextDue else due);
        (c2, Some(Row(novel, due, status)))
  }

  /**
   * The part of the loop body for a due schedule: the selector's episode is announced
   * (preview) or unlocked, and a real unlock stores the next due date.
   */
  function ActOnDue(c: Snapshot, schedules: seq<Schedule>, s: Schedule, due: Moment,
                    preview: bool, acfActive: bool): (r: (Snapshot, RowStatus))
    ensures !r.1.Unlocked? ==> r.0 == c
    ensures r.1.Unlocked? ==> !preview && r.0.due == c.due[s.novelId := r.1.nextDue] && AtOrBefore(due, r.1.nextDue)
  {
    match OldestAdvanceEpisode(c, schedules, s.novelId)
    case None => (c, NoEpisode)
    case Some(episode) =>
      if preview then (c, WillUnlock(episode))
      else
        var next := NextDue(due, s);
        var c2 := UnlockEpisode(c, acfActive, episode);
        (c2.(due := c2.due[s.novelId := next]), Unlocked(episode, next))
  }

  /**
   * The due map over one step: m1 may bootstrap the novel's date, and m2 may move it on
   * to a later date; no other entry changes.
   */
  lemma DueOrderKept(m0: map<PostId, Moment>, m1: map<PostId, Moment>, m2: map<PostId, Moment>,
                     novel: PostId, due: Moment, advanced: bool, next: Moment)
    requires m1 == m0 || (novel !in m0 && m1 == m0[novel := due])
    requires novel in m0 ==> m0[novel] == due
    requires !advanced ==> m2 == m1
    requires advanced ==> m2 == m1[novel := next] && AtOrBefore(due, next)
    ensures forall q :: q in m0 ==> q in m2 && AtOrBefore(m0[q], m2[q])
  {
  }

  /** A shown schedule is due exactly when forced or when its due date has come. */
  lemma RunScheduleDueness(c: Snapshot, schedules: seq<Schedule>, s: Schedule, now: Moment,
                           preview: bool, force: bool, acfActive: bool)
    requires ValidMoment(now) && (s.enabled ==> ValidTime(s.time))
    ensures var r := RunSchedule(c, schedules, s, now, preview, force, acfActive);
      r.1.Some? ==> (r.1.value.status.NotDue? <==> !IsDue(r.1.value.due, now, force))
  {
  }

  /**
   * A due schedule reports no episode exactly when the selector finds none; otherwise it
   * announces (preview) or performs (real run) the unlock of the selector's episode.
   */
  lemma RunScheduleEpisode(c: Snapshot, schedules: seq<Schedule>, s: Schedule, now: Moment,
                           preview: bool, force: bool, acfActive: bool)
    requires ValidMoment(now) && (s.enabled ==> ValidTime(s.time))
    ensures var r := RunSchedule(c, schedules, s, now, preview, force, acfActive);
      var episode := OldestAdvanceEpisode(c, schedules, s.novelId);
      r.1.Some? && IsDue(r.1.value.due, now, force) ==>
        (r.1.value.status.NoEpisode? <==> episode.None?) &&
        (r.1.value.status.WillUnlock? <==> preview && episode.Some?) &&
        (r.1.value.status.Unlocked? <==> !preview && episode.Some?) &&
        (r.1.value.status.WillUnlock? || r.1.value.status.Unlocked? ==> Some(r.1.value.status.episode) == episode)
  {
    if s.enabled && s.novelId in c.posts {
      var due := CurrentDue(c, s, now);
      var c1 := if s.novelId !in c.due && !preview then c.(due := c.due[s.novelId := due]) else c;
      SelectionIgnoresDueDates(c, c1.due, schedules, s.novelId);
      assert c.(due := c1.due) == c1;
      ActOnDueStatus(c1, schedules, s, due, preview, acfActive);
    }
  }

  /** The status of a due schedule follows the selector's answer and the preview flag. */
  lemma ActOnDueStatus(c: Snapshot, schedules: seq<Schedule>, s: Schedule, due: Moment, preview: bool, acfActive: bool)
    ensures var r := ActOnDue(c, schedules, s, due, preview, acfActive);
      var episode := OldestAdvanceEpisode(c, schedules, s.novelId);
      (r.1.NoEpisode? <==> episode.None?) &&
      (r.1.WillUnlock? <==> preview && episode.Some?) &&
      (r.1.Unlocked? <==> !preview && episode.Some?) &&
      (r.1.WillUnlock? || r.1.Unlocked? ==> Some(r.1.episode) == episode)
  {
  }

  /** A real step that unlocks frees the episode and moves the due date on from the old due date. */
  lemma RunScheduleUnlockWrites(c: Snapshot, schedules: seq<Schedule>, s: Schedule, now: Moment,
                                force: bool, acfActive: bool)
    requires ValidMoment(now) && (s.enabled ==> ValidTime(s.time))
    ensures var r := RunSchedule(c, schedules, s, now, false, force, acfActive);
      r.1.Some? && r.1.value.status.Unlocked? ==>
        r.1.value.status.nextDue == NextDue(r.1.value.due, s) &&
        r.0 == UnlockEpisode(c, acfActive, r.1.value.status.episode).(due := c.due[s.novelId := r.1.value.status.nextDue])
  {
    if s.enabled && s.novelId in c.posts {
      var novel := s.novelId;
      var due := CurrentDue(c, s, now);
      var c1 := if novel !in c.due then c.(due := c.due[novel := due]) else c;
      if IsDue(due, now, force) {
        assert c.(due := c1.due) == c1;
        ActOnDueUnlockWrites(c, c1.due, schedules, s, due, acfActive);
      }
    }
  }

  /** The real unlock writes over a due map that differs from c's at most in the novel's own entry. */
  lemma ActOnDueUnlockWrites(c: Snapshot, d: map<PostId, Moment>, schedules: seq<Schedule>, s: Schedule,
                             due: Moment, acfActive: bool)
    requires d == c.due || d == c.due[s.novelId := due]
    ensures var r := ActOnDue(c.(due := d), schedules, s, due, false, acfActive);
      r.1.Unlocked? ==>
        r.1.nextDue == NextDue(due, s) &&
        r.0 == UnlockEpisode(c, acfActive, r.1.episode).(due := c.due[s.novelId := r.1.nextDue])
  {
    var c1 := c.(due := d);
    var (c2, status) := ActOnDue(c1, schedules, s, due, false, acfActive);
    if status.Unlocked? {
      var next := NextDue(due, s);
      var u := UnlockEpisode(c1, acfActive, status.episode);
      assert c2 == u.(due := u.due[s.novelId := next]);
      UnlockIgnoresDueDates(c, d, acfActive, status.episode);
      if d != c.due {
        OverwriteDue(c.due, s.novelId, due, next);
      }
    }
  }

  /** A real step that does not unlock only stores the (possibly bootstrapped) due date. */
  lemma RunScheduleOtherWrites(c: Snapshot, schedules: seq<Schedule>, s: Schedule, now: Moment,
                               force: bool, acfActive: bool)
    requires ValidMoment(now) && (s.enabled ==> ValidTime(s.time))
    ensures var r := RunSchedule(c, schedules, s, now, false, force, acfActive);
      r.1.Some? && !r.1.value.status.Unlocked? ==> r.0 == c.(due := c.due[s.novelId := r.1.value.due])
  {
    if s.enabled && s.novelId in c.posts && s.novelId in c.due {
      assert c.due[s.novelId := c.due[s.novelId]] == c.due;
    }
  }

  /** The rows a step adds to the table. */
  function RowsOf(row: Option<Row>): seq<Row> {
    if row.Some? then [row.value] else []
  }

  /** The store after the loop has handled schedules[..n]. */
  function RunState(c: Snapshot, schedules: seq<Schedule>, n: nat, now: Moment,
                    preview: bool, force: bool, acfActive: bool): (r: Snapshot)
    requires n <= |schedules| && ValidMoment(now) && TimesValid(schedules)
  {
    if n == 0 then c
    else RunSchedule(RunState(c, schedules, n - 1, now, preview, force, acfActive),
                     schedules, schedules[n - 1], now, preview, force, acfActive).0
  }

  /** The table rows after the loop has handled schedules[..n]. */
  function RunRows(c: Snapshot, schedules: seq<Schedule>, n: nat, now: Moment,
                   preview: bool, force: bool, acfActive: bool): (r: seq<Row>)
    requires n <= |schedules| && ValidMoment(now) && TimesValid(schedules)
    ensures |r| <= n
  {
    if n == 0 then []
    else RunRows(c, schedules, n - 1, now, preview, force, acfActive) +
         RowsOf(RunSchedule(RunState(c, schedules, n - 1, now, preview, force, acfActive),
                            schedules, schedules[n - 1], now, preview, force, acfActive).1)
  }

  /** A row that counts towards unlocked_count: an unlock done or, in preview, one announced. */
  predicate Counted(row: Row) { row.status.Unlocked? || row.status.WillUnlock? }

  function UnlockedCount(rows: seq<Row>): (k: nat)
    ensures k <= |rows|
  {
    if rows == [] then 0
    else UnlockedCount(rows[..|rows| - 1]) + (if Counted(rows[|rows| - 1]) then 1 else 0)
  }

  /** A preview run writes nothing: no bootstrap date, no unlock, no new due date. */
  lemma {:induction false} PreviewRunWritesNothing(c: Snapshot, schedules: seq<Schedule>, n: nat, now: Moment,
                                                   force: bool, acfActive: bool)
    requires n <= |schedules| && ValidMoment(now) && TimesValid(schedules)
    ensures RunState(c, schedules, n, now, true, force, acfActive) == c
  {
    if n > 0 {
      PreviewRunWritesNothing(c, schedules, n - 1, now, force, acfActive);
    }
  }

  /** Over a whole run, no stored due date is dropped or moved earlier. */
  lemma {:induction false} DueDatesNeverMoveBack(c: Snapshot, schedules: seq<Schedule>, n: nat, now: Moment,
                                                 preview: bool, force: bool, acfActive: bool)
    requires n <= |schedules| && ValidMoment(now) && TimesValid(schedules)
    ensures var r := RunState(c, schedules, n, now, preview, force, acfActive);
      forall q :: q in c.due ==> q in r.due && AtOrBefore(c.due[q], r.due[q])
  {
    if n > 0 {
      DueDatesNeverMoveBack(c, schedules, n - 1, now, preview, force, acfActive);
    }
  }

  /**
   * On the same store, a preview step and a real step show the same novel, due date
   * and episode, and both count it: the preview announces exactly the unlock the real
   * run performs.
   */
  lemma PreviewStepMatchesRealStep(c: Snapshot, schedules: seq<Schedule>, s: Schedule, now: Moment,
                                   force: bool, acfActive: bool)
    requires ValidMoment(now) && (s.enabled ==> ValidTime(s.time))
    ensures var p := RunSchedule(c, schedules, s, now, true, force, acfActive).1;
            var q := RunSchedule(c, schedules, s, now, false, force, acfActive).1;
      p.Some? == q.Some? &&
      (p.Some? ==> p.value.novel == q.value.novel && p.value.due == q.value.due &&
                   Counted(p.value) == Counted(q.value) &&
                   (p.value.status.WillUnlock? <==> q.value.status.Unlocked?) &&
                   (p.value.status.WillUnlock? ==> p.value.status.episode == q.value.status.episode))
  {
    RunScheduleEpisode(c, schedules, s, now, true, force, acfActive);
    RunScheduleEpisode(c, schedules, s, now, false, force, acfActive);
  }

  /**
   * The runner as the save handler leaves it: saved schedules never skip weekends, so
   * every unlock moves the due date on by exactly the interval in calendar days.
   */
  lemma SavedScheduleAdvancesByCalendarDays(rows: seq<FormRow>, s: Schedule, due: Moment)
    requires s in SaveSchedules(rows)
    ensures NextDue(due, s) == Moment(if s.days <= 0 then due.day else due.day + s.days, due.sec)
  {
    SavedSchedulesNeverSkipWeekends(rows);
    AdvanceDaysPlain(due.day, s.days);
  }

  /**
   * The runner as the form intends it: a schedule saved with "Skip Sat/Sun" ticked gets
   * a first due date and every later due date on a weekday.
   */
  lemma KeptSkipUnlocksOnWeekdays(rows: seq<FormRow>, i: nat, now: Moment, due: Moment)
    requires i < |KeptIndices(rows, 0)| && rows[KeptIndices(rows, 0)[i]].skipWeekendsChecked
    requires ValidMoment(now) && ValidTime(rows[KeptIndices(rows, 0)[i]].unlockTime)
    ensures var s := SaveSchedulesKeepingSkip(rows)[i];
      !IsWeekend(FirstDueDate(now, AnchorSeconds(s.time), s.skipWeekends).day) &&
      (s.days >= 1 ==> !IsWeekend(NextDue(due, s).day))
  {
    var s := SaveSchedulesKeepingSkip(rows)[i];
    if s.days >= 1 {
      AdvanceDaysCounts(due.day, s.days, s.skipWeekends);
    }
  }
}
