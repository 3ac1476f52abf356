/**
 * The WordPress store the plugin mutates in place, with the plugin's operations as
 * methods. Each method is proved to leave the store exactly as its specification
 * function in Access, EpisodeSync or Runner describes.
 */
module Unlocker {
  import opened Wrappers
  import opened PhpText
  import opened Calendar
  import opened Snapshots
  import opened Schedules
  import opened Selection
  import opened EpisodeNumbers
  import opened GeminiReply
  import opened Access
  import opened EpisodeSync
  import opened Runner
  import Patreon

  class Store {
    const posts: map<PostId, Post>
    const listing: seq<PostId>
    /** Whether the request runs inside the admin (Run Now, preview, commands) or from cron. */
    const inAdmin: bool
    /** function_exists('update_field'): whether ACF is active. */
    const acfActive: bool
    var terms: seq<Term>
    var postTerms: map<PostId, set<TermId>>
    var meta: map<PostId, map<string, string>>
    var fields: map<PostId, map<string, string>>
    var due: map<PostId, Moment>

    function State(): Snapshot
      reads this
    {
      Snapshot(posts, listing, terms, postTerms, meta, fields, due, inAdmin)
    }

    constructor (initial: Snapshot, acfActive: bool)
      ensures State() == initial && this.acfActive == acfActive
    {
      posts := initial.posts;
      listing := initial.listing;
      inAdmin := initial.inAdmin;
      this.acfActive := acfActive;
      terms := initial.terms;
      postTerms := initial.postTerms;
      meta := initial.meta;
      fields := initial.fields;
      due := initial.due;
    }

    /** update_post_meta. */
    method UpdatePostMeta(p: PostId, key: string, value: string)
      modifies this
      ensures State() == UpdateMeta(old(State()), p, key, value)
    {
      meta := meta[p := PostMeta(State(), p)[key := value]];
    }

    /** delete_post_meta. */
    method DeletePostMeta(p: PostId, key: string)
      modifies this
      ensures State() == DeleteMeta(old(State()), p, key)
    {
      meta := meta[p := PostMeta(State(), p) - {key}];
    }

    /** update_field. */
    method SetField(p: PostId, name: string, value: string)
      modifies this
      ensures State() == UpdateField(old(State()), p, name, value)
    {
      fields := fields[p := PostFields(State(), p)[name := value]];
    }

    /** wp_set_object_terms with a single term, replacing the post's terms. */
    method SetObjectTerms(p: PostId, t: TermId)
      modifies this
      ensures State() == SetTerms(old(State()), p, t)
    {
      postTerms := postTerms[p := {t}];
    }

    /** wp_insert_term. */
    method AddTerm(name: string, slug: string) returns (t: TermId)
      modifies this
      ensures (State(), t) == InsertTerm(old(State()), name, slug)
    {
      var unique := if GetTermBy(terms, BySlug, slug).None? then slug else slug + "-2";
      t := |terms|;
      terms := terms + [Term(name, unique)];
    }

    /** unlock_episode. */
    method UnlockEpisode(p: PostId)
      modifies this
      ensures State() == Access.UnlockEpisode(old(State()), acfActive, p)
    {
      var t: TermId;
      var found := GetTermBy(terms, ByName, "Free");
      if found.Some? {
        t := found.value;
      } else {
        t := AddTerm("Free", "free");
      }
      assert (State(), t) == FreeTermForUnlock(old(State()));
      SetObjectTerms(p, t);
      DeletePostMeta(p, TierLevelKey);
      DeletePostMeta(p, PatreonLevelKey);
      UpdatePostMeta(p, PatreonLevelKey, "0");
      if acfActive {
        SetField(p, "section", "free");
      }
    }

    /** update_patreon_plugin_access; tierId is the 'gpc_patreon_silver_tier_id' option. */
    method UpdatePatreonPluginAccess(p: PostId, accessType: string, tierId: string)
      modifies this
      ensures State() == PluginAccess(old(State()), p, accessType, tierId)
    {
      if accessType == "free" {
        DeletePostMeta(p, TierLevelKey);
        DeletePostMeta(p, PatreonLevelKey);
        UpdatePostMeta(p, PatreonLevelKey, "0");
      } else if !IsEmpty(tierId) {
        UpdatePostMeta(p, TierLevelKey, tierId);
        UpdatePostMeta(p, PatreonLevelKey, tierId);
      }
    }

    /** The access term lookup of execute_episode_action: by name, then by slug, else created. */
    method FindOrCreateAccessTerm(accessType: string) returns (t: TermId)
      modifies this
      ensures (State(), t) == AccessTerm(old(State()), accessType)
    {
      var (name, slug) := TermNames(accessType);
      var found := GetTermBy(terms, ByName, name);
      if found.None? {
        found := GetTermBy(terms, BySlug, slug);
      }
      if found.Some? {
        t := found.value;
      } else {
        t := AddTerm(name, slug);
      }
    }

    /**
     * execute_episode_action for a decoded command; `response` is the Patreon API's
     * answer should it be called.
     */
    method ExecuteEpisodeAction(cfg: Config, cmd: Command, response: Patreon.HttpResponse) returns (result: ActionResult)
      modifies this
      ensures (State(), result) == Access.ExecuteEpisodeAction(old(State()), cfg, acfActive, cmd, response)
    {
      if cmd.episodeNumber.None? || cmd.accessType.None? {
        return Failed(MissingFields);
      }
      var n := cmd.episodeNumber.value;
      var access := cmd.accessType.value;
      if access != "free" && access != "advance" {
        return Failed(InvalidAccessType);
      }
      var found := FindEpisodeByNumber(State(), listing, cfg.episodeMetaKey, n);
      if found.None? {
        return Failed(EpisodeNotFound(n));
      }
      var p := found.value;
      var t := FindOrCreateAccessTerm(access);
      SetObjectTerms(p, t);
      UpdatePatreonPluginAccess(p, access, cfg.silverTierId);
      if acfActive {
        SetField(p, cfg.acfFieldName, access);
      }
      var patreonPostId := GetMeta(State(), p, cfg.patreonMetaKey);
      result := Updated(n, p, access, PatreonStepFor(patreonPostId, cfg, access, response));
    }

    /** perform_episode_sync: the counters, and the meta written when `save` is set. */
    method SyncEpisodeNumbers(save: bool) returns (tally: Tally)
      modifies this
      ensures var ids := EpisodesOf(old(State()), listing);
        State() == SyncState(old(State()), ids, |ids|, save) && tally == SyncTally(old(State()), ids, |ids|, save)
    {
      var c0 := State();
      var ids := EpisodesOf(c0, listing);
      var updated, skipped, failed := 0, 0, 0;
      for i := 0 to |ids|
        invariant State() == SyncState(c0, ids, i, save)
        invariant Tally(updated, skipped, failed) == SyncTally(c0, ids, i, save)
      {
        ghost var before := Tally(updated, skipped, failed);
        var status := SyncPost(ids[i], save);
        SyncUnfold(c0, ids, i, save);
        match status
        case AlreadySet => skipped := skipped + 1;
        case Update(_) => updated := updated + 1;
        case NoNumber => failed := failed + 1;
        assert Tally(updated, skipped, failed) == Count(before, status);
      }
      tally := Tally(updated, skipped, failed);
    }

    /** One episode of the sync loop: its title's number against its stored number. */
    method SyncPost(p: PostId, save: bool) returns (status: SyncStatus)
      modifies this
      ensures status == StatusIn(old(State()), p) && State() == SyncStep(old(State()), p, save)
    {
      var current := GetMeta(State(), p, EpisodeNumberKey);
      var detected := ExtractEpisodeNumber(TitleOf(State(), p));
      if detected.Some? && detected.value != 0 {
        if LooseEqualsInt(current, detected.value) {
          status := AlreadySet;
        } else {
          if save {
            UpdatePostMeta(p, EpisodeNumberKey, IntToString(detected.value));
          }
          status := Update(detected.value);
        }
      } else {
        status := NoNumber;
      }
    }

    /** The loop body of gpc_run_novel_unlock for one schedule. */
    method RunOneSchedule(schedules: seq<Schedule>, s: Schedule, now: Moment, preview: bool, force: bool)
      returns (row: Option<Row>)
      requires ValidMoment(now) && (s.enabled ==> ValidTime(s.time))
      modifies this
      ensures (State(), row) == RunSchedule(old(State()), schedules, s, now, preview, force, acfActive)
    {
      if !s.enabled || s.novelId !in posts {
        return None;
      }
      var novel := s.novelId;
      var nextUnlock: Moment;
      if novel in due {
        nextUnlock := due[novel];
      } else {
        nextUnlock := FirstDueDate(now, AnchorSeconds(s.time), s.skipWeekends);
        if !preview {
          due := due[novel := nextUnlock];
        }
      }
      if force || AtOrBefore(nextUnlock, now) {
        var episode := OldestAdvanceEpisode(State(), schedules, novel);
        if episode.Some? {
          if !preview {
            var newNextUnlock := UnlockAndAdvance(novel, nextUnlock, episode.value, s);
            row := Some(Row(novel, nextUnlock, Unlocked(episode.value, newNextUnlock)));
          } else {
            row := Some(Row(novel, nextUnlock, WillUnlock(episode.value)));
          }
        } else {
          row := Some(Row(novel, nextUnlock, NoEpisode));
        }
      } else {
        row := Some(Row(novel, nextUnlock, NotDue));
      }
    }

    /** A due schedule's real unlock: the episode is freed and the novel's next due date stored. */
    method UnlockAndAdvance(novel: PostId, nextUnlock: Moment, episode: PostId, s: Schedule)
      returns (newNextUnlock: Moment)
      modifies this
      ensures newNextUnlock == NextDue(nextUnlock, s)
      ensures var c2 := Access.UnlockEpisode(old(State()), acfActive, episode);
        State() == c2.(due := c2.due[novel := newNextUnlock])
    {
      UnlockEpisode(episode);
      newNextUnlock := CalculateNextUnlockDate(nextUnlock, s.days, s.skipWeekends);
      due := due[novel := newNextUnlock];
    }

    /** gpc_run_novel_unlock: the table rows and unlocked_count. */
    method RunNovelUnlock(schedules: seq<Schedule>, now: Moment, preview: bool, force: bool)
      returns (rows: seq<Row>, unlockedCount: nat)
      requires ValidMoment(now) && TimesValid(schedules)
      modifies this
      ensures State() == RunState(old(State()), schedules, |schedules|, now, preview, force, acfActive)
      ensures rows == RunRows(old(State()), schedules, |schedules|, now, preview, force, acfActive)
      ensures unlockedCount == UnlockedCount(rows)
    {
      ghost var c0 := State();
      rows := [];
      unlockedCount := 0;
      for i := 0 to |schedules|
        invariant State() == RunState(c0, schedules, i, now, preview, force, acfActive)
        invariant rows == RunRows(c0, schedules, i, now, preview, force, acfActive)
        invariant unlockedCount == UnlockedCount(rows)
      {
        var row := RunOneSchedule(schedules, schedules[i], now, preview, force);
        rows, unlockedCount := RecordRow(rows, unlockedCount, row);
      }
    }

    /** Appends the step's row to the table, counting it when it unlocked or would unlock. */
    static method RecordRow(rows: seq<Row>, unlockedCount: nat, row: Option<Row>)
      returns (rows': seq<Row>, unlockedCount': nat)
      ensures rows' == rows + RowsOf(row)
      ensures unlockedCount == UnlockedCount(rows) ==> unlockedCount' == UnlockedCount(rows')
    {
      rows', unlockedCount' := rows, unlockedCount;
      if row.Some? {
        assert (rows + [row.value])[..|rows|] == rows;
        rows' := rows + [row.value];
        if row.value.status.Unlocked? || row.value.status.WillUnlock? {
          unlockedCount' := unlockedCount + 1;
        }
      }
    }
  }
}
