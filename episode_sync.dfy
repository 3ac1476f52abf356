/**
 * perform_episode_sync: every episode's title is run through extract_episode_number
 * and its 'episode_number' meta is filled in, counting updated, already-set and
 * undetectable episodes.
 */
module EpisodeSync {
  import opened Wrappers
  import opened PhpText
  import opened Snapshots
  import opened EpisodeNumbers

  /** An 'episodes' post of any status but 'trash' and 'auto-draft'. */
  predicate IsEpisode(c: Snapshot, p: PostId) {
    AnyStatus(c, p) && c.posts[p].postType == "episodes"
  }

  /** The query of all 'episodes' posts with post_status 'any', in listing order. */
  function EpisodesOf(c: Snapshot, ids: seq<PostId>): (r: seq<PostId>)
    ensures forall p :: p in r <==> p in ids && IsEpisode(c, p)
    ensures Distinct(ids) ==> Distinct(r)
  {
    if ids == [] then []
    else
      var rest := EpisodesOf(c, ids[1..]);
      assert forall p :: p in ids[1..] ==> p in ids;
      assert Distinct(ids) ==> ids[0] !in ids[1..];
      if IsEpisode(c, ids[0]) then [ids[0]] + rest else rest
  }

  datatype SyncStatus = AlreadySet | Update(number: nat) | NoNumber

  /**
   * The row status for one episode, given the number detected in its title: no number
   * when nothing is detected or 0 is detected (0 is falsy); already set when the stored
   * value equals the detected number under PHP's loose comparison; otherwise the
   * detected number is written.
   */
  function Decide(current: string, detected: Option<nat>): (r: SyncStatus)
    ensures r == NoNumber <==> detected in {None, Some(0)}
    ensures r == AlreadySet <==> detected.Some? && detected.value != 0 && LooseEqualsInt(current, detected.value)
    ensures r.Update? ==> Some(r.number) == detected && r.number != 0 && !LooseEqualsInt(current, r.number)
  {
    match detected
    case None => NoNumber
    case Some(d) =>
      if d == 0 then NoNumber
      else if LooseEqualsInt(current, d) then AlreadySet
      else Update(d)
  }

  /** The status of post p: its stored number against the number in its title. */
  function StatusIn(c: Snapshot, p: PostId): SyncStatus {
    Decide(GetMeta(c, p, EpisodeNumberKey), ExtractEpisodeNumber(TitleOf(c, p)))
  }

  datatype Tally = Tally(updated: nat, skipped: nat, failed: nat)

  function Total(t: Tally): nat { t.updated + t.skipped + t.failed }

  function Count(t: Tally, s: SyncStatus): (r: Tally)
    ensures Total(r) == Total(t) + 1
  {
    match s
    case AlreadySet => t.(skipped := t.skipped + 1)
    case Update(_) => t.(updated := t.updated + 1)
    case NoNumber => t.(failed := t.failed + 1)
  }

  /** One loop iteration: the meta is written only when saving and the status is an update. */
  function SyncStep(c: Snapshot, p: PostId, save: bool): (r: Snapshot)
    ensures save && StatusIn(c, p).Update? ==> GetMeta(r, p, EpisodeNumberKey) == IntToString(StatusIn(c, p).number)
    ensures !(save && StatusIn(c, p).Update?) ==> r == c
    ensures r == c.(meta := r.meta) && r.meta - {p} == c.meta - {p}
  {
    var s := StatusIn(c, p);
    if save && s.Update? then UpdateMeta(c, p, EpisodeNumberKey, IntToString(s.number)) else c
  }

  /** The store after the loop has handled ids[..n]. */
  function SyncState(c: Snapshot, ids: seq<PostId>, n: nat, save: bool): (r: Snapshot)
    requires n <= |ids|
    ensures r == c.(meta := r.meta)
  {
    if n == 0 then c else SyncStep(SyncState(c, ids, n - 1, save), ids[n - 1], save)
  }

  /** The counters after the loop has handled ids[..n]. */
  function SyncTally(c: Snapshot, ids: seq<PostId>, n: nat, save: bool): Tally
    requires n <= |ids|
  {
    if n == 0 then Tally(0, 0, 0)
    else Count(SyncTally(c, ids, n - 1, save), StatusIn(SyncState(c, ids, n - 1, save), ids[n - 1]))
  }

  /** Every episode scanned lands in exactly one counter, saving or not. */
  lemma {:induction false} SyncTotal(c: Snapshot, ids: seq<PostId>, n: nat, save: bool)
    requires n <= |ids|
    ensures Total(SyncTally(c, ids, n, save)) == n
  {
    if n > 0 {
      SyncTotal(c, ids, n - 1, save);
    }
  }

  /** A preview run writes nothing. */
  lemma {:induction false} PreviewWritesNothing(c: Snapshot, ids: seq<PostId>, n: nat)
    requires n <= |ids|
    ensures SyncState(c, ids, n, false) == c
  {
    if n > 0 {
      PreviewWritesNothing(c, ids, n - 1);
    }
  }

  /** Posts the loop has not reached yet still carry their original meta. */
  lemma {:induction false} SyncFrame(c: Snapshot, ids: seq<PostId>, n: nat, save: bool, q: PostId)
    requires n <= |ids| && q !in ids[..n]
    ensures PostMeta(SyncState(c, ids, n, save), q) == PostMeta(c, q)
  {
    if n > 0 {
      assert ids[..n - 1] == ids[..n][..n - 1];
      SyncFrame(c, ids, n - 1, save, q);
    }
  }

  /** The status of a post depends only on its own meta and title. */
  lemma SameStatus(c: Snapshot, c': Snapshot, p: PostId)
    requires PostMeta(c', p) == PostMeta(c, p) && c'.posts == c.posts
    ensures StatusIn(c', p) == StatusIn(c, p)
  {
    assert GetMeta(c', p, EpisodeNumberKey) == GetMeta(c, p, EpisodeNumberKey);
    assert TitleOf(c', p) == TitleOf(c, p);
  }

  /** One more loop iteration: the store and the counters after ids[..n + 1]. */
  lemma SyncUnfold(c: Snapshot, ids: seq<PostId>, n: nat, save: bool)
    requires n < |ids|
    ensures SyncState(c, ids, n + 1, save) == SyncStep(SyncState(c, ids, n, save), ids[n], save)
    ensures SyncTally(c, ids, n + 1, save) == Count(SyncTally(c, ids, n, save), StatusIn(SyncState(c, ids, n, save), ids[n]))
  {
  }

  /** The next post of a distinct sequence has not been touched by the loop so far. */
  lemma NextUntouched(c: Snapshot, ids: seq<PostId>, n: nat, save: bool)
    requires n < |ids| && Distinct(ids)
    ensures StatusIn(SyncState(c, ids, n, save), ids[n]) == StatusIn(c, ids[n])
  {
    assert ids[n] !in ids[..n];
    SyncFrame(c, ids, n, save, ids[n]);
    SameStatus(c, SyncState(c, ids, n, save), ids[n]);
  }

  /** Over distinct episodes, a preview counts exactly what a saving run counts. */
  lemma {:induction false} PreviewTallyMatchesSave(c: Snapshot, ids: seq<PostId>, n: nat)
    requires n <= |ids| && Distinct(ids)
    ensures SyncTally(c, ids, n, false) == SyncTally(c, ids, n, true)
  {
    if n > 0 {
      var m := n - 1;
      PreviewTallyMatchesSave(c, ids, m);
      TallyStep(c, ids, m, false);
      TallyStep(c, ids, m, true);
    }
  }

  /** Over distinct posts, the next post is counted with the status it had before the loop. */
  lemma TallyStep(c: Snapshot, ids: seq<PostId>, m: nat, save: bool)
    requires m < |ids| && Distinct(ids)
    ensures SyncTally(c, ids, m + 1, save) == Count(SyncTally(c, ids, m, save), StatusIn(c, ids[m]))
  {
    NextUntouched(c, ids, m, save);
  }

  /** A post that has just been synced no longer needs an update. */
  lemma SyncStepSettles(c: Snapshot, p: PostId)
    ensures !StatusIn(SyncStep(c, p, true), p).Update?
  {
    var after := SyncStep(c, p, true);
    if StatusIn(c, p).Update? {
      var d := StatusIn(c, p).number;
      LooseEqualsOwnString(d, d);
      assert GetMeta(after, p, EpisodeNumberKey) == IntToString(d);
      assert TitleOf(after, p) == TitleOf(c, p);
    }
  }

  /** Syncing one more post settles it and keeps the posts already settled settled. */
  lemma SettledStep(c: Snapshot, p: PostId, qs: seq<PostId>)
    requires p !in qs
    requires forall i :: 0 <= i < |qs| ==> !StatusIn(c, qs[i]).Update?
    ensures forall i :: 0 <= i < |qs| + 1 ==> !StatusIn(SyncStep(c, p, true), (qs + [p])[i]).Update?
  {
    var after := SyncStep(c, p, true);
    SyncStepSettles(c, p);
    forall i | 0 <= i < |qs| + 1
      ensures !StatusIn(after, (qs + [p])[i]).Update?
    {
      if i < |qs| {
        var q := qs[i];
        assert (qs + [p])[i] == q && q != p;
        assert PostMeta(after, q) == PostMeta(c, q) by {
          assert after.meta - {p} == c.meta - {p};
          assert (q in after.meta <==> q in c.meta) && (q in c.meta ==> after.meta[q] == c.meta[q]);
        }
        SameStatus(c, after, q);
      } else {
        assert (qs + [p])[i] == p;
      }
    }
  }

  /** After a saving run over distinct episodes, none of them needs an update any more. */
  lemma {:induction false} SavedNumbersAreSet(c: Snapshot, ids: seq<PostId>, n: nat)
    requires n <= |ids| && Distinct(ids)
    ensures forall i :: 0 <= i < n ==> !StatusIn(SyncState(c, ids, n, true), ids[i]).Update?
  {
    if n > 0 {
      var m := n - 1;
      SavedNumbersAreSet(c, ids, m);
      assert ids[m] !in ids[..m];
      var before := SyncState(c, ids, m, true);
      SettledStep(before, ids[m], ids[..m]);
      assert SyncState(c, ids, n, true) == SyncStep(before, ids[m], true);
      forall i | 0 <= i < n
        ensures !StatusIn(SyncStep(before, ids[m], true), ids[i]).Update?
      {
        assert ids[i] == (ids[..m] + [ids[m]])[i];
      }
    }
  }

  /** A second saving run over the same distinct episodes updates nothing. */
  lemma {:induction false} SecondSyncUpdatesNothing(c: Snapshot, ids: seq<PostId>, n: nat)
    requires n <= |ids| && Distinct(ids)
    ensures SyncTally(SyncState(c, ids, |ids|, true), ids, n, true).updated == 0
  {
    if n > 0 {
      var first := SyncState(c, ids, |ids|, true);
      var m := n - 1;
      SecondSyncUpdatesNothing(c, ids, m);
      SavedNumberIsSet(c, ids, m);
      TallyStep(first, ids, m, true);
    }
  }

  /** The i-th episode needs no update after a saving run over all of them. */
  lemma SavedNumberIsSet(c: Snapshot, ids: seq<PostId>, i: nat)
    requires i < |ids| && Distinct(ids)
    ensures !StatusIn(SyncState(c, ids, |ids|, true), ids[i]).Update?
  {
    SavedNumbersAreSet(c, ids, |ids|);
  }
}
