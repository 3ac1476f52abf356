/**
 * The access-state appliers: unlock_episode (the scheduled path), update_patreon_plugin_access
 * and the WordPress side of execute_episode_action (the command path).
 */
module Access {
  import opened Wrappers
  import opened PhpText
  import opened Snapshots
  import opened GeminiReply
  import Patreon

  /** The plugin settings the command path reads with get_option. */
  datatype Config = Config(
    episodeMetaKey: string,   // gpc_episode_number_meta, default 'episode_number'
    patreonMetaKey: string,   // gpc_patreon_post_meta, default 'patreon_post_id'
    acfFieldName: string,     // gpc_acf_field_type, default 'section'
    silverTierId: string,     // gpc_patreon_silver_tier_id
    accessToken: string)      // gpc_patreon_access_token

  /** The term unlock_episode assigns: the first term named 'Free', else a newly inserted one. */
  function FreeTermForUnlock(c: Snapshot): (r: (Snapshot, TermId))
    ensures r.1 < |r.0.terms| && r.0.terms[r.1].name == "Free"
    ensures r.0 == c || (r.0 == c.(terms := c.terms + [r.0.terms[r.1]]) && r.1 == |c.terms|)
    ensures r.0.terms[r.1].slug != "advance" || r.0 == c
    ensures GetTermBy(r.0.terms, ByName, "Free") == Some(r.1)
  {
    match GetTermBy(c.terms, ByName, "Free")
    case Some(t) => (c, t)
    case None =>
      var (c', t) := InsertTerm(c, "Free", "free");
      GetTermByAppend(c.terms, c'.terms[t], ByName, "Free");
      (c', t)
  }

  /**
   * The tier gate cleared, as both appliers do for 'free': '_ppwp_patreon_level' and
   * 'patreon-level' deleted, then 'patreon-level' set to "0".
   */
  function ClearGate(c: Snapshot, p: PostId): (r: Snapshot)
    ensures !HasMeta(r, p, TierLevelKey) && HasMeta(r, p, PatreonLevelKey) && GetMeta(r, p, PatreonLevelKey) == "0"
    ensures forall k :: k != TierLevelKey && k != PatreonLevelKey ==>
              HasMeta(r, p, k) == HasMeta(c, p, k) && GetMeta(r, p, k) == GetMeta(c, p, k)
    ensures r == c.(meta := r.meta) && r.meta - {p} == c.meta - {p}
  {
    UpdateMeta(DeleteMeta(DeleteMeta(c, p, TierLevelKey), p, PatreonLevelKey), p, PatreonLevelKey, "0")
  }

  /** Clearing a gate that is already cleared changes nothing. */
  lemma ClearGateWhenCleared(c: Snapshot, p: PostId)
    requires !HasMeta(c, p, TierLevelKey) && HasMeta(c, p, PatreonLevelKey) && GetMeta(c, p, PatreonLevelKey) == "0"
    ensures ClearGate(c, p) == c
  {
    var r := ClearGate(c, p);
    assert PostMeta(r, p) == PostMeta(c, p);
    assert r.meta == c.meta;
  }

  /**
   * unlock_episode: the post's terms become exactly {Free}, the Patreon plugin's tier
   * gate is cleared, and with ACF the hard-coded field 'section' is set to "free".
   * Nothing else changes, except that a missing 'Free' term is created.
   */
  function UnlockEpisode(c: Snapshot, acfActive: bool, p: PostId): (r: Snapshot)
    ensures p in r.postTerms && |r.postTerms[p]| == 1
    ensures forall t :: t in r.postTerms[p] ==> t < |r.terms| && r.terms[t].name == "Free"
    ensures !HasMeta(r, p, TierLevelKey) && GetMeta(r, p, PatreonLevelKey) == "0"
    ensures forall k :: k != TierLevelKey && k != PatreonLevelKey ==>
              HasMeta(r, p, k) == HasMeta(c, p, k) && GetMeta(r, p, k) == GetMeta(c, p, k)
    ensures acfActive ==> p in r.fields && "section" in r.fields[p] && r.fields[p]["section"] == "free"
    ensures acfActive ==> PostFields(r, p) == PostFields(c, p)["section" := "free"]
    ensures !acfActive ==> r.fields == c.fields
    ensures r.postTerms - {p} == c.postTerms - {p}
    ensures r.meta - {p} == c.meta - {p}
    ensures r.fields - {p} == c.fields - {p}
    ensures r.posts == c.posts && r.listing == c.listing && r.due == c.due
    ensures |c.terms| <= |r.terms| && r.terms[..|c.terms|] == c.terms
  {
    var c3 := FreeAndClear(c, p);
    if acfActive then UpdateField(c3, p, "section", "free") else c3
  }

  /** The 'Free' term replaces the post's terms, then the tier gate is cleared. */
  function FreeAndClear(c: Snapshot, p: PostId): (r: Snapshot)
    ensures r.terms == FreeTermForUnlock(c).0.terms && p in r.postTerms && r.postTerms[p] == {FreeTermForUnlock(c).1}
    ensures r.postTerms - {p} == c.postTerms - {p}
    ensures r.meta == ClearGate(c, p).meta
    ensures r.posts == c.posts && r.listing == c.listing && r.due == c.due && r.fields == c.fields
  {
    var (c1, t) := FreeTermForUnlock(c);
    var c2 := SetTerms(c1, p, t);
    assert c2 == c.(terms := c1.terms, postTerms := c2.postTerms);
    ClearGateMetaOnly(c, c2, p);
    ClearGate(c2, p)
  }

  /** Clearing the gate reads and writes only post meta. */
  lemma ClearGateMetaOnly(c: Snapshot, c2: Snapshot, p: PostId)
    requires c2.meta == c.meta
    ensures ClearGate(c2, p).meta == ClearGate(c, p).meta
  {
    var a1, b1 := DeleteMeta(c, p, TierLevelKey), DeleteMeta(c2, p, TierLevelKey);
    assert b1.meta == a1.meta;
    var a2, b2 := DeleteMeta(a1, p, PatreonLevelKey), DeleteMeta(b1, p, PatreonLevelKey);
    assert b2.meta == a2.meta;
  }

  /** Assigning a post the single term it already has changes nothing. */
  lemma SetTermsWhenSet(c: Snapshot, p: PostId, t: TermId)
    requires p in c.postTerms && c.postTerms[p] == {t}
    ensures SetTerms(c, p, t) == c
  {
    assert c.postTerms[p := {t}] == c.postTerms;
  }

  /** Setting a field to the value it already holds changes nothing. */
  lemma UpdateFieldWhenSet(c: Snapshot, p: PostId, name: string, value: string)
    requires p in c.fields && name in c.fields[p] && c.fields[p][name] == value
    ensures UpdateField(c, p, name, value) == c
  {
    assert PostFields(c, p)[name := value] == PostFields(c, p);
    assert c.fields[p := PostFields(c, p)[name := value]] == c.fields;
  }

  /** Unlocking twice is the same as unlocking once. */
  lemma UnlockEpisodeIdempotent(c: Snapshot, acfActive: bool, p: PostId)
    ensures UnlockEpisode(UnlockEpisode(c, acfActive, p), acfActive, p) == UnlockEpisode(c, acfActive, p)
  {
    var once := UnlockEpisode(c, acfActive, p);
    var (c1, t) := FreeTermForUnlock(c);
    assert once.terms == c1.terms;
    assert FreeTermForUnlock(once) == (once, t);
    assert once.postTerms[p] == {t};
    SetTermsWhenSet(once, p, t);
    assert HasMeta(once, p, PatreonLevelKey);
    ClearGateWhenCleared(once, p);
    if acfActive {
      UpdateFieldWhenSet(once, p, "section", "free");
    }
  }

  /**
   * update_patreon_plugin_access: 'free' clears the tier gate; any other access type
   * sets both keys to the configured tier, or changes nothing when no tier is configured.
   */
  function PluginAccess(c: Snapshot, p: PostId, accessType: string, tierId: string): (r: Snapshot)
    ensures accessType == "free" ==> !HasMeta(r, p, TierLevelKey) && GetMeta(r, p, PatreonLevelKey) == "0"
    ensures accessType != "free" && !IsEmpty(tierId) ==>
              GetMeta(r, p, TierLevelKey) == tierId && GetMeta(r, p, PatreonLevelKey) == tierId
    ensures accessType != "free" && IsEmpty(tierId) ==> r == c
    ensures forall k :: k != TierLevelKey && k != PatreonLevelKey ==>
              HasMeta(r, p, k) == HasMeta(c, p, k) && GetMeta(r, p, k) == GetMeta(c, p, k)
    ensures r == c.(meta := r.meta) && r.meta - {p} == c.meta - {p}
  {
    if accessType == "free" then ClearGate(c, p)
    else if IsEmpty(tierId) then c
    else UpdateMeta(UpdateMeta(c, p, TierLevelKey, tierId), p, PatreonLevelKey, tierId)
  }

  /** Making an episode advance and then free leaves exactly what making it free leaves. */
  lemma AdvanceThenFree(c: Snapshot, p: PostId, tierId: string)
    ensures PluginAccess(PluginAccess(c, p, "advance", tierId), p, "free", tierId) == PluginAccess(c, p, "free", tierId)
  {
    var a := PluginAccess(c, p, "advance", tierId);
    var lhs := PluginAccess(a, p, "free", tierId);
    var rhs := PluginAccess(c, p, "free", tierId);
    assert PostMeta(lhs, p) == PostMeta(rhs, p);
    assert lhs.meta == rhs.meta;
  }

  /** Making an episode free twice is the same as once. */
  lemma FreeIdempotent(c: Snapshot, p: PostId, tierId: string)
    ensures PluginAccess(PluginAccess(c, p, "free", tierId), p, "free", tierId) == PluginAccess(c, p, "free", tierId)
  {
    ClearGateWhenCleared(PluginAccess(c, p, "free", tierId), p);
  }

  /** The scheduled unlock leaves the same post meta as the command path's 'free' branch. */
  lemma UnlockMetaMatchesFreeCommand(c: Snapshot, acfActive: bool, p: PostId, tierId: string)
    ensures UnlockEpisode(c, acfActive, p).meta == PluginAccess(c, p, "free", tierId).meta
  {
    var u := UnlockEpisode(c, acfActive, p);
    var f := PluginAccess(c, p, "free", tierId);
    assert PostMeta(u, p) == PostMeta(f, p);
  }

  /**
   * The term execute_episode_action assigns: looked up by name ('Advance' or 'Free'),
   * then by slug ('advance' or 'free'), and inserted when neither exists.
   */
  function AccessTerm(c: Snapshot, accessType: string): (r: (Snapshot, TermId))
    ensures var (name, slug) := TermNames(accessType);
      r.1 < |r.0.terms| && (r.0.terms[r.1].name == name || r.0.terms[r.1].slug == slug)
    ensures r.0 == c || (r.0 == c.(terms := c.terms + [r.0.terms[r.1]]) && r.1 == |c.terms|)
    ensures r.0 != c <==> (GetTermBy(c.terms, ByName, TermNames(accessType).0).None? &&
                           GetTermBy(c.terms, BySlug, TermNames(accessType).1).None?)
    ensures var byName := GetTermBy(c.terms, ByName, TermNames(accessType).0);
      byName.Some? ==> r == (c, byName.value)
    ensures var byName := GetTermBy(c.terms, ByName, TermNames(accessType).0);
            var bySlug := GetTermBy(c.terms, BySlug, TermNames(accessType).1);
      byName.None? && bySlug.Some? ==> r == (c, bySlug.value)
    ensures GetTermBy(c.terms, ByName, TermNames(accessType).0).None? &&
            GetTermBy(c.terms, BySlug, TermNames(accessType).1).None? ==>
      r == InsertTerm(c, TermNames(accessType).0, TermNames(accessType).1)
  {
    var (name, slug) := TermNames(accessType);
    match GetTermBy(c.terms, ByName, name)
    case Some(t) => (c, t)
    case None =>
      match GetTermBy(c.terms, BySlug, slug)
      case Some(t) => (c, t)
      case None => InsertTerm(c, name, slug)
  }

  function TermNames(accessType: string): (string, string) {
    if accessType == "advance" then ("Advance", "advance") else ("Free", "free")
  }

  /** The first episode, in query order, whose number meta reads exactly the number. */
  function FindEpisodeByNumber(c: Snapshot, ids: seq<PostId>, key: string, n: int): (r: Option<PostId>)
    ensures r.None? <==> forall i :: 0 <= i < |ids| ==> !NumberedEpisode(c, ids[i], key, n)
    ensures r.Some? ==> exists k :: 0 <= k < |ids| && ids[k] == r.value && NumberedEpisode(c, r.value, key, n) &&
                          forall i :: 0 <= i < k ==> !NumberedEpisode(c, ids[i], key, n)
  {
    if ids == [] then None
    else if NumberedEpisode(c, ids[0], key, n) then Some(ids[0])
    else
      var r := FindEpisodeByNumber(c, ids[1..], key, n);
      assert forall i :: 1 <= i < |ids| ==> ids[i] == ids[1..][i - 1];
      r
  }

  /** A visible 'episodes' post whose meta under key is n as a string (the meta_query '=' compare). */
  predicate NumberedEpisode(c: Snapshot, p: PostId, key: string, n: int) {
    DefaultVisible(c, p) && c.posts[p].postType == "episodes" && GetMeta(c, p, key) == IntToString(n)
  }

  datatype ActionError = MissingFields | InvalidAccessType | EpisodeNotFound(episodeNumber: int)

  datatype PatreonStep =
    | NoPatreonPost
    | PatreonCall(patreonPostId: string, request: Option<Patreon.Payload>, outcome: Patreon.Outcome)

  datatype ActionResult =
    | Failed(error: ActionError)
    | Updated(episodeNumber: int, post: PostId, accessType: string, patreon: PatreonStep)

  /**
   * The WordPress writes of execute_episode_action once the episode is found: the
   * access term replaces the post's terms, the plugin gate follows the access type,
   * and with ACF the configured field is set to the access type.
   */
  function ApplyAccess(c: Snapshot, cfg: Config, acfActive: bool, p: PostId, access: string): (r: Snapshot)
    ensures p in r.postTerms && |r.postTerms[p]| == 1
    ensures forall t :: t in r.postTerms[p] ==>
              t < |r.terms| && (r.terms[t].name == TermNames(access).0 || r.terms[t].slug == TermNames(access).1)
    ensures access == "free" ==> !HasMeta(r, p, TierLevelKey) && GetMeta(r, p, PatreonLevelKey) == "0"
    ensures access != "free" && !IsEmpty(cfg.silverTierId) ==>
              GetMeta(r, p, TierLevelKey) == cfg.silverTierId && GetMeta(r, p, PatreonLevelKey) == cfg.silverTierId
    ensures access != "free" && IsEmpty(cfg.silverTierId) ==>
              HasMeta(r, p, TierLevelKey) == HasMeta(c, p, TierLevelKey) &&
              GetMeta(r, p, TierLevelKey) == GetMeta(c, p, TierLevelKey) &&
              HasMeta(r, p, PatreonLevelKey) == HasMeta(c, p, PatreonLevelKey) &&
              GetMeta(r, p, PatreonLevelKey) == GetMeta(c, p, PatreonLevelKey)
    ensures forall k :: k != TierLevelKey && k != PatreonLevelKey ==>
              HasMeta(r, p, k) == HasMeta(c, p, k) && GetMeta(r, p, k) == GetMeta(c, p, k)
    ensures r.terms == AccessTerm(c, access).0.terms && r.postTerms[p] == {AccessTerm(c, access).1}
    ensures acfActive ==> p in r.fields && cfg.acfFieldName in r.fields[p] && r.fields[p][cfg.acfFieldName] == access
    ensures acfActive ==> PostFields(r, p) == PostFields(c, p)[cfg.acfFieldName := access]
    ensures !acfActive ==> r.fields == c.fields
    ensures r.postTerms - {p} == c.postTerms - {p}
    ensures r.meta - {p} == c.meta - {p}
    ensures r.fields - {p} == c.fields - {p}
    ensures r.posts == c.posts && r.listing == c.listing && r.due == c.due
    ensures |c.terms| <= |r.terms| && r.terms[..|c.terms|] == c.terms
  {
    var c3 := TermAndGate(c, p, access, cfg.silverTierId);
    assert PostMeta(c3, p) == PostMeta(PluginAccess(c, p, access, cfg.silverTierId), p);
    if acfActive then UpdateField(c3, p, cfg.acfFieldName, access) else c3
  }

  /** The access term replaces the post's terms, then the plugin gate follows the access type. */
  function TermAndGate(c: Snapshot, p: PostId, access: string, tierId: string): (r: Snapshot)
    ensures r.terms == AccessTerm(c, access).0.terms && p in r.postTerms && r.postTerms[p] == {AccessTerm(c, access).1}
    ensures r.postTerms - {p} == c.postTerms - {p}
    ensures r.meta == PluginAccess(c, p, access, tierId).meta
    ensures r.posts == c.posts && r.listing == c.listing && r.due == c.due && r.fields == c.fields
  {
    var (c1, t) := AccessTerm(c, access);
    var c2 := SetTerms(c1, p, t);
    assert c2 == c.(terms := c1.terms, postTerms := c2.postTerms);
    PluginAccessMetaOnly(c, c2, p, access, tierId);
    PluginAccess(c2, p, access, tierId)
  }

  /** The plugin gate reads and writes only post meta. */
  lemma PluginAccessMetaOnly(c: Snapshot, c2: Snapshot, p: PostId, access: string, tierId: string)
    requires c2.meta == c.meta
    ensures PluginAccess(c2, p, access, tierId).meta == PluginAccess(c, p, access, tierId).meta
  {
    if access == "free" {
      ClearGateMetaOnly(c, c2, p);
    } else if !IsEmpty(tierId) {
      var a1, b1 := UpdateMeta(c, p, TierLevelKey, tierId), UpdateMeta(c2, p, TierLevelKey, tierId);
      assert b1.meta == a1.meta;
      assert UpdateMeta(b1, p, PatreonLevelKey, tierId).meta == UpdateMeta(a1, p, PatreonLevelKey, tierId).meta;
    }
  }

  /** The Patreon step: called only when the post records a Patreon post id. */
  function PatreonStepFor(patreonPostId: string, cfg: Config, access: string, response: Patreon.HttpResponse)
    : (r: PatreonStep)
    ensures r.NoPatreonPost? <==> IsEmpty(patreonPostId)
    ensures r.PatreonCall? ==> r.patreonPostId == patreonPostId
    ensures r.PatreonCall? ==> (r.request.Some? <==> !IsEmpty(cfg.accessToken))
    ensures r.PatreonCall? && r.request.Some? ==> r.request.value.postId == patreonPostId && r.request.value.isPublic == (access == "free")
    ensures r.PatreonCall? ==> (Patreon.Succeeded(r.outcome) <==> !IsEmpty(cfg.accessToken) && response.HttpStatus? && response.code == 200)
  {
    if IsEmpty(patreonPostId) then NoPatreonPost
    else
      var (request, outcome) := Patreon.UpdatePostAccess(cfg.accessToken, patreonPostId, access, response);
      PatreonCall(patreonPostId, request, outcome)
  }

  /** The command is well formed: both fields present and the access type 'free' or 'advance'. */
  predicate ValidCommand(cmd: Command) {
    cmd.episodeNumber.Some? && cmd.accessType.Some? &&
    (cmd.accessType.value == "free" || cmd.accessType.value == "advance")
  }

  /**
   * execute_episode_action for the command decoded from the model's reply; `response`
   * is what the Patreon API answers, if it is called.
   */
  function ExecuteEpisodeAction(c: Snapshot, cfg: Config, acfActive: bool, cmd: Command, response: Patreon.HttpResponse)
    : (r: (Snapshot, ActionResult))
    ensures r.1.Failed? <==>
      !ValidCommand(cmd) || FindEpisodeByNumber(c, c.listing, cfg.episodeMetaKey, cmd.episodeNumber.value).None?
    ensures r.1 == Failed(MissingFields) <==> cmd.episodeNumber.None? || cmd.accessType.None?
    ensures r.1 == Failed(InvalidAccessType) <==>
      cmd.episodeNumber.Some? && cmd.accessType.Some? &&
      cmd.accessType.value != "free" && cmd.accessType.value != "advance"
    ensures r.1.Failed? && r.1 != Failed(MissingFields) && r.1 != Failed(InvalidAccessType) ==>
      r.1 == Failed(EpisodeNotFound(cmd.episodeNumber.value))
    ensures r.1.Failed? ==> r.0 == c
    ensures r.1.Updated? ==>
      r.1.accessType == cmd.accessType.value && r.1.episodeNumber == cmd.episodeNumber.value &&
      Some(r.1.post) == FindEpisodeByNumber(c, c.listing, cfg.episodeMetaKey, cmd.episodeNumber.value) &&
      r.0 == ApplyAccess(c, cfg, acfActive, r.1.post, r.1.accessType) &&
      r.1.patreon == PatreonStepFor(GetMeta(r.0, r.1.post, cfg.patreonMetaKey), cfg, r.1.accessType, response)
  {
    if cmd.episodeNumber.None? || cmd.accessType.None? then (c, Failed(MissingFields))
    else
      var n := cmd.episodeNumber.value;
      var access := cmd.accessType.value;
      if access != "free" && access != "advance" then (c, Failed(InvalidAccessType))
      else match FindEpisodeByNumber(c, c.listing, cfg.episodeMetaKey, n)
        case None => (c, Failed(EpisodeNotFound(n)))
        case Some(p) =>
          var c' := ApplyAccess(c, cfg, acfActive, p, access);
          (c', Updated(n, p, access, PatreonStepFor(GetMeta(c', p, cfg.patreonMetaKey), cfg, access, response)))
  }

  /** The command succeeds or fails, and changes the same data, whatever the Patreon API answers. */
  lemma PatreonAnswerDoesNotDecide(c: Snapshot, cfg: Config, acfActive: bool, cmd: Command,
                                   r1: Patreon.HttpResponse, r2: Patreon.HttpResponse)
    ensures ExecuteEpisodeAction(c, cfg, acfActive, cmd, r1).0 == ExecuteEpisodeAction(c, cfg, acfActive, cmd, r2).0
    ensures ExecuteEpisodeAction(c, cfg, acfActive, cmd, r1).1.Updated? == ExecuteEpisodeAction(c, cfg, acfActive, cmd, r2).1.Updated?
  {
  }

  /**
   * With a term named 'Free' in place and the ACF field configured as 'section', the
   * command path's 'free' writes are exactly the scheduled unlock's.
   */
  lemma FreeCommandMatchesUnlock(c: Snapshot, cfg: Config, acfActive: bool, p: PostId)
    requires GetTermBy(c.terms, ByName, "Free").Some? && cfg.acfFieldName == "section"
    ensures ApplyAccess(c, cfg, acfActive, p, "free") == UnlockEpisode(c, acfActive, p)
  {
    var t := GetTermBy(c.terms, ByName, "Free").value;
    assert AccessTerm(c, "free") == (c, t);
    assert FreeTermForUnlock(c) == (c, t);
    var c2 := SetTerms(c, p, t);
    assert PluginAccess(c2, p, "free", cfg.silverTierId) == ClearGate(c2, p);
  }

  /**
   * Once unlocked, an episode carries no 'advance' term, unless the 'Free' term found by
   * name itself has the slug 'advance'.
   */
  lemma UnlockedEpisodeLeavesAdvance(c: Snapshot, acfActive: bool, p: PostId)
    requires GetTermBy(c.terms, ByName, "Free").Some? ==> c.terms[GetTermBy(c.terms, ByName, "Free").value].slug != "advance"
    ensures !HasTermWithSlug(UnlockEpisode(c, acfActive, p), p, "advance")
  {
    var r := UnlockEpisode(c, acfActive, p);
    var (c1, t) := FreeTermForUnlock(c);
    assert r.terms == c1.terms && r.postTerms[p] == {t};
    assert c1.terms[t].slug != "advance";
  }
}
