/**
 * get_oldest_advance_episode_for_novel: the advance episode of a novel that the next
 * scheduled unlock frees.
 */
module Selection {
  import opened Wrappers
  import opened PhpText
  import opened Snapshots
  import opened Schedules

  /** The schedule supplies the search term: it is for the novel and its term is not empty. */
  predicate SuppliesTerm(s: Schedule, novel: PostId) {
    s.novelId == novel && !IsEmpty(s.searchTerm)
  }

  /** The search term of the first schedule that supplies one. */
  function CustomSearchTerm(schedules: seq<Schedule>, novel: PostId): (r: Option<string>)
    ensures r.None? <==> forall i :: 0 <= i < |schedules| ==> !SuppliesTerm(schedules[i], novel)
    ensures r.Some? ==> exists k :: 0 <= k < |schedules| && SuppliesTerm(schedules[k], novel) &&
                          r.value == schedules[k].searchTerm &&
                          forall i :: 0 <= i < k ==> !SuppliesTerm(schedules[i], novel)
  {
    if schedules == [] then None
    else if SuppliesTerm(schedules[0], novel) then Some(schedules[0].searchTerm)
    else
      var r := CustomSearchTerm(schedules[1..], novel);
      assert forall i :: 1 <= i < |schedules| ==> schedules[i] == schedules[1..][i - 1];
      r
  }

  /** The term episode titles are matched against: the custom term, else the novel's title. */
  function SearchTerm(c: Snapshot, schedules: seq<Schedule>, novel: PostId): (r: string)
    requires novel in c.posts
    ensures CustomSearchTerm(schedules, novel).Some? ==> r == CustomSearchTerm(schedules, novel).value && !IsEmpty(r)
    ensures CustomSearchTerm(schedules, novel).None? ==> r == c.posts[novel].title
  {
    match CustomSearchTerm(schedules, novel)
    case Some(t) => t
    case None => c.posts[novel].title
  }

  /**
   * The post is a visible 'episodes' post in the 'advance' category, its title as
   * get_the_title() shows it contains the term ignoring case, and its 'episode_number'
   * meta is not empty (so not "0").
   */
  predicate Candidate(c: Snapshot, p: PostId, term: string) {
    DefaultVisible(c, p) && c.posts[p].postType == "episodes" && HasTermWithSlug(c, p, "advance") &&
    ContainsIgnoringCase(TitleOf(c, p), term) && !IsEmpty(GetMeta(c, p, EpisodeNumberKey))
  }

  /** intval of the episode's 'episode_number' meta. */
  function EpisodeNumber(c: Snapshot, p: PostId): int {
    IntVal(GetMeta(c, p, EpisodeNumberKey))
  }

  /** The candidate at position k has the smallest number, and no earlier candidate ties it. */
  predicate OldestAt(c: Snapshot, ids: seq<PostId>, term: string, k: int) {
    0 <= k < |ids| && Candidate(c, ids[k], term) &&
    (forall i :: 0 <= i < |ids| && Candidate(c, ids[i], term) ==> EpisodeNumber(c, ids[k]) <= EpisodeNumber(c, ids[i])) &&
    (forall i :: 0 <= i < k && Candidate(c, ids[i], term) ==> EpisodeNumber(c, ids[k]) < EpisodeNumber(c, ids[i]))
  }

  /** One step of the stable sort's first element: the head wins ties against the rest's choice. */
  function Prefer(c: Snapshot, head: PostId, term: string, rest: Option<PostId>): Option<PostId> {
    if !Candidate(c, head, term) then rest
    else if rest.None? || EpisodeNumber(c, head) <= EpisodeNumber(c, rest.value) then Some(head)
    else rest
  }

  lemma PreferStep(c: Snapshot, ids: seq<PostId>, term: string, rest: Option<PostId>)
    requires ids != []
    requires rest.None? <==> forall i :: 0 <= i < |ids| - 1 ==> !Candidate(c, ids[1..][i], term)
    requires rest.Some? ==> exists k :: OldestAt(c, ids[1..], term, k) && ids[1..][k] == rest.value
    ensures var r := Prefer(c, ids[0], term, rest);
      (r.None? <==> forall i :: 0 <= i < |ids| ==> !Candidate(c, ids[i], term)) &&
      (r.Some? ==> exists k :: OldestAt(c, ids, term, k) && ids[k] == r.value)
  {
    var tail := ids[1..];
    assert forall i :: 1 <= i < |ids| ==> ids[i] == tail[i - 1];
    if rest.Some? {
      var k :| OldestAt(c, tail, term, k) && tail[k] == rest.value;
      if Candidate(c, ids[0], term) && EpisodeNumber(c, ids[0]) <= EpisodeNumber(c, rest.value) {
        HeadIsOldest(c, ids, term);
      } else {
        OldestShifts(c, ids, term, k);
      }
    } else if Candidate(c, ids[0], term) {
      HeadIsOldest(c, ids, term);
    }
  }

  /** A candidate head no later-numbered than every candidate after it is the oldest. */
  lemma HeadIsOldest(c: Snapshot, ids: seq<PostId>, term: string)
    requires ids != [] && Candidate(c, ids[0], term)
    requires forall i :: 0 <= i < |ids| - 1 && Candidate(c, ids[1..][i], term) ==>
               EpisodeNumber(c, ids[0]) <= EpisodeNumber(c, ids[1..][i])
    ensures OldestAt(c, ids, term, 0)
  {
    var tail := ids[1..];
    forall i | 0 <= i < |ids| && Candidate(c, ids[i], term)
      ensures EpisodeNumber(c, ids[0]) <= EpisodeNumber(c, ids[i])
    {
      if i > 0 { assert ids[i] == tail[i - 1]; }
    }
  }

  /** The rest's oldest stays the oldest when the head does not beat it. */
  lemma OldestShifts(c: Snapshot, ids: seq<PostId>, term: string, k: int)
    requires ids != [] && OldestAt(c, ids[1..], term, k)
    requires Candidate(c, ids[0], term) ==> EpisodeNumber(c, ids[1..][k]) < EpisodeNumber(c, ids[0])
    ensures OldestAt(c, ids, term, k + 1)
  {
    var tail := ids[1..];
    assert ids[k + 1] == tail[k];
    forall i | 0 <= i < |ids| && Candidate(c, ids[i], term)
      ensures EpisodeNumber(c, ids[k + 1]) <= EpisodeNumber(c, ids[i])
    {
      if i > 0 { assert ids[i] == tail[i - 1]; }
    }
    forall i | 0 <= i < k + 1 && Candidate(c, ids[i], term)
      ensures EpisodeNumber(c, ids[k + 1]) < EpisodeNumber(c, ids[i])
    {
      if i > 0 { assert ids[i] == tail[i - 1]; }
    }
  }

  /**
   * The candidates in query order sorted by number with a stable sort, and the first
   * taken: the earliest candidate among those with the smallest number.
   */
  function OldestCandidate(c: Snapshot, ids: seq<PostId>, term: string): (r: Option<PostId>)
    ensures r.None? <==> forall i :: 0 <= i < |ids| ==> !Candidate(c, ids[i], term)
    ensures r.Some? ==> exists k :: OldestAt(c, ids, term, k) && ids[k] == r.value
  {
    if ids == [] then None
    else
      var rest := OldestCandidate(c, ids[1..], term);
      PreferStep(c, ids, term, rest);
      Prefer(c, ids[0], term, rest)
  }

  /**
   * get_oldest_advance_episode_for_novel: nothing for a missing novel, otherwise the
   * oldest candidate among all posts in query order.
   */
  function OldestAdvanceEpisode(c: Snapshot, schedules: seq<Schedule>, novel: PostId): (r: Option<PostId>)
    ensures novel !in c.posts ==> r.None?
    ensures novel in c.posts ==>
      var term := SearchTerm(c, schedules, novel);
      (r.None? <==> forall i :: 0 <= i < |c.listing| ==> !Candidate(c, c.listing[i], term)) &&
      (r.Some? ==> Candidate(c, r.value, term) &&
                   forall q :: q in c.listing && Candidate(c, q, term) ==> EpisodeNumber(c, r.value) <= EpisodeNumber(c, q)) &&
      (r.Some? ==> exists k :: OldestAt(c, c.listing, term, k) && c.listing[k] == r.value)
  {
    if novel !in c.posts then None
    else
      var r := OldestCandidate(c, c.listing, SearchTerm(c, schedules, novel));
      r
  }

  /** An episode numbered 0 is never chosen, whatever its title and category. */
  lemma EpisodeZeroNeverChosen(c: Snapshot, schedules: seq<Schedule>, novel: PostId)
    requires OldestAdvanceEpisode(c, schedules, novel).Some?
    ensures GetMeta(c, OldestAdvanceEpisode(c, schedules, novel).value, EpisodeNumberKey) != "0"
  {
  }

  /** The store with every post shown under its stored post_title, the_title filters undone. */
  function PostTitlesShown(c: Snapshot): (r: Snapshot)
    ensures r == c.(posts := r.posts) && r.posts.Keys == c.posts.Keys
    ensures forall p :: p in c.posts ==> r.posts[p] == c.posts[p].(shownTitle := c.posts[p].title)
  {
    c.(posts := map p | p in c.posts :: c.posts[p].(shownTitle := c.posts[p].title))
  }

  /**
   * The selector as evidently intended: episode titles are compared as stored, like the
   * novel title the search term falls back to, so the filters cannot hide a match.
   */
  function OldestAdvanceEpisodeByPostTitle(c: Snapshot, schedules: seq<Schedule>, novel: PostId): (r: Option<PostId>)
    ensures novel !in c.posts ==> r.None?
    ensures novel in c.posts ==>
      var term := SearchTerm(c, schedules, novel);
      var raw := PostTitlesShown(c);
      term == SearchTerm(raw, schedules, novel) &&
      (r.None? <==> forall i :: 0 <= i < |c.listing| ==> !Candidate(raw, c.listing[i], term)) &&
      (r.Some? ==> exists k :: OldestAt(raw, c.listing, term, k) && c.listing[k] == r.value)
  {
    OldestAdvanceEpisode(PostTitlesShown(c), schedules, novel)
  }

  /**
   * With the stored titles, an advance episode whose title contains the novel's title is
   * always found (some episode is chosen) when no schedule supplies a custom term.
   */
  lemma ByPostTitleFindsTitledEpisode(c: Snapshot, schedules: seq<Schedule>, novel: PostId, k: nat)
    requires novel in c.posts && CustomSearchTerm(schedules, novel).None?
    requires k < |c.listing| && c.listing[k] in c.posts
    requires var q := c.listing[k];
      DefaultVisible(c, q) && c.posts[q].postType == "episodes" && HasTermWithSlug(c, q, "advance") &&
      ContainsIgnoringCase(c.posts[q].title, c.posts[novel].title) && !IsEmpty(GetMeta(c, q, EpisodeNumberKey))
    ensures OldestAdvanceEpisodeByPostTitle(c, schedules, novel).Some?
  {
    var raw := PostTitlesShown(c);
    var q := c.listing[k];
    assert TitleOf(raw, q) == c.posts[q].title;
    assert HasTermWithSlug(raw, q, "advance");
    assert Candidate(raw, c.listing[k], SearchTerm(c, schedules, novel));
  }

  /**
   * The selector as written: a novel "Hero's Path" with one published advance episode
   * "Hero's Path Episode 3", which get_the_title() shows with the typographic apostrophe
   * of wptexturize. The stored novel title is not found in the shown episode title, so
   * nothing is ever unlocked; with the stored titles episode 3 is chosen.
   */
  lemma TexturizedTitleHidesEpisode()
    ensures OldestAdvanceEpisode(HeroSnapshot(), [], 1) == None
    ensures OldestAdvanceEpisodeByPostTitle(HeroSnapshot(), [], 1) == Some(2)
  {
    var c := HeroSnapshot();
    var term := "Hero's Path";
    assert SearchTerm(c, [], 1) == term;
    var shown := Lower("Hero&#8217;s Path Episode 3");
    var needle := Lower(term);
    assert needle[4] == '\'';
    assert forall m :: 0 <= m < |shown| ==> shown[m] != '\'';
    assert !ContainsIgnoringCase(TitleOf(c, 2), term);
    assert !Candidate(c, c.listing[1], term);
    assert !Candidate(c, c.listing[0], term);
    StoredTitleFindsHeroEpisode();
  }

  /** A novel "Hero's Path" and its advance episode 3, whose shown titles are texturized. */
  function HeroSnapshot(): Snapshot {
    Snapshot(
      map[1 := Post("Hero's Path", "Hero&#8217;s Path", "novels", "publish"),
          2 := Post("Hero's Path Episode 3", "Hero&#8217;s Path Episode 3", "episodes", "publish")],
      [1, 2], [Term("Advance", "advance")], map[2 := {0}], map[2 := map[EpisodeNumberKey := "3"]],
      map[], map[], false)
  }

  /** With the stored titles compared, episode 3 of "Hero's Path" is found. */
  lemma StoredTitleFindsHeroEpisode()
    ensures OldestAdvanceEpisodeByPostTitle(HeroSnapshot(), [], 1) == Some(2)
  {
    var c := HeroSnapshot();
    var term := "Hero's Path";
    assert SearchTerm(c, [], 1) == term;
    var needle := Lower(term);
    var raw := PostTitlesShown(c);
    assert Lower(TitleOf(raw, 2))[0..|needle|] == needle;
    assert OccursAt(Lower(TitleOf(raw, 2)), needle, 0);
    assert 0 in raw.postTerms[2] && raw.terms[0].slug == "advance";
    assert Candidate(raw, raw.listing[1], term);
    assert !Candidate(raw, raw.listing[0], term);
  }
}
