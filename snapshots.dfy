/**
 * The WordPress data the core reads and writes, as one value: posts, the
 * 'chapter-categories' taxonomy, post terms, post meta, ACF fields and each novel's
 * next unlock date, with the WordPress calls the core makes on them.
 */
module Snapshots {
  import opened Wrappers
  import opened Calendar

  type PostId = int

  /** A term's id is its position in the taxonomy's term table. */
  type TermId = nat

  /**
   * A post: its stored post_title, the title get_the_title() shows (post_title after the
   * 'the_title' filters such as wptexturize, which are not modelled and so are data here),
   * its post type and its post_status ("publish", "draft", "trash", ...).
   */
  datatype Post = Post(title: string, shownTitle: string, postType: string, status: string)

  datatype Term = Term(name: string, slug: string)

  datatype Snapshot = Snapshot(
    posts: map<PostId, Post>,
    listing: seq<PostId>,                      // all posts, newest first; each query filters it
    terms: seq<Term>,                          // the 'chapter-categories' term table
    postTerms: map<PostId, set<TermId>>,       // each post's 'chapter-categories' terms
    meta: map<PostId, map<string, string>>,    // post meta, one value per key
    fields: map<PostId, map<string, string>>,  // ACF fields (update_field)
    due: map<PostId, Moment>,                  // each novel's 'gpc_next_unlock_date'
    inAdmin: bool)                             // is_admin() with an administrator logged in, not cron

  const TierLevelKey := "_ppwp_patreon_level"
  const PatreonLevelKey := "patreon-level"
  const EpisodeNumberKey := "episode_number"

  /** No post id occurs twice. */
  predicate Distinct(ids: seq<PostId>) {
    forall i, j :: 0 <= i < j < |ids| ==> ids[i] != ids[j]
  }

  /**
   * A post WP_Query returns when no post_status is given: a published one; inside the
   * admin also the statuses listed under "All" there ('draft', 'pending', 'future') and,
   * since the admin pages need manage_options, 'private'.
   */
  predicate DefaultVisible(c: Snapshot, p: PostId) {
    p in c.posts &&
    (c.posts[p].status == "publish" ||
     (c.inAdmin && c.posts[p].status in {"draft", "pending", "future", "private"}))
  }

  /** A post WP_Query returns for post_status 'any': every status but 'trash' and 'auto-draft'. */
  predicate AnyStatus(c: Snapshot, p: PostId) {
    p in c.posts && c.posts[p].status != "trash" && c.posts[p].status != "auto-draft"
  }

  /** get_the_title: the post's filtered title ("" for an id that is not a post). */
  function TitleOf(c: Snapshot, p: PostId): string {
    if p in c.posts then c.posts[p].shownTitle else ""
  }

  function PostMeta(c: Snapshot, p: PostId): map<string, string> {
    if p in c.meta then c.meta[p] else map[]
  }

  predicate HasMeta(c: Snapshot, p: PostId, key: string) { key in PostMeta(c, p) }

  /** get_post_meta($p, $key, true): the stored value, or "" when there is none. */
  function GetMeta(c: Snapshot, p: PostId, key: string): string {
    if key in PostMeta(c, p) then PostMeta(c, p)[key] else ""
  }

  /** update_post_meta. */
  function UpdateMeta(c: Snapshot, p: PostId, key: string, value: string): (r: Snapshot)
    ensures GetMeta(r, p, key) == value && HasMeta(r, p, key)
    ensures forall k :: k != key ==> HasMeta(r, p, k) == HasMeta(c, p, k) && GetMeta(r, p, k) == GetMeta(c, p, k)
    ensures r.meta - {p} == c.meta - {p}
    ensures r == c.(meta := r.meta)
  {
    c.(meta := c.meta[p := PostMeta(c, p)[key := value]])
  }

  /** delete_post_meta. */
  function DeleteMeta(c: Snapshot, p: PostId, key: string): (r: Snapshot)
    ensures !HasMeta(r, p, key) && GetMeta(r, p, key) == ""
    ensures forall k :: k != key ==> HasMeta(r, p, k) == HasMeta(c, p, k) && GetMeta(r, p, k) == GetMeta(c, p, k)
    ensures r.meta - {p} == c.meta - {p}
    ensures r == c.(meta := r.meta)
  {
    c.(meta := c.meta[p := PostMeta(c, p) - {key}])
  }

  function PostFields(c: Snapshot, p: PostId): map<string, string> {
    if p in c.fields then c.fields[p] else map[]
  }

  /** update_field($name, $value, $p). */
  function UpdateField(c: Snapshot, p: PostId, name: string, value: string): (r: Snapshot)
    ensures p in r.fields && name in r.fields[p] && r.fields[p][name] == value
    ensures PostFields(r, p) == PostFields(c, p)[name := value]
    ensures r.fields - {p} == c.fields - {p}
    ensures r == c.(fields := r.fields)
  {
    c.(fields := c.fields[p := PostFields(c, p)[name := value]])
  }

  /** wp_set_object_terms($p, [$t], 'chapter-categories', false): the post's terms become exactly {t}. */
  function SetTerms(c: Snapshot, p: PostId, t: TermId): (r: Snapshot)
    ensures p in r.postTerms && r.postTerms[p] == {t}
    ensures r.postTerms - {p} == c.postTerms - {p}
    ensures r == c.(postTerms := r.postTerms)
  {
    c.(postTerms := c.postTerms[p := {t}])
  }

  datatype TermField = ByName | BySlug

  function TermKey(t: Term, field: TermField): string {
    match field
    case ByName => t.name
    case BySlug => t.slug
  }

  /** get_term_by($field, $value, 'chapter-categories'): the lowest-numbered term that matches. */
  function GetTermBy(terms: seq<Term>, field: TermField, value: string): (r: Option<TermId>)
    ensures r.Some? ==> r.value < |terms| && TermKey(terms[r.value], field) == value &&
                        forall j :: 0 <= j < r.value ==> TermKey(terms[j], field) != value
    ensures r.None? ==> forall j :: 0 <= j < |terms| ==> TermKey(terms[j], field) != value
  {
    if terms == [] then None
    else
      var earlier := GetTermBy(terms[..|terms| - 1], field, value);
      if earlier.Some? then earlier
      else if TermKey(terms[|terms| - 1], field) == value then Some(|terms| - 1)
      else None
  }

  /** A term appended to the table is found only when no earlier term matches. */
  lemma GetTermByAppend(terms: seq<Term>, t: Term, field: TermField, value: string)
    ensures GetTermBy(terms + [t], field, value) ==
      if GetTermBy(terms, field, value).Some? then GetTermBy(terms, field, value)
      else if TermKey(t, field) == value then Some(|terms|)
      else None
  {
    assert (terms + [t])[..|terms + [t]| - 1] == terms;
  }

  /**
   * wp_insert_term($name, 'chapter-categories'): a new term at the end of the table.
   * Its slug is the lower-case name, or that slug with "-2" when the slug is taken.
   */
  function InsertTerm(c: Snapshot, name: string, slug: string): (r: (Snapshot, TermId))
    ensures r.1 == |c.terms| && |r.0.terms| == |c.terms| + 1
    ensures r.0 == c.(terms := c.terms + [r.0.terms[r.1]])
    ensures r.0.terms[r.1].name == name
    ensures r.0.terms[r.1].slug == slug || r.0.terms[r.1].slug == slug + "-2"
    ensures r.0.terms[r.1].slug == slug <==> GetTermBy(c.terms, BySlug, slug).None?
  {
    var unique := if GetTermBy(c.terms, BySlug, slug).None? then slug else slug + "-2";
    (c.(terms := c.terms + [Term(name, unique)]), |c.terms|)
  }

  /** The post carries a 'chapter-categories' term with the given slug. */
  predicate HasTermWithSlug(c: Snapshot, p: PostId, slug: string) {
    p in c.postTerms && exists t | t in c.postTerms[p] :: t < |c.terms| && c.terms[t].slug == slug
  }
}
