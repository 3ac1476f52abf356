/**
 * extract_episode_number: the episode number read from a post title by trying a fixed,
 * priority-ordered list of regular expressions, the first that matches anywhere winning.
 */
module EpisodeNumbers {
  import opened Wrappers
  import opened PhpText

  /**
   * The two shapes of pattern in the list. Labelled(word, minSpaces) is
   * /word\s{minSpaces,}(\d+)/i with a lower-case word; TrailingNumber is /\b(\d+)\s*$/.
   */
  datatype Pattern = Labelled(word: string, minSpaces: nat) | TrailingNumber

  /** /Episode\s+(\d+)/i, /Ep\s+(\d+)/i, /Chapter\s+(\d+)/i, /\b(\d+)\s*$/, /#\s*(\d+)/ in that order. */
  const Patterns: seq<Pattern> :=
    [Labelled("episode", 1), Labelled("ep", 1), Labelled("chapter", 1), TrailingNumber, Labelled("#", 0)]

  /**
   * The value of the captured digits when the pattern matches starting at position i.
   * Greedy \s and \d runs cannot backtrack into a match, so each match is decided by
   * the maximal runs that follow the word.
   */
  function MatchAt(p: Pattern, s: string, i: nat): Option<nat>
    requires i <= |s|
  {
    match p
    case Labelled(word, minSpaces) =>
      if i + |word| <= |s| && Lower(s[i..i + |word|]) == word then
        var j := i + |word|;
        var k := j + SpaceRun(s, j);
        var d := DigitRun(s, k);
        if k - j >= minSpaces && d > 0 then Some(DigitsValue(s[k..k + d])) else None
      else None
    case TrailingNumber =>
      var d := DigitRun(s, i);
      if d > 0 && (i == 0 || !IsWordChar(s[i - 1])) && AllSpace(s[i + d..])
      then Some(DigitsValue(s[i..i + d]))
      else None
  }

  /** The outcome of trying p at every position of s, from 0 to |s|. */
  function Matches(p: Pattern, s: string): (ms: seq<Option<nat>>)
    ensures |ms| == |s| + 1 && forall k :: 0 <= k <= |s| ==> ms[k] == MatchAt(p, s, k)
  {
    seq(|s| + 1, k requires 0 <= k <= |s| => MatchAt(p, s, k))
  }

  /** The first entry of ms at or after position i that is a match. */
  function FirstSome(ms: seq<Option<nat>>, i: nat): (r: Option<nat>)
    requires i <= |ms|
    ensures r.None? <==> forall k :: i <= k < |ms| ==> ms[k].None?
    ensures r.Some? ==> exists k :: i <= k < |ms| && ms[k] == r && forall k' :: i <= k' < k ==> ms[k'].None?
    decreases |ms| - i
  {
    if i == |ms| then None
    else if ms[i].Some? then ms[i]
    else FirstSome(ms, i + 1)
  }

  /** preg_match: the leftmost match of p in s, if p matches anywhere. */
  function FirstMatch(p: Pattern, s: string): (r: Option<nat>)
    ensures r.None? <==> NeverMatches(p, s)
    ensures r.Some? ==> exists k :: LeftmostMatch(p, s, k, r.value)
  {
    var ms := Matches(p, s);
    var r := FirstSome(ms, 0);
    if r.Some? then
      var k :| 0 <= k < |ms| && ms[k] == r && forall k' :: 0 <= k' < k ==> ms[k'].None?;
      assert LeftmostMatch(p, s, k, r.value);
      r
    else r
  }

  /** No position of the title matches p. */
  predicate NeverMatches(p: Pattern, title: string) {
    forall k :: 0 <= k <= |title| ==> MatchAt(p, title, k).None?
  }

  /** The leftmost match of p in the title is at position k and has value v. */
  predicate LeftmostMatch(p: Pattern, title: string, k: nat, v: nat) {
    k <= |title| && MatchAt(p, title, k) == Some(v) &&
    forall k' :: 0 <= k' < k ==> MatchAt(p, title, k').None?
  }

  /** Tries the patterns of ps in order; the first one that matches anywhere decides. */
  function ExtractWith(ps: seq<Pattern>, title: string): (r: Option<nat>)
    ensures r.None? <==> forall q :: 0 <= q < |ps| ==> NeverMatches(ps[q], title)
    ensures r.Some? ==> exists q, k :: 0 <= q < |ps| && LeftmostMatch(ps[q], title, k, r.value) &&
                          forall q' :: 0 <= q' < q ==> NeverMatches(ps[q'], title)
  {
    if ps == [] then None
    else
      var m := FirstMatch(ps[0], title);
      if m.Some? then
        var k :| LeftmostMatch(ps[0], title, k, m.value);
        m
      else
        var r := ExtractWith(ps[1..], title);
        assert forall q :: 1 <= q < |ps| ==> ps[q] == ps[1..][q - 1];
        if r.Some? then
          var q, k :| 0 <= q < |ps[1..]| && LeftmostMatch(ps[1..][q], title, k, r.value) &&
                      forall q' :: 0 <= q' < q ==> NeverMatches(ps[1..][q'], title);
          assert LeftmostMatch(ps[q + 1], title, k, r.value);
          r
        else r
  }

  /**
   * extract_episode_number($title): a number is returned exactly when some pattern
   * matches somewhere; it is the leftmost match of the first pattern in the list that
   * matches, and every earlier pattern matches nowhere.
   */
  function ExtractEpisodeNumber(title: string): (r: Option<nat>)
    ensures r.None? <==> forall q :: 0 <= q < |Patterns| ==> NeverMatches(Patterns[q], title)
    ensures r.Some? ==> exists q, k :: 0 <= q < |Patterns| && LeftmostMatch(Patterns[q], title, k, r.value) &&
                          forall q' :: 0 <= q' < q ==> NeverMatches(Patterns[q'], title)
  {
    ExtractWith(Patterns, title)
  }

  /** A title that starts with "Episode " followed by the number's digits yields that number. */
  lemma EpisodeTitleRoundTrip(n: nat)
    ensures ExtractEpisodeNumber("Episode " + NatToString(n)) == Some(n)
  {
    var digits := NatToString(n);
    var title := "Episode " + digits;
    assert title[0..7] == "Episode";
    assert Lower("Episode") == "episode";
    assert title[7] == ' ';
    assert title[8..] == digits;
    assert SpaceRun(title, 7) == 1 by {
      assert IsSpace(title[7]) && !IsSpace(title[8]);
      assert SpaceRun(title, 8) == 0;
    }
    DigitRunToEnd(title, 8);
    assert title[8..8 + DigitRun(title, 8)] == digits;
    DigitsValueOfNatToString(n);
    assert MatchAt(Patterns[0], title, 0) == Some(n);
  }
}
