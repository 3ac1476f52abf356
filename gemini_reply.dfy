/**
 * Recovery of the structured command from the model's free-text reply
 * (ask_gemini_for_structure): the first /\{[^}]+\}/ fragment is decoded if it can be,
 * otherwise the whole reply.
 */
module GeminiReply {
  import opened Wrappers
  import opened PhpText

  /** The fields execute_episode_action reads from the decoded reply; None where isset() fails. */
  datatype Command = Command(episodeNumber: Option<int>, accessType: Option<string>)

  /** /\{[^}]+\}/ matches at position i: a '{', at least one non-'}' character, then a '}'. */
  function BracedAt(s: string, i: nat): Option<string>
    requires i <= |s|
  {
    if i < |s| && s[i] == '{' then
      match FirstFrom(s, i + 1, '}')
      case Some(j) => if j > i + 1 then Some(s[i..j + 1]) else None
      case None => None
    else None
  }

  /** preg_match: the leftmost match at or after position i. */
  function BracedFrom(s: string, i: nat): (r: Option<string>)
    requires i <= |s|
    ensures r.None? <==> forall k :: i <= k <= |s| ==> BracedAt(s, k).None?
    ensures r.Some? ==> exists k :: i <= k <= |s| && BracedAt(s, k) == r &&
                          forall k' :: i <= k' < k ==> BracedAt(s, k').None?
    decreases |s| - i
  {
    var here := BracedAt(s, i);
    if here.Some? then here
    else if i == |s| then None
    else
      var r := BracedFrom(s, i + 1);
      assert r.Some? ==> exists k :: i <= k <= |s| && BracedAt(s, k) == r &&
                                     forall k' :: i <= k' < k ==> BracedAt(s, k').None? by {
        if r.Some? {
          var k :| i + 1 <= k <= |s| && BracedAt(s, k) == r && forall k' :: i + 1 <= k' < k ==> BracedAt(s, k').None?;
          assert forall k' :: i <= k' < k ==> BracedAt(s, k').None?;
        }
      }
      r
  }

  /** The first brace-delimited fragment of the reply, if any. */
  function FirstBraced(s: string): Option<string> {
    BracedFrom(s, 0)
  }

  /**
   * The structured data the command path receives. `decode` stands for json_decode
   * (None when it yields nothing truthy); it is not modelled.
   */
  function InterpretReply(reply: string, decode: string -> Option<Command>): (r: Option<Command>)
    ensures FirstBraced(reply).Some? && decode(FirstBraced(reply).value).Some? ==>
              r == decode(FirstBraced(reply).value)
    ensures FirstBraced(reply).Some? && decode(FirstBraced(reply).value).None? ==> r == decode(reply)
    ensures FirstBraced(reply).None? ==> r == decode(reply)
  {
    match FirstBraced(reply)
    case Some(fragment) => if decode(fragment).Some? then decode(fragment) else decode(reply)
    case None => decode(reply)
  }

  /**
   * A flat JSON object embedded in prose is what the extraction returns, whatever
   * follows it, as long as no '{' comes before it.
   */
  lemma EmbeddedObjectRecovered(prose: string, json: string, rest: string)
    requires forall m :: 0 <= m < |prose| ==> prose[m] != '{'
    requires |json| >= 3 && json[0] == '{' && json[|json| - 1] == '}'
    requires forall m :: 1 <= m < |json| - 1 ==> json[m] != '}'
    ensures FirstBraced(prose + json + rest) == Some(json)
  {
    var s := prose + json + rest;
    var i := |prose|;
    forall k | 0 <= k < i ensures BracedAt(s, k).None? {
      assert s[k] == prose[k];
    }
    var j := i + |json| - 1;
    assert s[j] == '}';
    forall m | i + 1 <= m < j ensures s[m] != '}' {
      assert s[m] == json[m - i];
    }
    assert FirstFrom(s, i + 1, '}') == Some(j);
    assert s[i..j + 1] == json;
    assert BracedAt(s, i) == Some(json);
    BracedPrefixSkipped(s, i);
  }

  /** When nothing matches before position i, the leftmost match is the one at or after i. */
  lemma {:induction false} BracedPrefixSkipped(s: string, i: nat)
    requires i <= |s| && forall k :: 0 <= k < i ==> BracedAt(s, k).None?
    ensures BracedFrom(s, 0) == BracedFrom(s, i)
    decreases i
  {
    if i > 0 {
      assert BracedFrom(s, i - 1) == BracedFrom(s, i);
      BracedPrefixSkipped(s, i - 1);
    }
  }
}
