/**
 * update_patreon_post_access: the PATCH body sent to the Patreon API and the way its
 * answer is classified. The HTTP exchange itself is a parameter.
 */
module Patreon {
  import opened PhpText
  import Wrappers

  /** {"data": {"attributes": {"is_public": isPublic}, "type": "post", "id": postId}} */
  datatype Payload = Payload(postId: string, kind: string, isPublic: bool)

  /** What wp_remote_request came back with. */
  datatype HttpResponse = TransportError(message: string) | HttpStatus(code: int, body: string)

  datatype Outcome =
    | TokenMissing                              // no access token configured: nothing is sent
    | ApiError(message: string)                 // the request did not complete
    | PostUpdated                               // status 200
    | Rejected(code: int, bodyStart: string)    // any other status, with the first 200 characters

  /** The post is made public for 'free' and private for anything else. */
  function PayloadFor(patreonPostId: string, accessType: string): (p: Payload)
    ensures p.postId == patreonPostId && p.kind == "post"
    ensures p.isPublic <==> accessType == "free"
  {
    Payload(patreonPostId, "post", accessType == "free")
  }

  /** substr($body, 0, 200). */
  function Prefix200(body: string): (r: string)
    ensures |r| <= 200 && r <= body
    ensures |body| <= 200 ==> r == body
    ensures |body| > 200 ==> |r| == 200 && r == body[..200]
  {
    if |body| <= 200 then body else body[..200]
  }

  /** The result of update_patreon_post_access for a configured token and the response received. */
  function Classify(accessToken: string, response: HttpResponse): (o: Outcome)
    ensures o.PostUpdated? <==> !IsEmpty(accessToken) && response.HttpStatus? && response.code == 200
    ensures o.TokenMissing? <==> IsEmpty(accessToken)
    ensures o.Rejected? ==> response.HttpStatus? && o.code == response.code && o.code != 200
  {
    if IsEmpty(accessToken) then TokenMissing
    else match response
      case TransportError(message) => ApiError(message)
      case HttpStatus(code, body) =>
        if code == 200 then PostUpdated else Rejected(code, Prefix200(body))
  }

  /** The 'success' flag of the returned array. */
  predicate Succeeded(o: Outcome) { o.PostUpdated? }

  /** Only status 200 succeeds: another 2xx status such as 204 is reported as a failure. */
  lemma OnlyStatus200Succeeds(accessToken: string, code: int, body: string)
    requires !IsEmpty(accessToken) && 200 <= code < 300
    ensures Succeeded(Classify(accessToken, HttpStatus(code, body))) <==> code == 200
  {
  }

  /**
   * update_patreon_post_access: the PATCH body sent (nothing without a token) and the
   * outcome reported for the response received.
   */
  function UpdatePostAccess(accessToken: string, patreonPostId: string, accessType: string, response: HttpResponse)
    : (r: (Wrappers.Option<Payload>, Outcome))
    ensures r.0.Some? <==> !IsEmpty(accessToken)
    ensures r.0.Some? ==> r.0.value.isPublic == (accessType == "free") && r.0.value.postId == patreonPostId
    ensures Succeeded(r.1) <==> r.0.Some? && response.HttpStatus? && response.code == 200
  {
    if IsEmpty(accessToken) then (Wrappers.None, TokenMissing)
    else (Wrappers.Some(PayloadFor(patreonPostId, accessType)), Classify(accessToken, response))
  }
}
