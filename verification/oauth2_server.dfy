/** The local redirect endpoint that receives Google's authorization
    response (section 4.1.2 of RFC 6749) and hands the code over. */
module OAuth2Server {
  import opened Wrappers
  import opened OAuth2

  /** The query parameters of the redirect; `state` is mandatory, so a
      request without it never reaches the handler. */
  datatype Query = Query(code: Option<string>, error: Option<string>, state: string)

  datatype HttpResponse = HttpResponse(status: nat, body: string)

  const MissingCode: string := "Missing required 'code'"
  const StateMismatch: string := "State does not match"
  const CloseTab: string := "You may close this tab"

  /** A response that carries a code, no error, and the expected state. */
  predicate Accepted(expected: string, q: Query) {
    q.error.None? && q.code.Some? && q.state == expected
  }

  /** The reply the handler gives: 500 for an error response, a panic for a
      missing code (checked before the state), 400 for a foreign state, 200
      otherwise. */
  function Respond(expected: string, q: Query): (r: Outcome<HttpResponse>)
    ensures r.Returned? && r.value.status == 500 <==> q.error.Some?
    ensures r.Returned? && r.value.status == 500 ==> r.value.body == []
    ensures r == Panicked(MissingCode) <==> q.error.None? && q.code.None?
    ensures r.Returned? && r.value.status == 400 <==> q.error.None? && q.code.Some? && q.state != expected
    ensures r.Returned? && r.value.status == 400 ==> r.value.body == StateMismatch
    ensures r.Returned? && r.value.status == 200 <==> Accepted(expected, q)
    ensures r.Returned? && r.value.status == 200 ==> r.value.body == CloseTab
  {
    if q.error.Some? then Returned(HttpResponse(500, []))
    else if q.code.None? then Panicked(MissingCode)
    else if q.state != expected then Returned(HttpResponse(400, StateMismatch))
    else Returned(HttpResponse(200, CloseTab))
  }

  /** What one request puts on the channel. */
  function Delivered(expected: string, q: Query): (codes: seq<string>)
    ensures |codes| <= 1
    ensures |codes| == 1 <==> Accepted(expected, q)
    ensures |codes| == 1 ==> codes[0] == q.code.value
  {
    if Accepted(expected, q) then [q.code.value] else []
  }

  /** `authorization`: reply to the request, and send the code when the
      reply is 200. */
  method Authorization(data: WebData, q: Query) returns (r: Outcome<HttpResponse>)
    modifies data.txEndpoint
    ensures r == Respond(data.state, q)
    ensures data.txEndpoint.sent == old(data.txEndpoint.sent) + Delivered(data.state, q)
  {
    if q.error.Some? {
      return Returned(HttpResponse(500, []));
    }
    if q.code.None? {
      return Panicked(MissingCode);
    }
    var code := q.code.value;
    if data.state != q.state {
      return Returned(HttpResponse(400, StateMismatch));
    }
    data.txEndpoint.Send(code);
    return Returned(HttpResponse(200, CloseTab));
  }

  /** The codes a series of requests puts on the channel, in order: at
      most one per request, and each the code of an accepted request. */
  function AcceptedCodes(expected: string, qs: seq<Query>): (codes: seq<string>)
    ensures |codes| <= |qs|
    ensures FromAccepted(expected, qs, codes)
  {
    if qs == [] then []
    else
      var rest := AcceptedCodes(expected, qs[1..]);
      FromAcceptedCons(expected, qs, rest);
      Delivered(expected, qs[0]) + rest
  }

  /** `code` is the code of some accepted request of the series. */
  ghost predicate CodeOfAccepted(expected: string, qs: seq<Query>, code: string) {
    exists i :: 0 <= i < |qs| && Accepted(expected, qs[i]) && qs[i].code == Some(code)
  }

  /** Every code comes from an accepted request of the series. */
  ghost predicate FromAccepted(expected: string, qs: seq<Query>, codes: seq<string>) {
    forall k :: 0 <= k < |codes| ==> CodeOfAccepted(expected, qs, codes[k])
  }

  lemma FromAcceptedCons(expected: string, qs: seq<Query>, rest: seq<string>)
    requires |qs| > 0 && FromAccepted(expected, qs[1..], rest)
    ensures FromAccepted(expected, qs, Delivered(expected, qs[0]) + rest)
  {
    var first := Delivered(expected, qs[0]);
    var codes := first + rest;
    forall k | 0 <= k < |codes|
      ensures CodeOfAccepted(expected, qs, codes[k])
    {
      if k < |first| {
        assert Accepted(expected, qs[0]) && qs[0].code == Some(codes[k]);
      } else {
        var j :| 0 <= j < |qs[1..]| && Accepted(expected, qs[1..][j]) && qs[1..][j].code == Some(rest[k - |first|]);
        assert qs[1..][j] == qs[j + 1] && codes[k] == rest[k - |first|];
      }
    }
  }

  /** Handling one more request extends the channel by what that request
      delivers. With the `ensures` of `Authorization`, this shows that
      after the requests `qs` the channel holds `AcceptedCodes(state, qs)`. */
  lemma {:induction false} AcceptedCodesAppend(expected: string, qs: seq<Query>, q: Query)
    ensures AcceptedCodes(expected, qs + [q]) == AcceptedCodes(expected, qs) + Delivered(expected, q)
  {
    if qs != [] {
      assert (qs + [q])[1..] == qs[1..] + [q];
      AcceptedCodesAppend(expected, qs[1..], q);
    }
  }

  /** The code the login flow receives (the first one on the channel) is
      the code of the first accepted request; requests before it with an
      error, no code or a foreign state deliver nothing. */
  lemma {:induction false} FirstReceivedCode(expected: string, qs: seq<Query>)
    ensures |AcceptedCodes(expected, qs)| > 0 <==> exists i :: 0 <= i < |qs| && Accepted(expected, qs[i])
    ensures |AcceptedCodes(expected, qs)| > 0 ==>
              exists i :: 0 <= i < |qs| && Accepted(expected, qs[i])
                && AcceptedCodes(expected, qs)[0] == qs[i].code.value
                && forall j :: 0 <= j < i ==> !Accepted(expected, qs[j])
  {
    if exists i :: 0 <= i < |qs| && Accepted(expected, qs[i]) {
      var i :| 0 <= i < |qs| && Accepted(expected, qs[i]);
      AcceptedDelivers(expected, qs, i);
    }
    if |AcceptedCodes(expected, qs)| > 0 {
      FirstCodeIsFirstAccepted(expected, qs);
    }
  }

  /** An accepted request puts at least one code on the channel. */
  lemma {:induction false} AcceptedDelivers(expected: string, qs: seq<Query>, i: nat)
    requires i < |qs| && Accepted(expected, qs[i])
    ensures |AcceptedCodes(expected, qs)| > 0
  {
    if i > 0 && !Accepted(expected, qs[0]) {
      assert qs[1..][i - 1] == qs[i];
      AcceptedDelivers(expected, qs[1..], i - 1);
    }
  }

  /** The first code on the channel is that of the first accepted request. */
  lemma {:induction false} FirstCodeIsFirstAccepted(expected: string, qs: seq<Query>)
    requires |AcceptedCodes(expected, qs)| > 0
    ensures exists i :: 0 <= i < |qs| && Accepted(expected, qs[i])
              && AcceptedCodes(expected, qs)[0] == qs[i].code.value
              && forall j :: 0 <= j < i ==> !Accepted(expected, qs[j])
  {
    if Accepted(expected, qs[0]) {
      assert AcceptedCodes(expected, qs)[0] == qs[0].code.value;
    } else {
      var tail := qs[1..];
      assert AcceptedCodes(expected, qs) == AcceptedCodes(expected, tail);
      FirstCodeIsFirstAccepted(expected, tail);
      var i :| 0 <= i < |tail| && Accepted(expected, tail[i])
        && AcceptedCodes(expected, tail)[0] == tail[i].code.value
        && forall j :: 0 <= j < i ==> !Accepted(expected, tail[j]);
      assert forall j :: 0 < j < |qs| ==> qs[j] == tail[j - 1];
      assert Accepted(expected, qs[i + 1]);
    }
  }

  /** The state the handler expects is the one the authorization URI
      carries: a redirect that echoes the state read back from the URI,
      with a code and no error, is answered 200 and delivers its code,
      and one with any other state is refused with 400. */
  lemma EchoedStateAccepted(env: Env, codeChallenge: string, state: string, redirectUri: string,
                            encode: string -> string, decode: string -> string, code: string, other: string)
    requires SoundEncoding(encode, decode)
    ensures var uri := CreateAuthenticationUri(env, codeChallenge, state, redirectUri, encode);
            var query := ParseQuery(uri[|AuthorizationEndpoint|..], decode);
            && |query| == 7 && query[6].0 == "state"
            && Respond(state, Query(Some(code), None, query[6].1)) == Returned(HttpResponse(200, CloseTab))
            && Delivered(state, Query(Some(code), None, query[6].1)) == [code]
            && (other != query[6].1 ==>
                  Respond(state, Query(Some(code), None, other)) == Returned(HttpResponse(400, StateMismatch)))
  {
    AuthenticationUriRoundTrip(env, codeChallenge, state, redirectUri, encode, decode);
  }
}
