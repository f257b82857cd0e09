/** The Google side of login: PKCE verifier and challenge (RFC 7636), the
    local redirect port, the authorization request of section 4.1.1 of
    RFC 6749, and the token-exchange request that follows it. */
module OAuth2 {
  import opened Wrappers
  import opened RustStr

  newtype byte = x: int | 0 <= x < 256

  /** The credentials record the tool is started with. */
  datatype Env = Env(
    googleClientId: string,
    googleClientSecret: string,
    spotifyClientId: string,
    spotifyClientSecret: string)

  // ---------------------------------------------------------------------
  // The callback's hand-off point

  /** The sending half of the channel the redirect handler reports the
      authorization code on; `sent` is everything sent so far. */
  class Sender {
    var sent: seq<string>

    constructor ()
      ensures sent == []
    {
      sent := [];
    }

    method Send(value: string)
      modifies this
      ensures sent == old(sent) + [value]
    {
      sent := sent + [value];
    }
  }

  /** What every copy of the redirect handler shares: the expected `state`
      and the sender. */
  datatype WebData = WebData(state: string, txEndpoint: Sender)

  // ---------------------------------------------------------------------
  // Random strings

  /** The 62 characters the generator's alphanumeric distribution draws
      from. */
  predicate IsAlphanumeric(c: char) {
    'A' <= c <= 'Z' || 'a' <= c <= 'z' || '0' <= c <= '9'
  }

  predicate AllAlphanumeric(s: string) {
    forall i :: 0 <= i < |s| ==> IsAlphanumeric(s[i])
  }

  /** The unreserved characters a code verifier may use (section 4.1 of
      RFC 7636). */
  predicate IsUnreserved(c: char) {
    IsAlphanumeric(c) || c == '-' || c == '.' || c == '_' || c == '~'
  }

  const VerifierLength: nat := 96
  const StateLength: nat := 32

  /** `sample_iter(Alphanumeric).take(n)`: the first `n` characters of an
      alphanumeric stream. */
  function Take(stream: string, n: nat): (s: string)
    requires |stream| >= n && AllAlphanumeric(stream)
    ensures |s| == n && AllAlphanumeric(s)
  {
    stream[..n]
  }

  // ---------------------------------------------------------------------
  // PKCE

  /** `as_bytes()` of an ASCII string. */
  function AsciiBytes(s: string): (b: seq<byte>)
    requires AllAlphanumeric(s)
    ensures |b| == |s|
  {
    seq(|s|, i requires 0 <= i < |s| => (s[i] as int) as byte)
  }

  /** Standard base64 (section 4 of RFC 4648) of the SHA-256 digest of the
      verifier; both algorithms are supplied, not modelled. */
  function StandardChallenge(verifier: string, sha256: seq<byte> -> seq<byte>, base64: seq<byte> -> string): string
    requires AllAlphanumeric(verifier)
  {
    base64(sha256(AsciiBytes(verifier)))
  }

  /** The retry test of the generation loop. */
  predicate Acceptable(encoded: string) {
    '+' !in encoded && '/' !in encoded
  }

  /** The URL- and file-safe alphabet of section 5 of RFC 4648: `-` for `+`
      and `_` for `/`. */
  function UrlSafe(s: string): string {
    seq(|s|, i requires 0 <= i < |s| => if s[i] == '+' then '-' else if s[i] == '/' then '_' else s[i])
  }

  /** BASE64URL-ENCODE of Appendix A of RFC 7636: the URL-safe alphabet,
      padding removed. */
  function Base64UrlNoPadding(standard: string): string {
    RemoveChar(UrlSafe(standard), '=')
  }

  /** The S256 code challenge of section 4.2 of RFC 7636. */
  function S256Challenge(verifier: string, sha256: seq<byte> -> seq<byte>, base64: seq<byte> -> string): string
    requires AllAlphanumeric(verifier)
  {
    Base64UrlNoPadding(StandardChallenge(verifier, sha256, base64))
  }

  /** When the standard encoding has no `+` and no `/`, removing `=` from it
      gives exactly the base64url form without padding. */
  lemma AcceptedIsBase64Url(standard: string)
    requires Acceptable(standard)
    ensures ReplaceAll(standard, "=", "") == Base64UrlNoPadding(standard)
  {
    assert UrlSafe(standard) == standard;
    ReplaceCharByNothing(standard, '=');
  }

  /** Some draw gives an acceptable challenge (otherwise the loop runs for
      ever). */
  ghost predicate SomeDrawAcceptable(streams: seq<string>, sha256: seq<byte> -> seq<byte>, base64: seq<byte> -> string)
    requires forall i :: 0 <= i < |streams| ==> |streams[i]| >= VerifierLength && AllAlphanumeric(streams[i])
  {
    exists i :: 0 <= i < |streams| && Acceptable(StandardChallenge(Take(streams[i], VerifierLength), sha256, base64))
  }

  /** `generate_code`: draw 96-character verifiers until the standard
      encoding of the digest has no `+` and no `/`, then return the verifier
      and that encoding without `=`. `streams[i]` is what the random
      generator yields on iteration `i`. */
  method GenerateCode(streams: seq<string>, sha256: seq<byte> -> seq<byte>, base64: seq<byte> -> string)
    returns (verifier: string, challenge: string)
    requires forall i :: 0 <= i < |streams| ==> |streams[i]| >= VerifierLength && AllAlphanumeric(streams[i])
    requires SomeDrawAcceptable(streams, sha256, base64)
    ensures |verifier| == VerifierLength && AllAlphanumeric(verifier)
    ensures 43 <= |verifier| <= 128 && forall i :: 0 <= i < |verifier| ==> IsUnreserved(verifier[i])
    ensures exists k :: 0 <= k < |streams| && verifier == Take(streams[k], VerifierLength)
              && Acceptable(StandardChallenge(verifier, sha256, base64))
              && forall j :: 0 <= j < k ==> !Acceptable(StandardChallenge(Take(streams[j], VerifierLength), sha256, base64))
    ensures challenge == ReplaceAll(StandardChallenge(verifier, sha256, base64), "=", "")
    ensures '+' !in challenge && '/' !in challenge && '=' !in challenge
    ensures challenge == S256Challenge(verifier, sha256, base64)
  {
    var i := 0;
    while true
      invariant 0 <= i < |streams|
      invariant forall j :: 0 <= j < i ==> !Acceptable(StandardChallenge(Take(streams[j], VerifierLength), sha256, base64))
      invariant exists k :: i <= k < |streams| && Acceptable(StandardChallenge(Take(streams[k], VerifierLength), sha256, base64))
      decreases |streams| - i
    {
      var codeVerifier := Take(streams[i], VerifierLength);
      var codeChallenge := StandardChallenge(codeVerifier, sha256, base64);
      if '+' in codeChallenge || '/' in codeChallenge {
        i := i + 1;
        continue;
      }
      ReplaceCharByNothing(codeChallenge, '=');
      AcceptedIsBase64Url(codeChallenge);
      return codeVerifier, ReplaceAll(codeChallenge, "=", "");
    }
  }

  // ---------------------------------------------------------------------
  // The redirect port

  /** `get_port`: draw ports in [4000, 8000) until `is_free` accepts one.
      `draws[i]` is the `i`-th port drawn and `free[i]` the answer of the
      `i`-th probe. */
  method GetPort(draws: seq<int>, free: seq<bool>) returns (port: nat)
    requires |draws| == |free|
    requires forall i :: 0 <= i < |draws| ==> 4000 <= draws[i] < 8000
    requires exists i :: 0 <= i < |free| && free[i]
    ensures 4000 <= port < 8000
    ensures exists k :: 0 <= k < |draws| && port == draws[k] && free[k] && forall j :: 0 <= j < k ==> !free[j]
  {
    var i := 0;
    port := draws[i];
    while !free[i]
      invariant 0 <= i < |draws| && port == draws[i]
      invariant forall j :: 0 <= j < i ==> !free[j]
      invariant exists k :: i <= k < |free| && free[k]
      decreases |draws| - i
    {
      i := i + 1;
      port := draws[i];
    }
  }

  /** The number a string of decimal digits spells, most significant digit
      first. */
  function DigitsValue(s: string): int {
    if s == [] then 0 else DigitsValue(s[..|s| - 1]) * 10 + (s[|s| - 1] as int - '0' as int)
  }

  /** Decimal digits of a natural number, as `format!` prints it: digits
      only, no leading zero, spelling `n`. */
  function Decimal(n: nat): (s: string)
    ensures |s| > 0 && forall i :: 0 <= i < |s| ==> '0' <= s[i] <= '9'
    ensures s[0] != '0' || n == 0
    ensures DigitsValue(s) == n
  {
    var digit := [('0' as int + n % 10) as char];
    if n < 10 then digit
    else
      var prefix := Decimal(n / 10);
      assert (prefix + digit)[..|prefix|] == prefix;
      prefix + digit
  }

  function RedirectUri(port: nat): string {
    "http://localhost:" + Decimal(port)
  }

  // ---------------------------------------------------------------------
  // The authorization request

  const AuthorizationEndpoint: string := "https://accounts.google.com/o/oauth2/v2/auth?"
  const YoutubeScope: string := "https://www.googleapis.com/auth/youtube"

  datatype AuthenticationRequest = AuthenticationRequest(
    clientId: string,
    redirectUri: string,
    responseType: string,
    scope: string,
    codeChallenge: string,
    codeChallengeMethod: string,
    state: string)

  /** The record's fields as query pairs, in declaration order and under
      their declared names. */
  function QueryPairs(req: AuthenticationRequest): seq<(string, string)> {
    [ ("client_id", req.clientId),
      ("redirect_uri", req.redirectUri),
      ("response_type", req.responseType),
      ("scope", req.scope),
      ("code_challenge", req.codeChallenge),
      ("code_challenge_method", req.codeChallengeMethod),
      ("state", req.state) ]
  }

  /** The query-string serializer: `name=encoded value` per field, joined by
      `&`; the percent-encoding of values is supplied, not modelled. */
  function QueryString(req: AuthenticationRequest, encode: string -> string): string {
    var pairs := QueryPairs(req);
    Join(seq(|pairs|, i requires 0 <= i < |pairs| => pairs[i].0 + "=" + encode(pairs[i].1)), "&")
  }

  /** `create_authentication_uri`: the Google endpoint followed by the
      serialized request. */
  function CreateAuthenticationUri(env: Env, codeChallenge: string, state: string, redirectUri: string,
                                   encode: string -> string): (uri: string)
    ensures |AuthorizationEndpoint| < |uri| && uri[..|AuthorizationEndpoint|] == AuthorizationEndpoint
  {
    var req := AuthenticationRequest(env.googleClientId, redirectUri, "code", YoutubeScope,
                                     codeChallenge, "S256", state);
    AuthorizationEndpoint + QueryString(req, encode)
  }

  /** How the authorization server reads a query string back: pairs split
      at `&`, name and value at `=`, the value decoded. */
  function ParseQuery(query: string, decode: string -> string): seq<(string, string)> {
    var parts := Split(query, "&");
    seq(|parts|, i requires 0 <= i < |parts| =>
      var kv := Split(parts[i], "=");
      (kv[0], if |kv| > 1 then decode(kv[1]) else ""))
  }

  /** A percent-encoding never emits `&` or `=`, and decoding undoes it. */
  ghost predicate SoundEncoding(encode: string -> string, decode: string -> string) {
    forall s :: '&' !in encode(s) && '=' !in encode(s) && decode(encode(s)) == s
  }

  /** The URI is the endpoint followed by a query that reads back as the
      client id, the redirect URI, response_type=code, the youtube scope,
      the challenge, code_challenge_method=S256 and the state, in that
      order. */
  lemma AuthenticationUriRoundTrip(env: Env, codeChallenge: string, state: string, redirectUri: string,
                                   encode: string -> string, decode: string -> string)
    requires SoundEncoding(encode, decode)
    ensures var uri := CreateAuthenticationUri(env, codeChallenge, state, redirectUri, encode);
            && |AuthorizationEndpoint| <= |uri|
            && uri[..|AuthorizationEndpoint|] == AuthorizationEndpoint
            && ParseQuery(uri[|AuthorizationEndpoint|..], decode) ==
                 [ ("client_id", env.googleClientId),
                   ("redirect_uri", redirectUri),
                   ("response_type", "code"),
                   ("scope", YoutubeScope),
                   ("code_challenge", codeChallenge),
                   ("code_challenge_method", "S256"),
                   ("state", state) ]
  {
    var req := AuthenticationRequest(env.googleClientId, redirectUri, "code", YoutubeScope,
                                     codeChallenge, "S256", state);
    var pairs := QueryPairs(req);
    var parts := seq(|pairs|, i requires 0 <= i < |pairs| => pairs[i].0 + "=" + encode(pairs[i].1));
    var query := QueryString(req, encode);
    var uri := CreateAuthenticationUri(env, codeChallenge, state, redirectUri, encode);
    assert uri == AuthorizationEndpoint + query;
    assert uri[|AuthorizationEndpoint|..] == query;
    forall k | 0 <= k < |parts| ensures '&' !in parts[k] && Split(parts[k], "=") == [pairs[k].0, encode(pairs[k].1)] {
      assert '=' !in pairs[k].0 && '&' !in pairs[k].0;
      assert parts[k] == Join([pairs[k].0, encode(pairs[k].1)], "=");
      SplitJoin([pairs[k].0, encode(pairs[k].1)], '=');
    }
    SplitJoin(parts, '&');
    assert Split(query, "&") == parts;
  }

  // ---------------------------------------------------------------------
  // The token-exchange request (its sending is not modelled)

  datatype ExchangeAccessTokenRequest = ExchangeAccessTokenRequest(
    clientId: string,
    clientSecret: string,
    code: string,
    codeVerifier: string,
    grantType: string,
    redirectUri: string)

  /** The request record `exchange_access_token` builds: the client
      credentials, the received code, the PKCE verifier and the redirect
      URI, under the `authorization_code` grant. */
  function NewExchangeAccessTokenRequest(env: Env, code: string, codeVerifier: string, redirectUri: string)
    : (req: ExchangeAccessTokenRequest)
    ensures req.clientId == env.googleClientId && req.clientSecret == env.googleClientSecret
    ensures req.code == code && req.codeVerifier == codeVerifier && req.redirectUri == redirectUri
    ensures req.grantType == "authorization_code"
  {
    ExchangeAccessTokenRequest(env.googleClientId, env.googleClientSecret, code, codeVerifier,
                               "authorization_code", redirectUri)
  }

  /** The sequential part of `do_oauth`: PKCE pair, state and port, the
      handler's shared data (the same state and a new channel), the
      authorization URI shown to the user, and, once `code` has come back
      through the channel, the token-exchange request. */
  method DoOAuth(env: Env, verifierStreams: seq<string>, stateStream: string,
                 portDraws: seq<int>, portFree: seq<bool>, code: string,
                 sha256: seq<byte> -> seq<byte>, base64: seq<byte> -> string, encode: string -> string)
    returns (state: string, port: nat, data: WebData, authUri: string, exchange: ExchangeAccessTokenRequest)
    requires forall i :: 0 <= i < |verifierStreams| ==>
               |verifierStreams[i]| >= VerifierLength && AllAlphanumeric(verifierStreams[i])
    requires SomeDrawAcceptable(verifierStreams, sha256, base64)
    requires |stateStream| >= StateLength && AllAlphanumeric(stateStream)
    requires |portDraws| == |portFree|
    requires forall i :: 0 <= i < |portDraws| ==> 4000 <= portDraws[i] < 8000
    requires exists i :: 0 <= i < |portFree| && portFree[i]
    ensures |state| == StateLength && AllAlphanumeric(state) && state == Take(stateStream, StateLength)
    ensures 4000 <= port < 8000
    ensures exists k :: 0 <= k < |portDraws| && port == portDraws[k] && portFree[k]
                        && forall j :: 0 <= j < k ==> !portFree[j]
    ensures exists k :: 0 <= k < |verifierStreams| && exchange.codeVerifier == Take(verifierStreams[k], VerifierLength)
                        && Acceptable(StandardChallenge(exchange.codeVerifier, sha256, base64))
                        && forall j :: 0 <= j < k ==>
                             !Acceptable(StandardChallenge(Take(verifierStreams[j], VerifierLength), sha256, base64))
    ensures data.state == state && fresh(data.txEndpoint) && data.txEndpoint.sent == []
    ensures |exchange.codeVerifier| == VerifierLength && AllAlphanumeric(exchange.codeVerifier)
    ensures authUri == CreateAuthenticationUri(env, S256Challenge(exchange.codeVerifier, sha256, base64),
                                               state, RedirectUri(port), encode)
    ensures exchange == NewExchangeAccessTokenRequest(env, code, exchange.codeVerifier, RedirectUri(port))
  {
    var verifier, challenge := GenerateCode(verifierStreams, sha256, base64);
    state := Take(stateStream, StateLength);
    port := GetPort(portDraws, portFree);
    var txEndpoint := new Sender();
    data := WebData(state, txEndpoint);
    authUri := CreateAuthenticationUri(env, challenge, state, RedirectUri(port), encode);
    exchange := NewExchangeAccessTokenRequest(env, code, verifier, RedirectUri(port));
  }

  /** The redirect URI the authorization server reads from the URI is the
      one sent again with the token exchange, and the challenge it reads is
      the S256 challenge of the verifier sent with the exchange. */
  lemma RedirectUriAgrees(env: Env, verifier: string, state: string, port: nat, code: string,
                          sha256: seq<byte> -> seq<byte>, base64: seq<byte> -> string,
                          encode: string -> string, decode: string -> string)
    requires AllAlphanumeric(verifier) && SoundEncoding(encode, decode)
    ensures var uri := CreateAuthenticationUri(env, S256Challenge(verifier, sha256, base64), state,
                                               RedirectUri(port), encode);
            var exchange := NewExchangeAccessTokenRequest(env, code, verifier, RedirectUri(port));
            var query := ParseQuery(uri[|AuthorizationEndpoint|..], decode);
            && |query| == 7
            && query[1] == ("redirect_uri", exchange.redirectUri)
            && query[4] == ("code_challenge", S256Challenge(exchange.codeVerifier, sha256, base64))
  {
    AuthenticationUriRoundTrip(env, S256Challenge(verifier, sha256, base64), state, RedirectUri(port), encode, decode);
  }
}
