# sp2ytm core, modelled in Dafny

sp2ytm copies a Spotify playlist to YouTube Music. This project models
the parts of it that carry logic of their own:

- **YouTube Music search extraction** (`youtube.dfy`, module `YouTube`).
  It cuts the escaped JSON payload out of a search page at three literal
  markers. It undoes the escapes with a fixed chain of eight replace-all
  steps. It then walks the decoded rendering tree to the first video id.
- **Spotify playlist reading** (`spotify.dfy`, module `Spotify`). It
  follows the `next` cursor of each track page, concatenates the pages'
  tracks and maps them to the tool's own track records. Every request
  goes through the shared rate-limit bucket.
- **PKCE, port and authorization request** (`oauth2.dfy`, module
  `OAuth2`):
  - the verifier/challenge retry loop (RFC 7636);
  - the random redirect port;
  - the authorization URI of section 4.1.1 of RFC 6749;
  - the token-exchange request record.
- **The redirect handler** (`oauth2_server.dfy`, module `OAuth2Server`).
  It decides on the authorization response (section 4.1.2 of RFC 6749)
  and passes the code on over a channel.

Two support modules sit under these. `wrappers.dfy` holds `Option`,
`Result` and `Outcome`. `Outcome` adds a `Panicked(message)` variant for
the `expect` calls that abort. `rust_str.dfy` models Rust's `str::split`,
`Vec::get`, `str::replace` and `contains` for a non-empty literal
pattern: matching is leftmost-first and never overlaps.

Foreign code the tool calls is passed in as parameters:

- SHA-256 and base64 are functions on bytes.
- The percent-encoding of query values is a function on strings.
- The JSON decoder of the search payload is a function returning a `Result`.
- The random generator and `port::is_free` are sequences of draws and answers.
- The Spotify API is given as its answers. The playlist metadata and the
  track pages are maps from URL to decoded answer. The login token is a
  single answer.

Two behaviours of the code are kept as they are:

- `search` and `get_video_id` panic on a missing marker, tab, section or
  shelf item (`Outcome.Panicked`). They do not return a typed error there.
- `get_playlist_next` calls itself once per page. The model keeps the
  recursion.

## Model

| member | source | states |
|---|---|---|
| RustStr.Get | src/api/youtube.rs:205-217 | `get(i)` yields the element exactly when `i` is in range, and `None` otherwise |
| RustStr.Split | src/api/youtube.rs:205-217 | `split` always yields at least one piece, and at least two when the pattern occurs |
| RustStr.SplitCount | src/api/youtube.rs:205-217 | `split` yields exactly one piece iff the pattern does not occur, which is why `get(0)` never fails and `get(1)` fails exactly without a match |
| RustStr.SplitPiece | src/api/youtube.rs:205-217 | every split piece is a substring of the input and contains no occurrence of the pattern |
| RustStr.ReplaceAll | src/api/youtube.rs:221-229 | `replace` leaves text without an occurrence of the pattern as it is |
| RustStr.JoinSplit | src/api/youtube.rs:205-217 | gluing the split pieces back with the pattern gives the input again |
| RustStr.ReplaceIsJoinOfSplit | src/api/youtube.rs:221-229 | `replace` equals joining the split pieces with the replacement |
| RustStr.ReplaceCharByNothing | src/oauth2/mod.rs:75 | `replace("=", "")` removes every `=` and keeps the other characters in order |
| YouTube.ExtractFragment | src/api/youtube.rs:205-218 | extraction panics only with "Missing 1st data element" or "Missing 2nd data element"; the closing marker is never required |
| YouTube.ExtractionPanics | src/api/youtube.rs:205-218 | extraction panics with "Missing 1st data element" iff the opening marker is absent; given that marker, it panics with "Missing 2nd data element" iff the data marker is absent after it; it never panics with "Missing 3rd data element" |
| YouTube.ExtractionBounds | src/api/youtube.rs:205-218 | the fragment is a substring of the body and contains none of the three markers; it runs to the end of the data piece when the closing marker is absent |
| YouTube.Unescape | src/api/youtube.rs:221-229 | every pattern of the chain starts with a backslash, so text without one passes through the whole chain unchanged |
| YouTube.ApplySteps | src/api/youtube.rs:221-229 | a chain of `replace` calls none of whose patterns occurs in the text leaves it unchanged |
| YouTube.UnescapeStructuralHex | src/api/youtube.rs:222-228 | `\x22`, `\x3d`, `\x5d`, `\x5b`, `\x7b` and `\x7d` become `"`, `=`, `]`, `[`, `{` and `}`, because the `\x` step runs first |
| YouTube.UnescapeDoubledBackslash | src/api/youtube.rs:221-229 | a doubled backslash followed by text without backslashes that does not start with `x` or `u` becomes one backslash followed by that text |
| YouTube.FirstInRuns | src/api/youtube.rs:270-276 | returns `None` iff no run has a watch endpoint; otherwise the id of the first run that has one, skipping runs whose navigation endpoint has no watch endpoint |
| YouTube.FirstInColumns | src/api/youtube.rs:268-279 | returns `None` iff no run of any column has a watch endpoint; otherwise the id of the first such run, columns in order and runs in order within each column |
| YouTube.FirstInColumnsIsFirstOfAllRuns | src/api/youtube.rs:268-279 | the nested scan equals one scan over all runs read column by column |
| YouTube.GetVideoId | src/api/youtube.rs:249-280 | panics iff the fixed path (tab 0, section 1, item 0) is missing; a missing tab 0 panics with "Missing tab 0", a missing section entry 1 with "Missing contents 1", and a missing shelf item 0 with "Missing contents 0" |
| YouTube.GetVideoIdSpec | src/api/youtube.rs:249-280 | panics iff tab 0, section-list entry 1 or shelf item 0 is missing; otherwise the first watch id over that one item's columns, and `None` exactly when none has one |
| YouTube.Search | src/api/youtube.rs:193-247 | panics only with one of its five messages: the two extraction messages and the three path messages |
| YouTube.SearchOutcomes | src/api/youtube.rs:205-246 | a missing opening or data marker panics before decoding; a decoder error is returned as `Err`; a decoded payload whose path exists gives the first watch id on that path |
| Spotify.ChainUrls | src/api/spotify.rs:103-120 | the requested URLs start at the given one; each successfully fetched page's `next` is the next URL requested; requesting stops after a failure or a page without `next` |
| Spotify.DrainFailsIffSomePageFails | src/api/spotify.rs:104-116 | the call fails iff some page of the chain fails; the error is then that page's error and no partial list is returned |
| Spotify.DrainIsChainConcatenation | src/api/spotify.rs:110-119 | on success the result is the tracks of every page of the chain, in page order and in order within each page |
| Spotify.PagesTracksLength | src/api/spotify.rs:110-113 | the concatenated tracks number as many as the pages' items |
| Spotify.DrainLength | src/api/spotify.rs:110-116 | on success the result's length is the sum of the item counts of the chain's pages |
| Spotify.ToPlaylistTrack | src/api/spotify.rs:89-94 | keeps the track name; takes the first artist's name, or the empty string when there is no artist |
| Spotify.MapTracks | src/api/spotify.rs:88-95 | the mapping is one for one and keeps the order: the i-th record is the i-th track converted |
| Spotify.MapTracksConcat | src/api/spotify.rs:88-95 | mapping commutes with concatenation, so order and count are kept page by page |
| Spotify.SpotifyClient.GetPlaylistNext | src/api/spotify.rs:103-120 | returns the drained chain; the rate-limited request log grows by exactly the chain's URLs, one request per page |
| Spotify.SpotifyClient.GetPlaylist | src/api/spotify.rs:74-101 | the token request, then the metadata request, then the chain, stopping at the first error; on success the name comes from the metadata and the tracks are the drained chain mapped one for one. The chain must end only when the token and the metadata succeed, since only then is it followed |
| Spotify.ThreePageExample | src/api/spotify.rs:103-120 | a three-page chain is read in three requests and yields its five tracks in order |
| OAuth2.Sender.Send | src/oauth2/server.rs:43 | a send appends the value to what the channel has carried |
| OAuth2.Take | src/oauth2/mod.rs:16 | a sampled string has the requested length and is alphanumeric |
| OAuth2.AcceptedIsBase64Url | src/oauth2/mod.rs:71-75 | an accepted standard encoding with `=` removed is its base64url form without padding |
| OAuth2.GenerateCode | src/oauth2/mod.rs:59-77 | the verifier is the first accepted draw and has 96 alphanumeric (unreserved) characters; the challenge is the standard base64 of the verifier's SHA-256 with `=` removed, contains no `+`, `/` or `=`, and equals the S256 challenge |
| OAuth2.GetPort | src/oauth2/mod.rs:120-131 | the port is in [4000, 8000) and is the first draw whose `is_free` answer was yes |
| OAuth2.Decimal | src/oauth2/mod.rs:36 | the port is printed as a non-empty run of decimal digits without a leading zero whose value is the port |
| OAuth2.CreateAuthenticationUri | src/oauth2/mod.rs:105-118 | the URI starts with the Google authorization endpoint and has a query after it |
| OAuth2.AuthenticationUriRoundTrip | src/oauth2/mod.rs:105-117 | the URI is the Google endpoint followed by a query that reads back as client_id, redirect_uri, response_type=code, the youtube scope, code_challenge, code_challenge_method=S256 and state, in that order |
| OAuth2.NewExchangeAccessTokenRequest | src/oauth2/google_api.rs:39-49 | the exchange request carries the client id and secret, the received code, the verifier and the redirect URI unchanged, with grant type `authorization_code` |
| OAuth2.DoOAuth | src/oauth2/mod.rs:13-50 | the state is the first 32 characters of the random stream, alphanumeric; the port is the first draw whose probe answered free; the verifier is the first accepted draw; the handler's shared data holds the same state and a new, empty channel; the URI carries the S256 challenge of the verifier later sent in the exchange; the exchange uses the same `http://localhost:<port>` redirect URI |
| OAuth2.RedirectUriAgrees | src/oauth2/mod.rs:36-48 | the redirect URI and challenge read back from the authorization URI are the redirect URI and the verifier's challenge of the token exchange |
| OAuth2Server.Respond | src/oauth2/server.rs:31-45 | 500 iff an error is present; a panic iff there is no error and no code, whatever the state; 400 "State does not match" iff a code comes with a state not equal to the stored one; 200 "You may close this tab" iff accepted |
| OAuth2Server.Delivered | src/oauth2/server.rs:39-43 | a request puts exactly its code on the channel iff it is accepted, and nothing otherwise |
| OAuth2Server.Authorization | src/oauth2/server.rs:31-45 | replies as `Respond` says; the channel grows by the code on the 200 path and by nothing otherwise |
| OAuth2Server.AcceptedCodes | src/oauth2/server.rs:31-45 | a series of requests puts at most one code per request on the channel, and every code on it is the code of an accepted request |
| OAuth2Server.AcceptedCodesAppend | src/oauth2/server.rs:31-45 | the handler keeps no memory: each further request adds what it delivers alone, so every later valid request sends again |
| OAuth2Server.FirstReceivedCode | src/oauth2/mod.rs:41 | the login flow receives a code iff some request was accepted; it receives the code of the first accepted request |
| OAuth2Server.AcceptedDelivers | src/oauth2/server.rs:31-45 | once some request of a series is accepted, the channel carries at least one code |
| OAuth2Server.FirstCodeIsFirstAccepted | src/oauth2/server.rs:31-45 | the first code on the channel is that of an accepted request before which no request was accepted |
| OAuth2Server.EchoedStateAccepted | src/oauth2/mod.rs:16-36 | the state read back from the authorization URI is the one the handler holds: a redirect echoing it with a code is answered 200 and delivers the code, and any other state gets 400 |

## Left out

- HTTP is not modelled: the requests themselves, the search request, `create_playlist`, `insert_track`, the Spotify login and the token exchange's POST. Their answers are parameters.
- JSON decoding (serde_json and the serde derives) is a decoder parameter. The schema records are taken as already decoded.
- The `try_rl!` rate limiter's mutex, clock arithmetic and sleeping are not modelled. Only the sequence of requests it admits is (`SpotifyClient.requests`).
- Threads, mpsc handshakes, the actix server's start and stop, and `start_actix` are left out. The channel is the `Sender` class.
- The "Failed to send data" panic is left out. The receiver stays alive until the code is received.
- SHA-256, base64, percent-encoding, `rand` and `port::is_free` are parameters, not definitions.
- The `u16` cast of the port is left out. Every draw lies in [4000, 8000), so it never truncates.
- The CLI, the logger and the top-level loop are not part of this model. They live in src/main.rs.
- The credentials file reader is not part of this model. `Env` is the record it yields.
- Logging is left out everywhere.
- RustStr.Split: covers non-empty patterns only, the only kind the code uses.
- RustStr.ReplaceAll: covers non-empty patterns only, for the same reason.
- Spotify.SpotifyClient.GetPlaylistNext: requires the chain to end within a ghost bound `n`. The code has no cycle guard and does not terminate on a cyclic chain.
- OAuth2.GenerateCode: requires that some supplied draw is accepted. With no accepted draw the code loops for ever.
- OAuth2.GetPort: requires that some probe answers free, for the same reason.
- OAuth2.DoOAuth: takes the code received from the channel as a parameter. `OAuth2Server.FirstReceivedCode` says which code that is.
- OAuth2.AuthenticationUriRoundTrip: assumes the percent-encoding never emits `&` or `=` and is undone by its decoder. It does not model the encoder itself.
