/** The Spotify side: reading a playlist's name and all of its tracks,
    following the `next` cursor of each track page. */
module Spotify {
  import opened Wrappers

  type Url = string

  // ---------------------------------------------------------------------
  // Records as the API returns them, and as the tool keeps them

  datatype Artist = Artist(name: string)
  datatype TrackResponse = TrackResponse(name: string, artists: seq<Artist>)
  datatype PlaylistItems = PlaylistItems(track: TrackResponse)
  /** One page of a playlist's tracks, with the URL of the next page. */
  datatype PlaylistTracksResponse = PlaylistTracksResponse(next: Option<Url>, items: seq<PlaylistItems>)
  datatype PlaylistResponse = PlaylistResponse(name: string)

  datatype PlaylistTrack = PlaylistTrack(name: string, artist: string)
  datatype Playlist = Playlist(tracks: seq<PlaylistTrack>, name: string)

  const TokenUrl: Url := "https://accounts.spotify.com/api/token"
  const PlaylistsUrl: Url := "https://api.spotify.com/v1/playlists/"

  function PlaylistUrl(id: string): Url {
    PlaylistsUrl + id
  }

  function TracksUrl(id: string): Url {
    PlaylistsUrl + id + "/tracks?offset=0&limit=100"
  }

  // ---------------------------------------------------------------------
  // The page chain

  /** What the API answers to a GET of each track-page URL, after JSON
      decoding: a page, or the transport or decoding error. */
  type Pages = map<Url, Result<PlaylistTracksResponse>>

  /** One GET of a track page; a URL the map does not know fails. */
  function Fetch(pages: Pages, url: Url): Result<PlaylistTracksResponse> {
    if url in pages then pages[url] else Failure("no response from " + url)
  }

  /** The tracks of one page, in page order. */
  function TracksOf(items: seq<PlaylistItems>): seq<TrackResponse> {
    seq(|items|, i requires 0 <= i < |items| => items[i].track)
  }

  /** Following `next` from `url` ends (at a failed fetch or at a page
      without `next`) within `n` further pages. The code has no cycle
      guard, so this is what it needs of the API to terminate. */
  predicate EndsWithin(pages: Pages, url: Url, n: nat)
    decreases n
  {
    match Fetch(pages, url)
    case Failure(_) => true
    case Success(page) => page.next.None? || (n > 0 && EndsWithin(pages, page.next.value, n - 1))
  }

  /** The URLs requested, in order, starting at `url`: each successfully
      fetched page with a `next` leads to the next URL, and requesting
      stops after a failed fetch or a page without `next`. */
  function ChainUrls(pages: Pages, url: Url, n: nat): (urls: seq<Url>)
    requires EndsWithin(pages, url, n)
    ensures 1 <= |urls| <= n + 1 && urls[0] == url
    ensures forall k :: 0 <= k < |urls| - 1 ==>
              Fetch(pages, urls[k]).Success? && Fetch(pages, urls[k]).value.next == Some(urls[k + 1])
    ensures Fetch(pages, urls[|urls| - 1]).Failure? || Fetch(pages, urls[|urls| - 1]).value.next.None?
    decreases n
  {
    match Fetch(pages, url)
    case Failure(_) => [url]
    case Success(page) =>
      if page.next.None? then [url]
      else
        var rest := ChainUrls(pages, page.next.value, n - 1);
        assert forall k :: 1 <= k < |rest| + 1 ==> ([url] + rest)[k] == rest[k - 1];
        [url] + rest
  }

  /** `get_playlist_next` as a value: this page's tracks followed by those
      of the rest of the chain, or the first error met. */
  function Drain(pages: Pages, url: Url, n: nat): Result<seq<TrackResponse>>
    requires EndsWithin(pages, url, n)
    decreases n
  {
    match Fetch(pages, url)
    case Failure(e) => Failure(e)
    case Success(page) =>
      if page.next.None? then Success(TracksOf(page.items))
      else
        match Drain(pages, page.next.value, n - 1)
        case Failure(e) => Failure(e)
        case Success(rest) => Success(TracksOf(page.items) + rest)
  }

  /** A fetched page with a `next` link: the chain and its result continue
      from that link, one page further on. */
  lemma ChainStep(pages: Pages, url: Url, n: nat)
    requires EndsWithin(pages, url, n)
    requires Fetch(pages, url).Success? && Fetch(pages, url).value.next.Some?
    ensures var page := Fetch(pages, url).value;
            && n > 0 && EndsWithin(pages, page.next.value, n - 1)
            && ChainUrls(pages, url, n) == [url] + ChainUrls(pages, page.next.value, n - 1)
            && Drain(pages, url, n) == match Drain(pages, page.next.value, n - 1)
                                       case Failure(e) => Failure(e)
                                       case Success(rest) => Success(TracksOf(page.items) + rest)
  {
  }

  /** Every fetch along a list of URLs succeeded. */
  ghost predicate AllFetched(pages: Pages, urls: seq<Url>) {
    forall k :: 0 <= k < |urls| ==> Fetch(pages, urls[k]).Success?
  }

  /** The tracks of the pages at `urls`, page after page (failed fetches
      contribute nothing). */
  function PagesTracks(pages: Pages, urls: seq<Url>): seq<TrackResponse> {
    if urls == [] then []
    else
      (match Fetch(pages, urls[0])
       case Failure(_) => []
       case Success(page) => TracksOf(page.items))
      + PagesTracks(pages, urls[1..])
  }

  /** The number of items on the pages at `urls`. */
  function ItemCount(pages: Pages, urls: seq<Url>): nat {
    if urls == [] then 0
    else
      (match Fetch(pages, urls[0])
       case Failure(_) => 0
       case Success(page) => |page.items|)
      + ItemCount(pages, urls[1..])
  }

  /** The whole call fails exactly when some page of the chain fails, and
      then carries the error of that page (the last one requested) and no
      partial list. */
  lemma {:induction false} DrainFailsIffSomePageFails(pages: Pages, url: Url, n: nat)
    requires EndsWithin(pages, url, n)
    ensures Drain(pages, url, n).Success? <==> AllFetched(pages, ChainUrls(pages, url, n))
    ensures Drain(pages, url, n).Failure? ==>
              var urls := ChainUrls(pages, url, n);
              Drain(pages, url, n) == Failure(Fetch(pages, urls[|urls| - 1]).error)
    decreases n
  {
    var urls := ChainUrls(pages, url, n);
    match Fetch(pages, url)
    case Failure(_) =>
      assert !AllFetched(pages, urls) by { assert urls[0] == url; }
    case Success(page) =>
      if page.next.Some? {
        var rest := ChainUrls(pages, page.next.value, n - 1);
        ChainStep(pages, url, n);
        DrainFailsIffSomePageFails(pages, page.next.value, n - 1);
        assert forall k :: 1 <= k < |urls| ==> urls[k] == rest[k - 1];
      }
  }

  /** On success the call returns the tracks of all pages of the chain, in
      page order and in order within each page. */
  lemma {:induction false} DrainIsChainConcatenation(pages: Pages, url: Url, n: nat)
    requires EndsWithin(pages, url, n) && Drain(pages, url, n).Success?
    ensures Drain(pages, url, n).value == PagesTracks(pages, ChainUrls(pages, url, n))
    decreases n
  {
    var urls := ChainUrls(pages, url, n);
    var page := Fetch(pages, url).value;
    if page.next.None? {
      assert urls == [url];
      assert PagesTracks(pages, urls) == TracksOf(page.items) + PagesTracks(pages, []);
    } else {
      var rest := ChainUrls(pages, page.next.value, n - 1);
      ChainStep(pages, url, n);
      DrainIsChainConcatenation(pages, page.next.value, n - 1);
      assert urls[1..] == rest;
    }
  }

  lemma {:induction false} PagesTracksLength(pages: Pages, urls: seq<Url>)
    ensures |PagesTracks(pages, urls)| == ItemCount(pages, urls)
    decreases |urls|
  {
    if urls != [] {
      PagesTracksLength(pages, urls[1..]);
    }
  }

  /** On success the number of tracks is the sum of the item counts of the
      pages in the chain. */
  lemma DrainLength(pages: Pages, url: Url, n: nat)
    requires EndsWithin(pages, url, n) && Drain(pages, url, n).Success?
    ensures |Drain(pages, url, n).value| == ItemCount(pages, ChainUrls(pages, url, n))
  {
    DrainIsChainConcatenation(pages, url, n);
    PagesTracksLength(pages, ChainUrls(pages, url, n));
  }

  // ---------------------------------------------------------------------
  // Mapping to the tool's own records

  /** The track's name and its first artist's name, or the empty string
      when it lists no artist. */
  function ToPlaylistTrack(t: TrackResponse): (p: PlaylistTrack)
    ensures p.name == t.name
    ensures |t.artists| > 0 ==> p.artist == t.artists[0].name
    ensures t.artists == [] ==> p.artist == ""
  {
    PlaylistTrack(t.name, if |t.artists| > 0 then t.artists[0].name else "")
  }

  /** The iterator map over the collected tracks. */
  function MapTracks(ts: seq<TrackResponse>): (ps: seq<PlaylistTrack>)
    ensures |ps| == |ts|
    ensures forall i :: 0 <= i < |ts| ==> ps[i] == ToPlaylistTrack(ts[i])
  {
    seq(|ts|, i requires 0 <= i < |ts| => ToPlaylistTrack(ts[i]))
  }

  /** Mapping keeps count and order: mapping all pages at once is mapping
      each page and concatenating the results. */
  lemma MapTracksConcat(a: seq<TrackResponse>, b: seq<TrackResponse>)
    ensures MapTracks(a + b) == MapTracks(a) + MapTracks(b)
  {
    assert forall i :: 0 <= i < |a| + |b| ==> MapTracks(a + b)[i] == (MapTracks(a) + MapTracks(b))[i];
  }

  // ---------------------------------------------------------------------
  // The client

  /** The HTTP client behind the shared rate-limit bucket, together with
      the answers the API gives it. `requests` lists every request the
      bucket admitted, in order. */
  class SpotifyClient {
    /** The answer to the login request: an access token, or an error. */
    const token: Result<string>
    /** The answers to playlist-metadata GETs. */
    const playlists: map<Url, Result<PlaylistResponse>>
    /** The answers to track-page GETs. */
    const pages: Pages
    var requests: seq<Url>

    constructor (token: Result<string>, playlists: map<Url, Result<PlaylistResponse>>, pages: Pages)
      ensures this.token == token && this.playlists == playlists && this.pages == pages
      ensures requests == []
    {
      this.token := token;
      this.playlists := playlists;
      this.pages := pages;
      requests := [];
    }

    function FetchPlaylist(url: Url): Result<PlaylistResponse> {
      if url in playlists then playlists[url] else Failure("no response from " + url)
    }

    /** One rate-limited request per page, each URL of the chain once, and
        the result of draining the chain. */
    method GetPlaylistNext(next: Url, ghost n: nat) returns (r: Result<seq<TrackResponse>>)
      requires EndsWithin(pages, next, n)
      modifies this
      ensures r == Drain(pages, next, n)
      ensures requests == old(requests) + ChainUrls(pages, next, n)
      decreases n
    {
      requests := requests + [next];
      var resp := Fetch(pages, next);
      if resp.Failure? {
        return Failure(resp.error);
      }
      var tracks := TracksOf(resp.value.items);
      if resp.value.next.Some? {
        ChainStep(pages, next, n);
        var rest := GetPlaylistNext(resp.value.next.value, n - 1);
        if rest.Failure? {
          return Failure(rest.error);
        }
        tracks := tracks + rest.value;
      }
      return Success(tracks);
    }

    /** Login, playlist metadata, then the track chain; the first error
        ends the call. On success the name comes from the metadata and the
        tracks are the drained chain, mapped one for one. */
    method GetPlaylist(id: string, ghost n: nat) returns (r: Result<Playlist>)
      requires token.Success? && FetchPlaylist(PlaylistUrl(id)).Success? ==> EndsWithin(pages, TracksUrl(id), n)
      modifies this
      ensures token.Failure? ==> r == Failure(token.error) && requests == old(requests) + [TokenUrl]
      ensures token.Success? && FetchPlaylist(PlaylistUrl(id)).Failure? ==>
                && r == Failure(FetchPlaylist(PlaylistUrl(id)).error)
                && requests == old(requests) + [TokenUrl, PlaylistUrl(id)]
      ensures token.Success? && FetchPlaylist(PlaylistUrl(id)).Success? ==>
                && requests == old(requests) + [TokenUrl, PlaylistUrl(id)] + ChainUrls(pages, TracksUrl(id), n)
                && r == match Drain(pages, TracksUrl(id), n)
                        case Failure(e) => Failure(e)
                        case Success(ts) =>
                          Success(Playlist(MapTracks(ts), FetchPlaylist(PlaylistUrl(id)).value.name))
    {
      requests := requests + [TokenUrl];
      if token.Failure? {
        return Failure(token.error);
      }
      requests := requests + [PlaylistUrl(id)];
      var response := FetchPlaylist(PlaylistUrl(id));
      if response.Failure? {
        return Failure(response.error);
      }
      var tracks := GetPlaylistNext(TracksUrl(id), n);
      if tracks.Failure? {
        return Failure(tracks.error);
      }
      return Success(Playlist(MapTracks(tracks.value), response.value.name));
    }
  }

  /** A three-page playlist: pages of two, one and two tracks are read in
      three requests and come back as one list of five, in order. */
  lemma ThreePageExample(a: TrackResponse, b: TrackResponse, c: TrackResponse, d: TrackResponse, e: TrackResponse)
    ensures var pages: Pages := map[
                "p1" := Success(PlaylistTracksResponse(Some("p2"), [PlaylistItems(a), PlaylistItems(b)])),
                "p2" := Success(PlaylistTracksResponse(Some("p3"), [PlaylistItems(c)])),
                "p3" := Success(PlaylistTracksResponse(None, [PlaylistItems(d), PlaylistItems(e)]))];
            && EndsWithin(pages, "p1", 2)
            && ChainUrls(pages, "p1", 2) == ["p1", "p2", "p3"]
            && Drain(pages, "p1", 2) == Success([a, b, c, d, e])
  {
    var pages: Pages := map[
                "p1" := Success(PlaylistTracksResponse(Some("p2"), [PlaylistItems(a), PlaylistItems(b)])),
                "p2" := Success(PlaylistTracksResponse(Some("p3"), [PlaylistItems(c)])),
                "p3" := Success(PlaylistTracksResponse(None, [PlaylistItems(d), PlaylistItems(e)]))];
    assert TracksOf(pages["p1"].value.items) == [a, b];
    assert TracksOf(pages["p2"].value.items) == [c];
    assert TracksOf(pages["p3"].value.items) == [d, e];
    assert Drain(pages, "p2", 1) == Success([c] + [d, e]);
    assert [a, b] + ([c] + [d, e]) == [a, b, c, d, e];
  }
}
