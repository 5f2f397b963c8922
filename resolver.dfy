/**
  The decision logic of `getSpotifyData` (spotify-preview-url-scraper/server.js): the search
  query, the choice of candidate, the preview fallback through one detail lookup, and the
  three shapes of the record it returns.

  The two HTTP endpoints are an oracle `Api`. Each answer depends on the number of the
  resolver call it belongs to (so a retry of the same query may be answered differently)
  and on the request: the query text for the search endpoint, the track id for the
  detail endpoint.
 */
module Resolver {
  import opened Wrappers
  import opened Builtins
  import opened Matching

  /** The search endpoint's answer: a thrown request, or the list at `data.tracks.items`
      (a response without that list reads as no items). */
  datatype SearchOutcome = SearchFailed | Items(items: seq<Candidate>)

  /** The detail endpoint's answer: a thrown request, or the track's `preview_url`. */
  datatype DetailOutcome = DetailFailed | Track(previewUrl: Option<string>)

  datatype Api = Api(search: (nat, string) -> SearchOutcome, detail: (nat, string) -> DetailOutcome)

  /** The record's `error` column. */
  datatype ErrorTag = NoError | NotFound | RequestError {
    function Text(): string {
      match this
      case NoError => ""
      case NotFound => "not found"
      case RequestError => "request error"
    }
  }

  /** The error tag a search answer leads to, whatever the detail lookup says. */
  function Status(s: SearchOutcome): ErrorTag {
    match s
    case SearchFailed => RequestError
    case Items(items) => if |items| == 0 then NotFound else NoError
  }

  /** A column that holds a boolean on success and `''` on the two error shapes. */
  datatype Cell = Blank | Bool(value: bool)

  /** The `preview` column: a URL or `false`. */
  datatype Preview = NoPreview | Url(url: string)

  /** The record written for one edge, column by column. */
  datatype Theme = Theme(
    source: string,
    target: string,
    edgeTrackName: string,
    spotifyTrackName: string,
    spotifyArtists: string,
    trackNameCoincides: Cell,
    artistsCoincides: Cell,
    id: string,
    preview: Preview,
    error: ErrorTag)

  /** A JavaScript value that is truthy when it is a string: present and non-empty. */
  predicate Truthy(v: Option<string>) {
    v.Some? && v.value != ""
  }

  /**
    The query text: `track:`, the title and a space, then the artist clause `artist:<source> <target>`;
    with `hideArtist` the clause is dropped but the space before it stays.
   */
  function Query(edge: Edge, hideArtist: bool): (q: string)
    ensures var t := |edge.colabTrackName|;
      |q| > 6 + t && q[..6] == "track:" && q[6..6 + t] == edge.colabTrackName && q[6 + t] == ' ' &&
      (hideArtist <==> |q| == 7 + t) &&
      (!hideArtist ==> q[7 + t..] == "artist:" + edge.source + " " + edge.target)
  {
    "track:" + edge.colabTrackName + " " + (if hideArtist then "" else "artist:" + edge.source + " " + edge.target)
  }

  /**
    Hiding the artist shortens the query to a proper prefix of the full one, so the
    retry is a different, broader request.
   */
  lemma HiddenArtistQueryIsPrefix(edge: Edge)
    ensures Query(edge, true) < Query(edge, false)
  {
    var p := "track:" + edge.colabTrackName + " ";
    assert Query(edge, true) == p + "";
    assert Query(edge, false) == p + ("artist:" + edge.source + " " + edge.target);
  }

  /** The preview of the chosen candidate: its own URL, else the detail lookup's, else `false`. */
  function PreviewOf(own: Option<string>, detail: DetailOutcome): (p: Preview)
    ensures Truthy(own) ==> p == Url(own.value)
    ensures !Truthy(own) && detail.Track? && Truthy(detail.previewUrl) ==> p == Url(detail.previewUrl.value)
    ensures p == NoPreview <==> !Truthy(own) && !(detail.Track? && Truthy(detail.previewUrl))
    ensures p.Url? ==> p.url != ""
  {
    if Truthy(own) then Url(own.value)
    else match detail
      case Track(u) => if Truthy(u) then Url(u.value) else NoPreview
      case DetailFailed => NoPreview
  }

  /**
    The record of an edge for which nothing was found or the search request failed: the
    edge's own columns, the tag, and every column about a Spotify track empty or blank.
   */
  function BlankRecord(edge: Edge, error: ErrorTag): (t: Theme)
    ensures t.source == edge.source && t.target == edge.target && t.edgeTrackName == edge.colabTrackName
    ensures t.error == error
    ensures t.spotifyTrackName == "" && t.spotifyArtists == "" && t.id == "" && t.preview == NoPreview
    ensures t.trackNameCoincides == Blank && t.artistsCoincides == Blank
  {
    Theme(edge.source, edge.target, edge.colabTrackName, "", "", Blank, Blank, "", NoPreview, error)
  }

  /**
    The record of an edge for which candidate `c` was chosen: the candidate's name, id and
    joined artist names, and its flags, where `artists_coincides` needs both the source and
    the target among the candidate's artists.
   */
  function FoundRecord(edge: Edge, c: Candidate, preview: Preview): (t: Theme)
    ensures t.error == NoError && t.preview == preview
    ensures t.id == c.id && t.spotifyTrackName == c.name
    ensures t.spotifyArtists == Join(ArtistNames(c.artists), ", ")
    ensures t.trackNameCoincides == Bool(Normalize(c.name) == Normalize(edge.colabTrackName))
    ensures t.artistsCoincides.Bool?
    ensures t.artistsCoincides.value <==>
      (exists a :: 0 <= a < |c.artists| && Normalize(c.artists[a].name) == Normalize(edge.source)) &&
      (exists b :: 0 <= b < |c.artists| && Normalize(c.artists[b].name) == Normalize(edge.target))
  {
    var f := DataCoincides(edge, c);
    Theme(edge.source, edge.target, edge.colabTrackName, c.name, Join(f.artistNames, ", "),
          Bool(f.trackNameCoincides), Bool(f.sourceExists && f.sourceTarget), c.id, preview, NoError)
  }

  /** `getSpotifyData(edge, token, hideArtist)` as the `n`-th resolver call. */
  function GetSpotifyData(edge: Edge, hideArtist: bool, api: Api, n: nat): (t: Theme)
    ensures t.source == edge.source && t.target == edge.target && t.edgeTrackName == edge.colabTrackName
    ensures t.error == Status(api.search(n, Query(edge, hideArtist)))
    ensures t.error == RequestError <==> api.search(n, Query(edge, hideArtist)).SearchFailed?
    ensures t.error == NotFound <==> api.search(n, Query(edge, hideArtist)) == Items([])
  {
    match api.search(n, Query(edge, hideArtist))
    case SearchFailed => BlankRecord(edge, RequestError)
    case Items(items) =>
      if |items| == 0 then BlankRecord(edge, NotFound)
      else
        var c := SelectCandidate(edge, items);
        FoundRecord(edge, c, PreviewOf(c.previewUrl, api.detail(n, c.id)))
  }

  /**
    The `error` text of a call's record names its search outcome: `not found` exactly for
    no items, `request error` exactly for a failed request, and `''` for a success.
   */
  lemma ErrorTextOfCall(edge: Edge, hideArtist: bool, api: Api, n: nat)
    ensures var s := api.search(n, Query(edge, hideArtist));
      var e := GetSpotifyData(edge, hideArtist, api, n).error.Text();
      (e == "not found" <==> s == Items([])) &&
      (e == "request error" <==> s.SearchFailed?) &&
      (e == "" <==> s.Items? && |s.items| > 0)
  {
    assert "not found"[0] != "request error"[0];
  }

  /**
    The two shapes of a record: an error record is blank apart from the edge's own columns;
    a success record describes the selected candidate, with the preview it resolves to
    through this call's detail lookup for that candidate's id.
   */
  lemma RecordShapes(edge: Edge, hideArtist: bool, api: Api, n: nat)
    ensures var t := GetSpotifyData(edge, hideArtist, api, n);
      t.error != NoError ==> t == BlankRecord(edge, t.error)
    ensures var t := GetSpotifyData(edge, hideArtist, api, n);
      t.error == NoError ==>
        var items := api.search(n, Query(edge, hideArtist)).items;
        var c := SelectCandidate(edge, items);
        t == FoundRecord(edge, c, PreviewOf(c.previewUrl, api.detail(n, c.id)))
  {
  }

  /**
    When the chosen candidate carries a truthy `preview_url`, the detail endpoint is never
    consulted: replacing it by any other leaves the record as it is, with that URL as preview.
   */
  lemma OwnPreviewSkipsDetail(edge: Edge, hideArtist: bool, api: Api, detail: (nat, string) -> DetailOutcome, n: nat)
    ensures var s := api.search(n, Query(edge, hideArtist));
      s.Items? && |s.items| > 0 && Truthy(SelectCandidate(edge, s.items).previewUrl) ==>
        GetSpotifyData(edge, hideArtist, Api(api.search, detail), n) == GetSpotifyData(edge, hideArtist, api, n) &&
        GetSpotifyData(edge, hideArtist, api, n).preview == Url(SelectCandidate(edge, s.items).previewUrl.value)
  {
  }

  /** A failing detail lookup only costs the preview; the record is still a success. */
  lemma FailedDetailKeepsSuccess(edge: Edge, hideArtist: bool, api: Api, n: nat)
    ensures var s := api.search(n, Query(edge, hideArtist));
      s.Items? && |s.items| > 0 && !Truthy(SelectCandidate(edge, s.items).previewUrl) &&
      api.detail(n, SelectCandidate(edge, s.items).id) == DetailFailed ==>
        GetSpotifyData(edge, hideArtist, api, n).error == NoError &&
        GetSpotifyData(edge, hideArtist, api, n).preview == NoPreview
  {
  }

  /** A search without items yields the `not found` shape: blank match columns and no preview. */
  lemma NoItemsIsNotFound(edge: Edge, hideArtist: bool, api: Api, n: nat)
    requires api.search(n, Query(edge, hideArtist)) == Items([])
    ensures var t := GetSpotifyData(edge, hideArtist, api, n);
      t.error == NotFound && t.preview == NoPreview &&
      t.spotifyTrackName == "" && t.spotifyArtists == "" && t.id == "" &&
      t.trackNameCoincides == Blank && t.artistsCoincides == Blank &&
      t.source == edge.source && t.target == edge.target && t.edgeTrackName == edge.colabTrackName
  {
  }
}
