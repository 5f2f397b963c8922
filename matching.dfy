/**
  The candidate matcher of `getDataCoincides` and the `find` in `getSpotifyData`
  (spotify-preview-url-scraper/server.js): names are compared after normalization,
  which removes every character outside `[A-Za-z0-9]` and upper-cases the rest.
 */
module Matching {
  import opened Wrappers
  import opened Builtins

  /** A graph edge from the edges file: two artist names and the collaboration's track title. */
  datatype Edge = Edge(source: string, target: string, colabTrackName: string)

  datatype Artist = Artist(name: string)

  /** One search result (a track): the fields the scraper reads. */
  datatype Candidate = Candidate(id: string, name: string, artists: seq<Artist>, previewUrl: Option<string>)

  predicate IsAsciiAlnum(c: char) {
    'a' <= c <= 'z' || 'A' <= c <= 'Z' || '0' <= c <= '9'
  }

  predicate IsNormalChar(c: char) {
    'A' <= c <= 'Z' || '0' <= c <= '9'
  }

  /** A text that normalization leaves as it is: upper-case letters and digits only. */
  predicate IsNormal(s: string) {
    forall i :: 0 <= i < |s| ==> IsNormalChar(s[i])
  }

  /** Removes every character that is not an ASCII letter or digit, keeping the others in order. */
  function StripNonAlnum(s: string): (r: string)
    ensures |r| <= |s|
    ensures forall i :: 0 <= i < |r| ==> IsAsciiAlnum(r[i])
    ensures (forall i :: 0 <= i < |s| ==> IsAsciiAlnum(s[i])) ==> r == s
  {
    if s == [] then []
    else (if IsAsciiAlnum(s[0]) then [s[0]] else []) + StripNonAlnum(s[1..])
  }

  function UpperChar(c: char): char {
    if 'a' <= c <= 'z' then (c as int - 'a' as int + 'A' as int) as char else c
  }

  /**
    `toUpperCase` on a text of ASCII letters and digits (the only texts it is applied to
    after `StripNonAlnum`): `a`-`z` become `A`-`Z`, everything else stays.
   */
  function UpperAscii(s: string): (r: string)
    ensures |r| == |s|
    ensures forall i :: 0 <= i < |s| ==> r[i] == UpperChar(s[i])
  {
    if s == [] then [] else [UpperChar(s[0])] + UpperAscii(s[1..])
  }

  /** The normalization of `getDataCoincides`: strip to ASCII letters and digits, then upper-case. */
  function Normalize(s: string): (r: string)
    ensures IsNormal(r)
    ensures |r| <= |s|
  {
    UpperAscii(StripNonAlnum(s))
  }

  /** Stripping works character by character: the stripped parts of two texts, one after the other. */
  lemma {:induction false} StripAppend(s: string, t: string)
    ensures StripNonAlnum(s + t) == StripNonAlnum(s) + StripNonAlnum(t)
  {
    if s != [] {
      assert (s + t)[0] == s[0];
      assert (s + t)[1..] == s[1..] + t;
      StripAppend(s[1..], t);
    } else {
      assert s + t == t;
    }
  }

  /** Upper-casing works character by character. */
  lemma UpperAppend(s: string, t: string)
    ensures UpperAscii(s + t) == UpperAscii(s) + UpperAscii(t)
  {
  }

  /**
    Normalization works character by character: a text normalizes to its parts' normalizations,
    one after the other, so no letter or digit of one part is lost or moved.
   */
  lemma NormalizeAppend(s: string, t: string)
    ensures Normalize(s + t) == Normalize(s) + Normalize(t)
  {
    StripAppend(s, t);
    UpperAppend(StripNonAlnum(s), StripNonAlnum(t));
  }

  /** One character: an ASCII letter or digit is kept, upper-cased; any other character is dropped. */
  lemma NormalizeChar(c: char)
    ensures Normalize([c]) == if IsAsciiAlnum(c) then [UpperChar(c)] else []
  {
    assert [c][1..] == [];
  }

  /** Punctuation does not decide a comparison: `AC/DC` and `ACDC` normalize alike. */
  lemma SlashIsIgnored()
    ensures Normalize("AC/DC") == Normalize("ACDC") == "ACDC"
  {
    var ac, slash, dc := "AC", "/", "DC";
    assert Normalize(ac) == ac by {
      NormalizeFixedPoints(ac);
    }
    assert Normalize(dc) == dc by {
      NormalizeFixedPoints(dc);
    }
    assert Normalize(slash) == [] by {
      NormalizeChar('/');
    }
    NormalizeAppend(slash, dc);
    NormalizeAppend(ac, slash + dc);
    NormalizeAppend(ac, dc);
    assert ac + (slash + dc) == "AC/DC";
    assert ac + dc == "ACDC";
  }

  /** The normalized texts are exactly the fixed points of normalization. */
  lemma NormalizeFixedPoints(s: string)
    ensures Normalize(s) == s <==> IsNormal(s)
  {
    if IsNormal(s) {
      assert StripNonAlnum(s) == s;
      assert UpperAscii(s) == s;
    }
  }

  /** Normalizing twice is normalizing once. */
  lemma NormalizeIdempotent(s: string)
    ensures Normalize(Normalize(s)) == Normalize(s)
  {
    NormalizeFixedPoints(Normalize(s));
  }

  /** Normalization ignores case and punctuation: a letter's case never decides a comparison. */
  lemma {:induction false} NormalizeIgnoresCase(s: string)
    ensures Normalize(UpperAscii(s)) == Normalize(s)
  {
    if s != [] {
      NormalizeIgnoresCase(s[1..]);
      assert UpperAscii(s) == [UpperChar(s[0])] + UpperAscii(s[1..]);
      assert UpperAscii(s)[1..] == UpperAscii(s[1..]);
    }
  }

  /** Whether some name normalizes to `key`. */
  function AnyNormalizesTo(names: seq<string>, key: string): (b: bool)
    ensures b <==> exists i :: 0 <= i < |names| && Normalize(names[i]) == key
  {
    if names == [] then false
    else Normalize(names[0]) == key || AnyNormalizesTo(names[1..], key)
  }

  /** The names of the artists, in order. */
  function ArtistNames(artists: seq<Artist>): (r: seq<string>)
    ensures |r| == |artists|
    ensures forall i :: 0 <= i < |artists| ==> r[i] == artists[i].name
  {
    if artists == [] then [] else [artists[0].name] + ArtistNames(artists[1..])
  }

  /** What `getDataCoincides` returns. `sourceTarget`, despite its name, tests the target alone. */
  datatype MatchFlags = MatchFlags(sourceExists: bool, sourceTarget: bool, trackNameCoincides: bool, artistNames: seq<string>)

  function DataCoincides(edge: Edge, c: Candidate): (f: MatchFlags)
    ensures f.artistNames == ArtistNames(c.artists)
    ensures f.sourceExists <==>
      exists i :: 0 <= i < |c.artists| && Normalize(c.artists[i].name) == Normalize(edge.source)
    ensures f.sourceTarget <==>
      exists i :: 0 <= i < |c.artists| && Normalize(c.artists[i].name) == Normalize(edge.target)
    ensures f.trackNameCoincides <==> Normalize(c.name) == Normalize(edge.colabTrackName)
  {
    var names := ArtistNames(c.artists);
    MatchFlags(
      AnyNormalizesTo(names, Normalize(edge.source)),
      AnyNormalizesTo(names, Normalize(edge.target)),
      Normalize(c.name) == Normalize(edge.colabTrackName),
      names)
  }

  /**
    The test inside `items.find(...)`: all three flags hold, that is, among the candidate's
    artists one normalizes like the source and one like the target, and the names
    normalize alike.
   */
  predicate FullMatch(edge: Edge, c: Candidate): (b: bool)
    ensures b <==>
      (exists i :: 0 <= i < |c.artists| && Normalize(c.artists[i].name) == Normalize(edge.source)) &&
      (exists i :: 0 <= i < |c.artists| && Normalize(c.artists[i].name) == Normalize(edge.target)) &&
      Normalize(c.name) == Normalize(edge.colabTrackName)
  {
    var f := DataCoincides(edge, c);
    f.sourceExists && f.sourceTarget && f.trackNameCoincides
  }

  /** `items.find(FullMatch)`: the first candidate whose three flags all hold. */
  function FirstFullMatch(edge: Edge, items: seq<Candidate>): (r: Option<Candidate>)
    ensures r.Some? ==> FullMatch(edge, r.value) && r.value in items
    ensures r.None? <==> forall i :: 0 <= i < |items| ==> !FullMatch(edge, items[i])
  {
    if items == [] then None
    else if FullMatch(edge, items[0]) then Some(items[0])
    else FirstFullMatch(edge, items[1..])
  }

  /** No candidate before the one found matches fully. */
  lemma {:induction false} FirstFullMatchIsFirst(edge: Edge, items: seq<Candidate>, k: nat)
    requires k < |items| && FullMatch(edge, items[k])
    requires forall j :: 0 <= j < k ==> !FullMatch(edge, items[j])
    ensures FirstFullMatch(edge, items) == Some(items[k])
  {
    if k > 0 {
      FirstFullMatchIsFirst(edge, items[1..], k - 1);
    }
  }

  /** `items.find(FullMatch) || items[0]`: a full match if there is one, else the first result. */
  function SelectCandidate(edge: Edge, items: seq<Candidate>): (c: Candidate)
    requires |items| > 0
    ensures c in items
    ensures (exists i :: 0 <= i < |items| && FullMatch(edge, items[i])) ==> FullMatch(edge, c)
    ensures (forall i :: 0 <= i < |items| ==> !FullMatch(edge, items[i])) ==> c == items[0]
  {
    match FirstFullMatch(edge, items)
    case Some(c) => c
    case None => items[0]
  }

  /** Of the fully matching candidates, the earliest is chosen. */
  lemma SelectFirstFullMatch(edge: Edge, items: seq<Candidate>, k: nat)
    requires k < |items| && FullMatch(edge, items[k])
    requires forall j :: 0 <= j < k ==> !FullMatch(edge, items[j])
    ensures SelectCandidate(edge, items) == items[k]
  {
    FirstFullMatchIsFirst(edge, items, k);
  }
}
