/**
 * The upstream client of lib/omdb.ts: the API-key guard, and the reshaping of
 * search and detail responses, whose only change is the poster upscaling
 * (the first "SX300" in a poster URL becomes "SX700").
 *
 * The HTTP request itself (URL building, `fetch`, `res.json()`) is an oracle:
 * a function from the request's parameters and the key to either the parsed
 * JSON body or the value that `fetch` or `res.json()` threw.
 */
module Omdb {
  import opened Common

  /** One element of a search response's `Search` array. `kind` is the JSON field `Type`. */
  datatype SearchItem = SearchItem(title: string, year: string, imdbID: string, kind: string, poster: string)

  /** The parsed body of a search request. `Response` and `Error` are carried, never inspected. */
  datatype SearchResponse = SearchResponse(
    search: Option<seq<SearchItem>>,
    totalResults: Option<string>,
    response: string,
    error: Option<string>)

  datatype Rating = Rating(source: string, value: string)

  /**
   * The parsed body of a detail request; every JSON field is an `Option`. The
   * declared type calls `Title`, `Year`, `imdbID` and `Type` required, but the
   * error body the upstream sends for an unknown id (`Response: 'False'`) has
   * none of them, and nothing checks it.
   */
  datatype MovieDetail = MovieDetail(
    title: Option<string>,
    year: Option<string>,
    rated: Option<string>,
    released: Option<string>,
    runtime: Option<string>,
    genre: Option<string>,
    director: Option<string>,
    actors: Option<string>,
    plot: Option<string>,
    poster: Option<string>,
    imdbID: Option<string>,
    kind: Option<string>,
    ratings: Option<seq<Rating>>)

  /** The search endpoint: (query, page, api key) to the parsed body or what was thrown. */
  type SearchFetch = (string, int, string) -> Result<SearchResponse, Thrown>

  /** The detail endpoint: (imdb id, api key) to the parsed body or what was thrown. */
  type DetailFetch = (string, string) -> Result<MovieDetail, Thrown>

  /** The sentinel the upstream uses for "no poster". */
  const NoPoster: string := "N/A"
  const LowRes: string := "SX300"
  const HighRes: string := "SX700"
  const MissingKeyMessage: string := "Missing OMDB_API_KEY"

  // ---------------------------------------------------------------------------
  // String.prototype.replace with a string pattern: only the first occurrence
  // ---------------------------------------------------------------------------

  predicate MatchAt(s: string, pat: string, i: int)
  {
    0 <= i && i + |pat| <= |s| && s[i..i + |pat|] == pat
  }

  ghost predicate Contains(s: string, pat: string)
  {
    exists i :: MatchAt(s, pat, i)
  }

  /** `i` is where `s.indexOf(pat)` points: a match with no match before it. */
  ghost predicate FirstMatchAt(s: string, pat: string, i: int)
  {
    MatchAt(s, pat, i) && forall j :: 0 <= j < i ==> !MatchAt(s, pat, j)
  }

  /** The first match of `pat` in `s` at or after `from`, scanning left to right. */
  function IndexOfFrom(s: string, pat: string, from: nat): (r: Option<nat>)
    decreases |s| - from
    ensures r.Some? ==> from <= r.value && MatchAt(s, pat, r.value)
    ensures r.Some? ==> forall j :: from <= j < r.value ==> !MatchAt(s, pat, j)
    ensures r.None? ==> forall j :: from <= j ==> !MatchAt(s, pat, j)
  {
    if from + |pat| > |s| then None
    else if s[from..from + |pat|] == pat then Some(from)
    else IndexOfFrom(s, pat, from + 1)
  }

  /** `s.indexOf(pat)`, with `None` for -1. */
  function IndexOf(s: string, pat: string): (r: Option<nat>)
    ensures r.Some? <==> Contains(s, pat)
    ensures r.Some? ==> FirstMatchAt(s, pat, r.value)
  {
    IndexOfFrom(s, pat, 0)
  }

  /** `s.replace(pat, rep)` for a string `pat` and a `rep` without `$` patterns. */
  function ReplaceFirst(s: string, pat: string, rep: string): (r: string)
    ensures !Contains(s, pat) ==> r == s
    ensures forall i {:trigger FirstMatchAt(s, pat, i)} ::
      FirstMatchAt(s, pat, i) ==> r == s[..i] + rep + s[i + |pat|..]
  {
    match IndexOf(s, pat)
    case None => s
    case Some(i) => s[..i] + rep + s[i + |pat|..]
  }

  // ---------------------------------------------------------------------------
  // Poster upscaling (lib/omdb.ts lines 35 and 46-48)
  // ---------------------------------------------------------------------------

  /**
   * `p && p !== 'N/A' ? p.replace('SX300', 'SX700') : p`. An empty or "N/A"
   * poster, and one without the marker, come back unchanged; otherwise only
   * the first marker is rewritten, and the URL keeps its length.
   */
  function UpscalePoster(p: string): (r: string)
    ensures p == "" || p == NoPoster ==> r == p
    ensures !Contains(p, LowRes) ==> r == p
    ensures forall i {:trigger FirstMatchAt(p, LowRes, i)} ::
      p != NoPoster && FirstMatchAt(p, LowRes, i) ==> r == p[..i] + HighRes + p[i + 5..]
    ensures |r| == |p|
    ensures r == p <==> p == NoPoster || !Contains(p, LowRes)
  {
    if p != "" && p != NoPoster then
      var r := ReplaceFirst(p, LowRes, HighRes);
      match IndexOf(p, LowRes)
      case None => r
      case Some(i) =>
        SpliceDiffers(p, i);
        r
    else p
  }

  /** Splicing `SX700` over a match of `SX300` turns its '3' into '7'. */
  lemma SpliceDiffers(p: string, i: int)
    requires MatchAt(p, LowRes, i)
    ensures (p[..i] + HighRes + p[i + 5..])[i + 2] == '7' && p[i + 2] == '3'
  {
    var r := p[..i] + HighRes + p[i + 5..];
    assert LowRes[2] == '3' && HighRes[2] == '7';
    assert p[i..i + 5] == LowRes;
    assert p[i + 2] == p[i..i + 5][2];
    assert |p[..i]| == i;
    assert r[i + 2] == (p[..i] + HighRes)[i + 2] == HighRes[2];
  }

  /** The rewrite touches one character only: the '3' of the first "SX300" becomes '7'. */
  lemma UpscaleChangesOneCharacter(p: string, i: int)
    requires p != NoPoster && FirstMatchAt(p, LowRes, i)
    ensures |UpscalePoster(p)| == |p|
    ensures UpscalePoster(p)[i + 2] == '7' && p[i + 2] == '3'
    ensures forall k :: 0 <= k < |p| && k != i + 2 ==> UpscalePoster(p)[k] == p[k]
  {
    var r := UpscalePoster(p);
    assert r == p[..i] + HighRes + p[i + 5..];
    assert p[i..i + 5] == LowRes;
    forall k | 0 <= k < |p| && k != i + 2
      ensures r[k] == p[k]
    {
      if k < i {
        assert r[k] == p[..i][k];
      } else if k < i + 5 {
        assert r[k] == HighRes[k - i] && p[k] == LowRes[k - i];
      } else {
        assert r[k] == p[i + 5..][k - i - 5];
      }
    }
  }

  /** The optional `Poster` of a detail record: absent stays absent. */
  function UpscaleOptionalPoster(p: Option<string>): (r: Option<string>)
    ensures p.None? <==> r.None?
    ensures p.Some? ==> r == Some(UpscalePoster(p.value))
  {
    match p
    case None => None
    case Some(s) => Some(UpscalePoster(s))
  }

  // ---------------------------------------------------------------------------
  // Response shaping
  // ---------------------------------------------------------------------------

  /**
   * The reassignment of `data.Search` in searchMovies: when `Search` is present
   * every item keeps its place and every field except `Poster`; when it is
   * absent (as in a `Response: 'False'` body) the body is returned as it is.
   */
  function NormalizeSearch(data: SearchResponse): (r: SearchResponse)
    ensures r.response == data.response && r.error == data.error && r.totalResults == data.totalResults
    ensures r.search.Some? <==> data.search.Some?
    ensures data.search.None? ==> r == data
    ensures data.search.Some? ==> |r.search.value| == |data.search.value|
    ensures data.search.Some? ==> forall i :: 0 <= i < |data.search.value| ==>
      r.search.value[i].(poster := data.search.value[i].poster) == data.search.value[i]
      && r.search.value[i].poster == UpscalePoster(data.search.value[i].poster)
  {
    match data.search
    case None => data
    case Some(items) =>
      data.(search := Some(seq(|items|, i requires 0 <= i < |items| => items[i].(poster := UpscalePoster(items[i].poster)))))
  }

  /** The assignment to `data.Poster` in getMovieById: no other field changes. */
  function NormalizeDetail(data: MovieDetail): (r: MovieDetail)
    ensures r.(poster := data.poster) == data
    ensures r.poster == UpscaleOptionalPoster(data.poster)
  {
    data.(poster := UpscaleOptionalPoster(data.poster))
  }

  // ---------------------------------------------------------------------------
  // The two requests
  // ---------------------------------------------------------------------------

  /** `apiKey()`: `process.env.OMDB_API_KEY`, which must be present and non-empty. */
  function ApiKey(env: Option<string>): (r: Result<string, Thrown>)
    ensures r.Success? <==> env.Some? && env.value != ""
    ensures r.Success? ==> r.value == env.value
    ensures r.Failure? ==> r.error == ErrorInstance(MissingKeyMessage)
  {
    if env.Some? && env.value != "" then Success(env.value)
    else Failure(ErrorInstance(MissingKeyMessage))
  }

  /**
   * `searchMovies(query, page)`. The key is checked while the URL is built, so
   * without a key the result does not depend on the upstream at all. A body
   * with `Response: 'False'` is a success like any other.
   */
  function SearchMovies(env: Option<string>, fetch: SearchFetch, query: string, page: int): (r: Result<SearchResponse, Thrown>)
    ensures ApiKey(env).Failure? ==> r == Failure(ErrorInstance(MissingKeyMessage))
    ensures ApiKey(env).Success? ==> (r.Success? <==> fetch(query, page, env.value).Success?)
    ensures ApiKey(env).Success? && fetch(query, page, env.value).Failure? ==>
      r == fetch(query, page, env.value)
    ensures ApiKey(env).Success? && fetch(query, page, env.value).Success? ==>
      r.value == NormalizeSearch(fetch(query, page, env.value).value)
  {
    match ApiKey(env)
    case Failure(e) => Failure(e)
    case Success(key) =>
      match fetch(query, page, key)
      case Failure(e) => Failure(e)
      case Success(data) => Success(NormalizeSearch(data))
  }

  /** `getMovieById(id)`: same key guard, then only the poster of the body changes. */
  function GetMovieById(env: Option<string>, fetch: DetailFetch, imdbId: string): (r: Result<MovieDetail, Thrown>)
    ensures ApiKey(env).Failure? ==> r == Failure(ErrorInstance(MissingKeyMessage))
    ensures ApiKey(env).Success? ==> (r.Success? <==> fetch(imdbId, env.value).Success?)
    ensures ApiKey(env).Success? && fetch(imdbId, env.value).Failure? ==>
      r == fetch(imdbId, env.value)
    ensures ApiKey(env).Success? && fetch(imdbId, env.value).Success? ==>
      r.value == NormalizeDetail(fetch(imdbId, env.value).value)
  {
    match ApiKey(env)
    case Failure(e) => Failure(e)
    case Success(key) =>
      match fetch(imdbId, key)
      case Failure(e) => Failure(e)
      case Success(data) => Success(NormalizeDetail(data))
  }
}
