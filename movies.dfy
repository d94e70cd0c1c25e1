/**
 * The data-access layer of lib/movies.ts: the `movie` cache table with its two
 * best-effort upserts, the aggregation loop `fetchAtLeastNMovies` over the
 * fixed grid of nine (query, page) searches, and `fetchMovieDetail`.
 *
 * The table is a map from `imdbId` to a row held in a class; `new Date()` is a
 * timestamp parameter; which store writes fail is a parameter; `JSON.stringify`
 * of the ratings is a function parameter whose text is not modelled.
 */
module Movies {
  import opened Common
  import opened Omdb

  type Timestamp = int

  /** What `JSON.stringify` makes of a ratings array. */
  type RatingsEncoder = seq<Rating> -> string

  /**
   * A row of the `movie` table. Nullable columns are `Option`s. `lastFetchedAt`
   * is `None` when no write of this module set it: the create branches leave
   * that column to the table's default.
   */
  datatype Row = Row(
    imdbId: string,
    title: string,
    year: string,
    kind: string,
    posterUrl: Option<string>,
    plot: Option<string>,
    genre: Option<string>,
    rated: Option<string>,
    runtime: Option<string>,
    director: Option<string>,
    actors: Option<string>,
    ratingsJson: Option<string>,
    lastFetchedAt: Option<Timestamp>)

  // ---------------------------------------------------------------------------
  // Column mappings of the two upserts
  // ---------------------------------------------------------------------------

  /** `p !== 'N/A' ? p : null`, for the summary column and for the home page's hero. */
  function PosterOrNull(poster: string): (u: Option<string>)
    ensures u.None? <==> poster == NoPoster
    ensures u.Some? ==> u.value == poster
  {
    if poster != NoPoster then Some(poster) else None
  }

  /** `d.Poster && d.Poster !== 'N/A' ? d.Poster : null`: an empty poster is null too. */
  function DetailPosterUrl(poster: Option<string>): (u: Option<string>)
    ensures u.None? <==> poster.None? || poster.value == "" || poster.value == NoPoster
    ensures u.Some? ==> u == poster
  {
    if poster.Some? && poster.value != "" && poster.value != NoPoster then poster else None
  }

  /** `d.Ratings ? JSON.stringify(d.Ratings) : …`: an empty array is still encoded. */
  function RatingsColumn(ratings: Option<seq<Rating>>, encode: RatingsEncoder): (c: Option<string>)
    ensures c.None? <==> ratings.None?
    ensures ratings.Some? ==> c == Some(encode(ratings.value))
  {
    match ratings
    case None => None
    case Some(rs) => Some(encode(rs))
  }

  /** `x ?? undefined` in a Prisma update: an absent value leaves the column as it was. */
  function KeepIfAbsent<T>(incoming: Option<T>, current: Option<T>): (c: Option<T>)
    ensures incoming.Some? ==> c == incoming
    ensures incoming.None? ==> c == current
  {
    if incoming.Some? then incoming else current
  }

  function SummaryCreate(m: SearchItem): Row
  {
    Row(m.imdbID, m.title, m.year, m.kind, PosterOrNull(m.poster),
        None, None, None, None, None, None, None, None)
  }

  function SummaryUpdate(row: Row, m: SearchItem, now: Timestamp): Row
  {
    row.(title := m.title, year := m.year, kind := m.kind,
         posterUrl := PosterOrNull(m.poster), lastFetchedAt := Some(now))
  }

  function DetailCreate(d: MovieDetail, encode: RatingsEncoder): Row
    requires d.imdbID.Some? && d.title.Some? && d.year.Some? && d.kind.Some?
  {
    Row(d.imdbID.value, d.title.value, d.year.value, d.kind.value, DetailPosterUrl(d.poster),
        d.plot, d.genre, d.rated, d.runtime, d.director, d.actors,
        RatingsColumn(d.ratings, encode), None)
  }

  function DetailUpdate(row: Row, d: MovieDetail, now: Timestamp, encode: RatingsEncoder): Row
    requires d.title.Some? && d.year.Some? && d.kind.Some?
  {
    row.(title := d.title.value, year := d.year.value, kind := d.kind.value,
         posterUrl := DetailPosterUrl(d.poster),
         plot := KeepIfAbsent(d.plot, row.plot),
         genre := KeepIfAbsent(d.genre, row.genre),
         rated := KeepIfAbsent(d.rated, row.rated),
         runtime := KeepIfAbsent(d.runtime, row.runtime),
         director := KeepIfAbsent(d.director, row.director),
         actors := KeepIfAbsent(d.actors, row.actors),
         ratingsJson := KeepIfAbsent(RatingsColumn(d.ratings, encode), row.ratingsJson),
         lastFetchedAt := Some(now))
  }

  /** The columns only a detail write fills in. */
  predicate SameDetailColumns(a: Row, b: Row)
  {
    a.plot == b.plot && a.genre == b.genre && a.rated == b.rated && a.runtime == b.runtime
    && a.director == b.director && a.actors == b.actors && a.ratingsJson == b.ratingsJson
  }

  /** A row no detail write has filled in. */
  predicate NoDetailColumns(a: Row)
  {
    a.plot.None? && a.genre.None? && a.rated.None? && a.runtime.None?
    && a.director.None? && a.actors.None? && a.ratingsJson.None?
  }

  /**
   * The row `upsertSummary(m)` leaves at `m.imdbID`: created if absent, else
   * updated. Title, year and type are copied; the poster column is null
   * exactly for the "N/A" sentinel; a refresh never erases detail columns.
   */
  function UpsertedSummaryRow(rows: map<string, Row>, m: SearchItem, now: Timestamp): (row: Row)
    ensures row.title == m.title && row.year == m.year && row.kind == m.kind
    ensures row.posterUrl.None? <==> m.poster == NoPoster
    ensures row.posterUrl.Some? ==> row.posterUrl.value == m.poster
    ensures m.imdbID in rows ==> SameDetailColumns(row, rows[m.imdbID])
    ensures m.imdbID in rows ==> row.imdbId == rows[m.imdbID].imdbId && row.lastFetchedAt == Some(now)
    ensures m.imdbID !in rows ==> row.imdbId == m.imdbID && row.lastFetchedAt.None?
    ensures m.imdbID !in rows ==> NoDetailColumns(row)
  {
    if m.imdbID in rows then SummaryUpdate(rows[m.imdbID], m, now) else SummaryCreate(m)
  }

  /** The table after a successful `upsertSummary(m)`: only the key `m.imdbID` changes. */
  function SummaryUpserted(rows: map<string, Row>, m: SearchItem, now: Timestamp): (r: map<string, Row>)
    ensures r.Keys == rows.Keys + {m.imdbID}
    ensures forall k :: k in rows && k != m.imdbID ==> r[k] == rows[k]
    ensures r[m.imdbID] == UpsertedSummaryRow(rows, m, now)
  {
    rows[m.imdbID := UpsertedSummaryRow(rows, m, now)]
  }

  /**
   * Whether the store accepts `upsertDetail(d)`: the `where` clause needs the
   * id, and the `create` data, which is sent and checked on every call whether
   * or not the row exists, needs the title, year and type columns that the
   * summary create always fills in.
   */
  predicate DetailStorable(d: MovieDetail)
  {
    d.imdbID.Some? && d.title.Some? && d.year.Some? && d.kind.Some?
  }

  /**
   * The row `upsertDetail(d)` leaves at `d.imdbID`. On create every absent
   * optional field is stored as null. On update an absent field keeps its
   * stored value, while the poster column is overwritten (null when the
   * poster is absent, empty or "N/A").
   */
  function UpsertedDetailRow(rows: map<string, Row>, d: MovieDetail, now: Timestamp, encode: RatingsEncoder): (row: Row)
    requires DetailStorable(d)
    ensures row.posterUrl.None? <==> d.poster.None? || d.poster.value == "" || d.poster.value == NoPoster
    ensures row.posterUrl.Some? ==> row.posterUrl == d.poster
    ensures d.ratings.Some? ==> row.ratingsJson == Some(encode(d.ratings.value))
    ensures d.imdbID.value !in rows ==> row.imdbId == d.imdbID.value && row.lastFetchedAt.None?
    ensures Some(row.title) == d.title && Some(row.year) == d.year && Some(row.kind) == d.kind
    ensures d.imdbID.value !in rows ==>
      && row.plot == d.plot && row.genre == d.genre && row.rated == d.rated
      && row.runtime == d.runtime && row.director == d.director && row.actors == d.actors
      && (d.ratings.None? ==> row.ratingsJson.None?)
    ensures d.imdbID.value in rows ==> row.imdbId == rows[d.imdbID.value].imdbId && row.lastFetchedAt == Some(now)
    ensures d.imdbID.value in rows ==> row.plot == (if d.plot.Some? then d.plot else rows[d.imdbID.value].plot)
    ensures d.imdbID.value in rows ==> row.genre == (if d.genre.Some? then d.genre else rows[d.imdbID.value].genre)
    ensures d.imdbID.value in rows ==> row.rated == (if d.rated.Some? then d.rated else rows[d.imdbID.value].rated)
    ensures d.imdbID.value in rows ==> row.runtime == (if d.runtime.Some? then d.runtime else rows[d.imdbID.value].runtime)
    ensures d.imdbID.value in rows ==> row.director == (if d.director.Some? then d.director else rows[d.imdbID.value].director)
    ensures d.imdbID.value in rows ==> row.actors == (if d.actors.Some? then d.actors else rows[d.imdbID.value].actors)
    ensures d.imdbID.value in rows && d.ratings.None? ==> row.ratingsJson == rows[d.imdbID.value].ratingsJson
  {
    var id := d.imdbID.value;
    if id in rows then DetailUpdate(rows[id], d, now, encode) else DetailCreate(d, encode)
  }

  /**
   * The table after `upsertDetail(d)` with a working store: only the key
   * `d.imdbID` changes, and nothing does when the store rejects the write
   * (an error body, without an id, is one such write).
   */
  function DetailUpserted(rows: map<string, Row>, d: MovieDetail, now: Timestamp, encode: RatingsEncoder): (r: map<string, Row>)
    ensures !DetailStorable(d) ==> r == rows
    ensures d.imdbID.None? ==> r == rows
    ensures DetailStorable(d) ==> r.Keys == rows.Keys + {d.imdbID.value}
    ensures DetailStorable(d) ==> forall k :: k in rows && k != d.imdbID.value ==> r[k] == rows[k]
    ensures DetailStorable(d) ==> r[d.imdbID.value] == UpsertedDetailRow(rows, d, now, encode)
  {
    if DetailStorable(d) then rows[d.imdbID.value := UpsertedDetailRow(rows, d, now, encode)] else rows
  }

  // ---------------------------------------------------------------------------
  // The cache table (`prisma.movie`)
  // ---------------------------------------------------------------------------

  class MovieTable {
    var rows: map<string, Row>

    /** `imdbId` is the unique key: each row sits under its own id. */
    ghost predicate Valid()
      reads this
    {
      forall k :: k in rows ==> rows[k].imdbId == k
    }

    constructor ()
      ensures Valid() && rows == map[]
    {
      rows := map[];
    }

    /**
     * `upsertSummary(m)`. A failing store write (`storeFails`) is swallowed and
     * leaves the table as it was.
     */
    method UpsertSummary(m: SearchItem, now: Timestamp, storeFails: bool)
      requires Valid()
      modifies this
      ensures Valid()
      ensures rows == if storeFails then old(rows) else SummaryUpserted(old(rows), m, now)
    {
      if storeFails {
        return;
      }
      if m.imdbID in rows {
        rows := rows[m.imdbID := SummaryUpdate(rows[m.imdbID], m, now)];
      } else {
        rows := rows[m.imdbID := SummaryCreate(m)];
      }
    }

    /** `upsertDetail(d)`, with the same swallowed store failure. */
    method UpsertDetail(d: MovieDetail, now: Timestamp, encode: RatingsEncoder, storeFails: bool)
      requires Valid()
      modifies this
      ensures Valid()
      ensures rows == if storeFails then old(rows) else DetailUpserted(old(rows), d, now, encode)
    {
      if storeFails {
        return;
      }
      if !DetailStorable(d) {
        return;
      }
      var id := d.imdbID.value;
      if id in rows {
        rows := rows[id := DetailUpdate(rows[id], d, now, encode)];
      } else {
        rows := rows[id := DetailCreate(d, encode)];
      }
    }
  }

  // ---------------------------------------------------------------------------
  // Several summary writes: `Promise.all(results.map(upsertSummary))`
  // ---------------------------------------------------------------------------

  /** The table after writing `ms` one after another; writes on keys in `failing` fail. */
  function SummariesUpserted(rows: map<string, Row>, ms: seq<SearchItem>, now: Timestamp, failing: set<string>): (r: map<string, Row>)
    ensures r.Keys == rows.Keys + (IdsOf(ms) - failing)
    decreases |ms|
  {
    if ms == [] then rows
    else
      var before := SummariesUpserted(rows, ms[..|ms| - 1], now, failing);
      var m := ms[|ms| - 1];
      IdsOfSnoc(ms[..|ms| - 1], m);
      assert ms == ms[..|ms| - 1] + [m];
      if m.imdbID in failing then before else SummaryUpserted(before, m, now)
  }

  function IdsOf(s: seq<SearchItem>): set<string>
  {
    set m | m in s :: m.imdbID
  }

  predicate DistinctIds(s: seq<SearchItem>)
  {
    forall i, j :: 0 <= i < j < |s| ==> s[i].imdbID != s[j].imdbID
  }

  lemma IdsOfSnoc(s: seq<SearchItem>, m: SearchItem)
    ensures IdsOf(s + [m]) == IdsOf(s) + {m.imdbID}
  {
    assert forall x :: x in s + [m] <==> x in s || x == m;
  }

  /** A key the batch does not write successfully keeps its row, or stays absent. */
  lemma {:induction false} SummariesUpsertedElsewhere(rows: map<string, Row>, ms: seq<SearchItem>, now: Timestamp, failing: set<string>, k: string)
    requires k !in IdsOf(ms) - failing
    ensures k in SummariesUpserted(rows, ms, now, failing) <==> k in rows
    ensures k in rows ==> SummariesUpserted(rows, ms, now, failing)[k] == rows[k]
    decreases |ms|
  {
    if ms != [] {
      var init, m := ms[..|ms| - 1], ms[|ms| - 1];
      assert ms == init + [m];
      IdsOfSnoc(init, m);
      SummariesUpsertedElsewhere(rows, init, now, failing, k);
    }
  }

  /**
   * With pairwise-distinct keys, each summary whose write succeeds leaves at
   * its key exactly the row its own write makes from the table as it was
   * before the batch, whatever came before it in the batch.
   */
  lemma {:induction false} SummariesUpsertedWritten(rows: map<string, Row>, ms: seq<SearchItem>, now: Timestamp, failing: set<string>, i: nat)
    requires DistinctIds(ms)
    requires i < |ms| && ms[i].imdbID !in failing
    ensures ms[i].imdbID in SummariesUpserted(rows, ms, now, failing)
    ensures SummariesUpserted(rows, ms, now, failing)[ms[i].imdbID] == UpsertedSummaryRow(rows, ms[i], now)
    decreases |ms|
  {
    var init, m := ms[..|ms| - 1], ms[|ms| - 1];
    assert ms == init + [m];
    if i < |init| {
      assert DistinctIds(init);
      SummariesUpsertedWritten(rows, init, now, failing, i);
      assert ms[i] == init[i] && ms[i].imdbID != m.imdbID;
    } else {
      assert m.imdbID !in IdsOf(init) by {
        assert forall x :: x in init ==> exists j :: 0 <= j < |init| && init[j] == x;
      }
      LastSummaryWritten(rows, init, m, now, failing);
    }
  }

  /** The last write of a batch, on a key no earlier write touched, leaves the row it makes from the original table. */
  lemma LastSummaryWritten(rows: map<string, Row>, init: seq<SearchItem>, m: SearchItem, now: Timestamp, failing: set<string>)
    requires m.imdbID !in IdsOf(init) && m.imdbID !in failing
    ensures m.imdbID in SummariesUpserted(rows, init + [m], now, failing)
    ensures SummariesUpserted(rows, init + [m], now, failing)[m.imdbID] == UpsertedSummaryRow(rows, m, now)
  {
    var before := SummariesUpserted(rows, init, now, failing);
    assert (init + [m])[..|init|] == init;
    SummariesUpsertedElsewhere(rows, init, now, failing, m.imdbID);
    assert UpsertedSummaryRow(before, m, now) == UpsertedSummaryRow(rows, m, now);
  }

  /** Two batches with the same elements leave the same row, or none, at any key. */
  lemma SameBatchAgreesAt(rows: map<string, Row>, ms: seq<SearchItem>, ms2: seq<SearchItem>, now: Timestamp, failing: set<string>, k: string)
    requires DistinctIds(ms) && DistinctIds(ms2)
    requires forall x :: x in ms <==> x in ms2
    ensures var a, b := SummariesUpserted(rows, ms, now, failing), SummariesUpserted(rows, ms2, now, failing);
      (k in a <==> k in b) && (k in a ==> a[k] == b[k])
  {
    if k in IdsOf(ms) - failing {
      var x :| x in ms && x.imdbID == k;
      var i :| 0 <= i < |ms| && ms[i] == x;
      var j :| 0 <= j < |ms2| && ms2[j] == x;
      SummariesUpsertedWritten(rows, ms, now, failing, i);
      SummariesUpsertedWritten(rows, ms2, now, failing, j);
    } else {
      assert IdsOf(ms) == IdsOf(ms2);
      SummariesUpsertedElsewhere(rows, ms, now, failing, k);
      SummariesUpsertedElsewhere(rows, ms2, now, failing, k);
    }
  }

  /** Write order does not matter: any reordering of the same distinct-key batch gives the same table. */
  lemma SummaryWriteOrderIrrelevant(rows: map<string, Row>, ms: seq<SearchItem>, ms2: seq<SearchItem>, now: Timestamp, failing: set<string>)
    requires DistinctIds(ms) && DistinctIds(ms2)
    requires multiset(ms) == multiset(ms2)
    ensures SummariesUpserted(rows, ms, now, failing) == SummariesUpserted(rows, ms2, now, failing)
  {
    forall x
      ensures x in ms <==> x in ms2
    {
      assert x in ms <==> x in multiset(ms);
      assert x in ms2 <==> x in multiset(ms2);
    }
    forall k
      ensures var a, b := SummariesUpserted(rows, ms, now, failing), SummariesUpserted(rows, ms2, now, failing);
        (k in a <==> k in b) && (k in a ==> a[k] == b[k])
    {
      SameBatchAgreesAt(rows, ms, ms2, now, failing, k);
    }
  }

  /** `await Promise.all(results.map((m) => upsertSummary(m)))`, as a sequential loop. */
  method CacheSummaries(table: MovieTable, ms: seq<SearchItem>, now: Timestamp, failing: set<string>)
    requires table.Valid()
    modifies table
    ensures table.Valid()
    ensures table.rows == SummariesUpserted(old(table.rows), ms, now, failing)
  {
    for i := 0 to |ms|
      invariant table.Valid()
      invariant table.rows == SummariesUpserted(old(table.rows), ms[..i], now, failing)
    {
      assert ms[..i + 1][..i] == ms[..i];
      table.UpsertSummary(ms[i], now, ms[i].imdbID in failing);
    }
    assert ms[..|ms|] == ms;
  }

  // ---------------------------------------------------------------------------
  // Specification of fetchAtLeastNMovies
  // ---------------------------------------------------------------------------

  /**
   * `searchMovies(query, page)` as the aggregation loop sees it. The home page
   * passes `Omdb.SearchMovies(env, fetch, ·, ·)`.
   */
  type Search = (string, int) -> Result<SearchResponse, Thrown>

  const Queries: seq<string> := ["star", "man", "love"]
  const PageNumbers: seq<int> := [1, 2, 3]

  /**
   * Search number `c` in the order the nested loops issue them, query-major:
   * the `c / 3`-th query with the `c % 3`-th page.
   */
  function Combo(c: nat): (string, int)
    requires c < |Queries| * |PageNumbers|
  {
    (Queries[c / |PageNumbers|], PageNumbers[c % |PageNumbers|])
  }

  /** The `pi`-th page of the `qi`-th query is search number `3 * qi + pi`. */
  lemma ComboAt(qi: nat, pi: nat)
    requires qi < |Queries| && pi < |PageNumbers|
    ensures 3 * qi + pi < |Queries| * |PageNumbers|
    ensures Combo(3 * qi + pi) == (Queries[qi], PageNumbers[pi])
  {
    assert (3 * qi + pi) / 3 == qi && (3 * qi + pi) % 3 == pi;
  }

  /** What one search call contributes: its items (`data.Search ?? []`) or what it threw. */
  function PageOutcome(res: Result<SearchResponse, Thrown>): (o: Result<seq<SearchItem>, Thrown>)
    ensures o.Failure? <==> res.Failure?
    ensures res.Failure? ==> o.error == res.error
    ensures res.Success? && res.value.search.Some? ==> o.value == res.value.search.value
    ensures res.Success? && res.value.search.None? ==> o.value == []
  {
    match res
    case Failure(e) => Failure(e)
    case Success(data) => Success(data.search.GetOr([]))
  }

  /** The outcome of search number `c`. */
  function SearchOutcome(search: Search, c: nat): Result<seq<SearchItem>, Thrown>
    requires c < |Queries| * |PageNumbers|
  {
    PageOutcome(search(Combo(c).0, Combo(c).1))
  }

  /** The outcome of each of the first `k` searches, were it issued. */
  function OutcomesUpTo(search: Search, k: nat): (os: seq<Result<seq<SearchItem>, Thrown>>)
    requires k <= |Queries| * |PageNumbers|
    ensures |os| == k
  {
    if k == 0 then [] else OutcomesUpTo(search, k - 1) + [SearchOutcome(search, k - 1)]
  }

  /** Outcome `i` is what search number `i` gives. */
  lemma {:induction false} OutcomesUpToAt(search: Search, k: nat, i: nat)
    requires i < k <= |Queries| * |PageNumbers|
    ensures OutcomesUpTo(search, k)[i] == SearchOutcome(search, i)
  {
    if i < k - 1 {
      OutcomesUpToAt(search, k - 1, i);
    }
  }

  /** The outcome of each of the nine searches, were it issued. */
  function Outcomes(search: Search): (os: seq<Result<seq<SearchItem>, Thrown>>)
    ensures |os| == 9
  {
    OutcomesUpTo(search, |Queries| * |PageNumbers|)
  }

  /** The `pi`-th page of the `qi`-th query is the search with outcome number `3 * qi + pi`. */
  lemma OutcomeAt(search: Search, qi: nat, pi: nat)
    requires qi < |Queries| && pi < |PageNumbers|
    ensures 3 * qi + pi < |Outcomes(search)|
    ensures Outcomes(search)[3 * qi + pi] == PageOutcome(search(Queries[qi], PageNumbers[pi]))
  {
    ComboAt(qi, pi);
    OutcomesUpToAt(search, 9, 3 * qi + pi);
  }

  function ItemsOf(o: Result<seq<SearchItem>, Thrown>): seq<SearchItem>
  {
    if o.Success? then o.value else []
  }

  /** The items of all pages, one after another; a failed search contributes nothing. */
  function Flatten(os: seq<Result<seq<SearchItem>, Thrown>>): seq<SearchItem>
    decreases |os|
  {
    if os == [] then [] else Flatten(os[..|os| - 1]) + ItemsOf(os[|os| - 1])
  }

  /** Position `i` holds the first item of `s` with its id. */
  predicate FirstOccurrence(s: seq<SearchItem>, i: int)
  {
    0 <= i < |s| && s[i].imdbID !in IdsOf(s[..i])
  }

  /** Keep the first item with each id, in order: the `seen` set and the `results` array. */
  function Dedup(s: seq<SearchItem>): (d: seq<SearchItem>)
    ensures |d| <= |s|
    ensures d == [] <==> s == []
    decreases |s|
  {
    if s == [] then []
    else
      var d := Dedup(s[..|s| - 1]);
      if s[|s| - 1].imdbID in IdsOf(d) then d else d + [s[|s| - 1]]
  }

  /** The result has pairwise-distinct ids, the same ids as the input, and only items of the input. */
  lemma {:induction false} DedupDistinct(s: seq<SearchItem>)
    ensures DistinctIds(Dedup(s))
    ensures IdsOf(Dedup(s)) == IdsOf(s)
    ensures forall x :: x in Dedup(s) ==> x in s
    decreases |s|
  {
    if s != [] {
      var init, m := s[..|s| - 1], s[|s| - 1];
      assert s == init + [m];
      var d := Dedup(init);
      DedupDistinct(init);
      IdsOfSnoc(init, m);
      IdsOfSnoc(d, m);
      if m.imdbID !in IdsOf(d) {
        assert forall i :: 0 <= i < |d| ==> d[i] in d;
      }
    }
  }

  /** Deduplicating a longer input only appends: the output of a prefix is a prefix of the output. */
  lemma {:induction false} DedupPrefix(s: seq<SearchItem>, s2: seq<SearchItem>)
    requires s <= s2
    ensures Dedup(s) <= Dedup(s2)
    decreases |s2|
  {
    if |s2| > |s| {
      var init := s2[..|s2| - 1];
      assert s <= init;
      DedupPrefix(s, init);
      assert s2 == init + [s2[|s2| - 1]];
    } else {
      assert s == s2;
    }
  }

  /** One more input item: appended when its id is new, dropped otherwise. */
  lemma DedupSnoc(s: seq<SearchItem>, m: SearchItem)
    ensures Dedup(s + [m]) == if m.imdbID in IdsOf(Dedup(s)) then Dedup(s) else Dedup(s) + [m]
  {
    assert (s + [m])[..|s|] == s;
  }

  /** Every first occurrence of an id is kept. */
  lemma {:induction false} DedupKeepsFirstOccurrences(s: seq<SearchItem>)
    ensures forall i :: FirstOccurrence(s, i) ==> s[i] in Dedup(s)
    decreases |s|
  {
    if s != [] {
      var init, m := s[..|s| - 1], s[|s| - 1];
      assert s == init + [m];
      DedupKeepsFirstOccurrences(init);
      DedupSnoc(init, m);
      DedupDistinct(init);
      forall i | FirstOccurrence(s, i)
        ensures s[i] in Dedup(s)
      {
        if i < |init| {
          assert s[..i] == init[..i];
          assert FirstOccurrence(init, i);
        } else {
          assert s[..i] == init;
        }
      }
    }
  }

  /** Every item kept is the first occurrence of its id. */
  lemma {:induction false} DedupKeepsOnlyFirstOccurrences(s: seq<SearchItem>)
    ensures forall k :: 0 <= k < |Dedup(s)| ==> exists i :: FirstOccurrence(s, i) && s[i] == Dedup(s)[k]
    decreases |s|
  {
    if s == [] {
      assert Dedup(s) == [];
    } else {
      var init, m := s[..|s| - 1], s[|s| - 1];
      assert s == init + [m];
      DedupKeepsOnlyFirstOccurrences(init);
      DedupSnoc(init, m);
      var d := Dedup(init);
      assert Dedup(s) == if m.imdbID in IdsOf(d) then d else d + [m];
      forall k | 0 <= k < |Dedup(s)|
        ensures exists i :: FirstOccurrence(s, i) && s[i] == Dedup(s)[k]
      {
        if k < |d| {
          assert Dedup(s)[k] == d[k];
          var i :| FirstOccurrence(init, i) && init[i] == d[k];
          FirstOccurrenceSnoc(init, m, i);
        } else {
          assert Dedup(s)[k] == m && m.imdbID !in IdsOf(d);
          DedupDistinct(init);
          NewIdFirstOccurrence(init, m);
        }
      }
    }
  }

  /** A first occurrence stays one when an item is appended. */
  lemma FirstOccurrenceSnoc(s: seq<SearchItem>, m: SearchItem, i: int)
    requires FirstOccurrence(s, i)
    ensures FirstOccurrence(s + [m], i) && (s + [m])[i] == s[i]
  {
    assert (s + [m])[..i] == s[..i];
  }

  /** An appended item with a new id is the first with its id. */
  lemma NewIdFirstOccurrence(s: seq<SearchItem>, m: SearchItem)
    requires m.imdbID !in IdsOf(s)
    ensures FirstOccurrence(s + [m], |s|) && (s + [m])[|s|] == m
  {
    assert (s + [m])[..|s|] == s;
  }

  lemma FlattenSnoc(os: seq<Result<seq<SearchItem>, Thrown>>, k: nat)
    requires k < |os|
    ensures Flatten(os[..k + 1]) == Flatten(os[..k]) + ItemsOf(os[k])
  {
    assert os[..k + 1][..k] == os[..k];
  }

  lemma {:induction false} FlattenPrefix(os: seq<Result<seq<SearchItem>, Thrown>>, j: nat, k: nat)
    requires j <= k <= |os|
    ensures Flatten(os[..j]) <= Flatten(os[..k])
    decreases k
  {
    if j < k {
      FlattenPrefix(os, j, k - 1);
      FlattenSnoc(os, k - 1);
    }
  }

  /** Number of distinct ids among the first `k` pages. */
  function UniqueCount(os: seq<Result<seq<SearchItem>, Thrown>>, k: nat): nat
    requires k <= |os|
  {
    |Dedup(Flatten(os[..k]))|
  }

  lemma UniqueCountMonotone(os: seq<Result<seq<SearchItem>, Thrown>>, j: nat, k: nat)
    requires j <= k <= |os|
    ensures UniqueCount(os, j) <= UniqueCount(os, k)
  {
    FlattenPrefix(os, j, k);
    DedupPrefix(Flatten(os[..j]), Flatten(os[..k]));
  }

  /** The length at which the loop returns: the check follows the push, so at least one. */
  function Target(n: int): (t: nat)
    ensures t >= 1 && t >= n
    ensures n >= 1 ==> t == n
    ensures n < 1 ==> t == 1
  {
    if n >= 1 then n else 1
  }

  /**
   * The first page count `k >= from` after which `Target(n)` distinct ids have
   * been seen, or all pages when that never happens.
   */
  function StopFrom(n: int, os: seq<Result<seq<SearchItem>, Thrown>>, from: nat): (k: nat)
    requires from <= |os|
    ensures from <= k <= |os|
    ensures forall j :: from <= j < k ==> UniqueCount(os, j) < Target(n)
    ensures k < |os| ==> UniqueCount(os, k) >= Target(n)
    decreases |os| - from
  {
    if from == |os| || UniqueCount(os, from) >= Target(n) then from
    else StopFrom(n, os, from + 1)
  }

  /** How many searches are needed to reach the target, if no search throws. */
  function StopIndex(n: int, os: seq<Result<seq<SearchItem>, Thrown>>): (k: nat)
    ensures k <= |os|
    ensures forall j :: 0 <= j < k ==> UniqueCount(os, j) < Target(n)
    ensures k < |os| ==> UniqueCount(os, k) >= Target(n)
  {
    StopFrom(n, os, 0)
  }

  /** Index of the first search that throws, or the number of searches. */
  function FirstFailureFrom(os: seq<Result<seq<SearchItem>, Thrown>>, from: nat): (f: nat)
    requires from <= |os|
    ensures from <= f <= |os|
    ensures forall i :: from <= i < f ==> os[i].Success?
    ensures f < |os| ==> os[f].Failure?
    decreases |os| - from
  {
    if from == |os| || os[from].Failure? then from else FirstFailureFrom(os, from + 1)
  }

  function FirstFailure(os: seq<Result<seq<SearchItem>, Thrown>>): (f: nat)
    ensures f <= |os|
    ensures forall i :: 0 <= i < f ==> os[i].Success?
    ensures f < |os| ==> os[f].Failure?
  {
    FirstFailureFrom(os, 0)
  }

  function Take(s: seq<SearchItem>, k: nat): seq<SearchItem>
  {
    if |s| <= k then s else s[..k]
  }

  /**
   * The outcome of `fetchAtLeastNMovies(n)` given what each search would
   * return: the first-occurrence deduplication of all pages, in query-major
   * order, cut at `Target(n)`; unless a search that the loop reaches throws,
   * in which case that throw is the outcome.
   */
  function Aggregate(n: int, os: seq<Result<seq<SearchItem>, Thrown>>): (r: Result<seq<SearchItem>, Thrown>)
    ensures r.Success? ==> r.value <= Dedup(Flatten(os)) && |r.value| <= Target(n)
    ensures r.Success? ==> |r.value| == Target(n) || r.value == Dedup(Flatten(os))
    ensures r.Failure? ==> exists i :: 0 <= i < |os| && os[i] == Failure(r.error)
  {
    var k := StopIndex(n, os);
    var f := FirstFailure(os);
    if f < k then Failure(os[f].error)
    else Success(Take(Dedup(Flatten(os)), Target(n)))
  }

  /** No id is returned twice. */
  lemma AggregateDistinct(n: int, os: seq<Result<seq<SearchItem>, Thrown>>)
    ensures Aggregate(n, os).Success? ==> DistinctIds(Aggregate(n, os).value)
  {
    DedupDistinct(Flatten(os));
  }

  /** How many searches `fetchAtLeastNMovies(n)` issues. */
  function CallsMade(n: int, os: seq<Result<seq<SearchItem>, Thrown>>): (c: nat)
    ensures c <= |os|
    ensures forall i :: 0 <= i < c - 1 ==> os[i].Success?
    ensures c < |os| ==> 1 <= c && (os[c - 1].Failure? || UniqueCount(os, c) >= Target(n))
  {
    var k := StopIndex(n, os);
    var f := FirstFailure(os);
    if f < k then f + 1 else k
  }

  /**
   * The loop is still running after the first `c` searches: none of them
   * threw, and they brought fewer than `Target(n)` distinct ids.
   */
  predicate Pending(n: int, os: seq<Result<seq<SearchItem>, Thrown>>, c: nat)
  {
    c <= |os| && (forall i :: 0 <= i < c ==> os[i].Success?) && UniqueCount(os, c) < Target(n)
  }

  /** A search that does not throw and leaves the count below the target keeps the loop running. */
  lemma PendingStep(n: int, os: seq<Result<seq<SearchItem>, Thrown>>, c: nat)
    requires c < |os| && Pending(n, os, c) && os[c].Success?
    requires UniqueCount(os, c + 1) < Target(n)
    ensures Pending(n, os, c + 1)
  {
  }

  /** The exit through a throwing search `c`, reached with fewer than `Target(n)` ids. */
  lemma AggregateOnFailure(n: int, os: seq<Result<seq<SearchItem>, Thrown>>, c: nat)
    requires c < |os| && Pending(n, os, c) && os[c].Failure?
    ensures Aggregate(n, os) == Failure(os[c].error)
    ensures CallsMade(n, os) == c + 1
  {
    var k := StopIndex(n, os);
    if k <= c {
      UniqueCountMonotone(os, k, c);
    }
  }

  /** The loop stops after search `c` exactly when search `c` brings the count to the target. */
  lemma StopIndexAt(n: int, os: seq<Result<seq<SearchItem>, Thrown>>, c: nat)
    requires c < |os|
    requires UniqueCount(os, c) < Target(n) <= UniqueCount(os, c + 1)
    ensures StopIndex(n, os) == c + 1
  {
    var k := StopIndex(n, os);
    if k <= c {
      UniqueCountMonotone(os, k, c);
    }
  }

  /** Cutting the deduplication of a longer input at the length of a prefix's gives the prefix's. */
  lemma TakeDedupPrefix(p: seq<SearchItem>, s: seq<SearchItem>)
    requires p <= s
    ensures Take(Dedup(s), |Dedup(p)|) == Dedup(p)
  {
    DedupPrefix(p, s);
  }

  /** The items up to item `j` of search `c` are a prefix of all items, through search `c`. */
  lemma PartialPagePrefix(os: seq<Result<seq<SearchItem>, Thrown>>, c: nat, j: nat)
    requires c < |os| && j < |ItemsOf(os[c])|
    ensures Flatten(os[..c]) + ItemsOf(os[c])[..j + 1] <= Flatten(os[..c + 1])
    ensures Flatten(os[..c + 1]) <= Flatten(os)
  {
    FlattenSnoc(os, c);
    AppendPrefix(Flatten(os[..c]), ItemsOf(os[c]), j + 1);
    FlattenPrefix(os, c + 1, |os|);
    assert os[..|os|] == os;
  }

  lemma AppendPrefix(a: seq<SearchItem>, b: seq<SearchItem>, k: nat)
    requires k <= |b|
    ensures a + b[..k] <= a + b
  {
    assert (a + b)[..|a| + k] == a + b[..k];
  }

  /** The early exit: item `j` of search `c` is the `Target(n)`-th distinct one. */
  lemma AggregateOnTarget(n: int, os: seq<Result<seq<SearchItem>, Thrown>>, c: nat, j: nat)
    requires c < |os| && Pending(n, os, c) && os[c].Success?
    requires j < |ItemsOf(os[c])|
    requires |Dedup(Flatten(os[..c]) + ItemsOf(os[c])[..j + 1])| == Target(n)
    ensures Aggregate(n, os) == Success(Dedup(Flatten(os[..c]) + ItemsOf(os[c])[..j + 1]))
    ensures CallsMade(n, os) == c + 1
  {
    var p := Flatten(os[..c]) + ItemsOf(os[c])[..j + 1];
    PartialPagePrefix(os, c, j);
    DedupPrefix(p, Flatten(os[..c + 1]));
    StopIndexAt(n, os, c);
    assert FirstFailure(os) > c by {
      assert forall i :: 0 <= i <= c ==> os[i].Success?;
    }
    TakeDedupPrefix(p, Flatten(os));
  }

  /** The exit after all searches, with fewer than `Target(n)` distinct ids. */
  lemma AggregateOnExhaustion(n: int, os: seq<Result<seq<SearchItem>, Thrown>>)
    requires Pending(n, os, |os|)
    ensures Aggregate(n, os) == Success(Dedup(Flatten(os)))
    ensures CallsMade(n, os) == |os|
  {
    var k := StopIndex(n, os);
    if k < |os| {
      UniqueCountMonotone(os, k, |os|);
    }
    assert os[..|os|] == os;
  }

  /** Two outcome lists that agree on their first `m` searches have the same counts up to `m`. */
  lemma UniqueCountAgrees(os: seq<Result<seq<SearchItem>, Thrown>>, os2: seq<Result<seq<SearchItem>, Thrown>>, m: nat)
    requires m <= |os| && m <= |os2| && os[..m] == os2[..m]
    ensures forall j :: 0 <= j <= m ==> UniqueCount(os2, j) == UniqueCount(os, j)
  {
    forall j | 0 <= j <= m
      ensures UniqueCount(os2, j) == UniqueCount(os, j)
    {
      assert os2[..j] == os2[..m][..j] == os[..m][..j] == os[..j];
    }
  }

  lemma {:induction false} StopIndexAgrees(n: int, os: seq<Result<seq<SearchItem>, Thrown>>, os2: seq<Result<seq<SearchItem>, Thrown>>, m: nat)
    requires |os| == |os2| && m <= |os| && os[..m] == os2[..m]
    requires StopIndex(n, os) <= m
    ensures StopIndex(n, os2) == StopIndex(n, os)
  {
    var k := StopIndex(n, os);
    UniqueCountAgrees(os, os2, m);
    assert forall j :: 0 <= j < k ==> UniqueCount(os2, j) < Target(n);
    assert k < |os| ==> UniqueCount(os2, k) >= Target(n);
  }

  lemma FirstFailureAgrees(os: seq<Result<seq<SearchItem>, Thrown>>, os2: seq<Result<seq<SearchItem>, Thrown>>, m: nat)
    requires |os| == |os2| && m <= |os| && os[..m] == os2[..m]
    requires FirstFailure(os) < m
    ensures FirstFailure(os2) == FirstFailure(os)
  {
    forall i | 0 <= i < m
      ensures os2[i] == os[i]
    {
      assert os[i] == os[..m][i];
    }
  }

  lemma NoFailureBeforeAgrees(os: seq<Result<seq<SearchItem>, Thrown>>, os2: seq<Result<seq<SearchItem>, Thrown>>, m: nat)
    requires |os| == |os2| && m <= |os| && os[..m] == os2[..m]
    requires FirstFailure(os) >= m
    ensures FirstFailure(os2) >= m
  {
    forall i | 0 <= i < m
      ensures os2[i] == os[i]
    {
      assert os[i] == os[..m][i];
    }
  }

  /** Two inputs sharing a prefix whose deduplication already has `t` items agree on the first `t` kept. */
  lemma TakeDedupAgrees(p: seq<SearchItem>, s: seq<SearchItem>, s2: seq<SearchItem>, t: nat)
    requires p <= s && p <= s2 && |Dedup(p)| >= t
    ensures Take(Dedup(s), t) == Take(Dedup(s2), t)
  {
    DedupPrefix(p, s);
    DedupPrefix(p, s2);
    assert Dedup(s)[..t] == Dedup(p)[..t] == Dedup(s2)[..t];
  }

  /**
   * The searches after the last one issued never matter: two upstreams that
   * agree on the first `CallsMade` searches give the same outcome and the same
   * number of calls.
   */
  lemma AggregateIgnoresUnissuedSearches(n: int, os: seq<Result<seq<SearchItem>, Thrown>>, os2: seq<Result<seq<SearchItem>, Thrown>>)
    requires |os| == |os2|
    requires os[..CallsMade(n, os)] == os2[..CallsMade(n, os)]
    ensures Aggregate(n, os2) == Aggregate(n, os)
    ensures CallsMade(n, os2) == CallsMade(n, os)
  {
    if FirstFailure(os) < StopIndex(n, os) {
      IgnoresUnissuedAfterFailure(n, os, os2);
    } else {
      IgnoresUnissuedAfterStop(n, os, os2);
    }
  }

  /** The run that ends on a throw agrees up to and including the throwing search. */
  lemma IgnoresUnissuedAfterFailure(n: int, os: seq<Result<seq<SearchItem>, Thrown>>, os2: seq<Result<seq<SearchItem>, Thrown>>)
    requires |os| == |os2| && FirstFailure(os) < StopIndex(n, os)
    requires os[..FirstFailure(os) + 1] == os2[..FirstFailure(os) + 1]
    ensures FirstFailure(os2) == FirstFailure(os) < StopIndex(n, os2)
    ensures os2[FirstFailure(os2)] == os[FirstFailure(os)]
  {
    var f := FirstFailure(os);
    FirstFailureAgrees(os, os2, f + 1);
    UniqueCountAgrees(os, os2, f + 1);
    assert forall j :: 0 <= j <= f ==> UniqueCount(os2, j) < Target(n);
    assert os2[f] == os2[..f + 1][f];
  }

  /** The run that reaches the target, or issues every search, agrees on the searches it issued. */
  lemma IgnoresUnissuedAfterStop(n: int, os: seq<Result<seq<SearchItem>, Thrown>>, os2: seq<Result<seq<SearchItem>, Thrown>>)
    requires |os| == |os2| && FirstFailure(os) >= StopIndex(n, os)
    requires os[..StopIndex(n, os)] == os2[..StopIndex(n, os)]
    ensures StopIndex(n, os2) == StopIndex(n, os) <= FirstFailure(os2)
    ensures Take(Dedup(Flatten(os2)), Target(n)) == Take(Dedup(Flatten(os)), Target(n))
  {
    var k := StopIndex(n, os);
    StopIndexAgrees(n, os, os2, k);
    NoFailureBeforeAgrees(os, os2, k);
    if k < |os| {
      FlattenPrefix(os, k, |os|);
      FlattenPrefix(os2, k, |os|);
      assert os[..|os|] == os && os2[..|os2|] == os2;
      TakeDedupAgrees(Flatten(os[..k]), Flatten(os), Flatten(os2), Target(n));
    } else {
      assert os == os[..k] && os2 == os2[..k];
    }
  }

  /**
   * When the target is reached, the number of searches issued is the 1-based
   * index of the search holding the `Target(n)`-th distinct item.
   */
  lemma CallsStopAtTarget(n: int, os: seq<Result<seq<SearchItem>, Thrown>>)
    requires Aggregate(n, os).Success? && |Aggregate(n, os).value| == Target(n)
    ensures 1 <= CallsMade(n, os) <= |os|
    ensures UniqueCount(os, CallsMade(n, os) - 1) < Target(n) <= UniqueCount(os, CallsMade(n, os))
  {
    var k := StopIndex(n, os);
    assert os[..|os|] == os;
    if k == |os| {
      assert UniqueCount(os, k) >= Target(n) by {
        assert Aggregate(n, os).value <= Dedup(Flatten(os));
      }
    }
  }

  // ---------------------------------------------------------------------------
  // fetchAtLeastNMovies and fetchMovieDetail
  // ---------------------------------------------------------------------------

  /**
   * One call `searchMovies(q, p)` for the `qi`-th query and the `pi`-th page,
   * with its items taken as `data.Search ?? []`: what that search contributes.
   */
  method SearchPage(search: Search, qi: nat, pi: nat) returns (o: Result<seq<SearchItem>, Thrown>)
    requires qi < |Queries| && pi < |PageNumbers|
    ensures 3 * qi + pi < |Outcomes(search)| && o == Outcomes(search)[3 * qi + pi]
  {
    OutcomeAt(search, qi, pi);
    var data := search(Queries[qi], PageNumbers[pi]);
    if data.Failure? {
      return Failure(data.error);
    }
    o := Success(data.value.search.GetOr([]));
  }

  /** One more item of the page: pushed, with its id, exactly when the id is unseen. */
  lemma ScanStep(before: seq<SearchItem>, items: seq<SearchItem>, j: nat, results: seq<SearchItem>)
    requires j < |items| && results == Dedup(before + items[..j])
    ensures Dedup(before + items[..j + 1]) ==
      if items[j].imdbID in IdsOf(results) then results else results + [items[j]]
    ensures IdsOf(results + [items[j]]) == IdsOf(results) + {items[j].imdbID}
  {
    assert before + items[..j + 1] == (before + items[..j]) + [items[j]];
    DedupSnoc(before + items[..j], items[j]);
    IdsOfSnoc(results, items[j]);
  }

  /**
   * The innermost loop over the items of one page (`for (const m of items)`):
   * each item with an unseen id is pushed, and the loop stops at the first
   * push that brings `results` to `n`. `before` is what the earlier pages
   * brought; `last` is the index of the item that reached the target.
   */
  method ScanItems(n: int, ghost before: seq<SearchItem>, results0: seq<SearchItem>, seen0: set<string>, items: seq<SearchItem>)
    returns (results: seq<SearchItem>, seen: set<string>, reached: bool, ghost last: nat)
    requires results0 == Dedup(before) && seen0 == IdsOf(results0) && |results0| < Target(n)
    ensures seen == IdsOf(results)
    ensures reached ==> last < |items| && results == Dedup(before + items[..last + 1]) && |results| == Target(n)
    ensures !reached ==> results == Dedup(before + items) && |results| < Target(n)
  {
    results, seen, reached, last := results0, seen0, false, 0;
    assert before + items[..0] == before;
    for j := 0 to |items|
      invariant results == Dedup(before + items[..j])
      invariant seen == IdsOf(results)
      invariant |results| < Target(n)
    {
      var m := items[j];
      ScanStep(before, items, j, results);
      if m.imdbID !in seen {
        seen := seen + {m.imdbID};
        results := results + [m];
        if |results| >= n {
          reached, last := true, j;
          return;
        }
      }
    }
    assert items[..|items|] == items;
  }

  /**
   * The state of the loops after the first `c` searches: the loop is still
   * running, `results` is the first-occurrence deduplication of their items
   * and `seen` holds its ids.
   */
  predicate Progress(n: int, os: seq<Result<seq<SearchItem>, Thrown>>, c: nat, results: seq<SearchItem>, seen: set<string>)
  {
    Pending(n, os, c) && results == Dedup(Flatten(os[..c])) && seen == IdsOf(results)
  }

  lemma ProgressStart(n: int, os: seq<Result<seq<SearchItem>, Thrown>>)
    ensures Progress(n, os, 0, [], {})
  {
    assert os[..0] == [];
  }

  /** With every search issued and the loop still running, the outcome is all the distinct items. */
  lemma ProgressExhausted(n: int, os: seq<Result<seq<SearchItem>, Thrown>>, results: seq<SearchItem>, seen: set<string>)
    requires Progress(n, os, |os|, results, seen)
    ensures Aggregate(n, os) == Success(results)
    ensures CallsMade(n, os) == |os|
  {
    AggregateOnExhaustion(n, os);
    assert os[..|os|] == os;
  }

  /** What one pass of the page loop's body decides. */
  datatype PageStatus = Continue | Reached | Threw(error: Thrown)

  /**
   * One pass of the page loop's body: the search for the `qi`-th query and
   * the `pi`-th page, its items scanned. The loop goes on, stops at the
   * target, or stops because the search threw, each exactly as `Aggregate`
   * and `CallsMade` say.
   */
  method SearchAndScan(n: int, search: Search, qi: nat, pi: nat, results0: seq<SearchItem>, seen0: set<string>)
    returns (status: PageStatus, results: seq<SearchItem>, seen: set<string>)
    requires qi < |Queries| && pi < |PageNumbers|
    requires Progress(n, Outcomes(search), 3 * qi + pi, results0, seen0)
    ensures status == Continue ==> Progress(n, Outcomes(search), 3 * qi + pi + 1, results, seen)
    ensures status == Reached ==>
      Aggregate(n, Outcomes(search)) == Success(results) && CallsMade(n, Outcomes(search)) == 3 * qi + pi + 1
    ensures status.Threw? ==>
      Aggregate(n, Outcomes(search)) == Failure(status.error) && CallsMade(n, Outcomes(search)) == 3 * qi + pi + 1
  {
    ghost var os := Outcomes(search);
    ghost var c := 3 * qi + pi;
    var data := SearchPage(search, qi, pi);
    if data.Failure? {
      AggregateOnFailure(n, os, c);
      return Threw(data.error), results0, seen0;
    }
    var items := data.value;
    var reached;
    ghost var last;
    results, seen, reached, last := ScanItems(n, Flatten(os[..c]), results0, seen0, items);
    if reached {
      AggregateOnTarget(n, os, c, last);
      return Reached, results, seen;
    }
    FlattenSnoc(os, c);
    PendingStep(n, os, c);
    status := Continue;
  }

  /**
   * `fetchAtLeastNMovies(n)`: the nested loops over queries and pages, the
   * early return, and the summary writes on both exits. `calls` counts the
   * searches issued. A throwing search ends the call with no write.
   */
  method FetchAtLeastNMovies(table: MovieTable, n: int, search: Search, now: Timestamp, failing: set<string>)
    returns (r: Result<seq<SearchItem>, Thrown>, ghost calls: nat)
    requires table.Valid()
    modifies table
    ensures table.Valid()
    ensures r == Aggregate(n, Outcomes(search))
    ensures calls == CallsMade(n, Outcomes(search))
    ensures table.rows == if r.Success? then SummariesUpserted(old(table.rows), r.value, now, failing) else old(table.rows)
  {
    var results: seq<SearchItem> := [];
    var seen: set<string> := {};
    calls := 0;
    ProgressStart(n, Outcomes(search));
    for qi := 0 to |Queries|
      invariant table.Valid() && table.rows == old(table.rows)
      invariant calls == 3 * qi && Progress(n, Outcomes(search), calls, results, seen)
    {
      for pi := 0 to |PageNumbers|
        invariant table.Valid() && table.rows == old(table.rows)
        invariant calls == 3 * qi + pi && Progress(n, Outcomes(search), calls, results, seen)
      {
        var status;
        status, results, seen := SearchAndScan(n, search, qi, pi, results, seen);
        calls := calls + 1;
        if status.Threw? {
          r := Failure(status.error);
          return;
        }
        if status == Reached {
          CacheSummaries(table, results, now, failing);
          r := Success(results);
          return;
        }
      }
    }
    ProgressExhausted(n, Outcomes(search), results, seen);
    CacheSummaries(table, results, now, failing);
    r := Success(results);
  }

  /**
   * `fetchMovieDetail(id)`: the outcome is exactly `getMovieById(id)`, whatever
   * the store does; a throwing request writes nothing.
   */
  method FetchMovieDetail(table: MovieTable, id: string, env: Option<string>, fetch: DetailFetch, now: Timestamp, encode: RatingsEncoder, storeFails: bool)
    returns (r: Result<MovieDetail, Thrown>)
    requires table.Valid()
    modifies table
    ensures table.Valid()
    ensures r == GetMovieById(env, fetch, id)
    ensures table.rows == if r.Success? && !storeFails then DetailUpserted(old(table.rows), r.value, now, encode) else old(table.rows)
  {
    r := GetMovieById(env, fetch, id);
    if r.Failure? {
      return;
    }
    table.UpsertDetail(r.value, now, encode, storeFails);
  }

  /**
   * The upstream's answer to an unknown id is a body without `imdbID`: it
   * reaches the caller of `fetchMovieDetail` as a success, and its cache
   * write is rejected and swallowed, so the table does not change.
   */
  lemma DetailErrorBodyWritesNothing(env: Option<string>, fetch: DetailFetch, id: string, rows: map<string, Row>, now: Timestamp, encode: RatingsEncoder)
    requires ApiKey(env).Success? && fetch(id, env.value).Success? && fetch(id, env.value).value.imdbID.None?
    ensures GetMovieById(env, fetch, id).Success?
    ensures DetailUpserted(rows, GetMovieById(env, fetch, id).value, now, encode) == rows
  {
    var d := GetMovieById(env, fetch, id).value;
    assert d.imdbID == fetch(id, env.value).value.imdbID;
  }
}
