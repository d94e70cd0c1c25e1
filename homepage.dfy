/**
 * The home page of app/page.tsx: it asks the aggregation loop for 30 movies,
 * then shows either a "No movies found" notice, an error notice, or the first
 * movie as the hero banner and the rest in up to three rows of
 * `ceil(rest.length / 3)` movies each. Only the branching and the partition
 * are modelled; the markup is reduced to what each branch shows.
 */
module HomePage {
  import opened Common
  import opened Omdb
  import opened Movies

  /** `fetchAtLeastNMovies(30)`: the page always asks for 30 movies. */
  const HomeTarget: int := 30

  const UnknownError: string := "Unknown error"

  /** The category titles of the three rows, in order; the second has a non-breaking hyphen. */
  const Categories: seq<string> := ["Trending", "Space & Sci\U{2011}Fi", "Romance & Drama"]

  /** The props of `HeroBanner`. */
  datatype Hero = Hero(title: string, posterUrl: Option<string>)

  /** One rendered `MovieRow`: its category title and its movies. */
  datatype MovieRowView = MovieRowView(category: string, movies: seq<SearchItem>)

  /** What the page renders: the empty notice, the loaded page, or the error notice with its message. */
  datatype PageView =
    | NoMovies
    | Loaded(hero: Hero, rows: seq<MovieRowView>)
    | LoadError(message: string)

  // ---------------------------------------------------------------------------
  // Slicing
  // ---------------------------------------------------------------------------

  /** `Math.ceil(len / 3)`, in integers: the least `k` with `3 * k >= len`. */
  function RowSize(len: nat): (k: nat)
    ensures 3 * k >= len
    ensures k == 0 || 3 * (k - 1) < len
  {
    (len + 2) / 3
  }

  /**
   * `s.slice(from, to)` for non-negative bounds: both are clamped to the
   * length, and a range whose end comes before its start is empty.
   */
  function Slice(s: seq<SearchItem>, from: nat, to: nat): (r: seq<SearchItem>)
    ensures from <= to <= |s| ==> r == s[from..to]
    ensures |s| <= from || to <= from ==> r == []
    ensures from <= |s| <= to ==> r == s[from..]
  {
    var lo := if from <= |s| then from else |s|;
    var hi := if to <= |s| then to else |s|;
    if lo <= hi then s[lo..hi] else []
  }

  /** `s.slice(from)`: everything from `from` on, or nothing past the end. */
  function SliceFrom(s: seq<SearchItem>, from: nat): (r: seq<SearchItem>)
    ensures from <= |s| ==> r == s[from..]
    ensures |s| <= from ==> r == []
  {
    if from <= |s| then s[from..] else []
  }

  /**
   * `row1`, `row2` and `row3`: `rest.slice(0, rowSize)`,
   * `rest.slice(rowSize, rowSize * 2)` and `rest.slice(rowSize * 2)`.
   */
  function SplitRows(rest: seq<SearchItem>): (rows: seq<seq<SearchItem>>)
    ensures |rows| == 3
  {
    var k := RowSize(|rest|);
    [Slice(rest, 0, k), Slice(rest, k, 2 * k), SliceFrom(rest, 2 * k)]
  }

  /** The three rows, put back together, are `rest`, in order. */
  lemma SplitRowsConcat(rest: seq<SearchItem>)
    ensures |SplitRows(rest)| == 3
    ensures SplitRows(rest)[0] + SplitRows(rest)[1] + SplitRows(rest)[2] == rest
  {
    var k := RowSize(|rest|);
    var rows := SplitRows(rest);
    if 2 * k <= |rest| {
      assert rest == rest[..k] + rest[k..2 * k] + rest[2 * k..];
    } else {
      assert rows[2] == [];
      assert rest == rest[..k] + rest[k..];
    }
  }

  /**
   * No row is longer than `rowSize`; the first row is exactly `rowSize`
   * long; the second is too when at least `2 * rowSize` movies remain, and
   * otherwise holds the rest; the third holds whatever is left after
   * `2 * rowSize`; and the rows never grow from one to the next.
   */
  lemma SplitRowsSizes(rest: seq<SearchItem>)
    ensures |SplitRows(rest)| == 3
    ensures forall i :: 0 <= i < 3 ==> |SplitRows(rest)[i]| <= RowSize(|rest|)
    ensures |SplitRows(rest)[0]| == RowSize(|rest|)
    ensures |SplitRows(rest)[1]| == if |rest| < 2 * RowSize(|rest|) then |rest| - RowSize(|rest|) else RowSize(|rest|)
    ensures |SplitRows(rest)[2]| == if |rest| < 2 * RowSize(|rest|) then 0 else |rest| - 2 * RowSize(|rest|)
    ensures |SplitRows(rest)[0]| >= |SplitRows(rest)[1]| >= |SplitRows(rest)[2]|
  {
    var k := RowSize(|rest|);
    var rows := SplitRows(rest);
    if 2 * k <= |rest| {
      assert |rows[2]| == |rest| - 2 * k;
    }
  }

  // ---------------------------------------------------------------------------
  // The three branches of Page
  // ---------------------------------------------------------------------------

  /** `error instanceof Error ? error.message : 'Unknown error'` */
  function ErrorMessage(e: Thrown): (m: string)
    ensures e.ErrorInstance? ==> m == e.message
    ensures e.NonErrorValue? ==> m == UnknownError
  {
    match e
    case ErrorInstance(msg) => msg
    case NonErrorValue => UnknownError
  }

  /** The hero banner of the first movie: its title, and its poster unless that is "N/A". */
  function HeroOf(m: SearchItem): (h: Hero)
    ensures h.title == m.title
    ensures h.posterUrl.None? <==> m.poster == NoPoster
    ensures h.posterUrl.Some? ==> h.posterUrl.value == m.poster
  {
    Hero(m.title, PosterOrNull(m.poster))
  }

  /** The rows that are rendered: `rowN.length > 0 && <MovieRow …/>`, each with its category. */
  function RenderedRows(rows: seq<seq<SearchItem>>, categories: seq<string>): (r: seq<MovieRowView>)
    requires |rows| == |categories|
    ensures |r| <= |rows|
    ensures forall v :: v in r ==> v.movies != [] && v.category in categories
  {
    if rows == [] then []
    else
      var tail := RenderedRows(rows[1..], categories[1..]);
      if rows[0] != [] then [MovieRowView(categories[0], rows[0])] + tail else tail
  }

  /** The movies of the rendered rows, row after row. */
  function RowMovies(views: seq<MovieRowView>): seq<SearchItem>
  {
    if views == [] then [] else views[0].movies + RowMovies(views[1..])
  }

  /** Dropping the empty rows loses no movie and keeps their order. */
  lemma {:induction false} RenderedRowsKeepMovies(rows: seq<seq<SearchItem>>, categories: seq<string>)
    requires |rows| == |categories|
    ensures RowMovies(RenderedRows(rows, categories)) == Concat(rows)
  {
    if rows != [] {
      RenderedRowsKeepMovies(rows[1..], categories[1..]);
      if rows[0] != [] {
        var tail := RenderedRows(rows[1..], categories[1..]);
        assert ([MovieRowView(categories[0], rows[0])] + tail)[1..] == tail;
      }
    }
  }

  function Concat(rows: seq<seq<SearchItem>>): seq<SearchItem>
  {
    if rows == [] then [] else rows[0] + Concat(rows[1..])
  }

  lemma ConcatThree(rows: seq<seq<SearchItem>>)
    requires |rows| == 3
    ensures Concat(rows) == rows[0] + rows[1] + rows[2]
  {
    assert rows[1..][1..][1..] == [];
    assert Concat(rows[1..][1..]) == rows[2];
    assert Concat(rows[1..]) == rows[1] + rows[2];
  }

  /**
   * The body of `Page` after the `await`: the error notice exactly on a throw,
   * the "No movies found" notice exactly on an empty list, otherwise the hero
   * and the rows.
   */
  function View(r: Result<seq<SearchItem>, Thrown>): (v: PageView)
    ensures v.LoadError? <==> r.Failure?
    ensures r.Failure? ==> v.message == ErrorMessage(r.error)
    ensures v.NoMovies? <==> r == Success([])
    ensures v.Loaded? <==> r.Success? && |r.value| > 0
  {
    match r
    case Failure(e) => LoadError(ErrorMessage(e))
    case Success(movies) =>
      if |movies| == 0 then NoMovies
      else Loaded(HeroOf(movies[0]), RenderedRows(SplitRows(movies[1..]), Categories))
  }

  /**
   * A loaded page shows the first movie as the hero and every other movie
   * in exactly one rendered row, in order; no rendered row is empty and
   * none is longer than `ceil((|movies| - 1) / 3)`.
   */
  lemma LoadedShowsEveryMovie(movies: seq<SearchItem>)
    requires |movies| > 0
    ensures View(Success(movies)).Loaded?
    ensures View(Success(movies)).hero == HeroOf(movies[0])
    ensures RowMovies(View(Success(movies)).rows) == movies[1..]
    ensures forall v :: v in View(Success(movies)).rows ==>
      0 < |v.movies| <= RowSize(|movies| - 1) && v.category in Categories
    ensures forall i :: 0 <= i < 3 ==>
      (SplitRows(movies[1..])[i] != [] <==> i < |View(Success(movies)).rows|)
    ensures forall i :: 0 <= i < |View(Success(movies)).rows| ==>
      i < 3 && View(Success(movies)).rows[i] == MovieRowView(Categories[i], SplitRows(movies[1..])[i])
  {
    var rest := movies[1..];
    var rows := SplitRows(rest);
    SplitRowsConcat(rest);
    SplitRowsSizes(rest);
    RenderedRowsKeepMovies(rows, Categories);
    ConcatThree(rows);
    RenderedRowsFrom(rows, Categories, RowSize(|rest|));
    assert forall i, j :: 0 <= i < j < 3 && rows[i] == [] ==> rows[j] == [];
    RenderedRowsInOrder(rows, Categories);
  }

  /**
   * When no empty row comes before a non-empty one, the rendered rows are
   * the non-empty rows, each at its own position and under its own title.
   */
  lemma {:induction false} RenderedRowsInOrder(rows: seq<seq<SearchItem>>, categories: seq<string>)
    requires |rows| == |categories|
    requires forall i, j :: 0 <= i < j < |rows| && rows[i] == [] ==> rows[j] == []
    ensures forall i :: 0 <= i < |rows| ==> (rows[i] != [] <==> i < |RenderedRows(rows, categories)|)
    ensures forall i :: 0 <= i < |RenderedRows(rows, categories)| ==>
      RenderedRows(rows, categories)[i] == MovieRowView(categories[i], rows[i])
  {
    if rows != [] {
      var tail := RenderedRows(rows[1..], categories[1..]);
      RenderedRowsInOrder(rows[1..], categories[1..]);
      if rows[0] == [] {
        assert forall i :: 0 <= i < |rows| ==> rows[i] == [];
        assert forall i :: 0 <= i < |rows[1..]| ==> rows[1..][i] == [];
        assert |rows[1..]| == 0 || |tail| == 0;
      } else {
        var r := [MovieRowView(categories[0], rows[0])] + tail;
        assert RenderedRows(rows, categories) == r;
        forall i | 0 <= i < |rows|
          ensures rows[i] != [] <==> i < |r|
        {
          if i > 0 {
            assert rows[i] == rows[1..][i - 1];
          }
        }
        forall i | 0 <= i < |r|
          ensures r[i] == MovieRowView(categories[i], rows[i])
        {
          if i > 0 {
            assert r[i] == tail[i - 1];
            assert rows[i] == rows[1..][i - 1] && categories[i] == categories[1..][i - 1];
          }
        }
      }
    }
  }

  /** Every rendered row is one of the rows, so it inherits their size bound. */
  lemma {:induction false} RenderedRowsFrom(rows: seq<seq<SearchItem>>, categories: seq<string>, bound: nat)
    requires |rows| == |categories|
    requires forall i :: 0 <= i < |rows| ==> |rows[i]| <= bound
    ensures forall v :: v in RenderedRows(rows, categories) ==> |v.movies| <= bound
  {
    if rows != [] {
      RenderedRowsFrom(rows[1..], categories[1..], bound);
    }
  }

  /** The search the page hands to the loop: `searchMovies` with the environment's key. */
  function SearchWith(env: Option<string>, fetch: SearchFetch): Search
  {
    (q, p) => SearchMovies(env, fetch, q, p)
  }

  /**
   * `Page()`: the aggregation with target 30, then the branch on its outcome.
   * The table receives the summaries exactly when the aggregation succeeds.
   */
  method RenderHome(table: MovieTable, env: Option<string>, fetch: SearchFetch, now: Timestamp, failing: set<string>)
    returns (v: PageView)
    requires table.Valid()
    modifies table
    ensures table.Valid()
    ensures v == View(Aggregate(HomeTarget, Outcomes(SearchWith(env, fetch))))
    ensures table.rows == if v.LoadError? then old(table.rows)
      else SummariesUpserted(old(table.rows), Aggregate(HomeTarget, Outcomes(SearchWith(env, fetch))).value, now, failing)
  {
    var r, calls := FetchAtLeastNMovies(table, HomeTarget, SearchWith(env, fetch), now, failing);
    v := View(r);
  }

  /**
   * With a target of 30 at most 29 movies reach the rows, so no rendered row
   * holds more than 10, and no movie is shown twice.
   */
  lemma HomeRowsAtMostTen(os: seq<Result<seq<SearchItem>, Thrown>>)
    ensures View(Aggregate(HomeTarget, os)).Loaded? ==>
      forall v :: v in View(Aggregate(HomeTarget, os)).rows ==> |v.movies| <= 10
    ensures Aggregate(HomeTarget, os).Success? ==> DistinctIds(Aggregate(HomeTarget, os).value)
  {
    var r := Aggregate(HomeTarget, os);
    AggregateDistinct(HomeTarget, os);
    if r.Success? && |r.value| > 0 {
      LoadedShowsEveryMovie(r.value);
      assert RowSize(|r.value| - 1) <= 10;
    }
  }

  /**
   * Without a key the page shows the key error. The loop stops after its first
   * `searchMovies` call, which throws the key error before any request, so the
   * upstream's answers play no part.
   */
  lemma HomeWithoutKey(env: Option<string>, fetch: SearchFetch)
    requires ApiKey(env).Failure?
    ensures Outcomes(SearchWith(env, fetch))[0] == Failure(ErrorInstance(MissingKeyMessage))
    ensures CallsMade(HomeTarget, Outcomes(SearchWith(env, fetch))) == 1
    ensures View(Aggregate(HomeTarget, Outcomes(SearchWith(env, fetch)))) == LoadError(MissingKeyMessage)
  {
    var os := Outcomes(SearchWith(env, fetch));
    OutcomeAt(SearchWith(env, fetch), 0, 0);
    assert os[0] == Failure(ErrorInstance(MissingKeyMessage));
    AggregateOnFailure(HomeTarget, os, 0);
  }
}
