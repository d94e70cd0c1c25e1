# Movie browser core, modelled in Dafny

This project models the logic core of a small Next.js movie browser. The
browser reads movies from the OMDb web API and caches them in an SQLite table.

- `common.dfy` (module `Common`) holds the shared vocabulary: `Option`, `Result`, and `Thrown`. `Thrown` is what a JavaScript `throw` carries: an `Error` with a message, or some other value.
- `omdb.dfy` (module `Omdb`) models the upstream client in `lib/omdb.ts`:
  - the `apiKey()` guard;
  - `searchMovies`, which reshapes the parsed search body;
  - `getMovieById`, which reshapes the parsed detail body;
  - the poster upscaling both of them apply. The first `SX300` of a poster URL becomes `SX700`, as `String.prototype.replace` does with a string pattern. The rewrite is skipped for an absent, empty or `N/A` poster.

  The HTTP request is an oracle. It maps the request's parameters and the key to the parsed JSON body, or to the value that `fetch` or `res.json()` threw.
- `movies.dfy` (module `Movies`) models the data-access layer in `lib/movies.ts`:
  - **The cache table.** The `movie` table is a class `MovieTable` whose field `rows` maps `imdbId` to a `Row`. `UpsertSummary` and `UpsertDetail` are its create-or-update writes, with swallowed store failures.
  - **`fetchAtLeastNMovies`.** This is `FetchAtLeastNMovies`: the nested loops over the nine (query, page) searches, the `seen`/`results` deduplication, the early return at the target, and the summary writes on both exits.
    - It is proved against `Aggregate`, a function of the nine search outcomes: deduplicate all items by first occurrence, in query-major order, and cut at `Target(n)`; a search that throws before the target is reached is the outcome instead.
    - A ghost counter `calls` is proved equal to `CallsMade`, the number of searches issued.
  - **`fetchMovieDetail`.** This is `FetchMovieDetail`.
- `homepage.dfy` (module `HomePage`) models `Page` in `app/page.tsx`:
  - the request for 30 movies;
  - the error notice, showing the error's message or `Unknown error`;
  - the `No movies found` notice;
  - the hero banner built from the first movie;
  - the split of the other movies into three consecutive slices of `ceil(len / 3)`, each rendered only when it is non-empty.

Three behaviours of the code worth stating, all modelled as the code has them:

- For `n <= 0`, `fetchAtLeastNMovies` still returns one movie when any exists. The length check comes after the push, so the effective target is `Target(n) = max(n, 1)`. The calls stop after the first unseen id.
- On update, `upsertDetail` maps an absent optional field to `undefined`, which leaves the stored column unchanged. Such fields are kept; they are not overwritten with null. The poster column is the exception: it is always overwritten, with null when the poster is absent, empty or `N/A`.
- A body with `Response: 'False'` does not raise. A search body of that kind lacks `Search`, so it counts as an empty page. A detail body of that kind lacks `Title`, `Year`, `imdbID` and `Type`: `getMovieById` returns it as a success, and the cache write that follows has no key, so the store rejects it and the rejection is swallowed. The HTTP status is not checked either. A non-2xx answer is whatever `res.json()` makes of it: a body, or a throw.

## Model

| member | source | states |
|---|---|---|
| Omdb.IndexOf | lib/omdb.ts:35 | `indexOf` as used by `replace`: a result exactly when the pattern occurs, and then the position of its first occurrence |
| Omdb.ReplaceFirst | lib/omdb.ts:35 | `replace` with a string pattern: unchanged without an occurrence, else the first occurrence is spliced out and the replacement put in its place |
| Omdb.UpscalePoster | lib/omdb.ts:35 | an empty or `N/A` poster, or one without `SX300`, is unchanged; otherwise only the first `SX300` becomes `SX700`, the rest is kept, and the length is preserved; the result differs from the input exactly when the rewrite applies |
| Omdb.UpscaleChangesOneCharacter | lib/omdb.ts:35 | the rewrite changes exactly one character, the `3` of the first `SX300`, into `7` |
| Omdb.UpscaleOptionalPoster | lib/omdb.ts:46-48 | an absent detail poster stays absent; a present one is upscaled |
| Omdb.NormalizeSearch | lib/omdb.ts:32-37 | a body without `Search` is returned as it is; otherwise the items keep their count, order and every field but `Poster`, which is upscaled; `Response`, `Error` and `totalResults` are untouched |
| Omdb.NormalizeDetail | lib/omdb.ts:46-48 | only the `Poster` field of a detail body changes, and it is upscaled |
| Omdb.ApiKey | lib/omdb.ts:21-25 | succeeds exactly when the key is present and non-empty, with that key; otherwise throws `Missing OMDB_API_KEY` |
| Omdb.SearchMovies | lib/omdb.ts:27-39 | without a key, the key error whatever the upstream does; with a key, the upstream's throw propagates, and its body comes back reshaped by `NormalizeSearch` |
| Omdb.GetMovieById | lib/omdb.ts:41-50 | the same key guard; the upstream's throw propagates; a body comes back with only its poster reshaped |
| Movies.PosterOrNull | lib/movies.ts:14 | the summary poster column is null exactly for `N/A`, and otherwise the poster itself |
| Movies.DetailPosterUrl | lib/movies.ts:38 | the detail poster column is null exactly when the poster is absent, empty or `N/A`, and otherwise the poster itself |
| Movies.UpsertedSummaryRow | lib/movies.ts:8-24 | the row at `m.imdbID`: title, year and type copied; poster null exactly for `N/A`. An update stamps the time and keeps every detail column. A create leaves the detail columns and the time unset |
| Movies.SummaryUpserted | lib/movies.ts:8-24 | a summary write adds or replaces the key `m.imdbID` only, with that row; every other key keeps its row |
| Movies.UpsertedDetailRow | lib/movies.ts:32-61 | the row at `d.imdbID`, for a detail with id, title, year and type. Both branches copy title, year and type. A create stores each absent optional field as null. An update keeps the stored value of each absent optional field and stamps the time. Both overwrite the poster column (null when absent, empty or `N/A`) and encode the ratings whenever present |
| Movies.DetailUpserted | lib/movies.ts:32-63 | a detail write the store accepts adds or replaces the key `d.imdbID` only, with that row; every other key keeps its row. A write without an id, title, year or type is rejected and changes nothing, whether or not the row exists, because the `create` data is checked on every call |
| Movies.MovieTable.UpsertSummary | lib/movies.ts:6-28 | the table becomes `SummaryUpserted` of the old one, or stays as it was when the store write fails; each row stays under its own id |
| Movies.MovieTable.UpsertDetail | lib/movies.ts:30-66 | the table becomes `DetailUpserted` of the old one, or stays as it was when the store write fails; each row stays under its own id |
| Movies.RatingsColumn | lib/movies.ts:45 | the ratings column is the encoded ratings exactly when ratings are present, an empty array included |
| Movies.KeepIfAbsent | lib/movies.ts:39-45 | `?? undefined` in an update: a present value replaces the column, an absent one leaves it as it was |
| Movies.SummariesUpserted | lib/movies.ts:99 | a batch of summary writes adds exactly the ids whose writes succeed to the table's keys |
| Movies.SummariesUpsertedElsewhere | lib/movies.ts:99 | after a batch of summary writes, a key no successful write targets keeps its row or stays absent |
| Movies.SummariesUpsertedWritten | lib/movies.ts:99 | in a batch with distinct ids, every summary whose write succeeds leaves at its key the row its own write makes from the table before the batch |
| Movies.SameBatchAgreesAt | lib/movies.ts:89 | two distinct-id batches with the same elements leave the same row, or none, at every key |
| Movies.SummaryWriteOrderIrrelevant | lib/movies.ts:89 | any reordering of a distinct-id batch gives the same table, so the order in which the concurrent writes land does not matter |
| Movies.CacheSummaries | lib/movies.ts:99 | the writes of the whole batch, one per summary, leave the table `SummariesUpserted` of the old one |
| Movies.PageOutcome | lib/movies.ts:79-82 | one search's contribution: its throw, its `Search` items, or no items when `Search` is absent |
| Movies.OutcomesUpTo | lib/movies.ts:76-82 | the outcomes of the first `k` searches form a list of `k` |
| Movies.OutcomesUpToAt | lib/movies.ts:76-82 | outcome `i` is the page items, or the throw, of search number `i` |
| Movies.Outcomes | lib/movies.ts:69-70 | there are nine searches |
| Movies.OutcomeAt | lib/movies.ts:79-82 | the outcome of the `qi`-th query's `pi`-th page is that search's `Search ?? []`, or its throw |
| Movies.Dedup | lib/movies.ts:72-86 | the `seen`/`results` deduplication by first occurrence is never longer than its input, and is empty only for an empty input |
| Movies.DedupDistinct | lib/movies.ts:84-86 | the deduplication has pairwise-distinct ids, the same ids as its input, and only items of its input |
| Movies.DedupPrefix | lib/movies.ts:84-86 | more input only appends to the deduplication |
| Movies.DedupKeepsFirstOccurrences | lib/movies.ts:84-86 | the first item with each id is kept |
| Movies.DedupKeepsOnlyFirstOccurrences | lib/movies.ts:84-86 | every kept item is the first occurrence of its id |
| Movies.Target | lib/movies.ts:87 | the length at which the loop returns is at least one and at least `n`, and exactly `n` for `n >= 1` |
| Movies.StopIndex | lib/movies.ts:87-90 | the number of searches needed to reach the target: every shorter prefix is below it, and the count reaches it unless all searches were needed |
| Movies.FirstFailure | lib/movies.ts:79 | the index of the first throwing search, all before it succeeding, or the count of searches when none throws |
| Movies.Aggregate | lib/movies.ts:68-101 | a success is a prefix of the deduplication of all pages, at most `Target(n)` long, and either exactly that long or all of it; a failure is the throw of one of the searches |
| Movies.CallsMade | lib/movies.ts:79-90 | the searches issued are at most nine, all but the last succeed, and fewer than nine are issued only when the last one threw or reached the target |
| Movies.AggregateDistinct | lib/movies.ts:72-86 | no id is returned twice |
| Movies.AggregateOnFailure | lib/movies.ts:79 | a search that throws while the loop is running is the outcome, and it is the last search issued |
| Movies.StopIndexAt | lib/movies.ts:87-90 | the loop stops after the search that first brings the count to the target |
| Movies.TakeDedupPrefix | lib/movies.ts:87-90 | cutting the deduplication of a longer input at the length of a prefix's gives the prefix's deduplication |
| Movies.PartialPagePrefix | lib/movies.ts:83-86 | the items up to some item of a page are a prefix of everything up to and after that page |
| Movies.AggregateOnTarget | lib/movies.ts:87-90 | when the push of item `j` of search `c` reaches the target, the outcome is what was pushed so far, and `c + 1` searches were issued |
| Movies.AggregateOnExhaustion | lib/movies.ts:97-100 | when no search throws and fewer than `Target(n)` distinct ids exist, all of them are returned after all nine searches |
| Movies.AggregateIgnoresUnissuedSearches | lib/movies.ts:79-90 | the searches after the last one issued never matter: two upstreams that agree on the issued ones give the same outcome and the same call count |
| Movies.IgnoresUnissuedAfterFailure | lib/movies.ts:79 | two upstreams that agree up to the first throw throw at the same search, before the target |
| Movies.IgnoresUnissuedAfterStop | lib/movies.ts:87-90 | two upstreams that agree up to the stop stop at the same search, and the items kept agree |
| Movies.CallsStopAtTarget | lib/movies.ts:87-90 | when the target is reached, the number of searches issued is the 1-based index of the search holding the `Target(n)`-th distinct item |
| Movies.SearchPage | lib/movies.ts:79-82 | one call for a (query, page) pair gives that search's outcome |
| Movies.ScanItems | lib/movies.ts:83-93 | the item loop pushes each unseen id and keeps `seen` equal to the pushed ids; it stops at the first push that reaches the target, and otherwise it has deduplicated the whole page |
| Movies.ProgressExhausted | lib/movies.ts:97-100 | after all nine searches without an exit, `results` is the outcome and nine searches were issued |
| Movies.SearchAndScan | lib/movies.ts:78-93 | one pass of the page loop's body continues with the deduplicated items so far, stops at the target, or stops on a throw, exactly as `Aggregate` and `CallsMade` say |
| Movies.FetchAtLeastNMovies | lib/movies.ts:68-101 | the outcome is `Aggregate` of the nine searches; the ghost count of searches issued is `CallsMade`; the summaries returned are written on success and nothing is written on a throw |
| Movies.FetchMovieDetail | lib/movies.ts:103-108 | the outcome is exactly `getMovieById`'s, whatever the store does; a throwing request writes nothing; a successful one writes the detail unless the store write fails |
| Movies.DetailErrorBodyWritesNothing | lib/movies.ts:103-108 | a detail body without `imdbID` (the upstream's answer to an unknown id) is returned as a success and leaves the table as it was |
| HomePage.RowSize | app/page.tsx:25 | `ceil(len / 3)`: the least `k` with `3 * k >= len` |
| HomePage.Slice | app/page.tsx:26-27 | `slice(from, to)` with its bounds clamped to the length, empty when the end precedes the start |
| HomePage.SliceFrom | app/page.tsx:28 | `slice(from)`: everything from `from` on, empty past the end |
| HomePage.SplitRows | app/page.tsx:25-28 | there are three rows; what they hold is stated by `SplitRowsConcat` and `SplitRowsSizes` |
| HomePage.SplitRowsConcat | app/page.tsx:21-28 | the three rows put back together are the movies after the hero, in order |
| HomePage.SplitRowsSizes | app/page.tsx:25-28 | no row is longer than `rowSize`; the first holds exactly `rowSize` movies; the second holds `rowSize` when at least `2 * rowSize` remain and the rest otherwise; the third holds what is left after `2 * rowSize`, so seven movies split `[3,3,1]`; the rows never grow from first to third |
| HomePage.ErrorMessage | app/page.tsx:48 | an `Error`'s message, or `Unknown error` for any other thrown value |
| HomePage.HeroOf | app/page.tsx:34 | the hero shows the first movie's title, and its poster unless that is `N/A`, in which case none |
| HomePage.RenderedRows | app/page.tsx:36-38 | only non-empty rows are rendered, each under one of the category titles |
| HomePage.RenderedRowsKeepMovies | app/page.tsx:36-38 | dropping the empty rows loses no movie and keeps their order |
| HomePage.RenderedRowsInOrder | app/page.tsx:36-38 | when no empty row precedes a non-empty one, the rendered rows are exactly the non-empty ones, each at its own position under its own title |
| HomePage.RenderedRowsFrom | app/page.tsx:36-38 | a bound on the size of every row bounds every rendered row |
| HomePage.View | app/page.tsx:6-51 | the error notice exactly on a throw, with its message; the `No movies found` notice exactly on an empty list; the hero and rows otherwise |
| HomePage.LoadedShowsEveryMovie | app/page.tsx:21-38 | a loaded page shows the first movie as the hero and every other movie in exactly one rendered row, in order, each row non-empty and at most `ceil((len - 1) / 3)` long; rendered row `i` is `row{i+1}` under the `i`-th title, and `row{i+1}` is rendered exactly when it is non-empty |
| HomePage.RenderHome | app/page.tsx:5-53 | the page is the view of `Aggregate` with target 30 over `searchMovies`, and the table receives the summaries unless the error notice is shown |
| HomePage.HomeRowsAtMostTen | app/page.tsx:7-28 | with a target of 30, no rendered row holds more than 10 movies and no movie is shown twice |
| HomePage.HomeWithoutKey | app/page.tsx:42-51 | without an API key the first `searchMovies` call throws the key error, the loop stops after that one call, and the page shows the error notice `Missing OMDB_API_KEY` |

## Left out

- HTTP is left out: `fetch`, `res.json()`, the `revalidate` option, the base URL and `encodeURIComponent` in the query string. The upstream is a function parameter from the request's parameters and the key to a parsed body or a throw.
- `process.env.OMDB_API_KEY` is an `Option<string>` parameter.
- Movies.DetailUpserted: the table's schema is not part of this model. Title, year and type are taken to be required columns, as the summary create always fills them. The store checks the `create` data of an upsert whether or not the row exists, so a detail write without them is a rejected, swallowed write on update as well as on create.
- Prisma and `lib/db` are left out. The table is a map in a class. Schema defaults are not modelled: a created row's `lastFetchedAt` is `None`, meaning "left to the table's default".
- `new Date()` is one timestamp parameter per call. A batch of summary writes shares that one timestamp.
- Which store writes fail is a parameter: a flag for one write, a set of ids for a batch. A failed write changes nothing.
- `JSON.stringify` of the ratings is a function parameter. The text it produces is not modelled.
- Movies.CacheSummaries: the `Promise.all` writes run one after another in the model. Their keys are distinct, and SummaryWriteOrderIrrelevant shows the order cannot matter.
- Movies.FetchAtLeastNMovies: `searchMovies` is a parameter. The home page passes `Omdb.SearchMovies` with the environment's key. Non-integer `n` is not modelled.
- `console.log` and `console.error` calls are left out.
- Omdb.ReplaceFirst: the replacement text is fixed (`SX700`), so `$` patterns in the replacement are not modelled.
- The JSX, the CSS and the components `HeroBanner`, `MovieRow` and `MovieActionButtons` are left out. That includes the scroll handler, which uses floating point. `Page` is reduced to which branch it takes and what each branch shows.
- The `first &&` guard in front of the hero always holds once the list is non-empty, so it needs no separate branch. `!movies` cannot hold, because the loop always returns a list.
- The debug page `app/test/page.tsx` and `next.config.js` are left out.
