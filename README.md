# ShortURL: the short-code registry and click ledger in Dafny

This project models the core of a URL-shortening service. The service issues
six-character short codes for long URLs. It redirects a short code to its
original URL: the code must exist, be active and be at most one day old. Each
successful redirect is logged in a click ledger, and the service reports
per-URL click counts over the last hour and the last day.

The relational database is replaced by one in-memory store, the class
`UrlDao.UrlStore`. Its two tables (`urls`, `click_logs`) are sequence fields
kept in store order. Its two id sequences are counters. Times are whole
seconds, and the clock is a `now` parameter. The random source of the code
generator is a sequence of draws, each a position in the 62-character
alphabet.

Modules, one per source component:

- `Wrappers`: Option, Result and Outcome.
- `Models` (app/urls/models.py): the `Url` and `ClickLog` rows, the column
  defaults of a new row, the schema's constraints (`StoreInvariant`), and the
  ways a row may change over time (`Evolves`, `UrlsEvolve`, `LogsGrow`).
- `ShortCode` (`generate_short_code`): the generator, shown to be a bijection
  between sequences of n draws and alphabet strings of length n.
- `Queries`: lookup by short code, ledger counts over a trailing window,
  statistics rows, and ordering by one window's count.
- `BaseDao` (app/dao/base.py): the generic listing. It applies one `WHERE`
  clause per filter that applies, then the offset, then the limit.
- `UrlDao` (app/urls/dao.py): the store class and its data-access methods,
  the functions that specify its state changes, and the lemmas about them.
- `Routes` (app/urls/routes.py): the redirect, deactivate, metadata, listing
  and per-URL statistics handlers.

The state-changing methods (`CreateShortUrl`, `IncrementClicks`,
`DeactivateUrl`, `LogClick`, `RedirectToOriginal`, `DeactivateRoute`) keep
`Valid()`. `Valid()` says ids are unique in both tables, short codes are
unique, every click log refers to an existing URL, ids are below the next
value of their sequence, and every stored code is a 6-character alphabet
string. Each method also states the new value of both id sequences.

`ClicksMatchLedger` says every URL's `clicks` equals its number of ledger
rows. `CreateShortUrl`, `DeactivateUrl`, `RedirectToOriginal` and
`DeactivateRoute` preserve it. `LogClick` and `IncrementClicks` each break it
when called alone; only the pair, log then increment, preserves it
(`RedirectKeepsLedgerInSync`), and that pair is what a successful redirect
performs. So, as long as no bare `LogClick` or `IncrementClicks` call comes in
between, N successful redirects of a fresh URL give `clicks == N`.

Where the design description and the code differ, this model follows the
code:
- The router defines no `/urls/stats`, `/urls/stats/hour` or
  `/urls/stats/day` routes. `get_stats_for_all_urls` and
  `get_stats_sorted_by_clicks` are modelled as store methods that no route
  calls.
- `GET /urls/all` takes no query parameters. It calls `find_all()` with no
  arguments, so it returns every record.
- Deactivation reports the update's row count `> 0`, not a separate
  "deactivated" value. In this sequential model that count is always 1 once
  the checks have passed.

## Model

| member | source | states |
|---|---|---|
| `ShortCode.GenerateShortCode` | app/urls/dao.py:13-15 | A generated code has one character per draw and every character is in A–Z, a–z or 0–9. |
| `ShortCode.GenerateCoversAllCodes` | app/urls/dao.py:13-15 | Every alphabet string of length n can be drawn, so the generator reaches all 62^n codes. |
| `ShortCode.GenerateIsInjective` | app/urls/dao.py:13-15 | Distinct draw sequences give distinct codes, so each code corresponds to exactly one sequence of draws. |
| `ShortCode.AlphabetIndex` | app/urls/dao.py:14 | Each alphabet character has a position whose alphabet character is that character. |
| `Models.NewUrl` | app/urls/models.py:12-21 | A new row has the given id, original URL, code and creation time, `is_active` true and `clicks` 0. |
| `UrlDao.UrlStore.constructor` | app/urls/models.py:9-39 | An empty database satisfies the schema invariant. |
| `UrlDao.InsertKeepsInvariant` | app/urls/models.py:12-16 | Inserting a row with a fresh id and an unused code keeps ids and codes unique, keeps the foreign key, and leaves counters in agreement with the ledger. |
| `UrlDao.UrlStore.CreateShortUrl` | app/urls/dao.py:21-31 | A used code fails with DuplicateShortUrl and changes no table, with no retry. Otherwise exactly one row with the given URL, the generated code, active, 0 clicks and created at `now` is appended, and the earlier rows are unchanged. The URL id sequence advances by one either way. |
| `UrlDao.CreatedUrlIsFound` | app/urls/dao.py:21-39 | After an insert, looking up the new code returns the new record. |
| `Queries.FindByShortUrl` | app/urls/dao.py:33-39 | The result is a stored record with that code, and it is None exactly when no record has the code. |
| `Queries.FindByShortUrlUnique` | app/urls/dao.py:33-39 | With unique codes, the lookup returns the one record that has the code. |
| `UrlDao.WithClickAdded` | app/urls/dao.py:41-47 | Raises `clicks` of the rows with the given id by exactly 1. Every other row and every other field is unchanged. |
| `UrlDao.UrlStore.IncrementClicks` | app/urls/dao.py:41-47 | The table becomes `WithClickAdded` of the old table. The ledger and the id sequences are unchanged. |
| `UrlDao.WithDeactivated` | app/urls/dao.py:62-66 | Turns off `is_active` of the active row with the code and changes nothing else. |
| `UrlDao.ActiveWithCode` | app/urls/dao.py:62-68 | The update's row count is 0 exactly when no active row has the code. |
| `UrlDao.UrlStore.DeactivateUrl` | app/urls/dao.py:49-68 | Returns None for an unknown code and false for an inactive record, both with no change. Otherwise it turns the flag off and returns true. |
| `UrlDao.DeactivateTwice` | app/urls/dao.py:49-68 | After a deactivation of a known code, a second call returns false and leaves the table as it is. |
| `UrlDao.UrlStore.LogClick` | app/urls/dao.py:70-75 | Appends exactly one log with the given URL id and time, and earlier logs are untouched. An id with no URL fails the foreign key and changes no table. The log id sequence advances by one either way. |
| `Queries.CountSinceCountsMatchingLogs` | app/urls/dao.py:89-100 | A window count is the number of ledger rows of that URL whose `clicked_at` is at or after the window start. |
| `Queries.CountSinceAntitone` | app/urls/dao.py:81-100 | A window that starts earlier never holds fewer clicks. |
| `Queries.CountSinceAtMostClickCount` | app/urls/dao.py:89-100 | A window never holds more clicks than the URL has ever received. |
| `Queries.ClickCountAppend` | app/urls/dao.py:70-75 | Appending one log adds one to the count of its own URL and to no other URL. |
| `Queries.StatsOf` | app/urls/dao.py:89-108 | The row carries the URL's code and original URL, and the last-hour count ≤ the last-day count ≤ the total clicks. |
| `Queries.AllStats` | app/urls/dao.py:84-111 | There is one row per URL, in store order, and each row's hour count is at most its day count. |
| `Queries.StatsOfUnclickedUrl` | app/urls/dao.py:150-151 | A URL with no logs reports 0 in both windows, not an absent value. |
| `UrlDao.UrlStore.GetStatsForAllUrls` | app/urls/dao.py:77-111 | The loop over URLs builds exactly the store-order statistics rows, with windows starting at `now - 3600` and `now - 86400`. |
| `Queries.ParsePeriod` | app/urls/dao.py:154-159 | Only "hour" and "day" are accepted periods. |
| `Queries.InsertDesc` | app/urls/dao.py:161 | Inserting a row adds exactly that row to the multiset of rows. |
| `Queries.InsertDescSorted` | app/urls/dao.py:161 | Inserting into rows that are non-increasing in the chosen window keeps them non-increasing. |
| `Queries.SortDesc` | app/urls/dao.py:161-164 | The ordered rows are a permutation of the input and are non-increasing in the chosen window's count. |
| `UrlDao.UrlStore.GetStatsSortedByClicks` | app/urls/dao.py:126-176 | Any period other than "hour" or "day" fails with InvalidPeriod. Otherwise the result is a permutation of the per-URL rows (one per URL, 0 where there are no logs), non-increasing in that period's count. |
| `UrlDao.UrlStore.FindAllUrls` | app/urls/dao.py:113-124 | Listing with the optional `is_active` filter returns a subsequence of the records, all with the requested flag. With no arguments it returns every record. |
| `BaseDao.Column` | app/dao/base.py:19-21 | A field name has a column value exactly when it names a column of the URL model. |
| `BaseDao.Where` | app/dao/base.py:19-21 | Every kept row is a stored row that passes every filter that applies. Every stored row that passes them is kept. The result is a subsequence. |
| `BaseDao.IgnoredFilter` | app/dao/base.py:19-20 | A filter whose value is None, or whose name is not a column, changes nothing. |
| `BaseDao.AppliedFilter` | app/dao/base.py:19-21 | A filter that applies narrows the earlier result by one equality clause. |
| `BaseDao.WhereKeepsAll` | app/dao/base.py:19-21 | With no filter that applies, every row is kept in order. |
| `BaseDao.Paginate` | app/dao/base.py:23-26 | The page is the contiguous window of rows starting at the offset (clipped to the length), with at most `limit` rows. |
| `BaseDao.FindAll` | app/dao/base.py:9-29 | The loop over filters followed by offset and limit returns exactly the filtered rows, then the offset window, then the limit cut. |
| `BaseDao.ListedRowsMatch` | app/dao/base.py:21 | Every listed row is stored and passes each filter that applies. |
| `BaseDao.ListingIsSubsequence` | app/dao/base.py:17-29 | The listing is always a subsequence of the stored records. |
| `BaseDao.ListingWithoutArguments` | app/dao/base.py:17-29 | With no filters, offset or limit, the listing is the whole table. |
| `BaseDao.SubsequenceTransitive` | app/dao/base.py:17-29 | A subsequence of a subsequence is a subsequence. |
| `BaseDao.PageIsSubsequence` | app/dao/base.py:23-26 | A page is a subsequence of the rows it was cut from. |
| `UrlDao.RedirectKeepsLedgerInSync` | app/urls/routes.py:39-41 | Logging one click and then adding one to that URL's counter keeps every counter equal to its ledger count. |
| `Routes.CheckRedirect` | app/urls/routes.py:31-37 | An unknown code gives NotFound, an inactive record Inactive, and an active record Expired exactly when `now > created_at + 86400`. The record passes exactly when none of these holds. |
| `Routes.InactiveBeforeExpired` | app/urls/routes.py:34-37 | A deactivated record reports Inactive even when it has also expired. |
| `Routes.ExpiryBoundary` | app/urls/routes.py:12 | An active record still redirects at exactly `created_at + 86400`, and is Expired one second later. |
| `Routes.RedirectToOriginal` | app/urls/routes.py:29-43 | A failing check returns its error and leaves both tables unchanged. A success appends one log for the URL, raises its `clicks` by 1 and returns its original URL. The log id sequence advances by one only on success; the URL id sequence never changes. |
| `Routes.DeactivateResponse` | app/urls/routes.py:46-52 | None maps to NotFound, false to Inactive, and true to success. |
| `Routes.DeactivateOutcomes` | app/urls/routes.py:46-52 | With unique codes, deactivation answers NotFound exactly for an unknown code, Inactive exactly for an inactive record, and succeeds exactly for an active one. |
| `Routes.DeactivateRoute` | app/urls/routes.py:46-52 | The route answers with the mapped outcome of the store's deactivation and leaves the store as that deactivation leaves it: ledger and id sequences unchanged, counters still equal to ledger counts. |
| `Routes.GetInfoByShortUrl` | app/urls/routes.py:55-60 | Returns the record with the code, or NotFound exactly when there is none, without changing state. |
| `Routes.GetAllUrls` | app/urls/routes.py:23-26 | The listing route returns every record, in store order. |
| `Routes.StatsResponse` | app/urls/routes.py:66-67 | A missing statistics value answers NotFound. A present one is returned as is. |
| `Routes.StatusCode` | app/exceptions.py:12-24 | NotFound answers exactly 404, Inactive exactly 409 and Expired exactly 410. |

## Left out

- Database plumbing: async sessions, commit and refresh, and SQL query construction are replaced by the in-memory `UrlStore`. Rows come back in store order wherever the source's `SELECT` leaves the order unspecified.
- Concurrency: the model is sequential. It does not model the atomicity of `clicks + 1`, the check-then-update race in deactivation, redirects racing with deactivation, or a crash between the redirect's two writes.
- Randomness and the clock: `random.choices` becomes a sequence of draws, and `datetime.now` becomes the `now` parameter. Times are integer seconds with no time zones. A row's `created_at` or `clicked_at` is the `now` of the operation that inserts it.
- `ShortCode.GenerateShortCode`: a negative `length` (for which Python draws nothing) is not modelled; the length is the number of draws, a natural number.
- `UrlDao.UrlStore.CreateShortUrl`: takes exactly six draws, the generator's default length that the registry uses. URL validation by the request schema (app/urls/schemas.py) is not part of this model, so any string is accepted as the original URL.
- `BaseDao.FindAll`: offsets and limits are natural numbers. The production database rejects negative values before the query runs.
- `BaseDao.Column`: only the six column attributes of the URL model are filterable. The `clicks_logs` relationship attribute and other class attributes (which `hasattr` would also accept) are treated as unknown fields. A filter value of the wrong type compares unequal.
- `Queries.SortDesc`: the order among rows with equal counts is unspecified in the source. The model fixes one order, but no contract states or relies on it.
- NULL values: `is_active` and `clicks` are NOT NULL columns and every insert goes through the column defaults, so the model has no NULL values.
- Integer width: ids and click counters are unbounded natural numbers. The 32-bit INTEGER columns of the production database make `clicks + 1` fail with "integer out of range" at 2^31 − 1, and the id sequences stop there; these overflow errors are not modelled.
- Per-URL statistics: the route calls `URLDAO.get_stats_by_short_url`, which app/urls/dao.py does not define. Only the route's final "falsy value means NotFound" check is modelled (`Routes.StatsResponse`).
- The create route (app/urls/routes.py:17-20) only passes its argument to `UrlDao.UrlStore.CreateShortUrl` and returns the record, so it has no member of its own.
- HTTP and framework layer: FastAPI routing, response serialisation, CORS (app/main.py) and settings (app/config.py) are not part of this model. The exception classes in app/exceptions.py become the `HttpError` datatype.
