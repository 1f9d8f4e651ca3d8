/**
 * The two persisted tables, `urls` and `click_logs`, as record values, and
 * the constraints the schema places on their contents.
 */
module Models {

  /** Times are whole seconds in UTC. */
  type Timestamp = int

  /** One row of `urls`. */
  datatype Url = Url(
    id: nat,
    originalUrl: string,
    shortUrl: string,
    isActive: bool,
    createdAt: Timestamp,
    clicks: nat)

  /** One row of `click_logs`: one successful redirect of the URL `urlId`. */
  datatype ClickLog = ClickLog(id: nat, urlId: nat, clickedAt: Timestamp)

  /**
   * The row the store inserts when only `original_url` and `short_url` are
   * given: `is_active` defaults to true, `clicks` to 0 and `created_at` to
   * the store's clock.
   */
  function NewUrl(id: nat, originalUrl: string, shortUrl: string, now: Timestamp): (u: Url)
    ensures u.isActive && u.clicks == 0
    ensures u.id == id && u.originalUrl == originalUrl && u.shortUrl == shortUrl
    ensures u.createdAt == now
  {
    Url(id, originalUrl, shortUrl, true, now, 0)
  }

  /** The short codes in use. */
  function ShortUrls(urls: seq<Url>): set<string>
  {
    set u | u in urls :: u.shortUrl
  }

  /** The ids of the URL rows. */
  function UrlIds(urls: seq<Url>): set<nat>
  {
    set u | u in urls :: u.id
  }

  /** `id` is the primary key of `urls`. */
  ghost predicate UniqueUrlIds(urls: seq<Url>)
  {
    forall i, j :: 0 <= i < j < |urls| ==> urls[i].id != urls[j].id
  }

  /** `short_url` carries a unique index. */
  ghost predicate UniqueShortUrls(urls: seq<Url>)
  {
    forall i, j :: 0 <= i < j < |urls| ==> urls[i].shortUrl != urls[j].shortUrl
  }

  /** `id` is the primary key of `click_logs`. */
  ghost predicate UniqueLogIds(logs: seq<ClickLog>)
  {
    forall i, j :: 0 <= i < j < |logs| ==> logs[i].id != logs[j].id
  }

  /** `click_logs.url_id` is a foreign key into `urls.id`. */
  ghost predicate LogsReferToUrls(urls: seq<Url>, logs: seq<ClickLog>)
  {
    forall k :: 0 <= k < |logs| ==> logs[k].urlId in UrlIds(urls)
  }

  /** Everything the schema guarantees about the two tables together. */
  ghost predicate StoreInvariant(urls: seq<Url>, logs: seq<ClickLog>)
  {
    && UniqueUrlIds(urls)
    && UniqueShortUrls(urls)
    && UniqueLogIds(logs)
    && LogsReferToUrls(urls, logs)
  }

  /**
   * How one row of `urls` may change over time: id, original URL, short code
   * and creation time never change, the counter never goes down and the
   * active flag only goes from true to false.
   */
  predicate Evolves(before: Url, after: Url)
  {
    && before.id == after.id
    && before.originalUrl == after.originalUrl
    && before.shortUrl == after.shortUrl
    && before.createdAt == after.createdAt
    && before.clicks <= after.clicks
    && (after.isActive ==> before.isActive)
  }

  /** Every row of `before` is still in place in `after`, changed only as `Evolves` allows. */
  ghost predicate UrlsEvolve(before: seq<Url>, after: seq<Url>)
  {
    |before| <= |after| && forall i :: 0 <= i < |before| ==> Evolves(before[i], after[i])
  }

  /** The click ledger is append-only: earlier rows are never changed or removed. */
  ghost predicate LogsGrow(before: seq<ClickLog>, after: seq<ClickLog>)
  {
    before <= after
  }
}
