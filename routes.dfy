/**
 * The route handlers of the `/urls` router over the store: the redirect with
 * its ordered checks and two writes, deactivation with its outcome mapped to
 * errors, metadata lookup and the listing.
 */
module Routes {
  import opened Wrappers
  import opened Models
  import opened Queries
  import opened BaseDao
  import opened UrlDao

  /** The errors a route raises. */
  datatype HttpError = NotFound | Inactive | Expired

  /** The status code each error answers with. */
  function StatusCode(e: HttpError): (code: int)
    ensures e == NotFound <==> code == 404
    ensures e == Inactive <==> code == 409
    ensures e == Expired <==> code == 410
  {
    match e
    case NotFound => 404
    case Inactive => 409
    case Expired => 410
  }

  /** A short URL stops redirecting one day after it was created. */
  const ExpirationSeconds: int := DaySeconds

  /** Whether `u` has expired at `now`: strictly more than a day after creation. */
  predicate IsExpired(u: Url, now: Timestamp)
  {
    now > u.createdAt + ExpirationSeconds
  }

  /**
   * The checks of the redirect, in order, on the looked-up record: unknown
   * code, then inactive, then expired; the record when all three pass.
   */
  function CheckRedirect(found: Option<Url>, now: Timestamp): (r: Result<Url, HttpError>)
    ensures r.Success? <==> found.Some? && found.value.isActive && !IsExpired(found.value, now)
    ensures r.Success? ==> r.value == found.value
    ensures r == Failure(NotFound) <==> found.None?
    ensures r == Failure(Inactive) <==> found.Some? && !found.value.isActive
    ensures r == Failure(Expired) <==> found.Some? && found.value.isActive && IsExpired(found.value, now)
  {
    if found.None? then Failure(NotFound)
    else if !found.value.isActive then Failure(Inactive)
    else if now > found.value.createdAt + ExpirationSeconds then Failure(Expired)
    else Success(found.value)
  }

  /** A deactivated record reports Inactive even when it has also expired. */
  lemma InactiveBeforeExpired(u: Url, now: Timestamp)
    requires !u.isActive
    ensures CheckRedirect(Some(u), now) == Failure(Inactive)
  {
  }

  /**
   * An active record redirects up to and including exactly one day after its
   * creation, and reports Expired from the next second on.
   */
  lemma ExpiryBoundary(u: Url)
    requires u.isActive
    ensures CheckRedirect(Some(u), u.createdAt + ExpirationSeconds) == Success(u)
    ensures CheckRedirect(Some(u), u.createdAt + ExpirationSeconds + 1) == Failure(Expired)
  {
  }

  /**
   * `GET /urls/r/{code}`: checks the record; on success logs one click, then
   * adds one to the counter, and answers with the original URL. A failing
   * redirect changes nothing.
   */
  method RedirectToOriginal(store: UrlStore, code: string, now: Timestamp)
    returns (r: Result<string, HttpError>)
    requires store.Valid()
    modifies store
    ensures store.Valid()
    ensures var check := CheckRedirect(FindByShortUrl(old(store.urls), code), now);
      check.Failure? ==>
        && r == Failure(check.error)
        && store.urls == old(store.urls)
        && store.logs == old(store.logs)
        && store.nextLogId == old(store.nextLogId)
    ensures var check := CheckRedirect(FindByShortUrl(old(store.urls), code), now);
      check.Success? ==>
        && r == Success(check.value.originalUrl)
        && store.logs == old(store.logs) + [ClickLog(old(store.nextLogId), check.value.id, now)]
        && store.urls == WithClickAdded(old(store.urls), check.value.id)
        && store.nextLogId == old(store.nextLogId) + 1
    ensures store.nextUrlId == old(store.nextUrlId)
    ensures UrlsEvolve(old(store.urls), store.urls)
    ensures LogsGrow(old(store.logs), store.logs)
    ensures ClicksMatchLedger(old(store.urls), old(store.logs))
            ==> ClicksMatchLedger(store.urls, store.logs)
  {
    var check := CheckRedirect(FindByShortUrl(store.urls, code), now);
    if check.Failure? {
      return Failure(check.error);
    }
    var url := check.value;
    assert url.id in UrlIds(store.urls);
    ghost var log := ClickLog(store.nextLogId, url.id, now);
    ghost var urls0, logs0 := store.urls, store.logs;
    var logged := store.LogClick(url.id, now);
    assert store.logs == logs0 + [log] && store.urls == urls0;
    store.IncrementClicks(url.id);
    assert store.urls == WithClickAdded(urls0, url.id) && store.logs == logs0 + [log];
    if ClicksMatchLedger(urls0, logs0) {
      RedirectKeepsLedgerInSync(urls0, logs0, log);
    }
    r := Success(url.originalUrl);
  }

  /** The route's answer to the store's deactivation outcome: None is success. */
  function DeactivateResponse(updated: Option<bool>): (err: Option<HttpError>)
    ensures err == Some(NotFound) <==> updated.None?
    ensures err == Some(Inactive) <==> updated == Some(false)
    ensures err.None? <==> updated == Some(true)
  {
    match updated
    case None => Some(NotFound)
    case Some(b) => if !b then Some(Inactive) else None
  }

  /**
   * Deactivation answers NotFound exactly for an unknown code, Inactive
   * exactly for a record that is already inactive, and succeeds exactly for an
   * active record.
   */
  lemma DeactivateOutcomes(urls: seq<Url>, code: string)
    requires UniqueShortUrls(urls)
    ensures var err := DeactivateResponse(Deactivate(urls, code).0);
      && (err == Some(NotFound) <==> code !in ShortUrls(urls))
      && (err == Some(Inactive) <==> exists u :: u in urls && u.shortUrl == code && !u.isActive)
      && (err.None? <==> exists u :: u in urls && u.shortUrl == code && u.isActive)
  {
    if code in ShortUrls(urls) {
      var i :| 0 <= i < |urls| && urls[i].shortUrl == code;
      FindByShortUrlUnique(urls, i);
      forall u | u in urls && u.shortUrl == code ensures u == urls[i] {
        var j :| 0 <= j < |urls| && urls[j] == u;
        assert j == i;
      }
    }
  }

  /** `PATCH /urls/deactivate/{code}`: deactivates and maps the outcome to an error. */
  method DeactivateRoute(store: UrlStore, code: string) returns (err: Option<HttpError>)
    requires store.Valid()
    modifies store
    ensures store.Valid()
    ensures err == DeactivateResponse(Deactivate(old(store.urls), code).0)
    ensures store.urls == Deactivate(old(store.urls), code).1
    ensures store.logs == old(store.logs)
    ensures store.nextUrlId == old(store.nextUrlId) && store.nextLogId == old(store.nextLogId)
    ensures UrlsEvolve(old(store.urls), store.urls)
    ensures ClicksMatchLedger(old(store.urls), old(store.logs))
            ==> ClicksMatchLedger(store.urls, store.logs)
  {
    var updated := store.DeactivateUrl(code);
    err := DeactivateResponse(updated);
  }

  /** `GET /urls/{code}`: the record with that code, or NotFound. */
  method GetInfoByShortUrl(store: UrlStore, code: string) returns (r: Result<Url, HttpError>)
    ensures r.Success? ==> r.value in store.urls && r.value.shortUrl == code
    ensures r.Failure? <==> code !in ShortUrls(store.urls)
    ensures r.Failure? ==> r.error == NotFound
  {
    var url := FindByShortUrl(store.urls, code);
    if url.None? {
      return Failure(NotFound);
    }
    r := Success(url.value);
  }

  /** `GET /urls/all`: the listing without arguments, which is every record. */
  method GetAllUrls(store: UrlStore) returns (rows: seq<Url>)
    ensures rows == store.urls
  {
    rows := FindAll(store.urls, None, None, []);
    ListingWithoutArguments(store.urls);
  }

  /**
   * `GET /urls/stats/{code}`: only the final check is part of this model; an
   * absent statistics value answers NotFound.
   */
  function StatsResponse(stats: Option<UrlStats>): (r: Result<UrlStats, HttpError>)
    ensures r.Failure? <==> stats.None?
    ensures r.Failure? ==> r.error == NotFound
    ensures r.Success? ==> r.value == stats.value
  {
    if stats.None? then Failure(NotFound) else Success(stats.value)
  }
}
