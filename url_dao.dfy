/**
 * The registry and click ledger as one in-memory store. The relational
 * database becomes the class `UrlStore`: its two tables are sequence fields in
 * store order, and its two id sequences are counters. Each data-access
 * operation on URLs is a method of the store, and the state changes are
 * specified by the functions of this module.
 */
module UrlDao {
  import opened Wrappers
  import opened Models
  import opened ShortCode
  import opened Queries
  import opened BaseDao

  /** The errors the store raises. */
  datatype StoreError =
    | DuplicateShortUrl   // unique index on short_url violated
    | UnknownUrl          // foreign key click_logs.url_id violated
    | InvalidPeriod       // the ValueError for a period other than "hour" or "day"

  /** `UPDATE urls SET clicks = clicks + 1 WHERE id = urlId`. */
  function WithClickAdded(urls: seq<Url>, urlId: nat): (r: seq<Url>)
    ensures |r| == |urls|
    ensures forall i :: 0 <= i < |urls| ==> Evolves(urls[i], r[i]) && r[i].isActive == urls[i].isActive
    ensures forall i :: 0 <= i < |urls| ==>
              r[i].clicks == urls[i].clicks + (if urls[i].id == urlId then 1 else 0)
  {
    seq(|urls|, i requires 0 <= i < |urls| =>
      if urls[i].id == urlId then urls[i].(clicks := urls[i].clicks + 1) else urls[i])
  }

  /** `UPDATE urls SET is_active = false WHERE short_url = code AND is_active`. */
  function WithDeactivated(urls: seq<Url>, code: string): (r: seq<Url>)
    ensures |r| == |urls|
    ensures forall i :: 0 <= i < |urls| ==> Evolves(urls[i], r[i]) && r[i].clicks == urls[i].clicks
    ensures forall i :: 0 <= i < |urls| ==>
              r[i].isActive == (urls[i].isActive && urls[i].shortUrl != code)
  {
    seq(|urls|, i requires 0 <= i < |urls| =>
      if urls[i].shortUrl == code && urls[i].isActive then urls[i].(isActive := false) else urls[i])
  }

  /** The number of rows `WithDeactivated` changes: the update's row count. */
  function ActiveWithCode(urls: seq<Url>, code: string): (n: nat)
    ensures n == 0 <==> forall u :: u in urls ==> !(u.shortUrl == code && u.isActive)
  {
    if |urls| == 0 then 0
    else
      assert urls == [urls[0]] + urls[1..];
      ActiveWithCode(urls[1..], code) + (if urls[0].shortUrl == code && urls[0].isActive then 1 else 0)
  }

  /**
   * Deactivation as a function of the table: the reported outcome (None for
   * an unknown code, false for a record that is already inactive, true when
   * the flag was turned off) and the table afterwards.
   */
  function Deactivate(urls: seq<Url>, code: string): (Option<bool>, seq<Url>)
  {
    match FindByShortUrl(urls, code)
    case None => (None, urls)
    case Some(u) => if !u.isActive then (Some(false), urls) else (Some(true), WithDeactivated(urls, code))
  }

  /**
   * Deactivation is one-way and idempotent in effect: a second call on the
   * same code reports false and changes nothing.
   */
  lemma DeactivateTwice(urls: seq<Url>, code: string)
    requires UniqueShortUrls(urls)
    requires Deactivate(urls, code).0.Some?
    ensures var after := Deactivate(urls, code).1;
      Deactivate(after, code) == (Some(false), after)
  {
    var after := Deactivate(urls, code).1;
    var u := FindByShortUrl(urls, code).value;
    var i :| 0 <= i < |urls| && urls[i] == u;
    assert UniqueShortUrls(after) by {
      forall a, b | 0 <= a < b < |after| ensures after[a].shortUrl != after[b].shortUrl {
        assert Evolves(urls[a], after[a]) && Evolves(urls[b], after[b]);
      }
    }
    FindByShortUrlUnique(after, i);
    assert after[i].shortUrl == code;
  }

  /** Whether click counters agree with the ledger: each URL's counter is its number of logs. */
  ghost predicate ClicksMatchLedger(urls: seq<Url>, logs: seq<ClickLog>)
  {
    forall i :: 0 <= i < |urls| ==> urls[i].clicks == ClickCount(logs, urls[i].id)
  }

  /**
   * A successful redirect writes one log for the URL and then adds one to its
   * counter; together the two writes keep counters and ledger in agreement.
   */
  lemma RedirectKeepsLedgerInSync(urls: seq<Url>, logs: seq<ClickLog>, log: ClickLog)
    requires ClicksMatchLedger(urls, logs)
    ensures ClicksMatchLedger(WithClickAdded(urls, log.urlId), logs + [log])
  {
    var after := WithClickAdded(urls, log.urlId);
    forall i | 0 <= i < |after|
      ensures after[i].clicks == ClickCount(logs + [log], after[i].id)
    {
      ClickCountAppend(logs, log, urls[i].id);
    }
  }

  /**
   * Inserting a record with a fresh id and an unused code keeps the schema's
   * constraints, and it starts with no clicks, as the ledger says.
   */
  lemma InsertKeepsInvariant(urls: seq<Url>, logs: seq<ClickLog>, u: Url)
    requires StoreInvariant(urls, logs)
    requires u.id !in UrlIds(urls) && u.shortUrl !in ShortUrls(urls)
    requires u.clicks == 0
    ensures StoreInvariant(urls + [u], logs)
    ensures ClicksMatchLedger(urls, logs) ==> ClicksMatchLedger(urls + [u], logs)
    ensures UrlsEvolve(urls, urls + [u])
  {
    var after := urls + [u];
    assert UrlIds(urls) <= UrlIds(after);
    forall i | 0 <= i < |urls| ensures after[i] == urls[i] && urls[i] in urls { }
    assert forall k :: 0 <= k < |logs| ==> logs[k].urlId != u.id;
    ClickCountAbsent(logs, u.id);
  }

  /**
   * A record just inserted under an unused code is what the lookup by that
   * code returns: same original URL, active, no clicks.
   */
  lemma CreatedUrlIsFound(urls: seq<Url>, u: Url)
    requires UniqueShortUrls(urls)
    requires u.shortUrl !in ShortUrls(urls)
    ensures FindByShortUrl(urls + [u], u.shortUrl) == Some(u)
  {
    var after := urls + [u];
    forall i, j | 0 <= i < j < |after| ensures after[i].shortUrl != after[j].shortUrl {
      if j == |urls| {
        assert after[i] in urls;
      }
    }
    FindByShortUrlUnique(after, |urls|);
  }

  /** The store: both tables, in store order, and the next value of each id sequence. */
  class UrlStore {
    var urls: seq<Url>
    var logs: seq<ClickLog>
    var nextUrlId: nat
    var nextLogId: nat

    /**
     * The schema's constraints hold, every id is below the next value of its
     * sequence, and every short code was drawn by the generator.
     */
    ghost predicate Valid()
      reads this
    {
      && StoreInvariant(urls, logs)
      && (forall i :: 0 <= i < |urls| ==> urls[i].id < nextUrlId)
      && (forall k :: 0 <= k < |logs| ==> logs[k].id < nextLogId)
      && (forall i :: 0 <= i < |urls| ==> IsShortCode(urls[i].shortUrl) && |urls[i].shortUrl| == DefaultLength)
    }

    /** An empty database; both id sequences start at 1. */
    constructor ()
      ensures Valid()
      ensures urls == [] && logs == []
    {
      urls, logs := [], [];
      nextUrlId, nextLogId := 1, 1;
    }

    /**
     * Inserts a record for `originalUrl` under the code spelled by `draws`,
     * created at `now`. A code already in use makes the insert fail and leaves
     * both tables as they were; there is no retry. The id sequence advances
     * either way, as a failed insert still consumes its id.
     */
    method CreateShortUrl(originalUrl: string, draws: seq<Draw>, now: Timestamp)
      returns (r: Result<Url, StoreError>)
      requires Valid()
      requires |draws| == DefaultLength
      modifies this
      ensures Valid()
      ensures logs == old(logs) && nextLogId == old(nextLogId)
      ensures nextUrlId == old(nextUrlId) + 1
      ensures var code := GenerateShortCode(draws);
        if code in ShortUrls(old(urls)) then
          r == Failure(DuplicateShortUrl) && urls == old(urls)
        else
          r == Success(NewUrl(old(nextUrlId), originalUrl, code, now)) && urls == old(urls) + [r.value]
      ensures UrlsEvolve(old(urls), urls)
      ensures ClicksMatchLedger(old(urls), old(logs)) ==> ClicksMatchLedger(urls, logs)
    {
      var code := GenerateShortCode(draws);
      var id := nextUrlId;
      nextUrlId := nextUrlId + 1;
      if code in ShortUrls(urls) {
        return Failure(DuplicateShortUrl);
      }
      var u := NewUrl(id, originalUrl, code, now);
      assert id !in UrlIds(urls);
      InsertKeepsInvariant(urls, logs, u);
      urls := urls + [u];
      r := Success(u);
    }

    /** Adds one to the counter of the record with id `urlId`; nothing else changes. */
    method IncrementClicks(urlId: nat)
      requires Valid()
      modifies this
      ensures Valid()
      ensures urls == WithClickAdded(old(urls), urlId)
      ensures logs == old(logs) && nextUrlId == old(nextUrlId) && nextLogId == old(nextLogId)
    {
      urls := WithClickAdded(urls, urlId);
    }

    /**
     * Turns the active flag of the record with code `code` off. Reports None
     * for an unknown code and false for a record that is already inactive,
     * both without a change; otherwise reports whether the update changed a
     * row, which it always does here.
     */
    method DeactivateUrl(code: string) returns (r: Option<bool>)
      requires Valid()
      modifies this
      ensures Valid()
      ensures (r, urls) == Deactivate(old(urls), code)
      ensures logs == old(logs) && nextUrlId == old(nextUrlId) && nextLogId == old(nextLogId)
      ensures UrlsEvolve(old(urls), urls)
      ensures ClicksMatchLedger(old(urls), old(logs)) ==> ClicksMatchLedger(urls, logs)
    {
      var found := FindByShortUrl(urls, code);
      if found.None? {
        return None;
      }
      if !found.value.isActive {
        return Some(false);
      }
      var rowcount := ActiveWithCode(urls, code);
      urls := WithDeactivated(urls, code);
      r := Some(rowcount > 0);
    }

    /**
     * Appends one click of URL `urlId` at `now` to the ledger. An id with no
     * URL row violates the foreign key and the insert fails.
     */
    method LogClick(urlId: nat, now: Timestamp) returns (r: Outcome<StoreError>)
      requires Valid()
      modifies this
      ensures Valid()
      ensures urls == old(urls) && nextUrlId == old(nextUrlId)
      ensures nextLogId == old(nextLogId) + 1
      ensures r.Pass? <==> urlId in UrlIds(old(urls))
      ensures r.Pass? ==> logs == old(logs) + [ClickLog(old(nextLogId), urlId, now)]
      ensures r.Fail? ==> r.error == UnknownUrl && logs == old(logs)
    {
      var id := nextLogId;
      nextLogId := nextLogId + 1;
      if urlId !in UrlIds(urls) {
        return Fail(UnknownUrl);
      }
      logs := logs + [ClickLog(id, urlId, now)];
      r := Pass;
    }

    /**
     * One statistics row per URL in store order: the clicks logged at or
     * after one hour and one day before `now`.
     */
    method GetStatsForAllUrls(now: Timestamp) returns (stats: seq<UrlStats>)
      ensures stats == AllStats(urls, logs, now)
    {
      var oneHourAgo := now - HourSeconds;
      var oneDayAgo := now - DaySeconds;
      stats := [];
      var i := 0;
      while i < |urls|
        invariant 0 <= i <= |urls|
        invariant stats == AllStats(urls[..i], logs, now)
      {
        var url := urls[i];
        var clicksLastHour := CountSince(logs, url.id, oneHourAgo);
        var clicksLastDay := CountSince(logs, url.id, oneDayAgo);
        stats := stats + [UrlStats(url.shortUrl, url.originalUrl, clicksLastHour, clicksLastDay)];
        assert urls[..i + 1] == urls[..i] + [url];
        i := i + 1;
      }
      assert urls[..i] == urls;
    }

    /** The `is_active` keyword argument of the listing, None meaning "any". */
    static function ActiveFilter(isActive: Option<bool>): Filter
    {
      ("is_active", if isActive.Some? then Some(BoolValue(isActive.value)) else None)
    }

    /**
     * The listing with an optional `is_active` filter, offset and limit: a
     * window of the matching records in store order.
     */
    method FindAllUrls(offset: Option<nat>, limit: Option<nat>, isActive: Option<bool>)
      returns (rows: seq<Url>)
      ensures rows == Paginate(Where(urls, [ActiveFilter(isActive)]), offset, limit)
      ensures forall u :: u in rows ==> u in urls && (isActive.Some? ==> u.isActive == isActive.value)
      ensures IsSubsequence(rows, urls)
      ensures offset.None? && limit.None? && isActive.None? ==> rows == urls
    {
      rows := FindAll(urls, offset, limit, [ActiveFilter(isActive)]);
      ListingIsSubsequence(urls, offset, limit, [ActiveFilter(isActive)]);
      forall u | u in rows
        ensures u in urls && (isActive.Some? ==> u.isActive == isActive.value)
      {
        ListedRowsMatch(urls, offset, limit, [ActiveFilter(isActive)], u);
        assert MatchesFilters(u, [ActiveFilter(isActive)]);
        if isActive.Some? {
          assert Applies([ActiveFilter(isActive)][0]);
        }
      }
      if isActive.None? {
        WhereKeepsAll(urls, [ActiveFilter(isActive)]);
      }
    }

    /**
     * The statistics rows ordered by descending count of the window named by
     * `period`; any other period is an error. Every URL has a row, with 0 for
     * a window without clicks.
     */
    method GetStatsSortedByClicks(period: string, now: Timestamp)
      returns (r: Result<seq<UrlStats>, StoreError>)
      ensures r.Failure? <==> period != "hour" && period != "day"
      ensures r.Failure? ==> r.error == InvalidPeriod
      ensures r.Success? ==>
        var p := if period == "hour" then Hour else Day;
        && NonIncreasing(r.value, p)
        && multiset(r.value) == multiset(AllStats(urls, logs, now))
    {
      var rows := AllStats(urls, logs, now);
      var p := ParsePeriod(period);
      if p.None? {
        return Failure(InvalidPeriod);
      }
      r := Success(SortDesc(rows, p.value));
    }
  }
}
