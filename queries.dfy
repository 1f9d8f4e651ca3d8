/**
 * Read-only queries over the two tables: lookup by short code, the click
 * counts over a trailing window, the per-URL statistics rows and their order
 * by one window's count.
 */
module Queries {
  import opened Wrappers
  import opened Models

  /** Length of the "last hour" window, in seconds. */
  const HourSeconds: int := 3600

  /** Length of the "last day" window, in seconds. */
  const DaySeconds: int := 86400

  // ---------------------------------------------------------------------
  // Lookup by short code

  /** The record whose short code is `code`, or None when there is none. */
  function FindByShortUrl(urls: seq<Url>, code: string): (r: Option<Url>)
    ensures r.Some? ==> r.value in urls && r.value.shortUrl == code
    ensures r.None? <==> code !in ShortUrls(urls)
  {
    if |urls| == 0 then None
    else if urls[0].shortUrl == code then Some(urls[0])
    else
      assert ShortUrls(urls) == {urls[0].shortUrl} + ShortUrls(urls[1..]) by {
        assert urls == [urls[0]] + urls[1..];
      }
      FindByShortUrl(urls[1..], code)
  }

  /** With unique short codes, the lookup returns the one record that has the code. */
  lemma {:induction false} FindByShortUrlUnique(urls: seq<Url>, i: nat)
    requires UniqueShortUrls(urls)
    requires i < |urls|
    ensures FindByShortUrl(urls, urls[i].shortUrl) == Some(urls[i])
  {
    if i > 0 {
      assert urls[0].shortUrl != urls[i].shortUrl;
      assert urls[1..][i - 1] == urls[i];
      FindByShortUrlUnique(urls[1..], i - 1);
    }
  }

  // ---------------------------------------------------------------------
  // Counting the ledger

  /** The number of clicks of URL `urlId` logged at or after `since`. */
  function CountSince(logs: seq<ClickLog>, urlId: nat, since: Timestamp): nat
  {
    if |logs| == 0 then 0
    else
      CountSince(logs[..|logs| - 1], urlId, since)
      + (if logs[|logs| - 1].urlId == urlId && logs[|logs| - 1].clickedAt >= since then 1 else 0)
  }

  /** The number of clicks of URL `urlId` ever logged. */
  function ClickCount(logs: seq<ClickLog>, urlId: nat): nat
  {
    if |logs| == 0 then 0
    else ClickCount(logs[..|logs| - 1], urlId) + (if logs[|logs| - 1].urlId == urlId then 1 else 0)
  }

  /** The positions of the ledger holding clicks of `urlId` at or after `since`. */
  function ClicksSinceAt(logs: seq<ClickLog>, urlId: nat, since: Timestamp): set<int>
  {
    set k | 0 <= k < |logs| && logs[k].urlId == urlId && logs[k].clickedAt >= since
  }

  /** The window count is the number of matching ledger rows: `COUNT(*) ... WHERE`. */
  lemma {:induction false} CountSinceCountsMatchingLogs(logs: seq<ClickLog>, urlId: nat, since: Timestamp)
    ensures CountSince(logs, urlId, since) == |ClicksSinceAt(logs, urlId, since)|
  {
    if |logs| > 0 {
      var n := |logs| - 1;
      var prefix := logs[..n];
      CountSinceCountsMatchingLogs(prefix, urlId, since);
      var before := ClicksSinceAt(prefix, urlId, since);
      var after := ClicksSinceAt(logs, urlId, since);
      if logs[n].urlId == urlId && logs[n].clickedAt >= since {
        assert after == before + {n};
        assert n !in before;
      } else {
        assert after == before;
      }
    }
  }

  /** A wider window (an earlier start) never holds fewer clicks. */
  lemma {:induction false} CountSinceAntitone(logs: seq<ClickLog>, urlId: nat, early: Timestamp, late: Timestamp)
    requires early <= late
    ensures CountSince(logs, urlId, late) <= CountSince(logs, urlId, early)
  {
    if |logs| > 0 {
      CountSinceAntitone(logs[..|logs| - 1], urlId, early, late);
    }
  }

  /** A window never holds more clicks than the URL ever received. */
  lemma {:induction false} CountSinceAtMostClickCount(logs: seq<ClickLog>, urlId: nat, since: Timestamp)
    ensures CountSince(logs, urlId, since) <= ClickCount(logs, urlId)
  {
    if |logs| > 0 {
      CountSinceAtMostClickCount(logs[..|logs| - 1], urlId, since);
    }
  }

  /** Appending one log adds one click to its own URL and to no other. */
  lemma ClickCountAppend(logs: seq<ClickLog>, log: ClickLog, urlId: nat)
    ensures ClickCount(logs + [log], urlId)
            == ClickCount(logs, urlId) + (if log.urlId == urlId then 1 else 0)
  {
    assert (logs + [log])[..|logs|] == logs;
  }

  /** A URL that no log refers to has no clicks in the ledger. */
  lemma {:induction false} ClickCountAbsent(logs: seq<ClickLog>, urlId: nat)
    requires forall k :: 0 <= k < |logs| ==> logs[k].urlId != urlId
    ensures ClickCount(logs, urlId) == 0
  {
    if |logs| > 0 {
      ClickCountAbsent(logs[..|logs| - 1], urlId);
    }
  }

  /** A URL that no log refers to has no clicks in any window. */
  lemma {:induction false} CountSinceAbsent(logs: seq<ClickLog>, urlId: nat, since: Timestamp)
    requires forall k :: 0 <= k < |logs| ==> logs[k].urlId != urlId
    ensures CountSince(logs, urlId, since) == 0
  {
    if |logs| > 0 {
      CountSinceAbsent(logs[..|logs| - 1], urlId, since);
    }
  }

  // ---------------------------------------------------------------------
  // Statistics rows

  /** One statistics row: the URL and its click counts over the last hour and day. */
  datatype UrlStats = UrlStats(
    shortUrl: string,
    originalUrl: string,
    lastHourClicks: nat,
    lastDayClicks: nat)

  /** The statistics row of `u` at time `now`. */
  function StatsOf(u: Url, logs: seq<ClickLog>, now: Timestamp): (s: UrlStats)
    ensures s.shortUrl == u.shortUrl && s.originalUrl == u.originalUrl
    ensures s.lastHourClicks <= s.lastDayClicks <= ClickCount(logs, u.id)
  {
    CountSinceAntitone(logs, u.id, now - DaySeconds, now - HourSeconds);
    CountSinceAtMostClickCount(logs, u.id, now - DaySeconds);
    UrlStats(u.shortUrl, u.originalUrl,
             CountSince(logs, u.id, now - HourSeconds),
             CountSince(logs, u.id, now - DaySeconds))
  }

  /** One statistics row per URL, in store order. */
  function AllStats(urls: seq<Url>, logs: seq<ClickLog>, now: Timestamp): (rows: seq<UrlStats>)
    ensures |rows| == |urls|
    ensures forall i :: 0 <= i < |rows| ==> rows[i].shortUrl == urls[i].shortUrl
    ensures forall i :: 0 <= i < |rows| ==> rows[i].lastHourClicks <= rows[i].lastDayClicks
  {
    seq(|urls|, i requires 0 <= i < |urls| => StatsOf(urls[i], logs, now))
  }

  /** A URL with no logged clicks reports 0 in both windows, not an absent value. */
  lemma StatsOfUnclickedUrl(u: Url, logs: seq<ClickLog>, now: Timestamp)
    requires forall k :: 0 <= k < |logs| ==> logs[k].urlId != u.id
    ensures StatsOf(u, logs, now).lastHourClicks == 0
    ensures StatsOf(u, logs, now).lastDayClicks == 0
  {
    CountSinceAbsent(logs, u.id, now - HourSeconds);
    CountSinceAbsent(logs, u.id, now - DaySeconds);
  }

  // ---------------------------------------------------------------------
  // Ordering by one window's count

  /** The window a sorted listing is ordered by. */
  datatype Period = Hour | Day

  /** The `period` argument: "hour" and "day" are the only accepted values. */
  function ParsePeriod(s: string): (p: Option<Period>)
    ensures p == Some(Hour) <==> s == "hour"
    ensures p == Some(Day) <==> s == "day"
    ensures p.None? <==> s != "hour" && s != "day"
  {
    if s == "hour" then Some(Hour)
    else if s == "day" then Some(Day)
    else None
  }

  /** The count a row is ordered by for period `p`. */
  function WindowCount(row: UrlStats, p: Period): nat
  {
    match p
    case Hour => row.lastHourClicks
    case Day => row.lastDayClicks
  }

  /** Rows ordered by descending count of period `p`. */
  ghost predicate NonIncreasing(rows: seq<UrlStats>, p: Period)
  {
    forall i, j :: 0 <= i < j < |rows| ==> WindowCount(rows[i], p) >= WindowCount(rows[j], p)
  }

  /** `rows` with `row` placed before the first row whose count is not larger. */
  function InsertDesc(row: UrlStats, rows: seq<UrlStats>, p: Period): (r: seq<UrlStats>)
    ensures multiset(r) == multiset(rows) + multiset{row}
  {
    if |rows| == 0 then [row]
    else if WindowCount(row, p) >= WindowCount(rows[0], p) then [row] + rows
    else
      assert rows == [rows[0]] + rows[1..];
      [rows[0]] + InsertDesc(row, rows[1..], p)
  }

  /** Inserting into rows ordered by descending count keeps them ordered. */
  lemma {:induction false} InsertDescSorted(row: UrlStats, rows: seq<UrlStats>, p: Period)
    requires NonIncreasing(rows, p)
    ensures NonIncreasing(InsertDesc(row, rows, p), p)
  {
    if |rows| > 0 && WindowCount(row, p) < WindowCount(rows[0], p) {
      var rest := InsertDesc(row, rows[1..], p);
      InsertDescSorted(row, rows[1..], p);
      assert rows == [rows[0]] + rows[1..];
      forall j | 0 <= j < |rest|
        ensures WindowCount(rows[0], p) >= WindowCount(rest[j], p)
      {
        assert rest[j] in multiset(rows[1..]) + multiset{row};
        if rest[j] != row {
          var k :| 0 <= k < |rows[1..]| && rows[1..][k] == rest[j];
          assert rows[k + 1] == rest[j];
        }
      }
    }
  }

  /**
   * The rows ordered by descending count of period `p`, as the store's
   * `ORDER BY ... DESC` returns them; rows with equal counts may come in any
   * order, and this definition fixes one.
   */
  function SortDesc(rows: seq<UrlStats>, p: Period): (r: seq<UrlStats>)
    ensures NonIncreasing(r, p)
    ensures multiset(r) == multiset(rows)
  {
    if |rows| == 0 then []
    else
      assert rows == [rows[0]] + rows[1..];
      InsertDescSorted(rows[0], SortDesc(rows[1..], p), p);
      InsertDesc(rows[0], SortDesc(rows[1..], p), p)
  }
}
