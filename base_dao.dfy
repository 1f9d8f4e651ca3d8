/**
 * The generic listing query of the data-access base class: keyword filters
 * narrow the table by column equality, filters whose value is None or that
 * name no column are skipped, then offset and limit cut a window out of the
 * filtered rows. The only model the registry instantiates it with is the
 * `urls` table.
 */
module BaseDao {
  import opened Wrappers
  import opened Models

  /** A value a filter compares a column with. */
  datatype FieldValue = IntValue(i: int) | StrValue(s: string) | BoolValue(b: bool)

  /** One keyword argument: the attribute name and its value (None is Python's None). */
  type Filter = (string, Option<FieldValue>)

  /** The column attributes of the URL model, by their Python names. */
  const Columns: set<string> := {"id", "original_url", "short_url", "is_active", "created_at", "clicks"}

  /** The value of column `field` of `u`, or None when the model has no such column. */
  function Column(u: Url, field: string): (v: Option<FieldValue>)
    ensures v.Some? <==> field in Columns
  {
    if field == "id" then Some(IntValue(u.id))
    else if field == "original_url" then Some(StrValue(u.originalUrl))
    else if field == "short_url" then Some(StrValue(u.shortUrl))
    else if field == "is_active" then Some(BoolValue(u.isActive))
    else if field == "created_at" then Some(IntValue(u.createdAt))
    else if field == "clicks" then Some(IntValue(u.clicks))
    else None
  }

  /** A filter becomes a `WHERE` clause only when its value is not None and it names a column. */
  predicate Applies(f: Filter)
  {
    f.1.Some? && f.0 in Columns
  }

  /** `u` passes every filter that applies. */
  predicate MatchesFilters(u: Url, filters: seq<Filter>)
  {
    forall k :: 0 <= k < |filters| && Applies(filters[k]) ==> Column(u, filters[k].0) == filters[k].1
  }

  /** The rows that pass the filters, in store order. */
  function Where(rows: seq<Url>, filters: seq<Filter>): (r: seq<Url>)
    ensures forall u :: u in r ==> u in rows && MatchesFilters(u, filters)
    ensures forall u :: u in rows && MatchesFilters(u, filters) ==> u in r
    ensures IsSubsequence(r, rows)
  {
    if |rows| == 0 then []
    else
      assert rows == [rows[0]] + rows[1..];
      var rest := Where(rows[1..], filters);
      if MatchesFilters(rows[0], filters) then [rows[0]] + rest else rest
  }

  /** The rows whose column `field` equals `value`: one `WHERE` clause. */
  function Narrow(rows: seq<Url>, field: string, value: FieldValue): (r: seq<Url>)
  {
    if |rows| == 0 then []
    else
      var rest := Narrow(rows[1..], field, value);
      if Column(rows[0], field) == Some(value) then [rows[0]] + rest else rest
  }

  /** The position of the first row an `OFFSET` keeps. */
  function Start(count: nat, offset: Option<nat>): (s: nat)
    ensures s <= count
  {
    if offset.None? then 0
    else if offset.value < count then offset.value
    else count
  }

  /** `OFFSET` then `LIMIT`, each applied only when given. */
  function Paginate<T>(rows: seq<T>, offset: Option<nat>, limit: Option<nat>): (page: seq<T>)
    ensures var s := Start(|rows|, offset);
      && |page| == (if limit.Some? && limit.value < |rows| - s then limit.value else |rows| - s)
      && page == rows[s .. s + |page|]
  {
    var skipped := rows[Start(|rows|, offset)..];
    if limit.Some? && limit.value < |skipped| then skipped[..limit.value] else skipped
  }

  /** `a` is `b` with some elements left out, the rest in the same order. */
  predicate IsSubsequence<T(==)>(a: seq<T>, b: seq<T>)
    decreases |b|
  {
    if |a| == 0 then true
    else if |b| == 0 then false
    else (a[0] == b[0] && IsSubsequence(a[1..], b[1..])) || IsSubsequence(a, b[1..])
  }

  lemma {:induction false} SubsequenceTransitive<T>(a: seq<T>, b: seq<T>, c: seq<T>)
    requires IsSubsequence(a, b) && IsSubsequence(b, c)
    ensures IsSubsequence(a, c)
    decreases |c|
  {
    if |a| > 0 {
      if IsSubsequence(b, c[1..]) {
        SubsequenceTransitive(a, b, c[1..]);
      } else if a[0] == b[0] && IsSubsequence(a[1..], b[1..]) {
        SubsequenceTransitive(a[1..], b[1..], c[1..]);
      } else {
        SubsequenceTransitive(a, b[1..], c[1..]);
      }
    }
  }

  lemma {:induction false} SubsequenceReflexive<T>(a: seq<T>)
    ensures IsSubsequence(a, a)
  {
    if |a| > 0 {
      SubsequenceReflexive(a[1..]);
    }
  }

  lemma {:induction false} PrefixIsSubsequence<T>(a: seq<T>, n: nat)
    requires n <= |a|
    ensures IsSubsequence(a[..n], a)
  {
    if n > 0 {
      assert a[..n][1..] == a[1..][..n - 1];
      PrefixIsSubsequence(a[1..], n - 1);
    }
  }

  lemma {:induction false} SuffixIsSubsequence<T>(a: seq<T>, n: nat)
    requires n <= |a|
    ensures IsSubsequence(a[n..], a)
  {
    if n == 0 {
      SubsequenceReflexive(a);
    } else {
      assert a[n..] == a[1..][n - 1..];
      SuffixIsSubsequence(a[1..], n - 1);
    }
  }

  /** A page is a subsequence of the rows it was cut from. */
  lemma PageIsSubsequence<T>(rows: seq<T>, offset: Option<nat>, limit: Option<nat>)
    ensures IsSubsequence(Paginate(rows, offset, limit), rows)
  {
    var skipped := rows[Start(|rows|, offset)..];
    SuffixIsSubsequence(rows, Start(|rows|, offset));
    if limit.Some? && limit.value < |skipped| {
      PrefixIsSubsequence(skipped, limit.value);
      SubsequenceTransitive(skipped[..limit.value], skipped, rows);
    }
  }

  /** With no filter that applies, every row is kept. */
  lemma {:induction false} WhereKeepsAll(rows: seq<Url>, filters: seq<Filter>)
    requires forall k :: 0 <= k < |filters| ==> !Applies(filters[k])
    ensures Where(rows, filters) == rows
  {
    if |rows| > 0 {
      WhereKeepsAll(rows[1..], filters);
      assert rows == [rows[0]] + rows[1..];
    }
  }

  /** A filter that does not apply (None value or unknown field) changes nothing. */
  lemma {:induction false} IgnoredFilter(rows: seq<Url>, filters: seq<Filter>, f: Filter)
    requires !Applies(f)
    ensures Where(rows, filters + [f]) == Where(rows, filters)
  {
    if |rows| > 0 {
      IgnoredFilter(rows[1..], filters, f);
      assert MatchesFilters(rows[0], filters + [f]) == MatchesFilters(rows[0], filters) by {
        assert forall k :: 0 <= k < |filters| ==> (filters + [f])[k] == filters[k];
      }
    }
  }

  /** A filter that applies narrows the rows the earlier filters left by one more clause. */
  lemma {:induction false} AppliedFilter(rows: seq<Url>, filters: seq<Filter>, f: Filter)
    requires Applies(f)
    ensures Where(rows, filters + [f]) == Narrow(Where(rows, filters), f.0, f.1.value)
  {
    if |rows| > 0 {
      AppliedFilter(rows[1..], filters, f);
      assert MatchesFilters(rows[0], filters + [f])
             == (MatchesFilters(rows[0], filters) && Column(rows[0], f.0) == f.1) by {
        assert forall k :: 0 <= k < |filters| ==> (filters + [f])[k] == filters[k];
        assert (filters + [f])[|filters|] == f;
      }
      var rest := Where(rows[1..], filters);
      if MatchesFilters(rows[0], filters) {
        assert Where(rows, filters) == [rows[0]] + rest;
        assert ([rows[0]] + rest)[1..] == rest;
      }
    }
  }

  /**
   * The listing query: each filter that applies adds one `WHERE` clause to the
   * query, then the offset and the limit are applied when given.
   */
  method FindAll(table: seq<Url>, offset: Option<nat>, limit: Option<nat>, filters: seq<Filter>)
    returns (rows: seq<Url>)
    ensures rows == Paginate(Where(table, filters), offset, limit)
  {
    var query := table;
    WhereKeepsAll(table, []);
    var k := 0;
    while k < |filters|
      invariant 0 <= k <= |filters|
      invariant query == Where(table, filters[..k])
    {
      var (field, value) := filters[k];
      assert filters[..k + 1] == filters[..k] + [filters[k]];
      if value.Some? && field in Columns {
        AppliedFilter(table, filters[..k], filters[k]);
        query := Narrow(query, field, value.value);
      } else {
        IgnoredFilter(table, filters[..k], filters[k]);
      }
      k := k + 1;
    }
    assert filters[..k] == filters;
    rows := Paginate(query, offset, limit);
  }

  /** Every row listed passes every filter that applies. */
  lemma ListedRowsMatch(table: seq<Url>, offset: Option<nat>, limit: Option<nat>, filters: seq<Filter>, u: Url)
    requires u in Paginate(Where(table, filters), offset, limit)
    ensures u in table && MatchesFilters(u, filters)
  {
  }

  /** The listing is always a subsequence of the table. */
  lemma ListingIsSubsequence(table: seq<Url>, offset: Option<nat>, limit: Option<nat>, filters: seq<Filter>)
    ensures IsSubsequence(Paginate(Where(table, filters), offset, limit), table)
  {
    var filtered := Where(table, filters);
    PageIsSubsequence(filtered, offset, limit);
    SubsequenceTransitive(Paginate(filtered, offset, limit), filtered, table);
  }

  /** Without filters, offset or limit, the listing is the whole table. */
  lemma ListingWithoutArguments(table: seq<Url>)
    ensures Paginate(Where(table, []), None, None) == table
  {
    WhereKeepsAll(table, []);
  }
}
