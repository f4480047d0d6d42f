/** The page-numbered transaction list: the query it sends for a page and
    a date range, the reset when the range changes, the inclusive date
    filter it applies to what comes back, and its Previous and Next
    buttons. */
module PagedList {
  import opened Optional
  import opened Digits
  import opened JsNumbers
  import opened Timestamps
  import opened Ledger
  import opened SearchParams
  import opened DateRangePicker
  import opened TransactionTable

  /** `dateRange?.from`. */
  function FromOf(range: Option<DateRange>): Option<Timestamp> {
    if range.Some? then range.value.from else None
  }

  /** `dateRange?.to`. */
  function ToOf(range: Option<DateRange>): Option<Timestamp> {
    if range.Some? then range.value.to else None
  }

  /** `new URLSearchParams({ page })`, then `from` and `to` appended when set. */
  function PageQuery(page: int, range: Option<DateRange>): (p: Params)
    ensures Get(p, "page") == Some(ShowInt(page))
    ensures Get(p, "from") == if FromOf(range).Some? then Some(ToIso(FromOf(range).value)) else None
    ensures Get(p, "to") == if ToOf(range).Some? then Some(ToIso(ToOf(range).value)) else None
    ensures forall name | name != "page" && name != "from" && name != "to" :: Get(p, name).None?
  {
    var p0: Params := [("page", ShowInt(page))];
    var p1 := if FromOf(range).Some? then Append(p0, "from", ToIso(FromOf(range).value)) else p0;
    if ToOf(range).Some? then Append(p1, "to", ToIso(ToOf(range).value)) else p1
  }

  /** The sent text is lossless: `parseInt` of the page text gives the page,
      and the ISO parser gives back each bound that is sent. */
  lemma PageQueryReadsBack(page: int, range: Option<DateRange>)
    ensures ParseInt(Get(PageQuery(page, range), "page").value) == Some(page)
    ensures Has(PageQuery(page, range), "from") <==> FromOf(range).Some?
    ensures Has(PageQuery(page, range), "to") <==> ToOf(range).Some?
    ensures FromOf(range).Some? ==> ParseIso(Get(PageQuery(page, range), "from").value) == FromOf(range)
    ensures ToOf(range).Some? ==> ParseIso(Get(PageQuery(page, range), "to").value) == ToOf(range)
  {
    ParseIntOfShowInt(page);
    if FromOf(range).Some? {
      ParseIsoOfToIso(FromOf(range).value);
    }
    if ToOf(range).Some? {
      ParseIsoOfToIso(ToOf(range).value);
    }
  }

  datatype ListState = ListState(
    transactions: seq<Transaction>,
    hasMore: bool,
    isLoading: bool,
    range: Option<DateRange>,
    page: int,
    totalPages: int)

  /** The first render: no rows, page 1, today's range. */
  function InitialList(today: DateRange): (s: ListState)
    ensures s.transactions == [] && s.page == 1 && s.range == Some(today)
    ensures s.hasMore && !s.isLoading
  {
    ListState([], true, false, Some(today), 1, 0)
  }

  /** A new range from the picker: the range is replaced, the list emptied
      and the page reset to 1; nothing else changes. */
  function ChangeRange(s: ListState, range: Option<DateRange>): (r: ListState)
    ensures r.range == range && r.page == 1 && r.transactions == []
    ensures r.hasMore == s.hasMore && r.isLoading == s.isLoading && r.totalPages == s.totalPages
  {
    s.(range := range, page := 1, transactions := [])
  }

  /** The filter's test with both bounds set: from <= date <= to. */
  predicate WithinRange(t: Transaction, from: Timestamp, to: Timestamp) {
    Rank(from) <= Rank(t.date) <= Rank(to)
  }

  /** Whether the filter keeps a row: always when a bound is missing. */
  predicate Keeps(range: Option<DateRange>, t: Transaction) {
    FromOf(range).None? || ToOf(range).None? || WithinRange(t, FromOf(range).value, ToOf(range).value)
  }

  /** `a` is `b` with some rows left out, order kept. */
  predicate IsSubsequence(a: seq<Transaction>, b: seq<Transaction>) {
    if a == [] then true
    else if b == [] then false
    else if a[0] == b[0] then IsSubsequence(a[1..], b[1..])
    else IsSubsequence(a, b[1..])
  }

  /** The client-side date filter: the identity when a bound is missing,
      otherwise exactly the rows with from <= date <= to, in their order. */
  function Filter(rows: seq<Transaction>, range: Option<DateRange>): (r: seq<Transaction>)
    ensures IsSubsequence(r, rows)
    ensures forall x :: multiset(r)[x] == if Keeps(range, x) then multiset(rows)[x] else 0
    ensures forall x | x in r :: Keeps(range, x)
  {
    if rows == [] then []
    else
      assert rows == [rows[0]] + rows[1..];
      var rest := Filter(rows[1..], range);
      if Keeps(range, rows[0]) then [rows[0]] + rest
      else
        assert rest != [] ==> rest[0] in rest && rest[0] != rows[0];
        rest
  }

  /** Without both bounds nothing is filtered out. */
  lemma FilterWithoutBoundIsIdentity(rows: seq<Transaction>, range: Option<DateRange>)
    requires FromOf(range).None? || ToOf(range).None?
    ensures Filter(rows, range) == rows
  {
    if rows != [] {
      FilterWithoutBoundIsIdentity(rows[1..], range);
    }
  }

  /** Both ends are inclusive: rows dated exactly at a bound are kept. */
  lemma FilterKeepsBoundaryRows(rows: seq<Transaction>, t: Transaction, range: DateRange)
    requires range.from.Some? && range.to.Some?
    requires Rank(range.from.value) <= Rank(range.to.value)
    requires t in rows
    requires t.date == range.from.value || t.date == range.to.value
    ensures t in Filter(rows, Some(range))
  {
    assert t in multiset(rows);
    assert t in multiset(Filter(rows, Some(range)));
  }

  /** Previous: `Math.max(1, p - 1)`, disabled on page 1 or while loading. */
  function Previous(s: ListState): (r: ListState)
    ensures r.page >= 1
    ensures r.page == if s.page > 1 then s.page - 1 else 1
    ensures r.transactions == s.transactions && r.range == s.range
    ensures r.hasMore == s.hasMore && r.isLoading == s.isLoading && r.totalPages == s.totalPages
  {
    s.(page := PreviousPage(s.page))
  }

  predicate PreviousDisabled(s: ListState) {
    s.page == 1 || s.isLoading
  }

  /** Next: `p + 1`, disabled when there is no next page or while loading. */
  function Next(s: ListState): (r: ListState)
    ensures r.page == s.page + 1
    ensures r.transactions == s.transactions && r.range == s.range
    ensures r.hasMore == s.hasMore && r.isLoading == s.isLoading && r.totalPages == s.totalPages
  {
    s.(page := s.page + 1)
  }

  predicate NextDisabled(s: ListState) {
    !s.hasMore || s.isLoading
  }

  /** Page numbers stay positive under any enabled button presses. */
  lemma ButtonsKeepPagePositive(s: ListState)
    requires s.page >= 1
    ensures Previous(s).page >= 1
    ensures !NextDisabled(s) ==> Next(s).page == s.page + 1 >= 2
    ensures !PreviousDisabled(s) ==> Previous(s).page == s.page - 1
  {
  }
}
