/** `GET /transaction`: one page of the infinite-scroll listing, newest
    first, continuing below the date named by the `cursor` parameter. */
module CursorRoute {
  import opened Optional
  import opened Timestamps
  import opened Ledger
  import opened SearchParams

  /** `LIMIT 500`. */
  const PageLimit := 500

  /** The query the route issues. */
  datatype Query =
    | Newest                          // no `WHERE`: the cursor is absent or empty
    | OlderThanCursor(bound: Timestamp) // `WHERE date < new Date(cursor)`
    | BadCursor                       // the cursor is not a date, so no query can be built

  datatype CursorResponse =
    | CursorPage(transactions: seq<Transaction>, nextCursor: Option<string>)
    | ServerError(error: string)
  {
    /** The HTTP status the route answers with. */
    function Status(): int {
      if CursorPage? then 200 else 500
    }
  }

  /** Which query a `cursor` parameter selects: `if (cursor)` treats null
      and the empty string alike. */
  function QueryFor(cursor: Option<string>): (q: Query)
    ensures (cursor.None? || cursor == Some("")) <==> q.Newest?
    ensures q.OlderThanCursor? ==> ToIso(q.bound) == cursor.value
    ensures q.BadCursor? <==> cursor.Some? && cursor.value != "" && ParseIso(cursor.value).None?
  {
    if cursor.None? || cursor.value == "" then Newest
    else
      match ParseIso(cursor.value)
      case Some(t) =>
        ToIsoOfParseIso(cursor.value);
        OlderThanCursor(t)
      case None => BadCursor
  }

  /** The rows the `WHERE` clause admits. */
  function Candidates(rows: seq<Transaction>, q: Query): (r: seq<Transaction>)
    requires !q.BadCursor?
    ensures multiset(r) <= multiset(rows)
    ensures q.Newest? ==> r == rows
    ensures q.OlderThanCursor? ==> forall x | x in rows :: x in r <==> Rank(x.date) < Rank(q.bound)
  {
    if q.Newest? then rows else OlderThan(rows, q.bound)
  }

  /** `LIMIT n`. */
  function Take(s: seq<Transaction>, n: nat): (r: seq<Transaction>)
    ensures |r| == if |s| <= n then |s| else n
    ensures r == s[..|r|]
  {
    if |s| <= n then s else s[..n]
  }

  /** `ORDER BY date DESC LIMIT 500` over the admitted rows. */
  function SelectPage(rows: seq<Transaction>, q: Query): seq<Transaction>
    requires !q.BadCursor?
  {
    Take(SortNewestFirst(Candidates(rows, q)), PageLimit)
  }

  /** The date of the last row, as ISO text, when the page is full. */
  function NextCursor(page: seq<Transaction>): Option<string> {
    if |page| == PageLimit then Some(ToIso(page[|page| - 1].date)) else None
  }

  /** The page for a query the store answered. */
  function Respond(rows: seq<Transaction>, q: Query): (r: CursorResponse)
    requires !q.BadCursor?
    ensures r.CursorPage?
    ensures |r.transactions| <= PageLimit
    ensures NewestFirst(r.transactions)
    ensures multiset(r.transactions) <= multiset(rows)
    ensures q.OlderThanCursor? ==> forall x | x in r.transactions :: Rank(x.date) < Rank(q.bound)
    ensures r.nextCursor.None? <==> |r.transactions| < PageLimit
    ensures r.nextCursor.Some? ==> r.nextCursor.value == ToIso(r.transactions[|r.transactions| - 1].date)
  {
    var page := SelectPage(rows, q);
    PageWithinCandidates(rows, q);
    var next := NextCursor(page);
    assert next.None? <==> |page| < PageLimit;
    CursorPage(page, next)
  }

  lemma PageWithinCandidates(rows: seq<Transaction>, q: Query)
    requires !q.BadCursor?
    ensures |SelectPage(rows, q)| <= PageLimit
    ensures NewestFirst(SelectPage(rows, q))
    ensures multiset(SelectPage(rows, q)) <= multiset(rows)
    ensures q.OlderThanCursor? ==> forall x | x in SelectPage(rows, q) :: Rank(x.date) < Rank(q.bound)
  {
    PageIsPrefix(rows, q);
    if q.OlderThanCursor? {
      PageBelowCursor(rows, q);
    }
  }

  lemma PageIsPrefix(rows: seq<Transaction>, q: Query)
    requires !q.BadCursor?
    ensures multiset(SelectPage(rows, q)) <= multiset(Candidates(rows, q))
  {
    var sorted := SortNewestFirst(Candidates(rows, q));
    var page := SelectPage(rows, q);
    assert sorted == page + sorted[|page|..];
  }

  lemma PageBelowCursor(rows: seq<Transaction>, q: Query)
    requires q.OlderThanCursor?
    requires multiset(SelectPage(rows, q)) <= multiset(Candidates(rows, q))
    ensures forall x | x in SelectPage(rows, q) :: Rank(x.date) < Rank(q.bound)
  {
    var page := SelectPage(rows, q);
    forall x | x in page
      ensures Rank(x.date) < Rank(q.bound)
    {
      assert x in multiset(page);
      assert x in Candidates(rows, q);
    }
  }

  /** The route handler. Both the store failing and a cursor that is not a
      date end in the `catch` branch: status 500 and no rows. */
  function HandleGet(params: Params, store: Store): (r: CursorResponse)
    ensures store.Failing? ==> r == ServerError("Internal Server Error")
    ensures QueryFor(Get(params, "cursor")).BadCursor? ==> r.ServerError?
    ensures r.ServerError? ==> r.Status() == 500 && r.error == "Internal Server Error"
    ensures store.Reachable? && !QueryFor(Get(params, "cursor")).BadCursor? ==>
              r == Respond(store.rows, QueryFor(Get(params, "cursor")))
  {
    match store
    case Failing => ServerError("Internal Server Error")
    case Reachable(rows) =>
      var q := QueryFor(Get(params, "cursor"));
      if q.BadCursor? then ServerError("Internal Server Error") else Respond(rows, q)
  }

  /** The page is the top of the admitted rows: an admitted row left out of
      the page is no newer than the page's last row, and a short page holds
      every admitted row. */
  lemma PageIsTop(rows: seq<Transaction>, q: Query)
    requires !q.BadCursor?
    ensures var page := SelectPage(rows, q);
      && (|page| < PageLimit ==> multiset(page) == multiset(Candidates(rows, q)))
      && forall x | x in Candidates(rows, q) && x !in page ::
           |page| == PageLimit && Rank(x.date) <= Rank(page[|page| - 1].date)
  {
    var sorted := SortNewestFirst(Candidates(rows, q));
    var page := SelectPage(rows, q);
    forall x | x in Candidates(rows, q) && x !in page
      ensures |page| == PageLimit && Rank(x.date) <= Rank(page[|page| - 1].date)
    {
      assert x in multiset(sorted);
      var i :| 0 <= i < |sorted| && sorted[i] == x;
      assert i >= |page|;
      assert sorted[PageLimit - 1] == page[PageLimit - 1];
    }
  }

  /** An empty `cursor` behaves exactly as a missing one: the newest rows. */
  lemma EmptyCursorIsNoCursor(params: Params, store: Store)
    requires Get(params, "cursor") == Some("")
    ensures HandleGet(params, store) == HandleGet([], store)
    ensures store.Reachable? ==>
      HandleGet(params, store).transactions == Take(SortNewestFirst(store.rows), PageLimit)
  {
  }

  /** Following `nextCursor` gives a page strictly older than the page it
      came from, so consecutive pages share no row. */
  lemma FollowingPageIsOlder(params: Params, rows: seq<Transaction>)
    requires HandleGet(params, Reachable(rows)).CursorPage?
    requires HandleGet(params, Reachable(rows)).nextCursor.Some?
    ensures var first := HandleGet(params, Reachable(rows));
      var second := HandleGet([("cursor", first.nextCursor.value)], Reachable(rows));
      && second.CursorPage?
      && (forall x, y | x in first.transactions && y in second.transactions :: Rank(y.date) < Rank(x.date))
      && (forall x | x in first.transactions :: x !in second.transactions)
  {
    var first := HandleGet(params, Reachable(rows));
    var page := first.transactions;
    var last := page[|page| - 1];
    assert first.nextCursor.value == ToIso(last.date);
    CursorSelectsOlder(rows, last.date);
    LastIsOldest(page);
  }

  lemma LastIsOldest(page: seq<Transaction>)
    requires NewestFirst(page) && page != []
    ensures forall x | x in page :: Rank(page[|page| - 1].date) <= Rank(x.date)
  {
    forall x | x in page
      ensures Rank(page[|page| - 1].date) <= Rank(x.date)
    {
      var i :| 0 <= i < |page| && page[i] == x;
    }
  }

  /** The cursor text of a timestamp selects exactly the rows older than it. */
  lemma CursorSelectsOlder(rows: seq<Transaction>, bound: Timestamp)
    ensures var r := HandleGet([("cursor", ToIso(bound))], Reachable(rows));
      && r.CursorPage?
      && forall y | y in r.transactions :: Rank(y.date) < Rank(bound)
  {
    var text := ToIso(bound);
    ParseIsoOfToIso(bound);
    GetOfSingle("cursor", text);
    assert QueryFor(Some(text)) == OlderThanCursor(bound);
  }

  /** No row of a newest-first sequence is older than its last row. */
  lemma NothingOlderThanLast(page: seq<Transaction>)
    requires NewestFirst(page) && page != []
    ensures OlderThan(page, page[|page| - 1].date) == []
  {
    var last := page[|page| - 1];
    forall i | 0 <= i < |page|
      ensures Rank(page[i].date) >= Rank(last.date)
    {
      if i < |page| - 1 {
        assert Rank(page[i].date) >= Rank(page[|page| - 1].date);
      }
    }
    OlderThanNone(page, last.date);
  }

  /** Below the last row of the newest `PageLimit` rows of `s` lie at most
      the rows of `s` beyond that page. */
  lemma OlderThanFullPage(s: seq<Transaction>)
    requires |s| >= PageLimit
    ensures |OlderThan(s, SortNewestFirst(s)[PageLimit - 1].date)| <= |s| - PageLimit
  {
    var sorted := SortNewestFirst(s);
    var bound := sorted[PageLimit - 1].date;
    var page := sorted[..PageLimit];
    var rest := sorted[PageLimit..];
    assert sorted == page + rest;
    assert NewestFirst(page);
    assert page[PageLimit - 1] == sorted[PageLimit - 1];
    NothingOlderThanLast(page);
    OlderThanAppend(page, rest, bound);
    assert |OlderThan(sorted, bound)| <= |rest|;
    CountOlderAfterSort(s, bound);
  }

  /** After a full page, the rows left to read shrink by at least a page. */
  lemma NextQueryShrinks(rows: seq<Transaction>, q: Query)
    requires !q.BadCursor?
    requires |SelectPage(rows, q)| == PageLimit
    ensures var page := SelectPage(rows, q);
      |Candidates(rows, OlderThanCursor(page[PageLimit - 1].date))| <= |Candidates(rows, q)| - PageLimit
  {
    var cands := Candidates(rows, q);
    var sorted := SortNewestFirst(cands);
    var page := SelectPage(rows, q);
    assert page[PageLimit - 1] == sorted[PageLimit - 1];
    var bound := page[PageLimit - 1].date;
    if q.OlderThanCursor? {
      assert page[PageLimit - 1] in multiset(sorted);
      assert Rank(bound) < Rank(q.bound);
      OlderThanTwice(rows, q.bound, bound);
    }
    assert OlderThan(rows, bound) == OlderThan(cands, bound);
    OlderThanFullPage(cands);
  }
}
