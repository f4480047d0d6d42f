/** The infinite-scroll client driven against the cursor route until the
    route reports no further cursor: what the accumulated list holds. */
module CursorSweep {
  import opened Optional
  import opened Timestamps
  import opened Ledger
  import opened SearchParams
  import opened CursorRoute
  import opened InfiniteScroll

  /** The query the state's next request makes the route run. */
  function NextQuery(s: ScrollState): Query {
    QueryFor(Get(RequestParams(s), "cursor"))
  }

  /** Some row of `acc` carries the date `d`. */
  predicate DateSeen(acc: seq<Transaction>, d: Timestamp) {
    exists y | y in acc :: y.date == d
  }

  /** What holds between two requests of a sweep over a fixed table: the
      list so far is newest first and drawn from the table; while more may
      come, the next query continues strictly below every row shown, and
      every row at or above its bound has its date shown; once done, every
      row of the table has its date shown. */
  predicate SweepInvariant(rows: seq<Transaction>, s: ScrollState) {
    && !s.isLoading
    && NewestFirst(s.transactions)
    && multiset(s.transactions) <= multiset(rows)
    && (s.hasMore ==>
          match NextQuery(s)
          case BadCursor => false
          case Newest => s.transactions == []
          case OlderThanCursor(b) =>
            && (forall x | x in s.transactions :: Rank(x.date) >= Rank(b))
            && (forall x | x in rows && Rank(x.date) >= Rank(b) :: DateSeen(s.transactions, x.date)))
    && (!s.hasMore ==> forall x | x in rows :: DateSeen(s.transactions, x.date))
  }

  /** Rows the sweep may still read, plus one while it is not done. */
  function Remaining(rows: seq<Transaction>, s: ScrollState): nat
    requires SweepInvariant(rows, s)
  {
    if !s.hasMore then 0 else |Candidates(rows, NextQuery(s))| + 1
  }

  /** One request against the table and its handling. */
  function Step(rows: seq<Transaction>, s: ScrollState): ScrollState {
    Fetch(s, OutcomeOf(HandleGet(RequestParams(s), Reachable(rows))))
  }

  /** Appending an older newest-first page to a newest-first list drawn from
      the table keeps it newest first and drawn from the table. */
  lemma AppendOlderPage(rows: seq<Transaction>, acc: seq<Transaction>, page: seq<Transaction>)
    requires NewestFirst(acc) && NewestFirst(page)
    requires multiset(acc) <= multiset(rows) && multiset(page) <= multiset(rows)
    requires forall x, y | x in acc && y in page :: Rank(y.date) < Rank(x.date)
    ensures NewestFirst(acc + page)
    ensures multiset(acc + page) <= multiset(rows)
  {
    var all := acc + page;
    forall i, j | 0 <= i < j < |all|
      ensures Rank(all[i].date) >= Rank(all[j].date)
    {
      if j >= |acc| && i < |acc| {
        assert all[i] in acc && all[j] in page;
      }
    }
    forall x
      ensures multiset(all)[x] <= multiset(rows)[x]
    {
      if x in acc {
        assert x !in page;
        assert multiset(page)[x] == 0;
      } else {
        assert multiset(acc)[x] == 0;
      }
    }
  }

  /** The page a step reads, and what the route answers with it. */
  lemma StepReads(rows: seq<Transaction>, s: ScrollState)
    requires SweepInvariant(rows, s) && s.hasMore
    ensures !NextQuery(s).BadCursor?
    ensures var page := SelectPage(rows, NextQuery(s));
      Step(rows, s) == s.(transactions := s.transactions + page, cursor := NextCursor(page),
                          hasMore := Present(NextCursor(page)), isLoading := false)
  {
  }

  /** The bound a full page hands to the next request is its last row's date. */
  lemma FullPageBound(rows: seq<Transaction>, s: ScrollState)
    requires SweepInvariant(rows, s) && s.hasMore
    requires |SelectPage(rows, NextQuery(s))| == PageLimit
    ensures var page := SelectPage(rows, NextQuery(s));
      && Step(rows, s).hasMore
      && NextQuery(Step(rows, s)) == OlderThanCursor(page[PageLimit - 1].date)
  {
    StepReads(rows, s);
    var page := SelectPage(rows, NextQuery(s));
    var last := page[PageLimit - 1].date;
    var s' := Step(rows, s);
    assert s'.cursor == Some(ToIso(last));
    assert Present(s'.cursor);
    ParseIsoOfToIso(last);
    assert Get(RequestParams(s'), "cursor") == Some(ToIso(last));
  }

  /** Rows of the table not yet shown, at or above the new bound, are
      admitted by the current query. */
  lemma UnseenRowsAreCandidates(rows: seq<Transaction>, s: ScrollState, x: Transaction)
    requires SweepInvariant(rows, s) && s.hasMore
    requires x in rows && !DateSeen(s.transactions, x.date)
    ensures x in Candidates(rows, NextQuery(s))
  {
  }

  /** The step appends a page older than everything already shown. */
  lemma StepKeepsOrder(rows: seq<Transaction>, s: ScrollState)
    requires SweepInvariant(rows, s) && s.hasMore
    ensures NewestFirst(Step(rows, s).transactions)
    ensures multiset(Step(rows, s).transactions) <= multiset(rows)
  {
    StepReads(rows, s);
    var q := NextQuery(s);
    var page := SelectPage(rows, q);
    var acc := s.transactions;
    PageWithinCandidates(rows, q);
    assert forall x, y | x in acc && y in page :: Rank(y.date) < Rank(x.date) by {
      if q.OlderThanCursor? {
        forall x, y | x in acc && y in page
          ensures Rank(y.date) < Rank(x.date)
        {
        }
      }
    }
    AppendOlderPage(rows, acc, page);
  }

  /** Every row of a non-empty newest-first list is at or above its last. */
  lemma AtOrAboveLast(t: seq<Transaction>)
    requires NewestFirst(t) && t != []
    ensures forall x | x in t :: Rank(x.date) >= Rank(t[|t| - 1].date)
  {
    forall x | x in t
      ensures Rank(x.date) >= Rank(t[|t| - 1].date)
    {
      var i :| 0 <= i < |t| && t[i] == x;
    }
  }

  /** Rows whose date is not yet shown were admitted; those left out of the
      page are no newer than its last row; so after the page, every row at
      or above that last row has its date shown. */
  lemma CoveredDownToLast(rows: seq<Transaction>, acc: seq<Transaction>, cands: seq<Transaction>,
                          page: seq<Transaction>, last: Transaction)
    requires forall x | x in rows && !DateSeen(acc, x.date) :: x in cands
    requires forall x | x in cands && x !in page :: Rank(x.date) <= Rank(last.date)
    requires last in page
    ensures forall x | x in rows && Rank(x.date) >= Rank(last.date) :: DateSeen(acc + page, x.date)
  {
    forall x | x in rows && Rank(x.date) >= Rank(last.date)
      ensures DateSeen(acc + page, x.date)
    {
      if DateSeen(acc, x.date) {
        var y :| y in acc && y.date == x.date;
        assert y in acc + page;
      } else if x in page {
        assert x in acc + page;
      } else {
        RankOrder(x.date, last.date);
        assert last in acc + page;
      }
    }
  }

  /** After a full page the next query's bound is the page's last date: the
      list shown stays at or above it, every row at or above it has its date
      shown, and fewer rows remain. */
  lemma StepAfterFullPage(rows: seq<Transaction>, s: ScrollState)
    requires SweepInvariant(rows, s) && s.hasMore
    requires |SelectPage(rows, NextQuery(s))| == PageLimit
    ensures Step(rows, s).hasMore
    ensures NextQuery(Step(rows, s)).OlderThanCursor?
    ensures var b := NextQuery(Step(rows, s)).bound;
      && (forall x | x in Step(rows, s).transactions :: Rank(x.date) >= Rank(b))
      && (forall x | x in rows && Rank(x.date) >= Rank(b) :: DateSeen(Step(rows, s).transactions, x.date))
    ensures |Candidates(rows, NextQuery(Step(rows, s)))| < |Candidates(rows, NextQuery(s))|
  {
    StepReads(rows, s);
    FullPageBound(rows, s);
    var q := NextQuery(s);
    var page := SelectPage(rows, q);
    var s' := Step(rows, s);
    var last := page[PageLimit - 1];
    NextQueryShrinks(rows, q);
    StepKeepsOrder(rows, s);
    assert s'.transactions[|s'.transactions| - 1] == last;
    AtOrAboveLast(s'.transactions);
    PageIsTop(rows, q);
    forall x | x in rows && !DateSeen(s.transactions, x.date)
      ensures x in Candidates(rows, q)
    {
      UnseenRowsAreCandidates(rows, s, x);
    }
    CoveredDownToLast(rows, s.transactions, Candidates(rows, q), page, last);
  }

  /** After a short page the sweep is done and every row's date is shown. */
  lemma StepAfterShortPage(rows: seq<Transaction>, s: ScrollState)
    requires SweepInvariant(rows, s) && s.hasMore
    requires |SelectPage(rows, NextQuery(s))| < PageLimit
    ensures !Step(rows, s).hasMore
    ensures forall x | x in rows :: DateSeen(Step(rows, s).transactions, x.date)
  {
    StepReads(rows, s);
    var q := NextQuery(s);
    var page := SelectPage(rows, q);
    var s' := Step(rows, s);
    var acc := s.transactions;
    PageIsTop(rows, q);
    forall x | x in rows
      ensures DateSeen(s'.transactions, x.date)
    {
      if !DateSeen(acc, x.date) {
        UnseenRowsAreCandidates(rows, s, x);
        assert x in multiset(Candidates(rows, q));
        assert x in multiset(page);
        assert x in s'.transactions;
      } else {
        var y :| y in acc && y.date == x.date;
        assert y in s'.transactions;
      }
    }
  }

  lemma StepKeepsInvariant(rows: seq<Transaction>, s: ScrollState)
    requires SweepInvariant(rows, s) && s.hasMore
    ensures SweepInvariant(rows, Step(rows, s))
    ensures Remaining(rows, Step(rows, s)) < Remaining(rows, s)
  {
    StepReads(rows, s);
    StepKeepsOrder(rows, s);
    if |SelectPage(rows, NextQuery(s))| == PageLimit {
      StepAfterFullPage(rows, s);
    } else {
      PageWithinCandidates(rows, NextQuery(s));
      StepAfterShortPage(rows, s);
    }
  }

  /** Requests repeated until the route reports no further cursor. */
  function SweepFrom(rows: seq<Transaction>, s: ScrollState): (r: ScrollState)
    requires SweepInvariant(rows, s)
    ensures SweepInvariant(rows, r)
    ensures !r.hasMore
    ensures s.transactions <= r.transactions
    decreases Remaining(rows, s)
  {
    if !s.hasMore then s
    else
      StepKeepsInvariant(rows, s);
      SweepFrom(rows, Step(rows, s))
  }

  /** The list the infinite scroll ends with when the reader scrolls to the
      end of a table that does not change meanwhile. */
  function Sweep(rows: seq<Transaction>): (r: seq<Transaction>)
    ensures NewestFirst(r)
    ensures multiset(r) <= multiset(rows)
    ensures forall x | x in rows :: DateSeen(r, x.date)
  {
    assert NextQuery(Initial) == Newest;
    SweepFrom(rows, Initial).transactions
  }

  /** No row is delivered twice: with the table's unique ids, the
      accumulated list has unique ids across all page boundaries. */
  lemma SweepHasNoDuplicates(rows: seq<Transaction>)
    requires UniqueIds(rows)
    ensures UniqueIds(Sweep(rows))
  {
    UniqueIdsOfSubMultiset(Sweep(rows), rows);
  }

  /** Coverage up to the timestamp tie caveat: when no two rows share a
      date, every row of the table is delivered. */
  lemma SweepCoversDistinctDates(rows: seq<Transaction>)
    requires forall i, j | 0 <= i < j < |rows| :: rows[i].date != rows[j].date
    ensures forall x | x in rows :: x in Sweep(rows)
  {
    var r := Sweep(rows);
    forall x | x in rows
      ensures x in r
    {
      var y :| y in r && y.date == x.date;
      assert y in multiset(rows);
      var i :| 0 <= i < |rows| && rows[i] == x;
      var j :| 0 <= j < |rows| && rows[j] == y;
    }
  }

  /** The timestamp tie caveat: the cursor is a strict "older than" bound,
      so when more than a page of rows share one timestamp, the rows of
      that timestamp beyond the first page are never delivered. */
  lemma TiedRowsBeyondAPageAreLost(rows: seq<Transaction>, d: Timestamp)
    requires |rows| > PageLimit
    requires forall x | x in rows :: x.date == d
    ensures |Sweep(rows)| == PageLimit
    ensures |Sweep(rows)| < |rows|
  {
    TiedFirstStep(rows, d);
    NothingBelowTies(rows, d);
    var s1 := Step(rows, Initial);
    StepReads(rows, s1);
    var s2 := Step(rows, s1);
    StepKeepsInvariant(rows, s1);
    assert s2.transactions == s1.transactions && !s2.hasMore;
    assert SweepFrom(rows, s1) == s2;
    assert NextQuery(Initial) == Newest;
    assert SweepFrom(rows, Initial) == SweepFrom(rows, s1);
  }

  /** With every row at one timestamp, the first request fills a page and
      hands on that timestamp as the bound. */
  lemma TiedFirstStep(rows: seq<Transaction>, d: Timestamp)
    requires |rows| > PageLimit
    requires forall x | x in rows :: x.date == d
    ensures SweepInvariant(rows, Step(rows, Initial))
    ensures Step(rows, Initial).hasMore
    ensures |Step(rows, Initial).transactions| == PageLimit
    ensures NextQuery(Step(rows, Initial)) == OlderThanCursor(d)
  {
    assert NextQuery(Initial) == Newest;
    var page := SelectPage(rows, Newest);
    assert |page| == PageLimit;
    StepReads(rows, Initial);
    FullPageBound(rows, Initial);
    StepKeepsInvariant(rows, Initial);
    PageWithinCandidates(rows, Newest);
    assert page[PageLimit - 1] in multiset(rows);
  }

  /** No row is strictly older than a timestamp every row carries. */
  lemma NothingBelowTies(rows: seq<Transaction>, d: Timestamp)
    requires forall x | x in rows :: x.date == d
    ensures Candidates(rows, OlderThanCursor(d)) == []
  {
    forall i | 0 <= i < |rows|
      ensures Rank(rows[i].date) >= Rank(d)
    {
      assert rows[i] in rows;
    }
    OlderThanNone(rows, d);
  }
}
