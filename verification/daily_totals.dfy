/** The daily-totals route: for a requested month and year, each calendar
    day's sum of amounts and number of transactions, keyed by the day's
    `YYYY-MM-DD` text. */
module DailyTotals {
  import opened Optional
  import opened Timestamps
  import opened Ledger
  import opened SearchParams
  import opened JsNumbers
  import opened Digits

  /** One day's figures, as the response reports them. */
  datatype Tally = Tally(totalAmount: int, transactionCount: nat)

  /** One row of the grouped query: a day and its figures. */
  datatype DayTotal = DayTotal(day: CalendarDay, tally: Tally)

  datatype TotalsResponse =
    | Totals(dailyTotals: map<string, Tally>)
    | Failure(status: int, error: string)

  const NoTally := Tally(0, 0)

  /** The figures after one more transaction of `cents`. */
  function Bump(t: Tally, cents: int): (r: Tally)
    ensures r.transactionCount == t.transactionCount + 1
    ensures r.totalAmount - t.totalAmount == cents
  {
    Tally(t.totalAmount + cents, t.transactionCount + 1)
  }

  function Plus(a: Tally, b: Tally): Tally {
    Tally(a.totalAmount + b.totalAmount, a.transactionCount + b.transactionCount)
  }

  /** `EXTRACT(MONTH FROM date) = month AND EXTRACT(YEAR FROM date) = year`. */
  predicate InMonth(t: Transaction, month: int, year: int) {
    t.date.month == month && t.date.year == year
  }

  /** The rows the `WHERE` clause admits, with their multiplicities. */
  function MonthRows(rows: seq<Transaction>, month: int, year: int): (r: seq<Transaction>)
    ensures forall x :: multiset(r)[x] == if InMonth(x, month, year) then multiset(rows)[x] else 0
  {
    if rows == [] then []
    else
      var init := rows[..|rows| - 1];
      var last := rows[|rows| - 1];
      assert rows == init + [last];
      var r := MonthRows(init, month, year);
      if InMonth(last, month, year) then r + [last] else r
  }

  /** Reference definition: the figures of the rows of `s` dated on day `d`. */
  function TallyOn(s: seq<Transaction>, d: CalendarDay): Tally {
    if s == [] then NoTally
    else
      var p := TallyOn(s[..|s| - 1], d);
      if DayOf(s[|s| - 1].date) == d then Bump(p, s[|s| - 1].amountCents) else p
  }

  /** The sum of the amounts of `s`. */
  function SumCents(s: seq<Transaction>): int {
    if s == [] then 0 else SumCents(s[..|s| - 1]) + s[|s| - 1].amountCents
  }

  /** `ORDER BY day ASC` over groups of distinct days. */
  predicate Ascending(groups: seq<DayTotal>) {
    forall i, j | 0 <= i < j < |groups| :: DayNumber(groups[i].day) < DayNumber(groups[j].day)
  }

  /** The figures of the group for day `d`, or none. */
  function Lookup(groups: seq<DayTotal>, d: CalendarDay): Tally {
    if groups == [] then NoTally
    else if groups[0].day == d then groups[0].tally
    else Lookup(groups[1..], d)
  }

  lemma {:induction false} LookupAbsent(groups: seq<DayTotal>, d: CalendarDay)
    requires forall g | g in groups :: g.day != d
    ensures Lookup(groups, d) == NoTally
  {
    if groups != [] {
      LookupAbsent(groups[1..], d);
    }
  }

  /** The sum over all groups' figures. */
  function SumGroups(groups: seq<DayTotal>): Tally {
    if groups == [] then NoTally else Plus(groups[0].tally, SumGroups(groups[1..]))
  }

  /** Every group counts at least one transaction. */
  predicate NonEmptyGroups(groups: seq<DayTotal>) {
    forall g | g in groups :: g.tally.transactionCount >= 1
  }

  /** `GROUP BY DATE(date)`, one row at a time: the row joins its day's
      group, or opens a new group in day order. */
  function AddToGroups(groups: seq<DayTotal>, t: Transaction): (r: seq<DayTotal>)
    requires Ascending(groups)
    ensures Ascending(r)
    ensures r != [] && (r[0].day == DayOf(t.date) || (groups != [] && r[0].day == groups[0].day))
  {
    var d := DayOf(t.date);
    if groups == [] then
      [DayTotal(d, Bump(NoTally, t.amountCents))]
    else if groups[0].day == d then
      [DayTotal(d, Bump(groups[0].tally, t.amountCents))] + groups[1..]
    else if DayNumber(d) < DayNumber(groups[0].day) then
      [DayTotal(d, Bump(NoTally, t.amountCents))] + groups
    else
      DayNumberOrder(d, groups[0].day);
      var rest := AddToGroups(groups[1..], t);
      assert forall i | 0 <= i < |rest| :: DayNumber(groups[0].day) < DayNumber(rest[i].day) by {
        forall i | 0 <= i < |rest|
          ensures DayNumber(groups[0].day) < DayNumber(rest[i].day)
        {
          assert DayNumber(groups[0].day) < DayNumber(rest[0].day);
        }
      }
      [groups[0]] + rest
  }

  /** Days before the first group of an ascending list have no group. */
  lemma BeforeFirstGroup(groups: seq<DayTotal>, d: CalendarDay)
    requires Ascending(groups) && groups != []
    requires DayNumber(d) < DayNumber(groups[0].day)
    ensures Lookup(groups, d) == NoTally
  {
    forall i | 0 <= i < |groups|
      ensures groups[i].day != d
    {
      assert DayNumber(groups[0].day) <= DayNumber(groups[i].day);
    }
    LookupAbsent(groups, d);
  }

  /** Adding a row adds it to its own day's figures and to no other day's. */
  lemma {:induction false} AddToGroupsLookup(groups: seq<DayTotal>, t: Transaction, e: CalendarDay)
    requires Ascending(groups)
    ensures Lookup(AddToGroups(groups, t), e)
         == if e == DayOf(t.date) then Bump(Lookup(groups, e), t.amountCents) else Lookup(groups, e)
  {
    var d := DayOf(t.date);
    if groups == [] {
    } else if groups[0].day == d {
    } else if DayNumber(d) < DayNumber(groups[0].day) {
      if e == d {
        BeforeFirstGroup(groups, d);
      }
    } else {
      AddToGroupsLookup(groups[1..], t, e);
    }
  }

  /** Adding a row keeps every group non-empty. */
  lemma {:induction false} AddToGroupsNonEmpty(groups: seq<DayTotal>, t: Transaction)
    requires Ascending(groups) && NonEmptyGroups(groups)
    ensures NonEmptyGroups(AddToGroups(groups, t))
  {
    var d := DayOf(t.date);
    if groups != [] && groups[0].day != d && DayNumber(d) >= DayNumber(groups[0].day) {
      AddToGroupsNonEmpty(groups[1..], t);
    }
  }

  /** Adding a row adds it once to the grand total. */
  lemma {:induction false} AddToGroupsSum(groups: seq<DayTotal>, t: Transaction)
    requires Ascending(groups)
    ensures SumGroups(AddToGroups(groups, t)) == Bump(SumGroups(groups), t.amountCents)
  {
    var d := DayOf(t.date);
    var r := AddToGroups(groups, t);
    if groups == [] {
    } else if groups[0].day == d {
      assert r[1..] == groups[1..];
    } else if DayNumber(d) < DayNumber(groups[0].day) {
      assert r[1..] == groups;
    } else {
      AddToGroupsSum(groups[1..], t);
      assert r[1..] == AddToGroups(groups[1..], t);
    }
  }

  /** The grouped query over `s`: ascending days, one group per day that
      has rows, carrying exactly that day's figures. */
  function GroupByDay(s: seq<Transaction>): (r: seq<DayTotal>)
    ensures Ascending(r)
    ensures NonEmptyGroups(r)
    ensures forall e :: Lookup(r, e) == TallyOn(s, e)
    ensures SumGroups(r) == Tally(SumCents(s), |s|)
  {
    if s == [] then []
    else
      var prior := GroupByDay(s[..|s| - 1]);
      var t := s[|s| - 1];
      forall e
        ensures Lookup(AddToGroups(prior, t), e) == TallyOn(s, e)
      {
        AddToGroupsLookup(prior, t, e);
      }
      AddToGroupsNonEmpty(prior, t);
      AddToGroupsSum(prior, t);
      AddToGroups(prior, t)
  }

  /** `dailyTotals.map(...)`: each group as a key and its figures. */
  function Entries(groups: seq<DayTotal>): seq<(string, Tally)> {
    seq(|groups|, i requires 0 <= i < |groups| => (DayKey(groups[i].day), groups[i].tally))
  }

  /** `Object.fromEntries`: entries in order, a later key overwriting an
      earlier one. */
  function FromEntries(es: seq<(string, Tally)>): (m: map<string, Tally>)
    ensures m.Keys == set e | e in es :: e.0
  {
    if es == [] then map[]
    else
      var init := es[..|es| - 1];
      var last := es[|es| - 1];
      assert es == init + [last];
      assert (set e | e in es :: e.0) == (set e | e in init :: e.0) + {last.0};
      FromEntries(init)[last.0 := last.1]
  }

  /** `parseInt(searchParams.get(name) || "")`. */
  function IntParam(params: Params, name: string): Option<int> {
    ParseInt(Get(params, name).GetOr(""))
  }

  /** Both parameters are numbers and the month lies in 1..12; the year is
      not range-checked. */
  predicate ValidRequest(params: Params) {
    && IntParam(params, "month").Some?
    && IntParam(params, "year").Some?
    && 1 <= IntParam(params, "month").value <= 12
  }

  /** GET /transaction/daily-totals?month=&year=. */
  function HandleGet(params: Params, store: Store): (r: TotalsResponse)
    ensures r.Failure? && r.status == 400 <==> !ValidRequest(params)
    ensures ValidRequest(params) && store.Failing? ==> r == Failure(500, "Internal Server Error")
    ensures ValidRequest(params) && store.Reachable? ==> r.Totals?
  {
    var month := IntParam(params, "month");
    var year := IntParam(params, "year");
    if month.None? || year.None? || month.value < 1 || month.value > 12 then
      Failure(400, "Invalid month or year parameters")
    else if store.Failing? then
      Failure(500, "Internal Server Error")
    else
      Totals(FromEntries(Entries(GroupByDay(MonthRows(store.rows, month.value, year.value)))))
  }

  /** Lookups in an ascending list find each group's own figures. */
  lemma {:induction false} LookupOfMember(groups: seq<DayTotal>, i: int)
    requires Ascending(groups) && 0 <= i < |groups|
    ensures Lookup(groups, groups[i].day) == groups[i].tally
  {
    if i > 0 {
      DayNumberOrder(groups[0].day, groups[i].day);
      LookupOfMember(groups[1..], i - 1);
    }
  }

  /** A day with figures has a group. */
  lemma {:induction false} LookupFound(groups: seq<DayTotal>, d: CalendarDay)
    requires Lookup(groups, d).transactionCount > 0
    ensures exists i | 0 <= i < |groups| :: groups[i].day == d
  {
    if groups[0].day != d {
      LookupFound(groups[1..], d);
      var i :| 0 <= i < |groups[1..]| && groups[1..][i].day == d;
      assert groups[i + 1].day == d;
    }
  }

  /** The month filter keeps exactly the figures of the month's days. */
  lemma {:induction false} TallyOnMonthRows(rows: seq<Transaction>, month: int, year: int, d: CalendarDay)
    ensures TallyOn(MonthRows(rows, month, year), d)
         == if d.month == month && d.year == year then TallyOn(rows, d) else NoTally
  {
    if rows != [] {
      var init := rows[..|rows| - 1];
      var last := rows[|rows| - 1];
      var r := MonthRows(init, month, year);
      TallyOnMonthRows(init, month, year, d);
      if InMonth(last, month, year) {
        assert (r + [last])[..|r|] == r;
      }
    }
  }

  /** `Object.fromEntries` with distinct keys holds each entry's value under
      its key. */
  lemma {:induction false} FromEntriesLookup(es: seq<(string, Tally)>, i: int)
    requires forall a, b | 0 <= a < b < |es| :: es[a].0 != es[b].0
    requires 0 <= i < |es|
    ensures es[i].0 in FromEntries(es) && FromEntries(es)[es[i].0] == es[i].1
  {
    var init := es[..|es| - 1];
    if i < |es| - 1 {
      assert es[i].0 != es[|es| - 1].0;
      FromEntriesLookup(init, i);
    }
  }

  /** Distinct days make distinct keys. */
  lemma EntriesHaveDistinctKeys(groups: seq<DayTotal>)
    requires Ascending(groups)
    ensures var es := Entries(groups);
      forall a, b | 0 <= a < b < |es| :: es[a].0 != es[b].0
  {
    var es := Entries(groups);
    forall a, b | 0 <= a < b < |es|
      ensures es[a].0 != es[b].0
    {
      DayKeyInjective(groups[a].day, groups[b].day);
    }
  }

  /** The response of a valid request on a reachable table. */
  lemma ValidResponse(params: Params, rows: seq<Transaction>)
    requires ValidRequest(params)
    ensures HandleGet(params, Reachable(rows))
         == Totals(FromEntries(Entries(GroupByDay(MonthRows(rows, IntParam(params, "month").value, IntParam(params, "year").value)))))
  {
  }

  /** The map built from ascending non-empty groups holds a day's key exactly
      when the day has a group, and then the group's figures. */
  lemma GroupMap(groups: seq<DayTotal>, d: CalendarDay)
    requires Ascending(groups) && NonEmptyGroups(groups)
    ensures var m := FromEntries(Entries(groups));
      && (DayKey(d) in m <==> Lookup(groups, d).transactionCount > 0)
      && (DayKey(d) in m ==> m[DayKey(d)] == Lookup(groups, d))
  {
    var es := Entries(groups);
    var m := FromEntries(es);
    EntriesHaveDistinctKeys(groups);
    if DayKey(d) in m {
      var e :| e in es && e.0 == DayKey(d);
      var i :| 0 <= i < |es| && es[i] == e;
      DayKeyInjective(groups[i].day, d);
      LookupOfMember(groups, i);
      assert groups[i] in groups;
      FromEntriesLookup(es, i);
    }
    if Lookup(groups, d).transactionCount > 0 {
      LookupFound(groups, d);
      var i :| 0 <= i < |groups| && groups[i].day == d;
      assert es[i] in es;
    }
  }

  /** The response for a valid request on a reachable table: a day's key is
      present exactly when the day lies in the requested month and year and
      has transactions, and it then carries that day's sum of amounts and
      number of transactions over the whole table. */
  lemma TotalsAreDailyTallies(params: Params, rows: seq<Transaction>, d: CalendarDay)
    requires ValidRequest(params)
    ensures var r := HandleGet(params, Reachable(rows));
      var inMonth := d.month == IntParam(params, "month").value && d.year == IntParam(params, "year").value;
      && r.Totals?
      && (DayKey(d) in r.dailyTotals <==> inMonth && TallyOn(rows, d).transactionCount > 0)
      && (DayKey(d) in r.dailyTotals ==> r.dailyTotals[DayKey(d)] == TallyOn(rows, d))
  {
    var month := IntParam(params, "month").value;
    var year := IntParam(params, "year").value;
    ValidResponse(params, rows);
    TallyOnMonthRows(rows, month, year, d);
    GroupMap(GroupByDay(MonthRows(rows, month, year)), d);
  }

  /** A key of the map is the key of some group's day. */
  lemma KeyOfSomeGroup(groups: seq<DayTotal>, k: string)
    requires k in FromEntries(Entries(groups))
    ensures exists i | 0 <= i < |groups| :: DayKey(groups[i].day) == k
  {
    var es := Entries(groups);
    KeyOfSomeEntry(es, k);
    var i :| 0 <= i < |es| && es[i].0 == k;
    EntryAt(groups, i);
  }

  lemma KeyOfSomeEntry(es: seq<(string, Tally)>, k: string)
    requires k in FromEntries(es)
    ensures exists i | 0 <= i < |es| :: es[i].0 == k
  {
    var e :| e in es && e.0 == k;
    var i :| 0 <= i < |es| && es[i] == e;
  }

  lemma EntryAt(groups: seq<DayTotal>, i: int)
    requires 0 <= i < |groups|
    ensures |Entries(groups)| == |groups|
    ensures Entries(groups)[i] == (DayKey(groups[i].day), groups[i].tally)
  {
  }

  /** Every key of the response is the key of a day of the requested month
      and year. */
  lemma KeysLieInMonth(params: Params, rows: seq<Transaction>, k: string)
    requires ValidRequest(params)
    requires k in HandleGet(params, Reachable(rows)).dailyTotals
    ensures exists d: CalendarDay ::
      && DayKey(d) == k
      && d.month == IntParam(params, "month").value
      && d.year == IntParam(params, "year").value
  {
    var month := IntParam(params, "month").value;
    var year := IntParam(params, "year").value;
    ValidResponse(params, rows);
    var groups := GroupByDay(MonthRows(rows, month, year));
    KeyOfSomeGroup(groups, k);
    var i :| 0 <= i < |groups| && DayKey(groups[i].day) == k;
    var d := groups[i].day;
    assert groups[i] in groups;
    LookupOfMember(groups, i);
    TallyOnMonthRows(rows, month, year, d);
  }

  /** One key per grouped day: the response has as many keys as the month
      has days with transactions. */
  lemma {:induction false} FromEntriesSize(es: seq<(string, Tally)>)
    requires forall a, b | 0 <= a < b < |es| :: es[a].0 != es[b].0
    ensures |FromEntries(es)| == |es|
  {
    if es != [] {
      var init := es[..|es| - 1];
      FromEntriesSize(init);
      forall e | e in init
        ensures e.0 != es[|es| - 1].0
      {
        var a :| 0 <= a < |init| && init[a] == e;
        assert es[a] == e;
      }
    }
  }

  /** `parseInt` reads the leading number, so trailing letters after the
      month are accepted. */
  lemma TrailingLettersAccepted(year: int)
    ensures var params := [("month", "7abc"), ("year", ShowInt(year))];
      && ValidRequest(params)
      && IntParam(params, "month") == Some(7)
      && IntParam(params, "year") == Some(year)
  {
    var params := [("month", "7abc"), ("year", ShowInt(year))];
    assert Get(params, "month") == Some("7abc");
    assert Get(params, "year") == Some(ShowInt(year));
    ParseIntSevenAbc();
    ParseIntOfShowInt(year);
  }

  /** A missing month is a bad request. */
  lemma MissingMonthRejected(params: Params, store: Store)
    requires !Has(params, "month")
    ensures HandleGet(params, store) == Failure(400, "Invalid month or year parameters")
  {
    ParseIntWithoutDigits("");
  }

  /** The response's entries are the month's groups, one key each, and the
      groups' figures add up to the sum of amounts and the number of the
      month's transactions. */
  lemma MonthTotalsAddUp(params: Params, rows: seq<Transaction>)
    requires ValidRequest(params)
    ensures var monthRows := MonthRows(rows, IntParam(params, "month").value, IntParam(params, "year").value);
      var groups := GroupByDay(monthRows);
      var m := HandleGet(params, Reachable(rows)).dailyTotals;
      && |m| == |groups|
      && (forall i | 0 <= i < |groups| :: DayKey(groups[i].day) in m && m[DayKey(groups[i].day)] == groups[i].tally)
      && SumGroups(groups) == Tally(SumCents(monthRows), |monthRows|)
  {
    var month := IntParam(params, "month").value;
    var year := IntParam(params, "year").value;
    ValidResponse(params, rows);
    var groups := GroupByDay(MonthRows(rows, month, year));
    var es := Entries(groups);
    EntriesHaveDistinctKeys(groups);
    FromEntriesSize(es);
    forall i | 0 <= i < |groups|
      ensures DayKey(groups[i].day) in FromEntries(es) && FromEntries(es)[DayKey(groups[i].day)] == groups[i].tally
    {
      EntryAt(groups, i);
      FromEntriesLookup(es, i);
    }
  }
}
