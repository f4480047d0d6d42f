/** The date-range picker: the two months it shows, the months it fetches
    ahead, the merge of the two shown months' daily totals, and the preset
    buttons. */
module DateRangePicker {
  import opened Optional
  import opened Digits
  import opened Timestamps
  import opened Ledger
  import opened SearchParams
  import opened DailyTotals

  /** A selected range; either end may be missing. */
  datatype DateRange = DateRange(from: Option<Timestamp>, to: Option<Timestamp>)

  /** A month of a year, as the daily-totals queries are keyed. */
  datatype MonthKey = MonthKey(month: int, year: int)

  predicate ValidMonth(k: MonthKey) {
    1 <= k.month <= 12
  }

  /** Position of a month on the line of all months. */
  function MonthIndex(k: MonthKey): int {
    12 * k.year + k.month - 1
  }

  /** The month and year of the visible date (`getMonth() + 1`, `getFullYear()`). */
  function VisibleMonth(t: Timestamp): (k: MonthKey)
    ensures k.month == t.month && k.year == t.year
  {
    MonthKey(t.month, t.year)
  }

  /** `nextMonth` and `nextYear`. */
  function NextMonth(k: MonthKey): (r: MonthKey)
    requires ValidMonth(k)
    ensures ValidMonth(r)
    ensures r.month == 1 && r.year == k.year + 1 <==> k.month == 12
    ensures k.month != 12 ==> r.year == k.year
  {
    if k.month == 12 then MonthKey(1, k.year + 1) else MonthKey(k.month + 1, k.year)
  }

  /** `prevMonth` and `prevYear`. */
  function PrevMonth(k: MonthKey): (r: MonthKey)
    requires ValidMonth(k)
    ensures ValidMonth(r)
    ensures r.month == 12 && r.year == k.year - 1 <==> k.month == 1
    ensures k.month != 1 ==> r.year == k.year
  {
    if k.month == 1 then MonthKey(12, k.year - 1) else MonthKey(k.month - 1, k.year)
  }

  /** `futureMonth` and `futureYear`: the month after `nextMonth`. */
  function FutureMonth(k: MonthKey): (r: MonthKey)
    requires ValidMonth(k)
    ensures ValidMonth(r)
  {
    var n := NextMonth(k);
    if n.month == 12 then MonthKey(1, n.year + 1) else MonthKey(n.month + 1, n.year)
  }

  /** On the line of months, next is one step on, previous one step back and
      future two steps on; previous and next undo each other. */
  lemma MonthSteps(k: MonthKey)
    requires ValidMonth(k)
    ensures MonthIndex(NextMonth(k)) == MonthIndex(k) + 1
    ensures MonthIndex(PrevMonth(k)) == MonthIndex(k) - 1
    ensures MonthIndex(FutureMonth(k)) == MonthIndex(k) + 2
    ensures PrevMonth(NextMonth(k)) == k
    ensures NextMonth(PrevMonth(k)) == k
  {
  }

  /** Valid months are told apart by their index. */
  lemma MonthIndexInjective(a: MonthKey, b: MonthKey)
    requires ValidMonth(a) && ValidMonth(b)
    ensures MonthIndex(a) == MonthIndex(b) <==> a == b
  {
    if MonthIndex(a) == MonthIndex(b) {
      assert 12 * (a.year - b.year) == b.month - a.month;
    }
  }

  /** The two months on screen. */
  function VisibleKeys(k: MonthKey): seq<MonthKey>
    requires ValidMonth(k)
  {
    [k, NextMonth(k)]
  }

  /** The six months fetched ahead, as written: the current month and
      `nextMonth` a year back and a year on, both paired with `currentYear`,
      then the months either side of the two on screen. */
  function PrefetchKeys(k: MonthKey): seq<MonthKey>
    requires ValidMonth(k)
  {
    var n := NextMonth(k);
    [ MonthKey(k.month, k.year - 1), MonthKey(n.month, k.year - 1),
      MonthKey(k.month, k.year + 1), MonthKey(n.month, k.year + 1),
      PrevMonth(k), FutureMonth(k) ]
  }

  /** In December the cross-year keys are paired with `currentYear`, not
      with `nextYear`: the "next year" key for `nextMonth` is the January
      already on screen, the "previous year" key is the January two years
      before it, and the Januaries one year either side of it, which the
      intended keys hold, are not fetched. */
  lemma DecemberPrefetchRepeatsVisibleMonth(year: int)
    ensures var k := MonthKey(12, year);
      && PrefetchKeys(k)[3] == VisibleKeys(k)[1]
      && PrefetchKeys(k)[1] == MonthKey(1, year - 1)
      && MonthKey(1, year - 1) !in IntendedPrefetchKeys(k)
      && MonthKey(1, year) !in PrefetchKeys(k) && MonthKey(1, year) in IntendedPrefetchKeys(k)
      && MonthKey(1, year + 2) !in PrefetchKeys(k) && MonthKey(1, year + 2) in IntendedPrefetchKeys(k)
  {
  }

  /** The cross-year keys as the comments describe them: both months on
      screen, one year back and one year on. */
  function IntendedPrefetchKeys(k: MonthKey): seq<MonthKey>
    requires ValidMonth(k)
  {
    var n := NextMonth(k);
    [ MonthKey(k.month, k.year - 1), MonthKey(n.month, n.year - 1),
      MonthKey(k.month, k.year + 1), MonthKey(n.month, n.year + 1),
      PrevMonth(k), FutureMonth(k) ]
  }

  /** Each intended cross-year key is a month on screen moved by exactly one
      year, and no intended key is on screen already. */
  lemma IntendedPrefetchIsYearApart(k: MonthKey)
    requires ValidMonth(k)
    ensures var p := IntendedPrefetchKeys(k);
      var v := VisibleKeys(k);
      && MonthIndex(p[0]) == MonthIndex(v[0]) - 12
      && MonthIndex(p[1]) == MonthIndex(v[1]) - 12
      && MonthIndex(p[2]) == MonthIndex(v[0]) + 12
      && MonthIndex(p[3]) == MonthIndex(v[1]) + 12
      && forall i | 0 <= i < |p| :: p[i] !in v
  {
    MonthSteps(k);
    var p := IntendedPrefetchKeys(k);
    var v := VisibleKeys(k);
    forall i, j | 0 <= i < |p| && 0 <= j < |v|
      ensures p[i] != v[j]
    {
      MonthIndexInjective(p[i], v[j]);
    }
  }

  /** Only with the as-written keys can a fetched-ahead month be on screen. */
  lemma PrefetchOverlapsOnlyInDecember(k: MonthKey)
    requires ValidMonth(k)
    ensures (exists i | 0 <= i < 6 :: PrefetchKeys(k)[i] in VisibleKeys(k)) <==> k.month == 12
  {
    MonthSteps(k);
    var p := PrefetchKeys(k);
    var v := VisibleKeys(k);
    if k.month != 12 {
      forall i, j | 0 <= i < |p| && 0 <= j < |v|
        ensures p[i] != v[j]
      {
        MonthIndexInjective(p[i], v[j]);
      }
    } else {
      assert p[3] in v;
    }
  }

  /** `fetchDailyTotals(month, year)`'s request: `?month=..&year=..`. */
  function MonthParams(k: MonthKey): Params {
    [("month", ShowInt(k.month)), ("year", ShowInt(k.year))]
  }

  /** What a month's query yields: `data.dailyTotals`, absent on an error. */
  function TotalsData(r: TotalsResponse): (d: Option<map<string, Tally>>)
    ensures d.Some? <==> r.Totals?
    ensures r.Totals? ==> d.value == r.dailyTotals
  {
    match r
    case Totals(m) => Some(m)
    case Failure(_, _) => None
  }

  /** `{...(current || {}), ...(next || {})}`: every key of either month,
      the next month's value winning on a shared key. */
  function Merge(current: Option<map<string, Tally>>, next: Option<map<string, Tally>>): (m: map<string, Tally>)
    ensures m.Keys == current.GetOr(map[]).Keys + next.GetOr(map[]).Keys
    ensures forall k | k in m :: m[k] == if k in next.GetOr(map[]) then next.value[k] else current.value[k]
  {
    current.GetOr(map[]) + next.GetOr(map[])
  }

  /** A month's request is well formed and reads back the month and year. */
  lemma MonthRequestValid(k: MonthKey)
    requires ValidMonth(k)
    ensures ValidRequest(MonthParams(k))
    ensures IntParam(MonthParams(k), "month") == Some(k.month)
    ensures IntParam(MonthParams(k), "year") == Some(k.year)
  {
    var p := MonthParams(k);
    assert Get(p, "month") == Some(ShowInt(k.month));
    assert Get(p, "year") == Some(ShowInt(k.year));
    JsNumbers.ParseIntOfShowInt(k.month);
    JsNumbers.ParseIntOfShowInt(k.year);
  }

  /** The totals on screen, both months fetched from the same table. */
  function VisibleTotals(k: MonthKey, rows: seq<Transaction>): map<string, Tally>
    requires ValidMonth(k)
  {
    Merge(TotalsData(HandleGet(MonthParams(k), Reachable(rows))),
          TotalsData(HandleGet(MonthParams(NextMonth(k)), Reachable(rows))))
  }

  /** The merged totals hold a day exactly when it lies in one of the two
      months on screen and has transactions, with that day's figures. */
  lemma VisibleTotalsAreDailyTallies(k: MonthKey, rows: seq<Transaction>, d: CalendarDay)
    requires ValidMonth(k)
    ensures var m := VisibleTotals(k, rows);
      var shown := MonthKey(d.month, d.year) == k || MonthKey(d.month, d.year) == NextMonth(k);
      && (DayKey(d) in m <==> shown && TallyOn(rows, d).transactionCount > 0)
      && (DayKey(d) in m ==> m[DayKey(d)] == TallyOn(rows, d))
  {
    var n := NextMonth(k);
    MonthRequestValid(k);
    MonthRequestValid(n);
    TotalsAreDailyTallies(MonthParams(k), rows, d);
    TotalsAreDailyTallies(MonthParams(n), rows, d);
  }

  /** The picker's own state: the month shown first. The selected range is
      held by the page that embeds the picker. */
  datatype PickerState = PickerState(range: Option<DateRange>, visible: Timestamp)

  /** `useState(date?.from || new Date())`. */
  function InitialPicker(range: Option<DateRange>, now: Timestamp): (s: PickerState)
    ensures s.range == range
    ensures range.Some? && range.value.from.Some? ==> s.visible == range.value.from.value
    ensures range.None? || range.value.from.None? ==> s.visible == now
  {
    if range.Some? && range.value.from.Some? then PickerState(range, range.value.from.value)
    else PickerState(range, now)
  }

  /** `handlePresetClick`: the preset range is passed on unchanged, and the
      view moves to the preset's end when it has one. */
  function PresetClick(s: PickerState, preset: DateRange): (r: PickerState)
    ensures r.range == Some(preset)
    ensures preset.to.Some? ==> r.visible == preset.to.value
    ensures preset.to.None? ==> r.visible == s.visible
  {
    PickerState(Some(preset), if preset.to.Some? then preset.to.value else s.visible)
  }

  /** `handleSelect`: the chosen range, possibly none, is passed on; the
      view stays. */
  function Select(s: PickerState, chosen: Option<DateRange>): (r: PickerState)
    ensures r.range == chosen && r.visible == s.visible
  {
    PickerState(chosen, s.visible)
  }

  /** After a preset with an end, the end's month is the first month shown. */
  lemma PresetShowsItsEnd(s: PickerState, preset: DateRange)
    requires preset.to.Some?
    ensures VisibleMonth(PresetClick(s, preset).visible) == MonthKey(preset.to.value.month, preset.to.value.year)
  {
  }
}
