/** The calendar heatmap: the smallest and largest positive daily total of
    the totals on screen, the colour of each day's amount between them, and
    which days carry an amount label. Amounts are compared exactly, by cross
    multiplication, where the calendar divides in floating point. */
module Heatmap {
  import opened Optional
  import opened Timestamps
  import opened Ledger
  import opened DailyTotals
  import opened DateRangePicker

  /** The positive `totalAmount` values among the map's entries. */
  function PositiveTotals(m: map<string, Tally>): (s: set<int>)
    ensures forall a | a in s :: a > 0
    ensures forall k | k in m && m[k].totalAmount > 0 :: m[k].totalAmount in s
    ensures forall a | a in s :: exists k | k in m :: m[k].totalAmount == a
  {
    set k | k in m && m[k].totalAmount > 0 :: m[k].totalAmount
  }

  /** A non-empty set has an element. */
  lemma SomeElement(s: set<int>)
    requires s != {}
    ensures exists x :: x in s
  {
    if forall x :: x !in s {
      assert false;
    }
  }

  /** A non-empty finite set of integers has a least element, found by
      setting one element aside and comparing it with the least of the rest. */
  lemma {:induction false} LeastOf(s: set<int>) returns (least: int)
    requires s != {}
    ensures least in s && forall b | b in s :: least <= b
    decreases |s|
  {
    SomeElement(s);
    var x :| x in s;
    var rest := s - {x};
    if rest == {} {
      assert s == {x};
      least := x;
    } else {
      var lo := LeastOf(rest);
      least := if x < lo then x else lo;
      forall b | b in s
        ensures least <= b
      {
        if b != x {
          assert b in rest;
        }
      }
    }
  }

  /** A non-empty finite set of integers has a greatest element. */
  lemma {:induction false} GreatestOf(s: set<int>) returns (greatest: int)
    requires s != {}
    ensures greatest in s && forall b | b in s :: b <= greatest
    decreases |s|
  {
    SomeElement(s);
    var x :| x in s;
    var rest := s - {x};
    if rest == {} {
      assert s == {x};
      greatest := x;
    } else {
      var hi := GreatestOf(rest);
      greatest := if x > hi then x else hi;
      forall b | b in s
        ensures b <= greatest
      {
        if b != x {
          assert b in rest;
        }
      }
    }
  }

  lemma HasLeast(s: set<int>)
    requires s != {}
    ensures exists a | a in s :: forall b | b in s :: a <= b
  {
    var a := LeastOf(s);
  }

  lemma HasGreatest(s: set<int>)
    requires s != {}
    ensures exists a | a in s :: forall b | b in s :: b <= a
  {
    var a := GreatestOf(s);
  }

  function Least(s: set<int>): (a: int)
    requires s != {}
    ensures a in s && forall b | b in s :: a <= b
  {
    HasLeast(s);
    var a :| a in s && forall b | b in s :: a <= b;
    a
  }

  function Greatest(s: set<int>): (a: int)
    requires s != {}
    ensures a in s && forall b | b in s :: b <= a
  {
    HasGreatest(s);
    var a :| a in s && forall b | b in s :: b <= a;
    a
  }

  datatype Bounds = Bounds(min: int, max: int)

  /** `getMinMaxAmounts`: (0, 0) when no total is positive; otherwise the
      least and greatest positive totals, which bracket every positive total. */
  function MinMax(m: map<string, Tally>): (b: Bounds)
    ensures PositiveTotals(m) == {} <==> b == Bounds(0, 0)
    ensures PositiveTotals(m) != {} ==>
      && 0 < b.min <= b.max
      && b.min in PositiveTotals(m) && b.max in PositiveTotals(m)
      && forall k | k in m && m[k].totalAmount > 0 :: b.min <= m[k].totalAmount <= b.max
  {
    var amounts := PositiveTotals(m);
    if amounts == {} then Bounds(0, 0) else Bounds(Least(amounts), Greatest(amounts))
  }

  /** The label colours, from cool to hot. */
  datatype HeatColour = Green | Yellow | Red

  function Level(c: HeatColour): nat {
    match c
    case Green => 0
    case Yellow => 1
    case Red => 2
  }

  /** `n / r >= percent / 100`, exactly, for `r != 0`. */
  predicate RatioAtLeast(n: int, r: int, percent: int)
    requires r != 0
  {
    if r > 0 then 100 * n >= percent * r else 100 * n <= percent * r
  }

  /** `getAmountColorClass`: green when min and max agree; otherwise red from
      66% of the way from min to max, yellow from 33%, green below. */
  function AmountColour(amount: int, min: int, max: int): (c: HeatColour)
    ensures min == max ==> c == Green
    ensures min < max ==>
      && (c == Red <==> 100 * (amount - min) >= 66 * (max - min))
      && (c == Yellow <==> 33 * (max - min) <= 100 * (amount - min) < 66 * (max - min))
  {
    if min == max then Green
    else
      var range := max - min;
      if RatioAtLeast(amount - min, range, 66) then Red
      else if RatioAtLeast(amount - min, range, 33) then Yellow
      else Green
  }

  /** The ends of the range take the ends of the scale, and a larger amount
      never takes a cooler colour. */
  lemma ColourIsMonotone(a: int, b: int, min: int, max: int)
    requires min < max && a <= b
    ensures AmountColour(min, min, max) == Green
    ensures AmountColour(max, min, max) == Red
    ensures Level(AmountColour(a, min, max)) <= Level(AmountColour(b, min, max))
  {
  }

  /** The amount label of a calendar cell, looked up by the cell's day key:
      shown when the map has a non-zero total under it, coloured by that
      total against the bounds of the whole map. */
  function KeyLabel(m: map<string, Tally>, key: string): (l: Option<HeatColour>)
    ensures l.Some? <==> key in m && m[key].totalAmount != 0
    ensures l.Some? ==> l.value == AmountColour(m[key].totalAmount, MinMax(m).min, MinMax(m).max)
  {
    if key in m && m[key].totalAmount != 0 then
      Some(AmountColour(m[key].totalAmount, MinMax(m).min, MinMax(m).max))
    else None
  }

  /** On the picker's calendar, a day is labelled exactly when it lies in one
      of the two months on screen and its transactions do not sum to zero. */
  lemma LabelledDays(k: MonthKey, rows: seq<Transaction>, d: CalendarDay)
    requires ValidMonth(k)
    ensures var shown := MonthKey(d.month, d.year) == k || MonthKey(d.month, d.year) == NextMonth(k);
      var tally := TallyOn(rows, d);
      KeyLabel(VisibleTotals(k, rows), DayKey(d)).Some? <==> shown && tally.transactionCount > 0 && tally.totalAmount != 0
  {
    VisibleTotalsAreDailyTallies(k, rows, d);
  }

  /** The day with the largest positive total on screen is red, unless every
      positive total is the same, when all labels are green. */
  lemma LargestTotalIsHottest(m: map<string, Tally>, key: string)
    requires key in m && m[key].totalAmount > 0
    ensures var b := MinMax(m);
      && (m[key].totalAmount == b.max && b.min < b.max ==> AmountColour(m[key].totalAmount, b.min, b.max) == Red)
      && (b.min == b.max ==> AmountColour(m[key].totalAmount, b.min, b.max) == Green)
  {
  }
}
