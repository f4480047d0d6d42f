/** Transaction timestamps at millisecond precision, their chronological
    order, and their ISO 8601 text as `Date.prototype.toISOString` writes it
    and `new Date` reads it back. Days are calendar-free: every month is
    given 31 days, which keeps the order and the text exact without a
    calendar. */
module Timestamps {
  import opened Optional
  import opened Digits

  type Year = y: int | 0 <= y <= 9999
  type Month = m: int | 1 <= m <= 12 witness 1
  type DayOfMonth = d: int | 1 <= d <= 31 witness 1
  type MsOfDay = ms: int | 0 <= ms < 86_400_000

  datatype CalendarDay = CalendarDay(year: Year, month: Month, day: DayOfMonth)

  datatype Timestamp = Timestamp(year: Year, month: Month, day: DayOfMonth, ms: MsOfDay)

  /** SQL `DATE(date)`: the calendar day of a timestamp. */
  function DayOf(t: Timestamp): CalendarDay {
    CalendarDay(t.year, t.month, t.day)
  }

  /** The first instant of a day. */
  function Midnight(d: CalendarDay): (t: Timestamp)
    ensures DayOf(t) == d && t.ms == 0
  {
    Timestamp(d.year, d.month, d.day, 0)
  }

  /** Day order, year first, then month, then day. */
  predicate DayBefore(a: CalendarDay, b: CalendarDay) {
    || a.year < b.year
    || (a.year == b.year && a.month < b.month)
    || (a.year == b.year && a.month == b.month && a.day < b.day)
  }

  /** Chronological order of timestamps: by day, then by time of day. */
  predicate Earlier(a: Timestamp, b: Timestamp) {
    DayBefore(DayOf(a), DayOf(b)) || (DayOf(a) == DayOf(b) && a.ms < b.ms)
  }

  /** Position of a day on a line of 31-day months. */
  function DayNumber(d: CalendarDay): int {
    (d.year * 12 + d.month - 1) * 31 + d.day - 1
  }

  /** Position of an instant on the time line, in milliseconds; SQL compares
      and orders `date` values by it. */
  function Rank(t: Timestamp): int {
    DayNumber(DayOf(t)) * 86_400_000 + t.ms
  }

  lemma DayNumberOrder(a: CalendarDay, b: CalendarDay)
    ensures DayNumber(a) < DayNumber(b) <==> DayBefore(a, b)
    ensures DayNumber(a) == DayNumber(b) <==> a == b
  {
  }

  /** The numeric order is exactly the chronological order, and distinct
      timestamps have distinct ranks. */
  lemma RankOrder(a: Timestamp, b: Timestamp)
    ensures Rank(a) < Rank(b) <==> Earlier(a, b)
    ensures Rank(a) == Rank(b) <==> a == b
  {
    DayNumberOrder(DayOf(a), DayOf(b));
  }

  /** All instants of a day lie between its midnight and the next day's. */
  lemma RankWithinDay(t: Timestamp)
    ensures DayNumber(DayOf(t)) * 86_400_000 <= Rank(t) < (DayNumber(DayOf(t)) + 1) * 86_400_000
  {
  }

  /** `YYYY-MM-DD`. */
  function DateText(d: CalendarDay): (s: string)
    ensures |s| == 10
  {
    Pad(d.year, 4) + "-" + Pad(d.month, 2) + "-" + Pad(d.day, 2)
  }

  /** A time of day split into fields. */
  datatype Clock = Clock(hours: nat, minutes: nat, seconds: nat, millis: nat)

  predicate ValidClock(c: Clock) {
    c.hours < 24 && c.minutes < 60 && c.seconds < 60 && c.millis < 1000
  }

  function MsOfClock(c: Clock): int {
    c.hours * 3_600_000 + c.minutes * 60_000 + c.seconds * 1_000 + c.millis
  }

  /** The fields `getUTCHours`, `getUTCMinutes`, `getUTCSeconds` and
      `getUTCMilliseconds` of a time of day. */
  function ClockOf(ms: MsOfDay): (c: Clock)
    ensures ValidClock(c) && MsOfClock(c) == ms
  {
    var rest := ms % 3_600_000;
    var rest' := rest % 60_000;
    Clock(ms / 3_600_000, rest / 60_000, rest' / 1_000, rest' % 1_000)
  }

  /** Splitting a time of day rebuilt from valid fields gives the fields back. */
  lemma ClockOfMsOfClock(c: Clock)
    requires ValidClock(c)
    ensures 0 <= MsOfClock(c) < 86_400_000
    ensures ClockOf(MsOfClock(c)) == c
  {
    var ms := MsOfClock(c);
    var rest := c.minutes * 60_000 + c.seconds * 1_000 + c.millis;
    assert ms / 3_600_000 == c.hours && ms % 3_600_000 == rest;
    var rest' := c.seconds * 1_000 + c.millis;
    assert rest / 60_000 == c.minutes && rest % 60_000 == rest';
    assert rest' / 1_000 == c.seconds && rest' % 1_000 == c.millis;
  }

  /** `HH:mm:ss.sssZ`. */
  function ClockText(c: Clock): (s: string)
    ensures |s| == 13
  {
    Pad(c.hours, 2) + ":" + Pad(c.minutes, 2) + ":" + Pad(c.seconds, 2) + "." + Pad(c.millis, 3) + "Z"
  }

  function TimeText(ms: MsOfDay): (s: string)
    ensures |s| == 13
  {
    ClockText(ClockOf(ms))
  }

  /** `Date.prototype.toISOString`: `YYYY-MM-DDTHH:mm:ss.sssZ`. */
  function ToIso(t: Timestamp): (s: string)
    ensures |s| == 24
  {
    DateText(DayOf(t)) + "T" + TimeText(t.ms)
  }

  function ParseDate(s: string): Option<CalendarDay> {
    if |s| == 10 && s[4] == '-' && s[7] == '-'
       && AllDigits(s[..4]) && AllDigits(s[5..7]) && AllDigits(s[8..])
    then
      var y := Decimal(s[..4]);
      var m := Decimal(s[5..7]);
      var d := Decimal(s[8..]);
      assert y < 10000 by { assert Pow10(4) == 10000; }
      if 1 <= m <= 12 && 1 <= d <= 31 then Some(CalendarDay(y, m, d)) else None
    else None
  }

  function ParseClock(s: string): Option<Clock> {
    if |s| == 13 && s[2] == ':' && s[5] == ':' && s[8] == '.' && s[12] == 'Z'
       && AllDigits(s[..2]) && AllDigits(s[3..5]) && AllDigits(s[6..8]) && AllDigits(s[9..12])
    then
      var c := Clock(Decimal(s[..2]), Decimal(s[3..5]), Decimal(s[6..8]), Decimal(s[9..12]));
      if c.hours < 24 && c.minutes < 60 && c.seconds < 60 then Some(c) else None
    else None
  }

  function ParseTime(s: string): (r: Option<MsOfDay>) {
    match ParseClock(s)
    case None => None
    case Some(c) =>
      assert ValidClock(c) by { assert Pow10(3) == 1000; }
      ClockOfMsOfClock(c);
      Some(MsOfClock(c))
  }

  /** `new Date(s)` on text of the form `toISOString` writes; any other text
      is `None`, an invalid date. */
  function ParseIso(s: string): Option<Timestamp> {
    if |s| == 24 && s[10] == 'T' then
      match (ParseDate(s[..10]), ParseTime(s[11..]))
      case (Some(d), Some(ms)) => Some(Timestamp(d.year, d.month, d.day, ms))
      case _ => None
    else None
  }

  lemma ParseDateText(d: CalendarDay)
    ensures ParseDate(DateText(d)) == Some(d)
  {
    var s := DateText(d);
    assert s[..4] == Pad(d.year, 4);
    assert s[5..7] == Pad(d.month, 2);
    assert s[8..] == Pad(d.day, 2);
    assert Pow10(4) == 10000 && Pow10(2) == 100;
    DecimalOfPad(d.year, 4);
    DecimalOfPad(d.month, 2);
    DecimalOfPad(d.day, 2);
  }

  lemma DateTextOfParse(s: string)
    requires ParseDate(s).Some?
    ensures DateText(ParseDate(s).value) == s
  {
    PadOfDecimal(s[..4]);
    PadOfDecimal(s[5..7]);
    PadOfDecimal(s[8..]);
    assert s == s[..4] + "-" + s[5..7] + "-" + s[8..];
  }

  lemma ParseClockText(c: Clock)
    requires ValidClock(c)
    ensures ParseClock(ClockText(c)) == Some(c)
  {
    var s := ClockText(c);
    assert s[..2] == Pad(c.hours, 2);
    assert s[3..5] == Pad(c.minutes, 2);
    assert s[6..8] == Pad(c.seconds, 2);
    assert s[9..12] == Pad(c.millis, 3);
    assert Pow10(3) == 1000 && Pow10(2) == 100;
    DecimalOfPad(c.hours, 2);
    DecimalOfPad(c.minutes, 2);
    DecimalOfPad(c.seconds, 2);
    DecimalOfPad(c.millis, 3);
  }

  lemma ClockTextOfParse(s: string)
    requires ParseClock(s).Some?
    ensures ClockText(ParseClock(s).value) == s
  {
    PadOfDecimal(s[..2]);
    PadOfDecimal(s[3..5]);
    PadOfDecimal(s[6..8]);
    PadOfDecimal(s[9..12]);
    assert s == s[..2] + ":" + s[3..5] + ":" + s[6..8] + "." + s[9..12] + "Z";
  }

  lemma ParseTimeText(ms: MsOfDay)
    ensures ParseTime(TimeText(ms)) == Some(ms)
  {
    ParseClockText(ClockOf(ms));
  }

  lemma TimeTextOfParse(s: string)
    requires ParseTime(s).Some?
    ensures TimeText(ParseTime(s).value) == s
  {
    var c := ParseClock(s).value;
    assert ValidClock(c) by { assert Pow10(3) == 1000; }
    ClockOfMsOfClock(c);
    ClockTextOfParse(s);
  }

  /** `new Date(t.toISOString())` is `t` again: the cursor round trip. */
  lemma ParseIsoOfToIso(t: Timestamp)
    ensures ParseIso(ToIso(t)) == Some(t)
  {
    var s := ToIso(t);
    assert s[..10] == DateText(DayOf(t));
    assert s[11..] == TimeText(t.ms);
    ParseDateText(DayOf(t));
    ParseTimeText(t.ms);
  }

  /** Text that parses is exactly the text of what it parses to, so
      `ParseIso` and `ToIso` are inverse bijections between timestamps and
      canonical ISO text. */
  lemma ToIsoOfParseIso(s: string)
    requires ParseIso(s).Some?
    ensures ToIso(ParseIso(s).value) == s
  {
    DateTextOfParse(s[..10]);
    TimeTextOfParse(s[11..]);
    assert s == s[..10] + "T" + s[11..];
  }

  /** The part of `s` before the first `c`: `s.split(c)[0]`. */
  function BeforeFirst(s: string, c: char): (r: string)
    ensures |r| <= |s| && r == s[..|r|]
    ensures c !in r
    ensures |r| < |s| ==> s[|r|] == c
  {
    if s == [] || s[0] == c then []
    else
      var r := [s[0]] + BeforeFirst(s[1..], c);
      assert s[..|r|] == [s[0]] + s[1..][..|r| - 1];
      r
  }

  /** The key the daily totals are stored under, and the key the calendar
      looks a day up by: `date.toISOString().split("T")[0]` of the day's
      midnight. */
  function DayKey(d: CalendarDay): string {
    BeforeFirst(ToIso(Midnight(d)), 'T')
  }

  lemma {:induction false} BeforeFirstOfPrefix(a: string, b: string, c: char)
    requires c !in a
    requires b != [] && b[0] == c
    ensures BeforeFirst(a + b, c) == a
  {
    if a != [] {
      assert (a + b)[1..] == a[1..] + b;
      BeforeFirstOfPrefix(a[1..], b, c);
    } else {
      assert a + b == b;
    }
  }

  lemma NoLetterInDigits(s: string, c: char)
    requires AllDigits(s)
    requires !IsDigit(c)
    ensures c !in s
  {
  }

  /** `t.toISOString().split("T")[0]` is the `YYYY-MM-DD` text of its day. */
  lemma IsoDatePart(t: Timestamp)
    ensures BeforeFirst(ToIso(t), 'T') == DateText(DayOf(t))
  {
    var d := DayOf(t);
    NoLetterInDigits(Pad(d.year, 4), 'T');
    NoLetterInDigits(Pad(d.month, 2), 'T');
    NoLetterInDigits(Pad(d.day, 2), 'T');
    var date := DateText(d);
    assert 'T' !in date;
    var time := TimeText(t.ms);
    assert ToIso(t) == date + ("T" + time);
    BeforeFirstOfPrefix(date, "T" + time, 'T');
  }

  /** The day key is `YYYY-MM-DD`, and reading it back gives the day. */
  lemma DayKeyIsDateText(d: CalendarDay)
    ensures DayKey(d) == DateText(d)
    ensures ParseDate(DayKey(d)) == Some(d)
  {
    IsoDatePart(Midnight(d));
    ParseDateText(d);
  }

  /** Distinct days have distinct keys. */
  lemma DayKeyInjective(a: CalendarDay, b: CalendarDay)
    ensures DayKey(a) == DayKey(b) <==> a == b
  {
    DayKeyIsDateText(a);
    DayKeyIsDateText(b);
  }
}
