/**
 The Gregorian calendar a zone's local day numbers are read with, and what the
 four-year search bound means under it. Years are counted from March, so that
 the leap day, if there is one, is the last day of a year.
 */
module CronCalendar {
  import opened Common
  import opened CronSearch

  /** Days from 1 March of year 0 to 1 March of year `y`. */
  function YearStart(y: int): int {
    365 * y + y / 4 - y / 100 + y / 400
  }

  function Carry(y: int, k: int): int
    requires k > 0
  {
    if (y + 1) % k == 0 then 1 else 0
  }

  lemma Carries(y: int)
    ensures (y + 1) / 4 - y / 4 == Carry(y, 4)
    ensures (y + 1) / 100 - y / 100 == Carry(y, 100)
    ensures (y + 1) / 400 - y / 400 == Carry(y, 400)
  {
  }

  lemma Centuries(y: int)
    ensures y % 100 == 0 ==> y % 4 == 0
    ensures y % 400 == 0 ==> y % 100 == 0
  {
    assert y % 100 == 0 ==> y == 4 * (25 * (y / 100));
    assert y % 400 == 0 ==> y == 100 * (4 * (y / 400));
  }

  /** A year has 366 days when the next calendar year is a leap year. */
  lemma YearLength(y: int)
    ensures YearStart(y + 1) - YearStart(y) == 365 + Carry(y, 4) - Carry(y, 100) + Carry(y, 400)
    ensures 365 <= YearStart(y + 1) - YearStart(y) <= 366
  {
    Carries(y);
    Centuries(y + 1);
  }

  lemma {:induction false} YearStartGrows(x: int, y: int)
    requires x <= y
    ensures YearStart(y) - YearStart(x) >= 365 * (y - x)
    decreases y - x
  {
    if x < y {
      YearLength(y - 1);
      YearStartGrows(x, y - 1);
    }
  }

  /** The March-based year day `z` lies in. */
  function YearOf(z: int): (y: int)
    ensures YearStart(y) <= z < YearStart(y + 1)
  {
    var y := 400 * z / 146097;
    Near(z, y);
    if z < YearStart(y) then y - 1 else if z < YearStart(y + 1) then y else y + 1
  }

  lemma Near(z: int, y: int)
    requires y == 400 * z / 146097
    ensures YearStart(y - 1) <= z < YearStart(y + 2)
  {
  }

  lemma YearOfIs(z: int, y: int)
    requires YearStart(y) <= z < YearStart(y + 1)
    ensures YearOf(z) == y
  {
    if YearOf(z) < y {
      YearStartGrows(YearOf(z) + 1, y);
    } else {
      YearStartGrows(y + 1, YearOf(z) + (if YearOf(z) > y then 0 else 1));
    }
  }

  const EPOCH := 719468

  function DateOfYearDay(yearDay: int, dayOfWeek: int): Date {
    var mp := (5 * yearDay + 2) / 153;
    Date(yearDay - (153 * mp + 2) / 5 + 1, if mp < 10 then mp + 3 else mp - 9, dayOfWeek)
  }

  /** The date of day `d`, counted from 1 January 1970. */
  function Gregorian(d: int): Date {
    var z := d + EPOCH;
    DateOfYearDay(z - YearStart(YearOf(z)), (z + 3) % 7)
  }

  // ----- dates and year days -----

  function CommonLength(month: int): int {
    if month == 2 then 28 else if month in {4, 6, 9, 11} then 30 else 31
  }

  function LeapLength(month: int): int {
    if month == 2 then 29 else CommonLength(month)
  }

  function YearDayOf(month: int, day: int): int {
    var mp := if month > 2 then month - 3 else month + 9;
    (153 * mp + 2) / 5 + day - 1
  }

  /** The month that begins at year day `(153 * mp + 2) / 5` is `mp` months after March. */
  lemma MonthBegins(mp: int, k: int)
    requires 0 <= mp <= 11 && 0 <= k
    requires k < (153 * (mp + 1) + 2) / 5 - (153 * mp + 2) / 5
    ensures (5 * ((153 * mp + 2) / 5 + k) + 2) / 153 == mp
  {
    var start, next := (153 * mp + 2) / 5, (153 * (mp + 1) + 2) / 5;
    assert 5 * start <= 153 * mp + 2 < 5 * start + 5;
    assert 5 * next <= 153 * (mp + 1) + 2 < 5 * next + 5;
    var n := 5 * (start + k) + 2;
    assert 153 * mp <= n < 153 * (mp + 1);
  }

  lemma MonthLengths(month: int)
    requires 1 <= month <= 12
    ensures var mp := if month > 2 then month - 3 else month + 9;
            && CommonLength(month) <= (153 * (mp + 1) + 2) / 5 - (153 * mp + 2) / 5
            && 0 <= (153 * mp + 2) / 5 <= 365 - CommonLength(month)
  {
  }

  /** Every date a year of any length has is where `YearDayOf` says, and only 29 February needs a leap year. */
  lemma CommonDates(month: int, day: int, w: int)
    requires 1 <= month <= 12 && 1 <= day <= CommonLength(month)
    ensures 0 <= YearDayOf(month, day) < 365
    ensures DateOfYearDay(YearDayOf(month, day), w) == Date(day, month, w)
  {
    var mp := if month > 2 then month - 3 else month + 9;
    MonthLengths(month);
    MonthBegins(mp, day - 1);
  }

  lemma YearDays(yearDay: int, w: int)
    requires 0 <= yearDay <= 365
    ensures var d := DateOfYearDay(yearDay, w);
            && 1 <= d.month <= 12 && 1 <= d.dayOfMonth <= LeapLength(d.month) && d.dayOfWeek == w
            && (d.dayOfMonth > CommonLength(d.month) <==> yearDay == 365)
            && (yearDay == 365 ==> d.month == 2 && d.dayOfMonth == 29)
  {
  }

  /** The date of the `n`-th day of year `y`. */
  lemma GregorianAt(y: int, n: int) returns (d: int)
    requires 0 <= n < YearStart(y + 1) - YearStart(y)
    ensures d == YearStart(y) + n - EPOCH
    ensures Gregorian(d) == DateOfYearDay(n, (YearStart(y) + n + 3) % 7)
  {
    hide YearStart, DateOfYearDay;
    d := YearStart(y) + n - EPOCH;
    YearOfIs(d + EPOCH, y);
  }

  lemma YearDayOfDate(d: int) returns (y: int, n: int)
    ensures d == YearStart(y) + n - EPOCH && 0 <= n < YearStart(y + 1) - YearStart(y) <= 366
    ensures Gregorian(d) == DateOfYearDay(n, (d + EPOCH + 3) % 7)
  {
    hide YearStart, DateOfYearDay;
    y := YearOf(d + EPOCH);
    n := d + EPOCH - YearStart(y);
    YearLength(y);
  }

  lemma GregorianInRange(d: int)
    ensures var g := Gregorian(d);
            && 1 <= g.month <= 12 && 1 <= g.dayOfMonth <= LeapLength(g.month) && 0 <= g.dayOfWeek <= 6
            && (g.dayOfMonth > CommonLength(g.month) ==> g.month == 2 && g.dayOfMonth == 29)
  {
    hide YearStart, YearOf, Gregorian, DateOfYearDay;
    var y, n := YearDayOfDate(d);
    YearDays(n, (d + EPOCH + 3) % 7);
  }

  /** From any day on, each date other than 29 February comes round within 366 days. */
  lemma DateRecurs(from: int, month: int, day: int) returns (d: int)
    requires 1 <= month <= 12 && 1 <= day <= CommonLength(month)
    ensures from <= d <= from + 366
    ensures Gregorian(d).month == month && Gregorian(d).dayOfMonth == day
  {
    hide YearStart, YearOf, Gregorian, DateOfYearDay, YearDayOf, CommonLength;
    var y, m := YearDayOfDate(from);
    var n := YearDayOf(month, day);
    CommonDates(month, day, 0);
    YearLength(y);
    YearLength(y + 1);
    if n < m {
      y := y + 1;
    }
    d := GregorianAt(y, n);
    CommonDates(month, day, (YearStart(y) + n + 3) % 7);
  }

  lemma FirstOfMonth(yearDay: int, k: int)
    requires 0 <= yearDay <= 365 && DateOfYearDay(yearDay, 0).dayOfMonth == 1 && 0 <= k <= 6
    ensures yearDay + k < 365 && DateOfYearDay(yearDay + k, 0).month == DateOfYearDay(yearDay, 0).month
  {
  }

  lemma SameMonthNextDays(d: int, k: int)
    requires Gregorian(d).dayOfMonth == 1 && 0 <= k <= 6
    ensures Gregorian(d + k).month == Gregorian(d).month
    ensures Gregorian(d + k).dayOfWeek == (d + k + EPOCH + 3) % 7
  {
    hide YearStart, YearOf, Gregorian;
    var y, n := YearDayOfDate(d);
    FirstOfMonth(n, k);
    YearLength(y);
    var e := GregorianAt(y, n + k);
  }

  lemma DayOfWeekRecurs(from: int, month: int, dayOfWeek: int) returns (d: int)
    requires 1 <= month <= 12 && 0 <= dayOfWeek <= 6
    ensures from <= d <= from + 372
    ensures Gregorian(d).month == month && Gregorian(d).dayOfWeek == dayOfWeek
  {
    hide YearStart, YearOf, Gregorian;
    var first := DateRecurs(from, month, 1);
    var k := (dayOfWeek - (first + EPOCH + 3)) % 7;
    SameMonthNextDays(first, k);
    d := first + k;
    assert (d + EPOCH + 3) % 7 == dayOfWeek;
  }

  lemma QuadricentennialIsLeap(q: int)
    ensures YearStart(400 * q) - YearStart(400 * q - 1) == 366
    ensures q >= 1 ==> YearStart(400 * q) >= 400 * q
  {
    YearLength(400 * q - 1);
    hide YearStart;
    assert (400 * q) % 400 == 0;
    Centuries(400 * q);
    if q >= 1 {
      YearStartGrows(0, 400 * q);
      assert YearStart(0) == 0 by {
        YearZero();
      }
    }
  }

  lemma YearZero()
    ensures YearStart(0) == 0
  {
  }

  /** There is a leap day after any day, if one waits long enough. */
  lemma LeapDayAfter(from: int) returns (d: int)
    ensures d >= from && Gregorian(d).month == 2 && Gregorian(d).dayOfMonth == 29
  {
    hide YearStart, YearOf, Gregorian;
    var q := if from + EPOCH < 0 then 1 else from + EPOCH + 1;
    QuadricentennialIsLeap(q);
    d := GregorianAt(400 * q - 1, 365);
    YearDays(365, (d + EPOCH + 3) % 7);
  }

  // ----- the calendar that everybody uses -----

  function CivilYear(d: int): int {
    YearOf(d + EPOCH) + if Gregorian(d).month <= 2 then 1 else 0
  }

  predicate IsLeapYear(y: int) {
    y % 4 == 0 && (y % 100 != 0 || y % 400 == 0)
  }

  function MonthLength(month: int, y: int): int {
    if month == 2 then (if IsLeapYear(y) then 29 else 28) else if month in {4, 6, 9, 11} then 30 else 31
  }

  /** Day 0 is Thursday, 1 January 1970. */
  lemma EpochIs()
    ensures Gregorian(0) == Date(1, 1, 4) && CivilYear(0) == 1970
  {
    YearOfIs(EPOCH, 1969);
  }

  lemma NextInYear(n: int, w: int, v: int)
    requires 0 <= n < 365
    ensures var a, b := DateOfYearDay(n, w), DateOfYearDay(n + 1, v);
            && b.dayOfWeek == v
            && (if n != 364 && a.dayOfMonth == CommonLength(a.month) then b.dayOfMonth == 1 && b.month == a.month % 12 + 1
                else b.dayOfMonth == a.dayOfMonth + 1 && b.month == a.month)
            && (n == 364 <==> a.month == 2 && a.dayOfMonth == 28)
            && (a.month <= 2 <==> n >= 306)
  {
    NextOfMonth(n, w, v);
    LastOfFebruary(n, w);
    hide DateOfYearDay, CommonLength;
  }

  lemma NextOfMonth(n: int, w: int, v: int)
    requires 0 <= n < 365
    ensures var a, b := DateOfYearDay(n, w), DateOfYearDay(n + 1, v);
            && b.dayOfWeek == v
            && (if n != 364 && a.dayOfMonth == CommonLength(a.month) then b.dayOfMonth == 1 && b.month == a.month % 12 + 1
                else b.dayOfMonth == a.dayOfMonth + 1 && b.month == a.month)
  {
    var mp, k := MonthHolds(n);
    MonthSpan(mp);
    hide CommonLength;
    if k + 1 < (153 * (mp + 1) + 2) / 5 - (153 * mp + 2) / 5 {
      MonthBegins(mp, k + 1);
    } else {
      MonthSpan(mp + 1);
      MonthBegins(mp + 1, 0);
    }
  }

  lemma MonthHolds(n: int) returns (mp: int, k: int)
    requires 0 <= n < 365
    ensures 0 <= mp <= 11 && mp == (5 * n + 2) / 153 && n == (153 * mp + 2) / 5 + k
    ensures 0 <= k < (153 * (mp + 1) + 2) / 5 - (153 * mp + 2) / 5
    ensures mp == 11 ==> k <= 27
  {
    mp := (5 * n + 2) / 153;
    k := n - (153 * mp + 2) / 5;
  }

  lemma MonthSpan(mp: int)
    requires 0 <= mp <= 11
    ensures (153 * (mp + 1) + 2) / 5 - (153 * mp + 2) / 5 >= 30
    ensures mp < 11 ==> (153 * (mp + 1) + 2) / 5 - (153 * mp + 2) / 5 == CommonLength(if mp < 10 then mp + 3 else mp - 9)
    ensures CommonLength(2) == 28
  {
  }

  lemma LastOfFebruary(n: int, w: int)
    requires 0 <= n < 365
    ensures var a := DateOfYearDay(n, w);
            (n == 364 <==> a.month == 2 && a.dayOfMonth == 28) && (a.month <= 2 <==> n >= 306)
  {
  }

  lemma LastOfYear(n: int, w: int)
    requires n == 364 || n == 365
    ensures DateOfYearDay(n, w) == Date(n - 336, 2, w)
  {
  }

  lemma LeapYearTells(y: int)
    ensures YearStart(y + 1) - YearStart(y) == if IsLeapYear(y + 1) then 366 else 365
  {
    YearLength(y);
    Centuries(y + 1);
    hide YearStart;
  }

  lemma TomorrowInYear(d: int, y: int, n: int)
    requires d == YearStart(y) + n - EPOCH && 0 <= n && n + 1 < YearStart(y + 1) - YearStart(y)
    ensures Gregorian(d) == DateOfYearDay(n, (d + EPOCH + 3) % 7) && Gregorian(d + 1) == DateOfYearDay(n + 1, (d + 1 + EPOCH + 3) % 7)
    ensures YearOf(d + EPOCH) == y == YearOf(d + 1 + EPOCH)
  {
    hide YearStart, DateOfYearDay;
    YearOfIs(d + EPOCH, y);
    YearOfIs(d + 1 + EPOCH, y);
  }

  lemma TomorrowNextYear(d: int, y: int, n: int)
    requires d == YearStart(y) + n - EPOCH && 364 <= n && n + 1 == YearStart(y + 1) - YearStart(y)
    ensures Gregorian(d) == DateOfYearDay(n, (d + EPOCH + 3) % 7) && Gregorian(d + 1) == Date(1, 3, (d + 1 + EPOCH + 3) % 7)
    ensures YearOf(d + EPOCH) == y && YearOf(d + 1 + EPOCH) == y + 1
  {
    YearLength(y + 1);
    hide YearStart;
    YearOfIs(d + EPOCH, y);
    YearOfIs(d + 1 + EPOCH, y + 1);
    assert d + 1 + EPOCH == YearStart(y + 1);
  }

  /**
   Each day is followed by the next of its month, or the first of the next month, or of
   the next year, and by the next day of the week.
   */
  lemma TomorrowFollows(d: int)
    ensures var a, b, y := Gregorian(d), Gregorian(d + 1), CivilYear(d);
            && b.dayOfWeek == (a.dayOfWeek + 1) % 7
            && (if a.dayOfMonth < MonthLength(a.month, y) then
                  b.dayOfMonth == a.dayOfMonth + 1 && b.month == a.month && CivilYear(d + 1) == y
                else if a.month < 12 then
                  a.dayOfMonth == MonthLength(a.month, y) && b.dayOfMonth == 1 && b.month == a.month + 1 && CivilYear(d + 1) == y
                else
                  a.dayOfMonth == 31 && b.dayOfMonth == 1 && b.month == 1 && CivilYear(d + 1) == y + 1)
  {
    hide YearStart, YearOf, Gregorian, DateOfYearDay;
    var y, n := YearDayOfDate(d);
    var w := (d + EPOCH + 3) % 7;
    LeapYearTells(y);
    YearDays(n, w);
    hide IsLeapYear;
    if n + 1 < YearStart(y + 1) - YearStart(y) {
      TomorrowInYear(d, y, n);
      NextInYear(n, w, (d + 1 + EPOCH + 3) % 7);
      YearDays(n + 1, (d + 1 + EPOCH + 3) % 7);
    } else {
      TomorrowNextYear(d, y, n);
      LastOfYear(n, w);
    }
  }

  // ----- what the bound means -----

  /** The only day this expression can match is 29 February. */
  predicate LeapDayOnly(e: CronExpression) {
    && e.domRestricted && !e.dowRestricted && 2 in e.month && 29 in e.dayOfMonth
    && NoCommonDate(e)
  }

  predicate NoCommonDate(e: CronExpression) {
    forall m, d :: m in e.month && d in e.dayOfMonth ==> d > CommonLength(m)
  }

  /** No date of any year matches: `30 feb` and the like. */
  predicate NeverMatches(e: CronExpression) {
    && e.domRestricted && !e.dowRestricted && NoCommonDate(e)
    && !(2 in e.month && 29 in e.dayOfMonth)
  }

  lemma NeverMatchesNoDay(e: CronExpression, d: int)
    requires NeverMatches(e)
    ensures !DateFieldsMatch(e, Gregorian(d))
  {
    hide Gregorian;
    GregorianInRange(d);
  }

  /** Unless it needs a leap day or no day at all, an expression matches some day in any 373 days. */
  lemma MatchingDayRecurs(e: CronExpression, from: int) returns (d: int)
    requires WellFormed(e) && !LeapDayOnly(e) && !NeverMatches(e)
    ensures from <= d <= from + 372 && DateFieldsMatch(e, Gregorian(d))
  {
    hide Gregorian;
    if e.domRestricted && !e.dowRestricted {
      var m, day :| m in e.month && day in e.dayOfMonth && day <= CommonLength(m);
      d := DateRecurs(from, m, day);
    } else {
      var m :| m in e.month;
      var w :| w in e.dayOfWeek;
      d := DayOfWeekRecurs(from, m, w);
    }
  }

  /**
   A zone that is never set forward, by the hour, without repeating a day, and
   whose offsets differ by no more than two days. Fixed offsets are the simplest.
   */
  ghost predicate SetBackZone(z: Zone) {
    && z.date == Gregorian
    && (forall lo, hi :: OffsetNeverGrows(z, lo, hi) && DayNeverGoesBack(z, lo, hi) && ShiftsOnTheHour(z, lo, hi))
    && (forall t, u :: Offset(z, t) - Offset(z, u) <= 2 * MINUTES_PER_DAY)
  }

  /** The local clock of such a zone skips no minute. */
  lemma {:induction false} LocalMinuteOccurs(z: Zone, a: int, b: int, minute: int) returns (t: int)
    requires OffsetNeverGrows(z, a, b) && a <= b && z.local(a) <= minute <= z.local(b)
    ensures a <= t <= b && z.local(t) == minute
    decreases b - a
  {
    if z.local(b) == minute {
      t := b;
    } else {
      assert Offset(z, b) <= Offset(z, b - 1);
      t := LocalMinuteOccurs(z, a, b - 1, minute);
    }
  }

  lemma OffsetsWithin(z: Zone, t: int, u: int)
    requires SetBackZone(z) && t <= u
    ensures u - t - 2 * MINUTES_PER_DAY <= z.local(u) - z.local(t) <= u - t
    ensures Day(z, t) <= Day(z, u)
  {
    assert OffsetNeverGrows(z, t, u) && DayNeverGoesBack(z, t, u);
    assert Offset(z, u) <= Offset(z, t) && Offset(z, t) - Offset(z, u) <= 2 * MINUTES_PER_DAY;
  }

  /**
   A matching day after the day of `from` has a matching minute after `from`, at most
   two days later than its count of minutes says.
   */
  lemma DayHasMinute(e: CronExpression, z: Zone, from: int, d: int) returns (t: int)
    requires SetBackZone(z) && WellFormed(e) && DateFieldsMatch(e, Gregorian(d)) && d > Day(z, from)
    ensures t > from && Day(z, t) == d && CronMatches(e, z, t)
    ensures t <= from + (d + 1 - Day(z, from)) * MINUTES_PER_DAY + 2 * MINUTES_PER_DAY
  {
    hide Gregorian, WellFormed, DateFieldsMatch;
    var h, m := ClockTime(e);
    var minute := d * MINUTES_PER_DAY + h * 60 + m;
    var last := from + (d + 1 - Day(z, from)) * MINUTES_PER_DAY + 2 * MINUTES_PER_DAY;
    OffsetsWithin(z, from, last);
    assert OffsetNeverGrows(z, from, last);
    LocalOf(z, from);
    t := LocalMinuteOccurs(z, from, last, minute);
    DivisionIs(minute, MINUTES_PER_DAY, d, h * 60 + m);
    assert TimeOfDay(z, t) == h * 60 + m;
    DivisionIs(h * 60 + m, 60, h, m);
  }

  lemma LocalOf(z: Zone, t: int)
    ensures Day(z, t) * MINUTES_PER_DAY <= z.local(t) < (Day(z, t) + 1) * MINUTES_PER_DAY
  {
  }

  lemma ClockTime(e: CronExpression) returns (h: int, m: int)
    requires WellFormed(e)
    ensures h in e.hour && m in e.minute && 0 <= h <= 23 && 0 <= m <= 59
  {
    h :| h in e.hour;
    m :| m in e.minute;
  }

  /** For an expression that needs no leap day, a search that finds nothing has missed nothing. */
  lemma NothingFoundIsNothing(e: CronExpression, z: Zone, from: int, t: int)
    requires SetBackZone(z) && WellFormed(e) && !LeapDayOnly(e) && t >= FirstCursor(from)
    requires NextRun(e, z, from).None?
    ensures !CronMatches(e, z, t)
  {
    hide Gregorian, WellFormed, LeapDayOnly;
    if NeverMatches(e) {
      NeverMatchesNoDay(e, Day(z, t));
    } else {
      FoundUnlessImpossible(e, z, from);
    }
  }

  lemma FoundUnlessImpossible(e: CronExpression, z: Zone, from: int)
    requires SetBackZone(z) && WellFormed(e) && !LeapDayOnly(e) && !NeverMatches(e)
    ensures NextRun(e, z, from).Some?
  {
    hide Gregorian, WellFormed, LeapDayOnly, NeverMatches, CronMatches;
    var first := FirstCursor(from);
    SetBackZonesAreSafe(z, first, Deadline(from));
    SearchRefinesScan(e, z, first, Deadline(from));
    var d := MatchingDayRecurs(e, Day(z, first) + 1);
    var t := DayHasMinute(e, z, first, d);
    assert t <= first + (374 + 2) * MINUTES_PER_DAY;
    assert first <= t <= Deadline(from);
  }

  /** For one that does, the search on 1 March 2096 finds nothing, and misses 29 February 2104. */
  lemma LeapDayIsMissed(e: CronExpression, z: Zone) returns (from: int, t: int)
    requires SetBackZone(z) && WellFormed(e) && LeapDayOnly(e)
    ensures t >= FirstCursor(from) && NextRun(e, z, from).None? && CronMatches(e, z, t)
  {
    hide Gregorian, WellFormed, YearStart, YearOf;
    var first := MarchFirst(z);
    from := (first - 1) * MS_PER_MINUTE;
    assert FirstCursor(from) == first && Deadline(from) == first - 1 + SEARCH_MINUTES;
    forall u | first <= u <= Deadline(from)
      ensures !CronMatches(e, z, u)
    {
      OffsetsWithin(z, first, u);
      LocalOf(z, u);
      NoLeapDayBefore2104(Day(z, u) + EPOCH);
      OnlyLeapDays(e, Day(z, u));
    }
    SearchIsSound(e, z, first, Deadline(from));
    var d := LeapDayAfter(Day(z, first) + 1);
    t := DayHasMinute(e, z, first, d);
  }

  lemma OnlyLeapDays(e: CronExpression, d: int)
    requires LeapDayOnly(e)
    ensures DateFieldsMatch(e, Gregorian(d)) ==> Gregorian(d).month == 2 && Gregorian(d).dayOfMonth == 29
  {
    hide Gregorian;
    GregorianInRange(d);
  }

  /** The minute at which the local clock shows the beginning of 1 March 2096. */
  lemma MarchFirst(z: Zone) returns (t: int)
    requires SetBackZone(z)
    ensures z.local(t) == (YearStart(2096) - EPOCH) * MINUTES_PER_DAY && Day(z, t) == YearStart(2096) - EPOCH
  {
    hide Gregorian, YearStart;
    var minute := (YearStart(2096) - EPOCH) * MINUTES_PER_DAY;
    var guess := minute - Offset(z, 0);
    var a, b := guess - 2 * MINUTES_PER_DAY, guess + 2 * MINUTES_PER_DAY;
    assert Offset(z, 0) - Offset(z, b) <= 2 * MINUTES_PER_DAY && Offset(z, a) - Offset(z, 0) <= 2 * MINUTES_PER_DAY;
    assert OffsetNeverGrows(z, a, b);
    t := LocalMinuteOccurs(z, a, b, minute);
    DivisionIs(minute, MINUTES_PER_DAY, YearStart(2096) - EPOCH, 0);
  }

  /**
   In such a zone, "nothing in four years means nothing at all" is true of an
   expression exactly when 29 February is not the only day it can match: for
   every other one each empty search is right, for each of those some search is wrong.
   */
  lemma FourYearBoundIsExact(e: CronExpression, z: Zone)
    requires SetBackZone(z) && WellFormed(e)
    ensures (forall from, t :: NextRun(e, z, from).None? && t >= FirstCursor(from) ==> !CronMatches(e, z, t)) <==> !LeapDayOnly(e)
  {
    hide Gregorian, WellFormed, SetBackZone, LeapDayOnly;
    if LeapDayOnly(e) {
      var from, t := LeapDayIsMissed(e, z);
    } else {
      forall from, t | NextRun(e, z, from).None? && t >= FirstCursor(from)
        ensures !CronMatches(e, z, t)
      {
        NothingFoundIsNothing(e, z, from, t);
      }
    }
  }

  lemma FixedZonesAreSetBack(offset: int)
    ensures SetBackZone(FixedZone(offset, Gregorian))
  {
    hide Gregorian;
  }

  /**
   `0 4 29 feb *` asked on 1 March 2096 (UTC): 2100 is not a leap year, and the search
   gives up before the match in 2104.
   */
  lemma CenturyLosesLeapDay()
    ensures var e := DailyAt(4, 0).(month := {2}, dayOfMonth := {29}, domRestricted := true);
            var utc := FixedZone(0, Gregorian);
            var from := (YearStart(2096) - EPOCH) * MINUTES_PER_DAY * MS_PER_MINUTE;
            var leapDay2104 := (YearStart(2104) - 1 - EPOCH) * MINUTES_PER_DAY + 4 * 60;
            && WellFormed(e) && LeapDayOnly(e) && NextRun(e, utc, from).None?
            && leapDay2104 > FirstCursor(from) && CronMatches(e, utc, leapDay2104)
  {
    var e := DailyAt(4, 0).(month := {2}, dayOfMonth := {29}, domRestricted := true);
    Around2100();
    LeapDay2104();
    hide YearStart, YearOf, Gregorian;
    var start := YearStart(2096) - EPOCH;
    var from := start * MINUTES_PER_DAY * MS_PER_MINUTE;
    var utc := FixedZone(0, Gregorian);
    assert 0 in Range(0, 6);
    forall t | FirstCursor(from) <= t <= Deadline(from)
      ensures !CronMatches(e, utc, t)
    {
      LocalOf(utc, t);
      assert start <= Day(utc, t) <= start + 1464;
      NoLeapDayBefore2104(Day(utc, t) + EPOCH);
    }
    SearchIsSound(e, utc, FirstCursor(from), Deadline(from));
    var day := YearStart(2104) - 1 - EPOCH;
    DivisionIs(day * MINUTES_PER_DAY + 240, MINUTES_PER_DAY, day, 240);
  }

  lemma LeapDay2104()
    ensures YearStart(2104) > YearStart(2096) + 1464
    ensures Gregorian(YearStart(2104) - 1 - EPOCH).month == 2 && Gregorian(YearStart(2104) - 1 - EPOCH).dayOfMonth == 29
  {
    Around2100();
    hide Gregorian, YearStart, YearOf;
    var d := GregorianAt(2103, 365);
    YearDays(365, (YearStart(2103) + 365 + 3) % 7);
  }

  lemma Around2100()
    ensures YearStart(2096) == 765549 && YearStart(2097) == 765914 && YearStart(2098) == 766279
    ensures YearStart(2099) == 766644 && YearStart(2100) == 767009 && YearStart(2101) == 767374
    ensures YearStart(2103) == 768104 && YearStart(2104) == 768470
  {
  }

  lemma NoLeapDayBefore2104(z: int)
    requires YearStart(2096) <= z <= YearStart(2096) + 1464
    ensures !(Gregorian(z - EPOCH).month == 2 && Gregorian(z - EPOCH).dayOfMonth == 29)
  {
    Around2100();
    hide YearStart, YearOf, Gregorian;
    var y := if z < YearStart(2097) then 2096 else if z < YearStart(2098) then 2097
             else if z < YearStart(2099) then 2098 else if z < YearStart(2100) then 2099 else 2100;
    var n := z - YearStart(y);
    assert 0 <= n < 365 && n < YearStart(y + 1) - YearStart(y);
    var d := GregorianAt(y, n);
    YearDays(n, (YearStart(y) + n + 3) % 7);
  }
}
