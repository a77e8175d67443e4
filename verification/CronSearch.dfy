/**
 The schedule search. Instants are whole UTC minutes, as every cursor of the
 search is; a zone says what the local clock and calendar show at each of them.
 */
module CronSearch {
  import opened Common

  const MINUTES_PER_DAY := 1440
  const MS_PER_MINUTE := 60_000
  const SEARCH_MINUTES := 4 * 366 * MINUTES_PER_DAY

  datatype CronExpression = CronExpression(
    minute: set<int>,
    hour: set<int>,
    dayOfMonth: set<int>,
    month: set<int>,
    dayOfWeek: set<int>,
    domRestricted: bool,
    dowRestricted: bool)

  datatype Date = Date(dayOfMonth: int, month: int, dayOfWeek: int)

  /** `local` maps a UTC minute to the number of the local minute, `date` a local day number to its date. */
  datatype Zone = Zone(local: int -> int, date: int -> Date)

  function TimeOfDay(z: Zone, t: int): (r: int)
    ensures 0 <= r < MINUTES_PER_DAY
  {
    z.local(t) % MINUTES_PER_DAY
  }

  function Day(z: Zone, t: int): int {
    z.local(t) / MINUTES_PER_DAY
  }

  function DateAt(z: Zone, t: int): Date {
    z.date(Day(z, t))
  }

  function HourAt(z: Zone, t: int): int {
    TimeOfDay(z, t) / 60
  }

  function MinuteAt(z: Zone, t: int): int {
    TimeOfDay(z, t) % 60
  }

  predicate DateFieldsMatch(e: CronExpression, d: Date) {
    d.month in e.month &&
    if e.domRestricted && e.dowRestricted then d.dayOfMonth in e.dayOfMonth || d.dayOfWeek in e.dayOfWeek
    else if e.domRestricted then d.dayOfMonth in e.dayOfMonth
    else if e.dowRestricted then d.dayOfWeek in e.dayOfWeek
    else true
  }

  predicate CronMatches(e: CronExpression, z: Zone, t: int) {
    DateFieldsMatch(e, DateAt(z, t)) && HourAt(z, t) in e.hour && MinuteAt(z, t) in e.minute
  }

  // ----- the search -----

  /** Where the cursor goes from a minute that does not match. */
  function NextCursor(e: CronExpression, z: Zone, t: int): (r: int)
    ensures t < r <= t + MINUTES_PER_DAY
  {
    if !DateFieldsMatch(e, DateAt(z, t)) then t + (MINUTES_PER_DAY - TimeOfDay(z, t))
    else if HourAt(z, t) !in e.hour then t + (60 - MinuteAt(z, t))
    else t + 1
  }

  function Search(e: CronExpression, z: Zone, cursor: int, deadline: int): Option<int>
    decreases deadline - cursor
  {
    if cursor > deadline then None
    else if CronMatches(e, z, cursor) then Some(cursor)
    else Search(e, z, NextCursor(e, z, cursor), deadline)
  }

  /** The first whole minute after `from`, a time in milliseconds. */
  function FirstCursor(from: int): int {
    from / MS_PER_MINUTE + 1
  }

  /** The last whole minute not past the deadline. */
  function Deadline(from: int): int {
    (from + SEARCH_MINUTES * MS_PER_MINUTE) / MS_PER_MINUTE
  }

  function NextRun(e: CronExpression, z: Zone, from: int): Option<int> {
    Search(e, z, FirstCursor(from), Deadline(from))
  }

  method NextCronRun(e: CronExpression, z: Zone, from: int) returns (r: Option<int>)
    ensures r == NextRun(e, z, from)
    ensures r.Some? ==> from < r.value * 60_000 <= from + 126_489_600_000
    ensures r.Some? ==> CronMatches(e, z, r.value)
    ensures JumpSafe(z, FirstCursor(from), if r.Some? then r.value else Deadline(from)) ==>
              IsFirstMatch(e, z, FirstCursor(from), Deadline(from), r)
    ensures JumpSafe(z, FirstCursor(from), if r.Some? then r.value else Deadline(from)) ==>
              forall t :: from < t * 60_000 <= from + 126_489_600_000 && (r.Some? ==> t < r.value) ==> !CronMatches(e, z, t)
  {
    var cursor := FirstCursor(from);
    var deadline := from + SEARCH_MINUTES * MS_PER_MINUTE;
    while cursor * MS_PER_MINUTE <= deadline
      invariant cursor >= FirstCursor(from)
      invariant Search(e, z, cursor, Deadline(from)) == NextRun(e, z, from)
      decreases Deadline(from) - cursor
    {
      assert cursor <= Deadline(from);
      var timeOfDay := z.local(cursor) % MINUTES_PER_DAY;
      if !DateFieldsMatch(e, z.date(z.local(cursor) / MINUTES_PER_DAY)) {
        cursor := cursor + (MINUTES_PER_DAY - timeOfDay);
        continue;
      }
      if timeOfDay / 60 !in e.hour {
        cursor := cursor + (60 - timeOfDay % 60);
        continue;
      }
      if timeOfDay % 60 in e.minute {
        SearchIsSound(e, z, FirstCursor(from), Deadline(from));
        if JumpSafe(z, FirstCursor(from), cursor) {
          FirstUpToResult(e, z, FirstCursor(from), Deadline(from));
        }
        return Some(cursor);
      }
      cursor := cursor + 1;
    }
    SearchRefinesScan(e, z, FirstCursor(from), Deadline(from));
    r := None;
  }

  // ----- the minute-by-minute scan it stands for -----

  /** `r` is the first matching minute in `lo..hi`, or none when there is none. */
  ghost predicate IsFirstMatch(e: CronExpression, z: Zone, lo: int, hi: int, r: Option<int>) {
    if r.Some? then
      lo <= r.value <= hi && CronMatches(e, z, r.value)
      && forall t :: lo <= t < r.value ==> !CronMatches(e, z, t)
    else
      forall t :: lo <= t <= hi ==> !CronMatches(e, z, t)
  }

  /**
   No jump from a minute in `lo..hi` leaves the unit it rules out: up to the
   minute a day jump lands on the date stays the same, and up to the minute an
   hour jump lands on the hour does.
   */
  ghost predicate JumpSafe(z: Zone, lo: int, hi: int) {
    && (forall t, u :: lo <= t < u <= hi && u < t + (MINUTES_PER_DAY - TimeOfDay(z, t)) ==> DateAt(z, u) == DateAt(z, t))
    && (forall t, u :: lo <= t < u <= hi && u < t + (60 - MinuteAt(z, t)) ==> HourAt(z, u) == HourAt(z, t))
  }

  lemma JumpSkipsNoMatch(e: CronExpression, z: Zone, lo: int, hi: int, t: int, u: int)
    requires JumpSafe(z, lo, hi) && lo <= t <= u <= hi && !CronMatches(e, z, t)
    requires u < NextCursor(e, z, t)
    ensures !CronMatches(e, z, u)
  {
  }

  lemma {:induction false} SearchFindsFirst(e: CronExpression, z: Zone, lo: int, cursor: int, hi: int)
    requires JumpSafe(z, lo, hi) && lo <= cursor
    requires forall t :: lo <= t < cursor && t <= hi ==> !CronMatches(e, z, t)
    ensures IsFirstMatch(e, z, lo, hi, Search(e, z, cursor, hi))
    decreases hi - cursor
  {
    if cursor <= hi && !CronMatches(e, z, cursor) {
      forall t | lo <= t < NextCursor(e, z, cursor) && t <= hi
        ensures !CronMatches(e, z, t)
      {
        if t >= cursor {
          JumpSkipsNoMatch(e, z, lo, hi, cursor, t);
        }
      }
      SearchFindsFirst(e, z, lo, NextCursor(e, z, cursor), hi);
    }
  }

  /** In every zone the result is a match inside the window. */
  lemma {:induction false} SearchIsSound(e: CronExpression, z: Zone, cursor: int, hi: int)
    ensures var r := Search(e, z, cursor, hi);
            r.Some? ==> cursor <= r.value <= hi && CronMatches(e, z, r.value)
    decreases hi - cursor
  {
    if cursor <= hi && !CronMatches(e, z, cursor) {
      SearchIsSound(e, z, NextCursor(e, z, cursor), hi);
    }
  }

  lemma {:induction false} CutAtResult(e: CronExpression, z: Zone, cursor: int, hi: int)
    requires Search(e, z, cursor, hi).Some?
    ensures var r := Search(e, z, cursor, hi);
            r.value <= hi && Search(e, z, cursor, r.value) == r
    decreases hi - cursor
  {
    SearchIsSound(e, z, cursor, hi);
    if !CronMatches(e, z, cursor) {
      CutAtResult(e, z, NextCursor(e, z, cursor), hi);
      SearchIsSound(e, z, NextCursor(e, z, cursor), hi);
    }
  }

  /**
   A result is the first match as soon as no jump before it crosses a date or an hour,
   whatever the zone does later.
   */
  lemma FirstUpToResult(e: CronExpression, z: Zone, lo: int, hi: int)
    requires Search(e, z, lo, hi).Some? && JumpSafe(z, lo, Search(e, z, lo, hi).value)
    ensures IsFirstMatch(e, z, lo, hi, Search(e, z, lo, hi))
  {
    CutAtResult(e, z, lo, hi);
    SearchFindsFirst(e, z, lo, lo, Search(e, z, lo, hi).value);
  }

  lemma SearchRefinesScan(e: CronExpression, z: Zone, lo: int, hi: int)
    ensures var r := Search(e, z, lo, hi);
            && (r.Some? ==> lo <= r.value <= hi && CronMatches(e, z, r.value))
            && (JumpSafe(z, lo, hi) ==> IsFirstMatch(e, z, lo, hi, r))
  {
    SearchIsSound(e, z, lo, hi);
    if JumpSafe(z, lo, hi) {
      SearchFindsFirst(e, z, lo, lo, hi);
    }
  }

  // ----- what an expression means -----

  /** The clock shows hour and minute of the local minute, and the date of its day. */
  lemma ClockShows(z: Zone, t: int)
    ensures 0 <= HourAt(z, t) < 24 && 0 <= MinuteAt(z, t) < 60
    ensures z.local(t) == Day(z, t) * 1440 + HourAt(z, t) * 60 + MinuteAt(z, t)
    ensures DateAt(z, t) == z.date(Day(z, t))
  {
  }

  /** `e` with `*` for the day of the month. */
  function AnyDayOfMonth(e: CronExpression): CronExpression {
    e.(dayOfMonth := Range(1, 31), domRestricted := false)
  }

  /** `e` with `*` for the day of the week. */
  function AnyDayOfWeek(e: CronExpression): CronExpression {
    e.(dayOfWeek := Range(0, 6), dowRestricted := false)
  }

  /**
   A day field that is given decides alone when the other is `*`: then every field has
   to hold what the clock shows.
   */
  lemma MatchesFieldByField(e: CronExpression, z: Zone, t: int)
    requires WellFormed(e) && CalendarInRange(z) && !(e.domRestricted && e.dowRestricted)
    ensures CronMatches(e, z, t) <==>
      && MinuteAt(z, t) in e.minute && HourAt(z, t) in e.hour && DateAt(z, t).month in e.month
      && DateAt(z, t).dayOfMonth in e.dayOfMonth && DateAt(z, t).dayOfWeek in e.dayOfWeek
  {
  }

  /**
   When both day fields are given, a day that one of them holds is enough: `e` matches
   when either of two simpler expressions does.
   */
  lemma EitherDayMatches(e: CronExpression, z: Zone, t: int)
    requires WellFormed(e) && e.domRestricted && e.dowRestricted
    ensures WellFormed(AnyDayOfWeek(e)) && WellFormed(AnyDayOfMonth(e))
    ensures CronMatches(e, z, t) <==> CronMatches(AnyDayOfWeek(e), z, t) || CronMatches(AnyDayOfMonth(e), z, t)
  {
    assert 1 in Range(1, 31) && 0 in Range(0, 6);
  }

  function Earlier(a: Option<int>, b: Option<int>): Option<int> {
    if a.None? then b else if b.None? then a else if a.value <= b.value then a else b
  }

  /** So its next run is the earlier of theirs. */
  lemma NextRunIsTheEarlier(e: CronExpression, z: Zone, from: int)
    requires WellFormed(e) && e.domRestricted && e.dowRestricted
    requires JumpSafe(z, FirstCursor(from), Deadline(from))
    ensures NextRun(e, z, from) == Earlier(NextRun(AnyDayOfWeek(e), z, from), NextRun(AnyDayOfMonth(e), z, from))
  {
    var lo, hi := FirstCursor(from), Deadline(from);
    forall t
      ensures CronMatches(e, z, t) <==> CronMatches(AnyDayOfWeek(e), z, t) || CronMatches(AnyDayOfMonth(e), z, t)
    {
      EitherDayMatches(e, z, t);
    }
    SearchRefinesScan(e, z, lo, hi);
    SearchRefinesScan(AnyDayOfWeek(e), z, lo, hi);
    SearchRefinesScan(AnyDayOfMonth(e), z, lo, hi);
    hide CronMatches, JumpSafe, WellFormed, Search;
  }

  // ----- exactly the zones in which no jump skips a match -----

  ghost predicate CalendarInRange(z: Zone) {
    forall d :: 1 <= z.date(d).dayOfMonth <= 31 && 1 <= z.date(d).month <= 12 && 0 <= z.date(d).dayOfWeek <= 6
  }

  predicate Within(i: int, lo: int, hi: int) {
    lo <= i <= hi
  }

  function Range(lo: int, hi: int): (r: set<int>)
    ensures forall i :: i in r <==> lo <= i <= hi
  {
    set i | lo <= i <= hi && Within(i, lo, hi)
  }

  /** What a parsed expression satisfies. */
  ghost predicate WellFormed(e: CronExpression) {
    && e.minute != {} && e.minute <= Range(0, 59)
    && e.hour != {} && e.hour <= Range(0, 23)
    && e.dayOfMonth != {} && e.dayOfMonth <= Range(1, 31)
    && e.month != {} && e.month <= Range(1, 12)
    && e.dayOfWeek != {} && e.dayOfWeek <= Range(0, 6)
    && (!e.domRestricted ==> e.dayOfMonth == Range(1, 31))
    && (!e.dowRestricted ==> e.dayOfWeek == Range(0, 6))
  }

  /** `m h * * *` */
  function DailyAt(hour: int, minute: int): CronExpression {
    CronExpression({minute}, {hour}, Range(1, 31), Range(1, 12), Range(0, 6), false, false)
  }

  /** An expression for the clock time at `u` whose date fields match the date at `u` and not that at `t`. */
  function Telling(z: Zone, t: int, u: int): CronExpression {
    var e := DailyAt(HourAt(z, u), MinuteAt(z, u));
    if DateAt(z, u).month != DateAt(z, t).month then e.(month := {DateAt(z, u).month})
    else if DateAt(z, u).dayOfMonth != DateAt(z, t).dayOfMonth then
      e.(dayOfMonth := {DateAt(z, u).dayOfMonth}, domRestricted := true)
    else e.(dayOfWeek := {DateAt(z, u).dayOfWeek}, dowRestricted := true)
  }

  /** A search that starts at `t` and jumps over the match at `u` does not return the first match. */
  lemma SkippedMatchIsLost(e: CronExpression, z: Zone, t: int, u: int, hi: int)
    requires t < u <= hi && !CronMatches(e, z, t) && CronMatches(e, z, u) && u < NextCursor(e, z, t)
    ensures !IsFirstMatch(e, z, t, hi, Search(e, z, t, hi))
  {
    SearchIsSound(e, z, NextCursor(e, z, t), hi);
    assert Search(e, z, t, hi) == Search(e, z, NextCursor(e, z, t), hi);
  }

  /** The search agrees with the scan for every expression and start exactly when no jump crosses a date or an hour. */
  lemma ExactlyTheJumpSafeZones(z: Zone)
    requires CalendarInRange(z)
    ensures (forall lo, hi :: JumpSafe(z, lo, hi)) <==>
            (forall e, from :: WellFormed(e) ==>
               IsFirstMatch(e, z, FirstCursor(from), Deadline(from), NextRun(e, z, from)))
  {
    if forall lo, hi :: JumpSafe(z, lo, hi) {
      forall e, from | WellFormed(e)
        ensures IsFirstMatch(e, z, FirstCursor(from), Deadline(from), NextRun(e, z, from))
      {
        SearchRefinesScan(e, z, FirstCursor(from), Deadline(from));
      }
    } else {
      var lo, hi :| !JumpSafe(z, lo, hi);
      var e, from := UnsafeZoneLosesAMatch(z, lo, hi);
      assert WellFormed(e) && !IsFirstMatch(e, z, FirstCursor(from), Deadline(from), NextRun(e, z, from));
    }
  }

  lemma TellingTells(z: Zone, t: int, u: int)
    requires CalendarInRange(z) && DateAt(z, u) != DateAt(z, t)
    ensures var e := Telling(z, t, u);
            WellFormed(e) && CronMatches(e, z, u) && !DateFieldsMatch(e, DateAt(z, t))
  {
    DailyIsWellFormed(z, u);
  }

  lemma DailyIsWellFormed(z: Zone, u: int)
    requires CalendarInRange(z)
    ensures var e := DailyAt(HourAt(z, u), MinuteAt(z, u));
            && WellFormed(e) && CronMatches(e, z, u)
            && forall t :: DateFieldsMatch(e, DateAt(z, t))
  {
    assert 1 in Range(1, 31) && 1 in Range(1, 12) && 0 in Range(0, 6);
  }

  lemma UnsafeZoneLosesAMatch(z: Zone, lo: int, hi: int) returns (e: CronExpression, from: int)
    requires CalendarInRange(z) && !JumpSafe(z, lo, hi)
    ensures WellFormed(e) && !IsFirstMatch(e, z, FirstCursor(from), Deadline(from), NextRun(e, z, from))
  {
    var t, u;
    if exists t, u :: lo <= t < u <= hi && u < t + (MINUTES_PER_DAY - TimeOfDay(z, t)) && DateAt(z, u) != DateAt(z, t) {
      t, u :| lo <= t < u <= hi && u < t + (MINUTES_PER_DAY - TimeOfDay(z, t)) && DateAt(z, u) != DateAt(z, t);
      e := Telling(z, t, u);
      TellingTells(z, t, u);
      assert u < NextCursor(e, z, t);
    } else {
      t, u :| lo <= t < u <= hi && u < t + (60 - MinuteAt(z, t)) && HourAt(z, u) != HourAt(z, t);
      e := DailyAt(HourAt(z, u), MinuteAt(z, u));
      DailyIsWellFormed(z, u);
      assert u < NextCursor(e, z, t);
    }
    from := (t - 1) * MS_PER_MINUTE;
    assert FirstCursor(from) == t && u <= Deadline(from);
    SkippedMatchIsLost(e, z, t, u, Deadline(from));
  }

  // ----- zones that are safe, and one that is not -----

  function Offset(z: Zone, t: int): int {
    z.local(t) - t
  }

  /** The clock is only ever set back. */
  ghost predicate OffsetNeverGrows(z: Zone, lo: int, hi: int) {
    forall t, u :: lo <= t <= u <= hi ==> Offset(z, u) <= Offset(z, t)
  }

  ghost predicate DayNeverGoesBack(z: Zone, lo: int, hi: int) {
    forall t, u :: lo <= t <= u <= hi ==> Day(z, t) <= Day(z, u)
  }

  /** A shift happens only when the old offset would have shown a full hour. */
  ghost predicate ShiftsOnTheHour(z: Zone, lo: int, hi: int) {
    forall t :: lo < t <= hi && Offset(z, t) != Offset(z, t - 1) ==> (t + Offset(z, t - 1)) % 60 == 0
  }

  lemma {:induction false} NoShiftWithinAnHour(z: Zone, lo: int, hi: int, t: int, u: int)
    requires ShiftsOnTheHour(z, lo, hi) && lo <= t <= u <= hi && u < t + (60 - MinuteAt(z, t))
    ensures Offset(z, u) == Offset(z, t) && HourAt(z, u) == HourAt(z, t)
    decreases u - t
  {
    if t < u {
      NoShiftWithinAnHour(z, lo, hi, t, u - 1);
      SameHour(z.local(t), z.local(t) + (u - t));
    }
  }

  lemma DivisionIs(x: int, m: int, q: int, r: int)
    requires m == 60 || m == MINUTES_PER_DAY
    requires 0 <= r < m && x == q * m + r
    ensures x / m == q && x % m == r
  {
  }

  lemma SameHour(a: int, b: int)
    requires a <= b < a + (60 - (a % MINUTES_PER_DAY) % 60)
    ensures b % MINUTES_PER_DAY / 60 == a % MINUTES_PER_DAY / 60 && b / MINUTES_PER_DAY == a / MINUTES_PER_DAY
    ensures a < b ==> b % 60 != 0
  {
    var day, minute := a / MINUTES_PER_DAY, a % MINUTES_PER_DAY;
    var later := minute + (b - a);
    DivisionIs(later, 60, minute / 60, minute % 60 + (b - a));
    DivisionIs(b, MINUTES_PER_DAY, day, later);
    DivisionIs(b, 60, day * 24 + minute / 60, minute % 60 + (b - a));
  }

  /**
   Zones whose shifts fall on the hour and only ever set the clock back, without
   repeating a day, are searched exactly.
   */
  lemma SetBackZonesAreSafe(z: Zone, lo: int, hi: int)
    requires OffsetNeverGrows(z, lo, hi) && DayNeverGoesBack(z, lo, hi) && ShiftsOnTheHour(z, lo, hi)
    ensures JumpSafe(z, lo, hi)
  {
    forall t, u | lo <= t < u <= hi && u < t + (MINUTES_PER_DAY - TimeOfDay(z, t))
      ensures DateAt(z, u) == DateAt(z, t)
    {
      assert Offset(z, u) <= Offset(z, t);
      assert Day(z, t) <= Day(z, u);
    }
    forall t, u | lo <= t < u <= hi && u < t + (60 - MinuteAt(z, t))
      ensures HourAt(z, u) == HourAt(z, t)
    {
      NoShiftWithinAnHour(z, lo, hi, t, u);
    }
  }

  function FixedZone(offset: int, date: int -> Date): Zone {
    Zone((t: int) => t + offset, date)
  }

  lemma FixedZonesAreSafe(offset: int, date: int -> Date, lo: int, hi: int)
    ensures JumpSafe(FixedZone(offset, date), lo, hi)
  {
    SetBackZonesAreSafe(FixedZone(offset, date), lo, hi);
  }

  /** Day 0 is a Sunday whose clock jumps from 02:00 to 03:00. */
  function SpringZone(): Zone {
    Zone((t: int) => if t < 120 then t else t + 60, (d: int) => Date(1, 1, d % 7))
  }

  /** `30 0 * * mon` asked on that Sunday at 00:09 misses Monday 00:30. */
  lemma SpringForwardSkipsAMatch()
    ensures var e := DailyAt(0, 30).(dayOfWeek := {1}, dowRestricted := true);
            var from := 9 * MS_PER_MINUTE;
            var monday := 1410;
            && WellFormed(e)
            && FirstCursor(from) < monday <= Deadline(from) && CronMatches(e, SpringZone(), monday)
            && (var r := NextRun(e, SpringZone(), from); r.Some? ==> r.value > monday)
            && !JumpSafe(SpringZone(), FirstCursor(from), Deadline(from))
  {
    var z := SpringZone();
    var e := DailyAt(0, 30).(dayOfWeek := {1}, dowRestricted := true);
    var from := 9 * MS_PER_MINUTE;
    assert 1 in Range(1, 31) && 1 in Range(1, 12) && 1 in Range(0, 6);
    assert FirstCursor(from) == 10 && !DateFieldsMatch(e, DateAt(z, 10));
    assert NextCursor(e, z, 10) == 1440;
    assert Search(e, z, 10, Deadline(from)) == Search(e, z, 1440, Deadline(from));
    SearchIsSound(e, z, 1440, Deadline(from));
    assert z.local(1410) == 1470;
    assert DateAt(z, 1410) != DateAt(z, 10);
  }
}
