/**
 Weeks and bill cycles: the bucket a moment falls in.

 Moments are milliseconds since 1970-01-01 UTC.

 - The calendar is the proleptic Gregorian one that ECMAScript dates follow: `DayNumber` is its day
   count, with the months' lengths in `DaysInMonth`.
 - A bill cycle starts on the bill day of a month, or on the month's last day when that comes first.
   `MonthKeyOf` names the start, and `ExactlyOneCycle` says that no date is left out or counted twice.
 - A week starts a whole number of weeks from the account's reset, when that is known, else on Monday;
   `ExactlyOneWeek` says the same of moments, and at which end a boundary belongs.
 */
module BillCycle {
  import opened Basics

  const DAY: int := 86400000
  const WEEK: int := 7 * DAY

  // ---------- the calendar ----------

  /** A day of a month of a year; months count from 0. */
  datatype Date = Date(year: int, month: nat, day: int)

  predicate IsLeap(y: int)
  {
    y % 4 == 0 && (y % 100 != 0 || y % 400 == 0)
  }

  function DaysInMonth(y: int, m: nat): (n: int)
    ensures 28 <= n <= 31
  {
    if m == 1 then (if IsLeap(y) then 29 else 28)
    else if m == 3 || m == 5 || m == 8 || m == 10 then 30
    else 31
  }

  predicate Valid(d: Date)
  {
    d.month < 12 && 1 <= d.day <= DaysInMonth(d.year, d.month)
  }

  /** Days before the first of January, counted from 1970. */
  function DayFromYear(y: int): int
  {
    365 * (y - 1970) + (y - 1969) / 4 - (y - 1901) / 100 + (y - 1601) / 400
  }

  function DaysBefore(y: int, m: nat): nat
  {
    if m == 0 then 0 else DaysBefore(y, m - 1) + DaysInMonth(y, m - 1)
  }

  function DayNumber(d: Date): int
  {
    DayFromYear(d.year) + DaysBefore(d.year, d.month) + d.day - 1
  }

  /** The order of years, months, days. */
  predicate Earlier(a: Date, b: Date)
  {
    a.year < b.year || (a.year == b.year && (a.month < b.month || (a.month == b.month && a.day < b.day)))
  }

  lemma MonthsOfYear(y: int)
    ensures DaysBefore(y, 12) == if IsLeap(y) then 366 else 365
  {
    assert DaysBefore(y, 1) == 31;
    assert DaysBefore(y, 2) == 59 + if IsLeap(y) then 1 else 0;
    assert DaysBefore(y, 4) == DaysBefore(y, 3) + 30 == DaysBefore(y, 2) + 61;
    assert DaysBefore(y, 6) == DaysBefore(y, 5) + 30 == DaysBefore(y, 4) + 61;
    assert DaysBefore(y, 8) == DaysBefore(y, 7) + 31 == DaysBefore(y, 6) + 62;
    assert DaysBefore(y, 10) == DaysBefore(y, 9) + 31 == DaysBefore(y, 8) + 61;
    assert DaysBefore(y, 12) == DaysBefore(y, 11) + 31 == DaysBefore(y, 10) + 61;
  }

  lemma YearLength(y: int)
    ensures DayFromYear(y + 1) == DayFromYear(y) + DaysBefore(y, 12)
    ensures DaysBefore(y, 12) == if IsLeap(y) then 366 else 365
  {
    assert (y - 1968) / 4 == (y - 1969) / 4 + (if y % 4 == 0 then 1 else 0);
    assert (y - 1900) / 100 == (y - 1901) / 100 + (if y % 100 == 0 then 1 else 0);
    assert (y - 1600) / 400 == (y - 1601) / 400 + (if y % 400 == 0 then 1 else 0);
    assert y % 400 == 0 ==> y % 100 == 0;
    assert y % 100 == 0 ==> y % 4 == 0;
    MonthsOfYear(y);
  }

  lemma {:induction false} LaterMonths(y: int, m: nat, n: nat)
    requires m < n
    ensures DaysBefore(y, m) + DaysInMonth(y, m) <= DaysBefore(y, n)
    decreases n
  {
    if m + 1 < n {
      LaterMonths(y, m, n - 1);
    }
  }

  lemma {:induction false} LaterYears(y: int, z: int)
    requires y < z
    ensures DayFromYear(y) + DaysBefore(y, 12) <= DayFromYear(z)
    decreases z - y
  {
    YearLength(z - 1);
    if y < z - 1 {
      LaterYears(y, z - 1);
    } else {
      YearLength(y);
    }
  }

  lemma EarlierIsSmaller(a: Date, b: Date)
    requires Valid(a) && Valid(b)
    ensures Earlier(a, b) ==> DayNumber(a) < DayNumber(b)
  {
    LaterMonths(a.year, a.month, 12);
    if a.year < b.year {
      LaterYears(a.year, b.year);
    } else if a.year == b.year && a.month < b.month {
      LaterMonths(a.year, a.month, b.month);
    }
  }

  /** Dates and their day numbers have the same order; no two dates share a day. */
  lemma DayNumberOrders(a: Date, b: Date)
    requires Valid(a) && Valid(b)
    ensures Earlier(a, b) <==> DayNumber(a) < DayNumber(b)
    ensures DayNumber(a) == DayNumber(b) ==> a == b
  {
    EarlierIsSmaller(a, b);
    EarlierIsSmaller(b, a);
  }

  /** `Date.UTC(y, m + 1, 0)` is the last day of month `m`. */
  lemma DayZeroOfNextMonth(y: int, m: nat)
    ensures var first := if m == 11 then Date(y + 1, 0, 0) else Date(y, m + 1, 0);
            DayNumber(first) == DayNumber(Date(y, m, DaysInMonth(y, m)))
  {
    if m == 11 {
      YearLength(y);
    }
  }

  // ---------- bill cycles ----------

  /** The bill day, or the last day of a month too short for it. */
  function Clamp(y: int, m: nat, billDay: int): int
  {
    Min(billDay, DaysInMonth(y, m))
  }

  /** The day a cycle starts on. */
  predicate IsCycleStart(s: Date, billDay: int)
  {
    s.month < 12 && s.day == Clamp(s.year, s.month, billDay)
  }

  function NextStart(s: Date, billDay: int): Date
  {
    if s.month == 11 then Date(s.year + 1, 0, Clamp(s.year + 1, 0, billDay))
    else Date(s.year, s.month + 1, Clamp(s.year, s.month + 1, billDay))
  }

  /** The key of a moment's month: a calendar month, or the day its bill cycle started on. */
  datatype MonthKey = Calendar(year: int, month: nat) | Cycle(start: Date)

  predicate HasCycles(billDay: Option<int>)
  {
    billDay.Some? && billDay.value > 1
  }

  /** The cycle a date's key names. */
  function StartOf(d: Date, billDay: int): Date
  {
    if d.day >= Clamp(d.year, d.month, billDay) then Date(d.year, d.month, Clamp(d.year, d.month, billDay))
    else if d.month == 0 then Date(d.year - 1, 11, Clamp(d.year - 1, 11, billDay))
    else Date(d.year, d.month - 1, Clamp(d.year, d.month - 1, billDay))
  }

  /** The cycle of a date is named by the greatest cycle start on or before it. */
  method MonthKeyOf(d: Date, billDay: Option<int>) returns (key: MonthKey)
    requires Valid(d)
    ensures !HasCycles(billDay) ==> key == Calendar(d.year, d.month)
    ensures HasCycles(billDay) ==> key == Cycle(StartOf(d, billDay.value))
    ensures HasCycles(billDay) ==> key.Cycle? && Valid(key.start) && IsCycleStart(key.start, billDay.value) && !Earlier(d, key.start)
    ensures HasCycles(billDay) ==>
              forall s | IsCycleStart(s, billDay.value) && !Earlier(d, s) :: s == key.start || Earlier(s, key.start)
  {
    if billDay.None? || billDay.value <= 1 {
      return Calendar(d.year, d.month);
    }
    var y, m := d.year, d.month;
    if d.day < Clamp(y, m, billDay.value) {
      if m == 0 {
        y, m := y - 1, 11;
      } else {
        m := m - 1;
      }
    }
    key := Cycle(Date(y, m, Clamp(y, m, billDay.value)));
  }

  /** The date lies in the cycle that starts on `s`. */
  predicate InCycle(d: Date, s: Date, billDay: int)
  {
    !Earlier(d, s) && Earlier(d, NextStart(s, billDay))
  }

  /** Every date lies in exactly one cycle. */
  lemma ExactlyOneCycle(d: Date, billDay: int, s: Date)
    requires Valid(d) && billDay > 1 && IsCycleStart(s, billDay)
    ensures IsCycleStart(StartOf(d, billDay), billDay) && InCycle(d, StartOf(d, billDay), billDay)
    ensures InCycle(d, s, billDay) <==> s == StartOf(d, billDay)
  {
  }

  /** Cycles follow each other without a gap, and each is a month long, give or take the clamping. */
  lemma CycleLength(s: Date, billDay: int)
    requires billDay > 1 && IsCycleStart(s, billDay)
    ensures Valid(s) && Valid(NextStart(s, billDay)) && IsCycleStart(NextStart(s, billDay), billDay)
    ensures 28 <= DayNumber(NextStart(s, billDay)) - DayNumber(s) <= 31
  {
    if s.month == 11 {
      YearLength(s.year);
    }
  }

  // ---------- weeks ----------

  /** The start of a moment's week: by the account's weekly reset when that is known, else the Monday. */
  function WeekStart(ts: int, anchor: Option<int>): int
  {
    if anchor.Some? && anchor.value > 0 then
      var off := (anchor.value - ts) / WEEK + 1;
      anchor.value - off * WEEK
    else
      var date := ts / DAY;
      var weekday := (date + 4) % 7;
      (date - (weekday + 6) % 7) * DAY
  }

  /** Between the week's start and the next one; an anchored week ends with the reset itself, and does not begin with it. */
  predicate InWeek(ts: int, start: int, anchored: bool)
  {
    if anchored then start < ts <= start + WEEK else start <= ts < start + WEEK
  }

  /** A boundary of weeks: a whole number of weeks from the reset, or a Monday at midnight. */
  predicate IsWeekStart(start: int, anchor: Option<int>)
  {
    if anchor.Some? && anchor.value > 0 then (start - anchor.value) % WEEK == 0
    else start % DAY == 0 && (start / DAY + 4) % 7 == 1
  }

  lemma WeeksApart(a: int, b: int, k: int)
    requires b - a == k * WEEK && -WEEK < b - a < WEEK
    ensures a == b
  {
  }

  lemma WholeWeeks(x: int)
    requires x % WEEK == 0
    ensures exists k :: x == k * WEEK
  {
    assert x == x / WEEK * WEEK;
  }

  lemma AnchoredWeek(ts: int, anchor: int)
    requires anchor > 0
    ensures var start := WeekStart(ts, Some(anchor));
            InWeek(ts, start, true) && (start - anchor) % WEEK == 0
  {
    var q, r := (anchor - ts) / WEEK, (anchor - ts) % WEEK;
    assert anchor - ts == WEEK * q + r;
    var start := WeekStart(ts, Some(anchor));
    assert start - anchor == WEEK * (-(q + 1));
    assert (start - anchor) % 604800000 == 0;
  }

  lemma MondayWeek(ts: int)
    ensures var start := WeekStart(ts, None);
            InWeek(ts, start, false) && start % DAY == 0 && (start / DAY + 4) % 7 == 1
  {
    var date := ts / DAY;
    var back := ((date + 4) % 7 + 6) % 7;
    assert (date - back) * 86400000 / 86400000 == date - back;
    assert (date - back + 4) % 7 == 1;
  }

  lemma MondaysApart(a: int, b: int)
    requires a % DAY == 0 && (a / DAY + 4) % 7 == 1 && b % DAY == 0 && (b / DAY + 4) % 7 == 1
    requires -WEEK < b - a < WEEK
    ensures a == b
  {
    var x, y := a / DAY, b / DAY;
    assert a == x * DAY && b == y * DAY;
    assert -7 < y - x < 7;
    assert (y - x) % 7 == 0;
  }

  /** Every moment lies in exactly one week, and its key names that week's start. */
  lemma ExactlyOneWeek(ts: int, anchor: Option<int>, start: int)
    requires IsWeekStart(start, anchor)
    ensures IsWeekStart(WeekStart(ts, anchor), anchor)
    ensures InWeek(ts, start, anchor.Some? && anchor.value > 0) <==> start == WeekStart(ts, anchor)
  {
    var mine := WeekStart(ts, anchor);
    if anchor.Some? && anchor.value > 0 {
      AnchoredWeek(ts, anchor.value);
      WholeWeeks(start - anchor.value);
      var k :| start - anchor.value == k * WEEK;
      var off := (anchor.value - ts) / WEEK + 1;
      assert start - mine == (k + off) * WEEK;
      if InWeek(ts, start, true) {
        WeeksApart(mine, start, k + off);
      }
    } else {
      MondayWeek(ts);
      if InWeek(ts, start, false) {
        MondaysApart(mine, start);
      }
    }
  }

  /** The key is printed as a date alone; weeks that start on different moments still have different keys. */
  lemma WeekKeysDiffer(ts: int, us: int, anchor: Option<int>)
    ensures WeekStart(ts, anchor) == WeekStart(us, anchor) <==> WeekStart(ts, anchor) / DAY == WeekStart(us, anchor) / DAY
  {
    var a, b := WeekStart(ts, anchor), WeekStart(us, anchor);
    if a / DAY == b / DAY {
      assert -DAY < a - b < DAY;
      if anchor.Some? && anchor.value > 0 {
        var j, k := (anchor.value - ts) / WEEK + 1, (anchor.value - us) / WEEK + 1;
        assert b - a == (j - k) * WEEK;
        WeeksApart(a, b, j - k);
      } else {
        MondayWeek(ts);
        MondayWeek(us);
        MondaysApart(a, b);
      }
    }
  }
}
