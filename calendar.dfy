/**
  Proleptic Gregorian dates as the scheduler walks them: a date is a
  (year, month, day) triple with the year in 1..9999, its ordinal counts
  days from 0001-01-01 (ordinal 1, a Monday), and its weekday numbers
  Monday as 0 through Sunday as 6. On top of that sit the two calendar
  predicates of the date-sheet generator: the second Saturday of a month
  and the blocked (exam-free) day.
*/
module Calendar {
  import opened Wrappers

  const MinYear: int := 1
  const MaxYear: int := 9999

  const Saturday: int := 5
  const Sunday: int := 6

  datatype Date = Date(year: int, month: int, day: int)

  /** The last date that can be represented; one day later does not exist. */
  const MaxDate: Date := Date(MaxYear, 12, 31)

  predicate IsLeap(y: int) {
    y % 4 == 0 && (y % 100 != 0 || y % 400 == 0)
  }

  function DaysInMonth(y: int, m: int): (n: int)
    requires 1 <= m <= 12
    ensures 28 <= n <= 31
    ensures m == 2 ==> (n == 29 <==> IsLeap(y))
  {
    if m == 2 then (if IsLeap(y) then 29 else 28)
    else if m == 4 || m == 6 || m == 9 || m == 11 then 30
    else 31
  }

  predicate ValidDate(d: Date) {
    MinYear <= d.year <= MaxYear && 1 <= d.month <= 12 && 1 <= d.day <= DaysInMonth(d.year, d.month)
  }

  /** Days in the years before year `y`. */
  function DaysBeforeYear(y: int): int
    requires y >= 1
  {
    var p := y - 1;
    p * 365 + p / 4 - p / 100 + p / 400
  }

  /** Days in the months of year `y` before month `m`. */
  function DaysBeforeMonth(y: int, m: int): int
    requires 1 <= m <= 12
  {
    var base :=
      if m == 1 then 0 else if m == 2 then 31 else if m == 3 then 59
      else if m == 4 then 90 else if m == 5 then 120 else if m == 6 then 151
      else if m == 7 then 181 else if m == 8 then 212 else if m == 9 then 243
      else if m == 10 then 273 else if m == 11 then 304 else 334;
    base + (if m > 2 && IsLeap(y) then 1 else 0)
  }

  /** The day number of `d`, counting 0001-01-01 as day 1. */
  function Ordinal(d: Date): int
    requires d.year >= 1 && 1 <= d.month <= 12
  {
    DaysBeforeYear(d.year) + DaysBeforeMonth(d.year, d.month) + d.day
  }

  /** Monday is 0, Saturday 5, Sunday 6. */
  function Weekday(d: Date): (w: int)
    requires d.year >= 1 && 1 <= d.month <= 12
    ensures 0 <= w < 7
  {
    (Ordinal(d) + 6) % 7
  }

  /**
    Known dates fix the numbering: 0001-01-01 and 2024-01-01 are Mondays,
    2026-10-10 is a Saturday, the second of its month, and 2026-10-11 a Sunday.
  */
  lemma WeekdayAnchors()
    ensures Weekday(Date(1, 1, 1)) == 0 && Weekday(Date(2024, 1, 1)) == 0
    ensures Weekday(Date(2026, 10, 10)) == Saturday && IsSecondSaturday(Date(2026, 10, 10))
    ensures Weekday(Date(2026, 10, 11)) == Sunday && IsBlockedDay(Date(2026, 10, 11))
    ensures !IsBlockedDay(Date(2026, 10, 3)) && !IsBlockedDay(Date(2026, 10, 12))
  {
  }

  lemma YearLength(y: int)
    requires y >= 1
    ensures DaysBeforeYear(y + 1) == DaysBeforeYear(y) + (if IsLeap(y) then 366 else 365)
  {
    var p := y - 1;
    var a, b, c := y / 4 - p / 4, y / 100 - p / 100, y / 400 - p / 400;
    Step4(y);
    Step100(y);
    Step400(y);
    if y % 400 == 0 {
      Multiple400(y);
    }
    if y % 100 == 0 {
      Multiple100(y);
    }
    assert DaysBeforeYear(y + 1) - DaysBeforeYear(y) == 365 + a - b + c;
  }

  // Going from `y - 1` to `y` adds one to `y / n` exactly when `n` divides `y`.

  lemma Step4(y: int)
    requires y >= 1
    ensures y / 4 - (y - 1) / 4 == if y % 4 == 0 then 1 else 0
  {
  }

  lemma Step100(y: int)
    requires y >= 1
    ensures y / 100 - (y - 1) / 100 == if y % 100 == 0 then 1 else 0
  {
  }

  lemma Step400(y: int)
    requires y >= 1
    ensures y / 400 - (y - 1) / 400 == if y % 400 == 0 then 1 else 0
  {
  }

  /** A multiple of 400 is a multiple of 100. */
  lemma Multiple400(y: int)
    requires y % 400 == 0
    ensures y % 100 == 0
  {
    var m := 4 * (y / 400);
    assert y == 100 * m;
  }

  /** A multiple of 100 is a multiple of 4. */
  lemma Multiple100(y: int)
    requires y % 100 == 0
    ensures y % 4 == 0
  {
    var m := 25 * (y / 100);
    assert y == 4 * m;
  }

  /** The date one day after `d`; None when `d` is the last representable date. */
  function NextDay(d: Date): (r: Option<Date>)
    requires ValidDate(d)
    ensures r.None? <==> d == MaxDate
    ensures r.Some? ==> ValidDate(r.value) && Ordinal(r.value) == Ordinal(d) + 1
  {
    if d.day < DaysInMonth(d.year, d.month) then Some(d.(day := d.day + 1))
    else if d.month < 12 then Some(Date(d.year, d.month + 1, 1))
    else if d.year < MaxYear then YearLength(d.year); Some(Date(d.year + 1, 1, 1))
    else None
  }

  /** The weekday advances by one, wrapping from Sunday to Monday. */
  lemma NextDayWeekday(d: Date)
    requires ValidDate(d) && NextDay(d).Some?
    ensures Weekday(NextDay(d).value) == (Weekday(d) + 1) % 7
  {
    WeekdayStep(Ordinal(d), Ordinal(NextDay(d).value));
  }

  lemma WeekdayStep(o: int, o': int)
    requires o' == o + 1
    ensures (o' + 6) % 7 == ((o + 6) % 7 + 1) % 7
  {
  }

  /** Consecutive days of one month have consecutive weekdays. */
  lemma {:induction false} SameMonthWeekday(y: int, m: int, i: int, j: int)
    requires y >= 1 && 1 <= m <= 12
    ensures Ordinal(Date(y, m, j)) == Ordinal(Date(y, m, i)) + (j - i)
    ensures (Weekday(Date(y, m, i)) == Weekday(Date(y, m, j))) <==> (j - i) % 7 == 0
  {
    var b := DaysBeforeYear(y) + DaysBeforeMonth(y, m) + 6;
    assert Weekday(Date(y, m, i)) == (b + i) % 7;
    assert Weekday(Date(y, m, j)) == (b + j) % 7;
    SameResidue(b + i, j - i);
  }

  /** Shifting by `t` keeps the residue modulo 7 exactly when 7 divides `t`. */
  lemma SameResidue(x: int, t: int)
    ensures (x % 7 == (x + t) % 7) <==> t % 7 == 0
  {
    var k, r := t / 7, t % 7;
    assert t == 7 * k + r && 0 <= r < 7;
    assert (x + t) % 7 == (x + r) % 7;
  }

  predicate IsSecondSaturday(d: Date)
    requires ValidDate(d)
  {
    Weekday(d) == Saturday && 8 <= d.day <= 14
  }

  predicate IsBlockedDay(d: Date)
    requires ValidDate(d)
  {
    Weekday(d) == Sunday || IsSecondSaturday(d)
  }

  /** Number of Saturdays among days 1..k of month `m` of year `y`. */
  function SaturdaysThrough(y: int, m: int, k: int): nat
    requires y >= 1 && 1 <= m <= 12
    decreases k
  {
    if k <= 0 then 0
    else SaturdaysThrough(y, m, k - 1) + (if Weekday(Date(y, m, k)) == Saturday then 1 else 0)
  }

  /** No Saturday among days lo+1..hi keeps the count unchanged. */
  lemma {:induction false} SaturdaysThroughFlat(y: int, m: int, lo: int, hi: int)
    requires y >= 1 && 1 <= m <= 12 && 0 <= lo <= hi
    requires forall j :: lo < j <= hi ==> Weekday(Date(y, m, j)) != Saturday
    ensures SaturdaysThrough(y, m, hi) == SaturdaysThrough(y, m, lo)
    decreases hi - lo
  {
    if hi > lo {
      SaturdaysThroughFlat(y, m, lo, hi - 1);
    }
  }

  /** If day k is a Saturday, it is Saturday number (k - 1) / 7 + 1 of its month. */
  lemma {:induction false} SaturdayRank(y: int, m: int, k: int)
    requires y >= 1 && 1 <= m <= 12 && k >= 1
    requires Weekday(Date(y, m, k)) == Saturday
    ensures SaturdaysThrough(y, m, k) == (k - 1) / 7 + 1
    decreases k
  {
    var lo := if k > 7 then k - 7 else 0;
    forall j | lo < j < k
      ensures Weekday(Date(y, m, j)) != Saturday
    {
      SameMonthWeekday(y, m, j, k);
    }
    SaturdaysThroughFlat(y, m, lo, k - 1);
    if k > 7 {
      SameMonthWeekday(y, m, k - 7, k);
      SaturdayRank(y, m, k - 7);
    }
  }

  /**
    The day-of-month test of `IsSecondSaturday` picks exactly the Saturday
    that is the second one of its month.
  */
  lemma SecondSaturdayIsSecond(d: Date)
    requires ValidDate(d)
    ensures IsSecondSaturday(d) <==>
              Weekday(d) == Saturday && SaturdaysThrough(d.year, d.month, d.day) == 2
  {
    if Weekday(d) == Saturday {
      SaturdayRank(d.year, d.month, d.day);
    }
  }

  /** A day is blocked exactly when it is a Sunday or the second Saturday of its month. */
  lemma BlockedIsSundayOrSecondSaturday(d: Date)
    requires ValidDate(d)
    ensures IsBlockedDay(d) <==>
              Weekday(d) == Sunday || (Weekday(d) == Saturday && SaturdaysThrough(d.year, d.month, d.day) == 2)
  {
    SecondSaturdayIsSecond(d);
  }

  /**
    A run of blocked days is at most two long: a blocked day followed by a
    blocked day is a second Saturday followed by its Sunday.
  */
  lemma BlockedStretch(d: Date)
    requires ValidDate(d) && IsBlockedDay(d)
    ensures NextDay(d).Some? && IsBlockedDay(NextDay(d).value) ==>
              Weekday(d) == Saturday && Weekday(NextDay(d).value) == Sunday
    ensures NextDay(d).Some? && NextDay(NextDay(d).value).Some? ==>
              !IsBlockedDay(NextDay(d).value) || !IsBlockedDay(NextDay(NextDay(d).value).value)
  {
    if NextDay(d).Some? {
      NextDayWeekday(d);
      if NextDay(NextDay(d).value).Some? {
        NextDayWeekday(NextDay(d).value);
      }
    }
  }

  /** How many blocked days remain before an open one: 0, 1 or 2. */
  function DaysToOpen(d: Date): (n: nat)
    requires ValidDate(d)
    ensures n <= 2
    ensures n == 0 <==> !IsBlockedDay(d)
  {
    if !IsBlockedDay(d) then 0
    else if Weekday(d) == Saturday then 2
    else 1
  }

  /** Skipping a blocked day brings the next open day closer. */
  lemma DaysToOpenDecreases(d: Date)
    requires ValidDate(d) && IsBlockedDay(d) && NextDay(d).Some?
    ensures DaysToOpen(NextDay(d).value) < DaysToOpen(d)
  {
    NextDayWeekday(d);
  }
}
