// The Gregorian calendar the partition names and bounds are computed with, as
// day numbers counted from 1970-01-01. Division is floor division, so years
// before 1 follow the same rules.
module Calendar {

  predicate Leap(y: int) {
    y % 4 == 0 && (y % 100 != 0 || y % 400 == 0)
  }

  function YearLength(y: int): int {
    if Leap(y) then 366 else 365
  }

  function MonthLength(y: int, m: int): int
    requires 1 <= m <= 12
  {
    if m == 2 then (if Leap(y) then 29 else 28)
    else if m == 4 || m == 6 || m == 9 || m == 11 then 30
    else 31
  }

  function LeapsThrough(y: int): int {
    y / 4 - y / 100 + y / 400
  }

  // The day number of 1 January.
  function YearStart(y: int): int {
    365 * (y - 1970) + LeapsThrough(y - 1) - LeapsThrough(1969)
  }

  // The day number of the first of a month.
  function MonthStart(y: int, m: int): int
    requires 1 <= m <= 12
    decreases m
  {
    if m == 1 then YearStart(y) else MonthStart(y, m - 1) + MonthLength(y, m - 1)
  }

  datatype Date = Date(year: int, month: int, day: int) {
    predicate Valid() {
      1 <= month <= 12 && 1 <= day <= MonthLength(year, month)
    }
  }

  function DayNumber(d: Date): int
    requires d.Valid()
  {
    MonthStart(d.year, d.month) + d.day - 1
  }

  lemma OneMoreMultiple(y: int, d: int)
    requires d == 4 || d == 100 || d == 400
    ensures y / d - (y - 1) / d == if y % d == 0 then 1 else 0
  {
  }

  lemma NextYear(y: int)
    ensures YearStart(y + 1) == YearStart(y) + YearLength(y)
  {
    OneMoreMultiple(y, 4);
    OneMoreMultiple(y, 100);
    OneMoreMultiple(y, 400);
  }

  lemma MonthsFillYear(y: int)
    ensures MonthStart(y, 12) + MonthLength(y, 12) == YearStart(y + 1)
  {
    NextYear(y);
    assert MonthStart(y, 4) == YearStart(y) + YearLength(y) - 275;
    assert MonthStart(y, 8) == YearStart(y) + YearLength(y) - 153;
    assert MonthStart(y, 12) == YearStart(y) + YearLength(y) - 31;
  }

  // ----- from day numbers to dates

  function YearFrom(n: int, y: int): (r: int)
    requires YearStart(y) <= n
    ensures YearStart(r) <= n < YearStart(r + 1)
    decreases n - YearStart(y)
  {
    NextYear(y);
    if n < YearStart(y + 1) then y else YearFrom(n, y + 1)
  }

  function MonthFrom(n: int, y: int, m: int): (r: int)
    requires 1 <= m <= 12 && MonthStart(y, m) <= n < YearStart(y + 1)
    ensures 1 <= r <= 12 && MonthStart(y, r) <= n < MonthStart(y, r) + MonthLength(y, r)
    decreases 12 - m
  {
    if n < MonthStart(y, m) + MonthLength(y, m) then m
    else
      assert m < 12 by { MonthsFillYear(y); }
      MonthFrom(n, y, m + 1)
  }

  lemma EarlyYear(n: int)
    ensures YearStart(if n < 0 then 1970 + n else 1970) <= n
  {
  }

  function DateOf(n: int): (d: Date)
    ensures d.Valid() && DayNumber(d) == n
  {
    EarlyYear(n);
    var y := YearFrom(n, if n < 0 then 1970 + n else 1970);
    var m := MonthFrom(n, y, 1);
    Date(y, m, n - MonthStart(y, m) + 1)
  }

  // ----- the calendar from its first day on

  const MONTH_DAYS: seq<int> := [31, 28, 31, 30, 31, 30, 31, 31, 30, 31, 30, 31]

  // The date after this one, by the lengths of the months and the rule for leap
  // years.
  function Tomorrow(d: Date): Date
    requires 1 <= d.month <= 12
  {
    var leapDay := d.month == 2 && d.year % 4 == 0 && (d.year % 100 == 0 ==> d.year % 400 == 0);
    if d.day < MONTH_DAYS[d.month - 1] + (if leapDay then 1 else 0) then Date(d.year, d.month, d.day + 1)
    else if d.month < 12 then Date(d.year, d.month + 1, 1)
    else Date(d.year + 1, 1, 1)
  }

  // Day 0 is 1970-01-01, and each date's number is one less than that of the
  // date after it.
  lemma CountsDays(d: Date)
    ensures Date(1970, 1, 1).Valid() && DayNumber(Date(1970, 1, 1)) == 0
    ensures d.Valid() ==> Tomorrow(d).Valid() && DayNumber(Tomorrow(d)) == DayNumber(d) + 1
  {
    if d.Valid() {
      assert MonthLength(d.year, d.month) == MONTH_DAYS[d.month - 1] + if d.month == 2 && Leap(d.year) then 1 else 0;
      if d.month == 12 { MonthsFillYear(d.year); }
    }
  }

  // ----- units of time: an increasing sequence of starting days

  predicate Climbs(start: int -> int, k: int) {
    start(k) < start(k + 1)
  }

  ghost predicate Increasing(start: int -> int) {
    forall k {:trigger Climbs(start, k)} :: Climbs(start, k)
  }

  lemma {:induction false} StartsApart(start: int -> int, j: int, k: int)
    requires Increasing(start) && j < k
    ensures start(j) < start(j + 1) <= start(k)
    decreases k - j
  {
    assert Climbs(start, j) && Climbs(start, k - 1);
    if j < k - 1 { StartsApart(start, j, k - 1); }
  }

  predicate InUnit(start: int -> int, k: int, n: int) {
    start(k) <= n < start(k + 1)
  }

  lemma UnitIsUnique(start: int -> int, j: int, k: int, n: int)
    requires Increasing(start) && InUnit(start, j, n) && InUnit(start, k, n)
    ensures j == k
  {
    if j < k { StartsApart(start, j, k); }
    if k < j { StartsApart(start, k, j); }
  }

  lemma UnitOrder(start: int -> int, j: int, k: int, m: int, n: int)
    requires Increasing(start) && InUnit(start, j, m) && InUnit(start, k, n) && m < n
    ensures j <= k
  {
    if k < j { StartsApart(start, k, j); }
  }

  // Months counted without a break across years.
  function MonthIndex(y: int, m: int): int {
    12 * y + m - 1
  }

  function Months(): int -> int {
    (k: int) => MonthStart(k / 12, k % 12 + 1)
  }

  lemma MonthOf(y: int, m: int)
    requires 1 <= m <= 12
    ensures MonthIndex(y, m) / 12 == y && MonthIndex(y, m) % 12 + 1 == m
  {
  }

  lemma MonthAt(y: int, m: int)
    requires 1 <= m <= 12
    ensures Months()(MonthIndex(y, m)) == MonthStart(y, m)
  {
    MonthOf(y, m);
    MonthsAt(MonthIndex(y, m), y, m);
  }

  lemma MonthsAt(k: int, y: int, m: int)
    requires k / 12 == y && k % 12 + 1 == m
    ensures Months()(k) == MonthStart(y, m)
  {
  }

  lemma NextMonth(y: int, m: int)
    requires 1 <= m <= 12
    ensures Months()(MonthIndex(y, m) + 1) == MonthStart(y, m) + MonthLength(y, m)
  {
    if m == 12 {
      MonthsFillYear(y);
      MonthAt(y + 1, 1);
      assert MonthIndex(y, m) + 1 == MonthIndex(y + 1, 1);
    } else {
      MonthAt(y, m + 1);
      assert MonthIndex(y, m) + 1 == MonthIndex(y, m + 1);
    }
  }

  lemma MonthOfIndex(k: int)
    ensures 1 <= k % 12 + 1 <= 12 && MonthIndex(k / 12, k % 12 + 1) == k
  {
  }

  lemma MonthClimbs(y: int, m: int)
    requires 1 <= m <= 12
    ensures Climbs(Months(), MonthIndex(y, m))
  {
    MonthAt(y, m);
    NextMonth(y, m);
  }

  lemma MonthsClimb()
    ensures Increasing(Months())
  {
    forall k ensures Climbs(Months(), k) {
      MonthOfIndex(k);
      MonthClimbs(k / 12, k % 12 + 1);
    }
  }

  lemma InMonth(d: Date)
    requires d.Valid()
    ensures InUnit(Months(), MonthIndex(d.year, d.month), DayNumber(d))
  {
    MonthAt(d.year, d.month);
    NextMonth(d.year, d.month);
  }

  function Years(): int -> int {
    (y: int) => YearStart(y)
  }

  lemma YearsClimb()
    ensures Increasing(Years())
  {
    forall y ensures Climbs(Years(), y) {
      NextYear(y);
    }
  }

  lemma InYear(d: Date)
    requires d.Valid()
    ensures InUnit(Years(), d.year, DayNumber(d))
  {
    MonthsInYear(d.year, d.month);
    assert Years()(d.year) == YearStart(d.year) && Years()(d.year + 1) == YearStart(d.year + 1);
  }

  lemma MonthsInYear(y: int, m: int)
    requires 1 <= m <= 12
    ensures YearStart(y) <= MonthStart(y, m) && MonthStart(y, m) + MonthLength(y, m) <= YearStart(y + 1)
  {
    UpToMonth(y, m);
    MonthsFillYear(y);
    AfterMonth(y, m);
  }

  lemma {:induction false} UpToMonth(y: int, m: int)
    requires 1 <= m <= 12
    ensures YearStart(y) <= MonthStart(y, m)
    decreases m
  {
    if m > 1 { UpToMonth(y, m - 1); }
  }

  lemma {:induction false} AfterMonth(y: int, m: int)
    requires 1 <= m <= 12
    ensures MonthStart(y, m) + MonthLength(y, m) <= MonthStart(y, 12) + MonthLength(y, 12)
    decreases 12 - m
  {
    if m < 12 { AfterMonth(y, m + 1); }
  }

  lemma SameMonth(d: Date, e: Date)
    requires d.Valid() && e.Valid() && DayNumber(d) == DayNumber(e)
    ensures MonthIndex(d.year, d.month) == MonthIndex(e.year, e.month)
  {
    InMonth(d);
    InMonth(e);
    MonthsClimb();
    UnitIsUnique(Months(), MonthIndex(d.year, d.month), MonthIndex(e.year, e.month), DayNumber(d));
  }

  lemma MonthIndexIsUnique(y: int, m: int, z: int, n: int)
    requires 1 <= m <= 12 && 1 <= n <= 12 && MonthIndex(y, m) == MonthIndex(z, n)
    ensures y == z && m == n
  {
  }

  // Every day number is the number of exactly one valid date.
  lemma DateIsUnique(d: Date, e: Date)
    requires d.Valid() && e.Valid() && DayNumber(d) == DayNumber(e)
    ensures d == e
  {
    SameMonth(d, e);
    MonthIndexIsUnique(d.year, d.month, e.year, e.month);
  }
}
