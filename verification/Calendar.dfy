/**
 The Gregorian calendar, counted year by year and month by month. This is the reference the time
 conversions are compared with.
 */
module Calendar {

  predicate IsLeap(y: int) {
    y % 4 == 0 && (y % 100 != 0 || y % 400 == 0)
  }

  function DaysInYear(y: int): int {
    if IsLeap(y) then 366 else 365
  }

  /** Months are numbered from 0. */
  function MonthLength(y: int, m: int): int {
    if m == 1 then (if IsLeap(y) then 29 else 28)
    else if m == 3 || m == 5 || m == 8 || m == 10 then 30
    else 31
  }

  /** Days from 1 January 1970 to 1 January of year `y`. */
  function YearStart(y: int): int
    decreases if y < 1970 then 1970 - y else y - 1970
  {
    if y == 1970 then 0
    else if y > 1970 then YearStart(y - 1) + DaysInYear(y - 1)
    else YearStart(y + 1) - DaysInYear(y)
  }

  /** Days of year `y` before month `m`. */
  function MonthStart(y: int, m: nat): int {
    if m == 0 then 0 else MonthStart(y, m - 1) + MonthLength(y, m - 1)
  }

  datatype Date = Date(year: int, month: int, day: int)

  predicate ValidDate(d: Date) {
    0 <= d.month < 12 && 1 <= d.day <= MonthLength(d.year, d.month)
  }

  /** Days from 1 January 1970. */
  function DayNumber(d: Date): int
    requires 0 <= d.month
  {
    YearStart(d.year) + MonthStart(d.year, d.month) + d.day - 1
  }

  /** The day of the week after counting `n` days from 1 January 1970, a Thursday (4). */
  function Weekday(n: int): (w: int)
    ensures 0 <= w < 7
    decreases if n < 0 then -n else n
  {
    if n == 0 then 4
    else if n > 0 then (if Weekday(n - 1) == 6 then 0 else Weekday(n - 1) + 1)
    else (if Weekday(n + 1) == 0 then 6 else Weekday(n + 1) - 1)
  }

  lemma NextMod7(n: int)
    ensures (n + 1) % 7 == if n % 7 == 6 then 0 else n % 7 + 1
  {
  }

  lemma {:induction false} WeekdayClosed(n: int)
    ensures Weekday(n) == (n + 4) % 7
    decreases if n < 0 then -n else n
  {
    if n > 0 {
      WeekdayClosed(n - 1);
      NextMod7(n + 3);
    } else if n < 0 {
      WeekdayClosed(n + 1);
      NextMod7(n + 4);
    }
  }

  /** Leap years before year `y`, up to a constant. */
  function Leaps(y: int): int {
    (y - 1) / 4 - (y - 1) / 100 + (y - 1) / 400
  }

  lemma FloorStep4(y: int)
    ensures y / 4 == (y - 1) / 4 + if y % 4 == 0 then 1 else 0
  {
  }

  lemma FloorStep100(y: int)
    ensures y / 100 == (y - 1) / 100 + if y % 100 == 0 then 1 else 0
  {
  }

  lemma FloorStep400(y: int)
    ensures y / 400 == (y - 1) / 400 + if y % 400 == 0 then 1 else 0
  {
  }

  lemma CenturyRules(y: int)
    ensures y % 100 == 0 ==> y % 4 == 0
    ensures y % 400 == 0 ==> y % 100 == 0
  {
    var q := y / 100;
    assert y % 100 == 0 ==> y == 4 * (25 * q);
    var p := y / 400;
    assert y % 400 == 0 ==> y == 100 * (4 * p);
  }

  lemma LeapsStep(y: int)
    ensures Leaps(y + 1) == Leaps(y) + if IsLeap(y) then 1 else 0
  {
    FloorStep4(y);
    FloorStep100(y);
    FloorStep400(y);
    CenturyRules(y);
  }

  /** The year-by-year count has the usual closed form, before and after 1970 alike. */
  lemma {:induction false} YearStartClosed(y: int)
    ensures YearStart(y) == 365 * (y - 1970) + Leaps(y) - Leaps(1970)
    decreases if y < 1970 then 1970 - y else y - 1970
  {
    if y > 1970 {
      YearStartClosed(y - 1);
      LeapsStep(y - 1);
    } else if y < 1970 {
      YearStartClosed(y + 1);
      LeapsStep(y);
    }
  }

  lemma MonthStartClosed(y: int, m: nat)
    requires m <= 12
    ensures MonthStart(y, m) == [0, 31, 59, 90, 120, 151, 181, 212, 243, 273, 304, 334, 365][m] +
                                if m >= 2 && IsLeap(y) then 1 else 0
  {
    assert MonthStart(y, 0) == 0;
    assert MonthStart(y, 1) == 31;
    var l := if IsLeap(y) then 1 else 0;
    assert MonthStart(y, 2) == 59 + l;
    assert MonthStart(y, 3) == 90 + l;
    assert MonthStart(y, 4) == 120 + l;
    assert MonthStart(y, 5) == 151 + l;
    assert MonthStart(y, 6) == 181 + l;
    assert MonthStart(y, 7) == 212 + l;
    assert MonthStart(y, 8) == 243 + l;
    assert MonthStart(y, 9) == 273 + l;
    assert MonthStart(y, 10) == 304 + l;
    assert MonthStart(y, 11) == 334 + l;
    assert MonthStart(y, 12) == 365 + l;
  }

  lemma YearOfDay(d: Date)
    requires ValidDate(d)
    ensures YearStart(d.year) <= DayNumber(d) < YearStart(d.year + 1)
  {
    MonthStartClosed(d.year, d.month);
    YearStartClosed(d.year);
    YearStartClosed(d.year + 1);
    LeapsStep(d.year);
  }

  lemma {:induction false} YearStartMonotone(a: int, b: int)
    requires a <= b
    ensures YearStart(a) <= YearStart(b)
  {
    YearStartClosed(a);
    YearStartClosed(b);
  }

  /** A month starts when those before it are over. */
  lemma {:induction false} MonthsFollow(y: int, a: nat, b: nat)
    requires a < b
    ensures MonthStart(y, a) + MonthLength(y, a) <= MonthStart(y, b)
    decreases b
  {
    if a < b - 1 {
      MonthsFollow(y, a, b - 1);
    }
  }

  /** A day has one valid date. */
  lemma DateUnique(a: Date, b: Date)
    requires ValidDate(a) && ValidDate(b) && DayNumber(a) == DayNumber(b)
    ensures a == b
  {
    YearOfDay(a);
    YearOfDay(b);
    if a.year < b.year {
      YearStartMonotone(a.year + 1, b.year);
    } else if b.year < a.year {
      YearStartMonotone(b.year + 1, a.year);
    } else if a.month < b.month {
      MonthsFollow(a.year, a.month, b.month);
    } else if b.month < a.month {
      MonthsFollow(a.year, b.month, a.month);
    }
  }
}
