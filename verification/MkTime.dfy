/**
 The conversions between seconds since the Epoch and broken-down time, with the C machine's integers:
 32-bit int and unsigned int, 64-bit time_t and long long. Where C leaves the result of an overflowing
 signed operation open, two's complement is used.
 */
module MkTime {
  import opened Calendar

  const TWO32 := 0x1_0000_0000
  const INT_MAX := 0x7fff_ffff
  const INT_MIN := -0x8000_0000

  predicate FitsInt(x: int) {
    INT_MIN <= x <= INT_MAX
  }

  /** Conversion to int. */
  function I32(x: int): (r: int)
    ensures FitsInt(r)
    ensures FitsInt(x) <==> r == x
  {
    (x + 0x8000_0000) % TWO32 - 0x8000_0000
  }

  /** Conversion to unsigned int. */
  function U32(x: int): (r: int)
    ensures 0 <= r < TWO32
    ensures 0 <= x < TWO32 <==> r == x
  {
    x % TWO32
  }

  /** C division and remainder round towards zero. */
  function CDiv(a: int, b: int): int
    requires b > 0
  {
    if a >= 0 then a / b else -((-a) / b)
  }

  function CRem(a: int, b: int): int
    requires b > 0
  {
    if a >= 0 then a % b else -((-a) % b)
  }

  function Q(a: int, b: int): int
    requires b > 0
  {
    if a > 0 then a / b else -((b - a - 1) / b)
  }

  const DAYS_PER_400Y := 146097
  const DAYS_PER_100Y := 36524
  const DAYS_PER_4Y := 1461

  lemma SizesOfCycles()
    ensures DAYS_PER_400Y == YearStart(2400) - YearStart(2000)
    ensures DAYS_PER_100Y == YearStart(2200) - YearStart(2100)
    ensures DAYS_PER_4Y == YearStart(2005) - YearStart(2001)
  {
    YearStartClosed(2400);
    YearStartClosed(2000);
    YearStartClosed(2200);
    YearStartClosed(2100);
    YearStartClosed(2005);
    YearStartClosed(2001);
  }

  datatype Fields = Fields(sec: int, min: int, hour: int, mday: int, mon: int, year: int, wday: int, yday: int,
                           isdst: int)

  // ---------------------------------------------------------------------------------------------
  // What broken-down time denotes.

  /** The calendar year and month of fields whose month may be any integer. */
  function YearOf(v: Fields): int {
    1900 + v.year + v.mon / 12
  }

  function MonthOf(v: Fields): nat {
    v.mon % 12
  }

  /** Days from 1 January 2000 to the day denoted. */
  function DayCount(v: Fields): int {
    YearStart(YearOf(v)) + MonthStart(YearOf(v), MonthOf(v)) + v.mday - 1 - 10957
  }

  /** Seconds since the Epoch. */
  function Instant(v: Fields): int {
    86400 * (DayCount(v) + 10957) + 3600 * v.hour + 60 * v.min + v.sec
  }

  /** The broken-down time a normalizing conversion of `t` must yield. */
  predicate Normal(v: Fields, t: int) {
    var d := Date(1900 + v.year, v.mon, v.mday);
    && 0 <= v.sec < 60 && 0 <= v.min < 60 && 0 <= v.hour < 24
    && ValidDate(d) && DayNumber(d) == t / 86400
    && 3600 * v.hour + 60 * v.min + v.sec == t % 86400
    && v.wday == Weekday(t / 86400)
    && v.yday == DayNumber(d) - YearStart(d.year)
  }

  /** Normal fields are determined by the time, but for the daylight saving flag. */
  lemma NormalUnique(v: Fields, w: Fields, t: int)
    requires Normal(v, t) && Normal(w, t)
    ensures v == w.(isdst := v.isdst)
  {
    DateUnique(Date(1900 + v.year, v.mon, v.mday), Date(1900 + w.year, w.mon, w.mday));
    TimeOfDayUnique(v.hour, v.min, v.sec, w.hour, w.min, w.sec);
  }

  lemma TimeOfDayUnique(h: int, m: int, s: int, h': int, m': int, s': int)
    requires 0 <= m < 60 && 0 <= s < 60 && 0 <= m' < 60 && 0 <= s' < 60
    requires 3600 * h + 60 * m + s == 3600 * h' + 60 * m' + s'
    ensures h == h' && m == m' && s == s'
  {
    assert 60 * (60 * h + m - (60 * h' + m')) == s' - s;
    assert 60 * h + m == 60 * h' + m';
  }

  /** They denote that time. */
  lemma NormalDenotes(v: Fields, t: int)
    requires Normal(v, t)
    ensures Instant(v) == t && YearOf(v) == 1900 + v.year && MonthOf(v) == v.mon && DayCount(v) == t / 86400 - 10957
  {
  }

  /**
   What fields denote when they are out of range: twelve months more are a year more, one month more in
   the same year is the length of a month more, and the other fields count days and seconds.
   */
  lemma InstantCarries(v: Fields)
    ensures Instant(v.(mon := v.mon + 12)) == Instant(v.(year := v.year + 1))
    ensures 0 <= v.mon < 12 ==>
              Instant(v.(mon := v.mon + 1)) == Instant(v) + 86400 * MonthLength(1900 + v.year, v.mon)
    ensures Instant(v.(mday := v.mday + 1)) == Instant(v) + 86400
    ensures Instant(v.(hour := v.hour + 1)) == Instant(v) + 3600
    ensures Instant(v.(min := v.min + 1)) == Instant(v) + 60
    ensures Instant(v.(sec := v.sec + 1)) == Instant(v) + 1
  {
    if v.mon == 11 {
      YearEnds(1900 + v.year);
    }
  }

  lemma YearEnds(y: int)
    ensures YearStart(y + 1) == YearStart(y) + MonthStart(y, 11) + 31
  {
    YearStartClosed(y);
    YearStartClosed(y + 1);
    LeapsStep(y);
    MonthStartClosed(y, 11);
  }

  /** The same fields with the month brought into its year. */
  lemma InstantNormalized(v: Fields)
    ensures var w := v.(year := v.year + v.mon / 12, mon := v.mon % 12);
            Instant(w) == Instant(v) && 12 * w.year + w.mon == 12 * v.year + v.mon
  {
  }

  // ---------------------------------------------------------------------------------------------
  // From fields to seconds.

  /** C's truncating normalization of the month is the floor one. */
  lemma MonthNormalized(mon: int)
    ensures mon >= 12 ==> CDiv(mon, 12) == mon / 12 && CRem(mon, 12) == mon % 12
    ensures mon < 0 ==> if CRem(mon, 12) == 0 then CDiv(mon, 12) == mon / 12 && mon % 12 == 0
                        else CDiv(mon, 12) - 1 == mon / 12 && CRem(mon, 12) + 12 == mon % 12
  {
    if mon < 0 {
      var q, r := (-mon) / 12, (-mon) % 12;
      assert mon == 12 * (-q) - r;
    }
  }

  lemma QIsFloor4(a: int)
    ensures Q(a, 4) == a / 4
  {
  }

  lemma QIsFloor25(a: int)
    ensures Q(a, 25) == a / 25
  {
  }

  lemma NestedFloors(a: int)
    ensures a / 4 / 25 == a / 100 && a / 100 / 4 == a / 400
  {
    var q, p := a / 4, a / 100;
  }

  /** The three nested quotients are plain floors. */
  lemma LeapFloors(a: int)
    ensures Q(a, 4) == a / 4 && Q(a / 4, 25) == a / 100 && Q(a / 100, 4) == a / 400
  {
    QIsFloor4(a);
    QIsFloor25(a / 4);
    QIsFloor4(a / 100);
    NestedFloors(a);
  }

  lemma LeapsFrom2000(a: int)
    ensures Leaps(a + 2001) == 485 + a / 4 - a / 100 + a / 400
  {
    assert (2000 + a) / 4 == 500 + a / 4;
    assert (2000 + a) / 100 == 20 + a / 100;
    assert (2000 + a) / 400 == 5 + a / 400;
  }

  /**
   The three quotients count the leap years since 2000, for years before and after alike: up to the
   previous year in January and February, including the present one later on.
   */
  lemma LeapTerm(year: int, early: bool)
    ensures var z4 := Q(year - (if early then 1 else 0), 4);
            var z100 := Q(z4, 25);
            var z400 := Q(z100, 4);
            365 * year + z4 - z100 + z400 ==
            YearStart(2000 + year) - 10957 - 1 + if !early && IsLeap(2000 + year) then 1 else 0
  {
    var a := year - (if early then 1 else 0);
    LeapFloors(a);
    LeapsFrom2000(a);
    YearStartClosed(2000 + year);
    LeapsStep(2000 + year);
  }

  const DAYS_BEFORE_MONTH := [0, 31, 59, 90, 120, 151, 181, 212, 243, 273, 304, 335]

  /** The table is that of a common year, except that December starts a day late. */
  lemma MonthTable(y: int, m: nat)
    requires m < 12
    ensures DAYS_BEFORE_MONTH[m] + (if m >= 2 && IsLeap(y) then 1 else 0) == MonthStart(y, m) +
            if m == 11 then 1 else 0
  {
    MonthStartClosed(y, m);
  }

  class Tm {
    var sec: int
    var min: int
    var hour: int
    var mday: int
    var mon: int
    var year: int
    var wday: int
    var yday: int
    var isdst: int

    function Value(): Fields
      reads this
    {
      Fields(sec, min, hour, mday, mon, year, wday, yday, isdst)
    }

    constructor (v: Fields)
      ensures Value() == v
    {
      sec, min, hour, mday, mon, year, wday, yday, isdst := v.sec, v.min, v.hour, v.mday, v.mon, v.year, v.wday,
          v.yday, v.isdst;
    }
  }

  /** Fields are ints, small enough for the int multiplications not to overflow. */
  predicate SafeFields(v: Fields) {
    && FitsInt(v.sec) && FitsInt(v.mday) && FitsInt(v.mon) && FitsInt(v.year)
    && FitsInt(v.hour) && FitsInt(3600 * v.hour) && FitsInt(v.min) && FitsInt(60 * v.min)
  }

  /** The table's late December. */
  function Slip(v: Fields): int {
    if MonthOf(v) == 11 then 1 else 0
  }

  function SecondsOfDay(v: Fields): int {
    3600 * v.hour + 60 * v.min + v.sec
  }

  /** The time that the fields convert to. */
  function Converted(v: Fields): int {
    86400 * (I32(DayCount(v) + Slip(v)) + 10957) + SecondsOfDay(v)
  }

  method NormalizeMonth(startYear: int, mon: int) returns (year: int, month: int)
    ensures year == startYear + mon / 12 && month == mon % 12
  {
    year, month := startYear, mon;
    MonthNormalized(mon);
    if month >= 12 {
      year := year + CDiv(month, 12);
      month := CRem(month, 12);
    } else if month < 0 {
      year := year + CDiv(month, 12);
      month := CRem(month, 12);
      if month != 0 {
        month := month + 12;
        year := year - 1;
      }
    }
  }

  method TmToTime(tm: Tm) returns (t: int, ghost dayNumber: int)
    requires SafeFields(tm.Value())
    ensures FitsInt(dayNumber) && t == 86400 * (dayNumber + 10957) + SecondsOfDay(tm.Value())
    ensures FitsInt(tm.year - 100) ==> t == Converted(tm.Value())
  {
    var year, month := NormalizeMonth(I32(tm.year + -100), tm.mon);
    var day := tm.mday;
    assert FitsInt(tm.year - 100) ==> year == YearOf(tm.Value()) - 2000;
    var z4 := Q(year - (if month < 2 then 1 else 0), 4);
    var z100 := Q(z4, 25);
    var z400 := Q(z100, 4);
    LeapTerm(year, month < 2);
    MonthTable(2000 + year, month);
    day := I32(day + (year * 365 + z4 - z100 + z400 + DAYS_BEFORE_MONTH[month]));
    dayNumber := day;
    t := day * 86400 + tm.hour * 3600 + tm.min * 60 + tm.sec - -946684800;
  }

  /** The conversion is right exactly for days that fit an int in every month but December. */
  lemma ConversionRightIff(v: Fields)
    ensures Converted(v) == Instant(v) <==> MonthOf(v) != 11 && FitsInt(DayCount(v))
  {
    var d := DayCount(v);
    assert Converted(v) == Instant(v) <==> I32(d + Slip(v)) == d;
    if MonthOf(v) == 11 {
      IntSuccessor(d);
    }
  }

  lemma IntSuccessor(d: int)
    ensures I32(d + 1) != d
  {
    if FitsInt(d) && !FitsInt(d + 1) {
      assert d == INT_MAX;
      assert I32(INT_MAX + 1) == INT_MIN;
    }
  }

  // ---------------------------------------------------------------------------------------------
  // From seconds to fields.

  /** The 64-bit arithmetic on the time does not overflow. */
  predicate SafeTime(t: int) {
    -0x8000_0000_0000_0000 + 951868800 + 86400 <= t < 0x8000_0000_0000_0000
  }

  /** Days from 1 March 2000, a multiple of 400 years. */
  function BigDay(t: int): int {
    t / 86400 - 11017
  }

  lemma QIsFloor86400(a: int)
    ensures Q(a, 86400) == a / 86400
  {
  }

  lemma QIsFloor400Y(a: int)
    ensures Q(a, 146097) == a / 146097
  {
  }

  lemma BigDayIs(t: int)
    ensures var t0 := t + (-946684800 - 86400 * (31 + 29));
            Q(t0, 86400) == BigDay(t) && t0 - Q(t0, 86400) * 86400 == t % 86400
  {
    QIsFloor86400(t - 951868800);
    assert (t - 86400 * 11017) / 86400 == t / 86400 - 11017;
  }

  /** C's remainder with the correction counts weekdays, for negative days too. */
  lemma WeekdayIs(n: int)
    ensures var w := CRem(3 + n, 7); (if w < 0 then w + 7 else w) == Weekday(n + 11017)
  {
    WeekdayClosed(n + 11017);
    assert (n + 11017 + 4) % 7 == (n + 3) % 7;
    if 3 + n < 0 {
      var q, r := (-(3 + n)) / 7, (-(3 + n)) % 7;
      assert 3 + n == 7 * (-q) - r;
      assert (3 + n) % 7 == if r == 0 then 0 else 7 - r;
    }
  }

  /** The reduced day is in range whatever happens in 32 bits. */
  lemma ReducedDay(n: int)
    requires -0x8000_0000_0000 <= n < 0x8000_0000_0000
    ensures var year400 := I32(Q(n, 146097));
            year400 == n / 146097 && U32(n - I32(year400 * 146097)) == n % 146097
  {
    QIsFloor400Y(n);
    var a := n / 146097;
    assert FitsInt(a);
    WrapCancels(n, a * 146097);
  }

  lemma WrapCancels(n: int, p: int)
    requires 0 <= n - p < TWO32
    ensures U32(n - I32(p)) == n - p
  {
    var k := (p + 0x8000_0000) / TWO32;
    assert I32(p) == p - TWO32 * k;
    AddMultiple(n - p, k);
  }

  lemma {:induction false} AddMultiple(x: int, k: int)
    requires 0 <= x < TWO32
    ensures (x + TWO32 * k) % TWO32 == x
  {
    var y := x + TWO32 * k;
    assert y - TWO32 * (y / TWO32) == y % TWO32;
  }

  /** The product that reduces the day is the one signed operation that can overflow, at the bottom of the range. */
  lemma OverflowIff(n: int)
    requires FitsInt(n + 60)
    ensures FitsInt(n / 146097 * 146097) <==> n >= -2147479803
  {
  }

  /** A position in the 400-year cycle: centuries, four-year spans, years and days. */
  predicate InCycle(b: int, c: int, e: int, d: int) {
    && 0 <= b <= 3 && 0 <= c <= 24 && 0 <= e <= 3 && 0 <= d <= 365
    && (d == 365 ==> e == 3 && (c < 24 || b == 3))
  }

  lemma Years(y: int, a: int, b: int, c: int, e: int)
    requires y == 2000 + 400 * a + 100 * b + 4 * c + e && 0 <= b <= 3 && 0 <= c <= 24 && 0 <= e <= 3
    ensures y / 4 == 500 + 100 * a + 25 * b + c && y / 100 == 20 + 4 * a + b && y / 400 == 5 + a
    ensures IsLeap(y) <==> e == 0 && (c > 0 || b == 0)
    ensures e == 3 && (c < 24 || b == 3) ==> IsLeap(y + 1)
  {
    assert y == 4 * (500 + 100 * a + 25 * b + c) + e;
    assert y == 100 * (20 + 4 * a + b) + (4 * c + e);
    assert y == 400 * (5 + a) + (100 * b + 4 * c + e);
    if e == 3 && c < 24 {
      assert y + 1 == 4 * (500 + 100 * a + 25 * b + c + 1);
      assert y + 1 == 100 * (20 + 4 * a + b) + 4 * (c + 1);
    } else if e == 3 && b == 3 {
      assert y + 1 == 400 * (6 + a);
    }
  }

  /** The first of March of a year, counted by cycles. */
  lemma MarchStart(y: int, a: int, b: int, c: int, e: int)
    requires y == 2000 + 400 * a + 100 * b + 4 * c + e && 0 <= b <= 3 && 0 <= c <= 24 && 0 <= e <= 3
    ensures YearStart(y) + MonthStart(y, 2) == 11017 + 146097 * a + 36524 * b + 1461 * c + 365 * e
    ensures YearStart(y + 1) == YearStart(y) + 365 + if IsLeap(y) then 1 else 0
  {
    Years(y, a, b, c, e);
    YearStartClosed(y);
    YearStartClosed(y + 1);
    LeapsStep(y);
    MonthStartClosed(y, 2);
    assert Leaps(y + 1) == y / 4 - y / 100 + y / 400;
  }

  const DAYS_THRU_MONTH := [31, 61, 92, 122, 153, 184, 214, 245, 275, 306, 337, 366]

  function ThruBefore(i: nat): int
    requires i < 12
  {
    if i == 0 then 0 else DAYS_THRU_MONTH[i - 1]
  }

  /** The March-based table agrees with the calendar. */
  lemma ThruTable(y: int, i: nat)
    requires i < 12
    ensures i < 10 ==>
              MonthStart(y, i + 2) == MonthStart(y, 2) + ThruBefore(i)
              && MonthLength(y, i + 2) == DAYS_THRU_MONTH[i] - ThruBefore(i)
    ensures i >= 10 ==> MonthStart(y + 1, i - 10) == ThruBefore(i) - 306
    ensures i == 10 ==> MonthLength(y + 1, 0) == 31
    ensures i == 11 ==> MonthLength(y + 1, 1) == if IsLeap(y + 1) then 29 else 28
  {
    MonthStartClosed(y, 2);
    if i < 10 {
      MonthStartClosed(y, i + 2);
    } else {
      MonthStartClosed(y + 1, i - 10);
    }
  }

  /** The date found for day `d` of the March-based year `y`, in the month with index `i`. */
  lemma DateFound(y: int, a: int, b: int, c: int, e: int, d: int, i: nat)
    requires y == 2000 + 400 * a + 100 * b + 4 * c + e && InCycle(b, c, e, d)
    requires i < 12 && ThruBefore(i) <= d < DAYS_THRU_MONTH[i]
    ensures var date := if i < 10 then Date(y, i + 2, d - ThruBefore(i) + 1)
            else Date(y + 1, i - 10, d - ThruBefore(i) + 1);
            var leap := if IsLeap(y) then 1 else 0;
            var yday := d + 31 + 28 + leap;
            && ValidDate(date)
            && DayNumber(date) == 11017 + 146097 * a + 36524 * b + 1461 * c + 365 * e + d
            && DayNumber(date) - YearStart(date.year) == if yday >= 365 + leap then yday - (365 + leap) else yday
  {
    Years(y, a, b, c, e);
    MarchStart(y, a, b, c, e);
    ThruTable(y, i);
    MonthStartClosed(y, 2);
  }

  /** Day counts with years that are far from the limits of an int; those of an int are well within. */
  predicate YearsFit(days: int) {
    -TWO32 <= days < TWO32
  }

  /** Within that range the year does not leave an int. */
  lemma YearFits(n: int, e: int, b: int, c: int)
    requires YearsFit(n + 60) && 0 <= b <= 3 && 0 <= c <= 24 && 0 <= e <= 3
    ensures FitsInt(400 * (n / 146097)) && FitsInt(e + 4 * c + 100 * b + 400 * (n / 146097) + 101)
    ensures FitsInt(e + 4 * c + 100 * b + 400 * (n / 146097) + 100)
    ensures FitsInt(e + 4 * c + 100 * b + 400 * (n / 146097))
  {
  }

  /** The year sum, taken in unsigned arithmetic with a possibly negative term, comes out right as an int. */
  lemma YearSumWraps(e: int, c: int, b: int, a: int)
    requires FitsInt(400 * a) && FitsInt(e + 4 * c + 100 * b + 400 * a + 100)
    ensures I32(U32(e + U32(4 * c + 100 * b + U32(I32(400 * a)) + 2000 - 1900))) == e + 4 * c + 100 * b + 400 * a + 100
  {
    var x := 4 * c + 100 * b + 400 * a + 100;
    assert U32(400 * a) == 400 * a + if a < 0 then TWO32 else 0;
    var k := if a < 0 then 1 else 0;
    ModAdd(x, k);
    ModShift(e, x);
    ModSigned(e + x);
  }

  lemma ModAdd(x: int, k: int)
    ensures (x + TWO32 * k) % TWO32 == x % TWO32
  {
    AddMultiple(x % TWO32, x / TWO32 + k);
  }

  lemma ModShift(e: int, x: int)
    ensures U32(e + U32(x)) == U32(e + x)
  {
    assert x == U32(x) + TWO32 * (x / TWO32);
    ModAdd(e + U32(x), x / TWO32);
  }

  lemma ModSigned(x: int)
    requires FitsInt(x)
    ensures I32(U32(x)) == x
  {
    assert U32(x) == if x < 0 then x + TWO32 else x;
    if x < 0 {
      ModAdd(x + 0x8000_0000, 1);
    }
  }

  /** The day count of a time, from 1 January 2000. */
  function DaysSince2000(t: int): int {
    t / 86400 - 10957
  }

  /**
   Splits the reduced day into cycles; the clamps keep the last day of a four-year or 400-year cycle out
   of a cycle of its own.
   */
  method SplitCycles(reduced: int) returns (year100: int, year4: int, year: int, day: int)
    requires 0 <= reduced < 146097
    ensures InCycle(year100, year4, year, day)
    ensures reduced == 36524 * year100 + 1461 * year4 + 365 * year + day
  {
    day := reduced;
    year100 := day / DAYS_PER_100Y;
    if year100 == 4 { year100 := year100 - 1; }
    day := day - year100 * DAYS_PER_100Y;
    year4 := day / DAYS_PER_4Y;
    if year4 == 25 { year4 := year4 - 1; }
    day := day - year4 * DAYS_PER_4Y;
    year := day / 365;
    if year == 4 { year := year - 1; }
    day := day - year * 365;
  }

  /** Finds the month of a day of the March-based year. */
  method FindMonth(day: int) returns (month: nat)
    requires 0 <= day <= 365
    ensures month < 12 && ThruBefore(month) <= day < DAYS_THRU_MONTH[month]
  {
    month := 0;
    while DAYS_THRU_MONTH[month] <= day
      invariant month < 12 && ThruBefore(month) <= day
      decreases 12 - month
    {
      month := month + 1;
    }
  }

  /** The day and the time of day. */
  method SplitTime(t: int) returns (bigday: int, hour: int, min: int, sec: int, wday: int)
    requires SafeTime(t)
    ensures bigday == BigDay(t) && wday == Weekday(t / 86400)
    ensures 0 <= hour < 24 && 0 <= min < 60 && 0 <= sec < 60 && 3600 * hour + 60 * min + sec == t % 86400
  {
    var t0 := t + (-946684800 - 86400 * (31 + 29));
    bigday := Q(t0, 86400);
    sec := t0 - bigday * 86400;
    BigDayIs(t);
    hour := sec / 3600;
    sec := sec - hour * 3600;
    min := sec / 60;
    sec := sec - min * 60;
    wday := CRem(3 + bigday, 7);
    if wday < 0 { wday := wday + 7; }
    WeekdayIs(bigday);
  }

  /** The sum for the year, half signed and half unsigned. */
  function YearSum(e: int, c: int, b: int, a: int): int {
    I32(U32(e + U32(4 * c + 100 * b + U32(I32(400 * a)) + 2000 - 1900)))
  }

  function LeapFlag(e: int, c: int, b: int): int {
    if e == 0 && (c != 0 || b == 0) then 1 else 0
  }

  method TimeToTm(t: int, tm: Tm)
    requires SafeTime(t)
    modifies tm
    ensures tm.isdst == old(tm.isdst) && SafeFields(tm.Value())
    ensures 0 <= SecondsOfDay(tm.Value()) < 86400
    ensures YearsFit(DaysSince2000(t)) ==> Normal(tm.Value(), t) && FitsInt(tm.year - 100)
  {
    var bigday, hour, min, sec, wday := SplitTime(t);
    var year400 := I32(Q(bigday, DAYS_PER_400Y));
    var reduced := U32(bigday - I32(year400 * DAYS_PER_400Y));
    ReducedDay(bigday);
    var year100, year4, e, d := SplitCycles(reduced);
    var leap := LeapFlag(e, year4, year100);
    var yday := d + 31 + 28 + leap;
    if yday >= 365 + leap { yday := yday - (365 + leap); }
    var year := YearSum(e, year4, year100, year400);
    var i := FindMonth(d);
    var mday := d - (if i != 0 then DAYS_THRU_MONTH[i - 1] else 0) + 1;
    var month := i + 2;
    if month >= 12 {
      month := month - 12;
      year := I32(year + 1);
    }
    tm.sec, tm.min, tm.hour, tm.mday := sec, min, hour, mday;
    tm.mon, tm.year, tm.wday, tm.yday := month, year, wday, yday;
    if YearsFit(DaysSince2000(t)) {
      FoundIsNormal(tm.Value(), t, year400, year100, year4, e, d, i);
    }
  }

  lemma FoundYear(n: int, a: int, b: int, c: int, e: int) returns (y: int)
    requires YearsFit(n + 60) && a == n / 146097 && 0 <= b <= 3 && 0 <= c <= 24 && 0 <= e <= 3
    ensures y == 2000 + 400 * a + 100 * b + 4 * c + e && YearSum(e, c, b, a) == y - 1900
            && I32(y - 1900 + 1) == y - 1899
    ensures FitsInt(y - 2000) && FitsInt(y - 1999)
  {
    YearFits(n, e, b, c);
    YearSumWraps(e, c, b, a);
    y := 2000 + 400 * a + 100 * b + 4 * c + e;
  }

  lemma FoundIsNormal(v: Fields, t: int, a: int, b: int, c: int, e: int, d: int, i: nat)
    requires YearsFit(DaysSince2000(t)) && a == BigDay(t) / 146097 && InCycle(b, c, e, d)
    requires BigDay(t) % 146097 == 36524 * b + 1461 * c + 365 * e + d
    requires i < 12 && ThruBefore(i) <= d < DAYS_THRU_MONTH[i]
    requires 0 <= v.sec < 60 && 0 <= v.min < 60 && 0 <= v.hour < 24 && SecondsOfDay(v) == t % 86400
    requires v.wday == Weekday(t / 86400)
    requires var leap := LeapFlag(e, c, b);
             var yday := d + 31 + 28 + leap;
             v.yday == if yday >= 365 + leap then yday - (365 + leap) else yday
    requires var sum := YearSum(e, c, b, a);
             if i < 10 then v.mon == i + 2 && v.year == sum else v.mon == i - 10 && v.year == I32(sum + 1)
    requires v.mday == d - ThruBefore(i) + 1
    ensures Normal(v, t) && FitsInt(v.year - 100)
  {
    var n := BigDay(t);
    var y := FoundYear(n, a, b, c, e);
    Years(y, a, b, c, e);
    DateFound(y, a, b, c, e, d, i);
    SplitDays(n);
    assert Date(1900 + v.year, v.mon, v.mday) ==
      if i < 10 then Date(y, i + 2, d - ThruBefore(i) + 1) else Date(y + 1, i - 10, d - ThruBefore(i) + 1);
  }

  lemma SplitDays(n: int)
    ensures n == 146097 * (n / 146097) + n % 146097
  {
  }

  // ---------------------------------------------------------------------------------------------
  // There and back.

  /** The UTC month of a time is December. */
  ghost predicate InDecember(t: int) {
    exists d: Date :: ValidDate(d) && DayNumber(d) == t / 86400 && d.month == 11
  }

  lemma NormalMonth(v: Fields, t: int)
    requires Normal(v, t)
    ensures v.mon == 11 <==> InDecember(t)
  {
    var d := Date(1900 + v.year, v.mon, v.mday);
    if InDecember(t) {
      var d' :| ValidDate(d') && DayNumber(d') == t / 86400 && d'.month == 11;
      DateUnique(d, d');
    }
  }

  /**
   Converting a time to fields and back. It gives the same time exactly if the day count fits an int and
   the time does not fall in December; within that range a December time comes back a day late.
   */
  method RoundTrip(t: int, tm: Tm) returns (t': int)
    requires SafeTime(t)
    modifies tm
    ensures t' == t <==> FitsInt(DaysSince2000(t)) && !InDecember(t)
    ensures FitsInt(DaysSince2000(t)) && FitsInt(DaysSince2000(t) + 1) && InDecember(t) ==> t' == t + 86400
  {
    TimeToTm(t, tm);
    ghost var day;
    t', day := TmToTime(tm);
    var v := tm.Value();
    DayPart(t', day + 10957, SecondsOfDay(v));
    if FitsInt(DaysSince2000(t)) {
      NormalDenotes(v, t);
      NormalMonth(v, t);
      ConversionRightIff(v);
    }
  }

  lemma DayPart(t: int, day: int, s: int)
    requires t == 86400 * day + s && 0 <= s < 86400
    ensures t / 86400 == day && t % 86400 == s
  {
  }

  predicate ValidTimeOfDay(v: Fields) {
    0 <= v.sec < 60 && 0 <= v.min < 60 && 0 <= v.hour < 24
  }

  /** A date and a time of day that exist. */
  predicate ValidDateAndTime(v: Fields) {
    ValidTimeOfDay(v) && ValidDate(Date(1900 + v.year, v.mon, v.mday))
  }

  predicate SameDateAndTime(v: Fields, w: Fields) {
    v.sec == w.sec && v.min == w.min && v.hour == w.hour && v.mday == w.mday && v.mon == w.mon && v.year == w.year
  }

  /** A valid date and time is what normalization leads to, whatever the weekday and the day of the year said. */
  lemma ValidIsKept(v: Fields, w: Fields, t: int)
    requires ValidDateAndTime(v) && Instant(v) == t && Normal(w, t)
    ensures SameDateAndTime(w, v)
  {
    var d := Date(1900 + v.year, v.mon, v.mday);
    DayPart(t, DayCount(v) + 10957, SecondsOfDay(v));
    var right := v.(wday := Weekday(t / 86400), yday := DayNumber(d) - YearStart(d.year));
    NormalUnique(w, right, t);
  }

  /**
   mktime on any fields that do not overflow an int: the time they denote exactly if the day fits an int and
   the month is not December, and in December a day later. The fields are always normalized to the time
   returned; a valid date and time that is converted rightly is kept. The flag is left or cleared.
   */
  method Mktime(tm: Tm, clearIsdst: bool) returns (t: int)
    requires SafeFields(tm.Value()) && FitsInt(tm.year - 100)
    modifies tm
    ensures t == Converted(old(tm.Value()))
    ensures t == Instant(old(tm.Value())) <==> MonthOf(old(tm.Value())) != 11 && FitsInt(DayCount(old(tm.Value())))
    ensures MonthOf(old(tm.Value())) == 11 && FitsInt(DayCount(old(tm.Value())) + 1) ==>
              t == Instant(old(tm.Value())) + 86400
    ensures Normal(tm.Value(), t) && SafeFields(tm.Value()) && FitsInt(tm.year - 100)
    ensures ValidDateAndTime(old(tm.Value())) && t == Instant(old(tm.Value())) ==>
              SameDateAndTime(tm.Value(), old(tm.Value()))
    ensures 1 <= old(tm.mday) <= 28 && ValidTimeOfDay(old(tm.Value())) && t == Instant(old(tm.Value())) ==>
              && 12 * tm.year + tm.mon == 12 * old(tm.year) + old(tm.mon) && tm.mday == old(tm.mday)
              && tm.hour == old(tm.hour) && tm.min == old(tm.min) && tm.sec == old(tm.sec)
    ensures tm.isdst == if clearIsdst then 0 else old(tm.isdst)
  {
    ghost var v := tm.Value();
    ghost var day;
    t, day := TmToTime(tm);
    ConvertedInRange(v);
    ConversionRightIff(v);
    TimeToTm(t, tm);
    if ValidDateAndTime(v) && t == Instant(v) {
      ValidIsKept(v, tm.Value(), t);
    }
    if 1 <= v.mday <= 28 && ValidTimeOfDay(v) && t == Instant(v) {
      InstantNormalized(v);
      ValidIsKept(v.(year := v.year + v.mon / 12, mon := v.mon % 12), tm.Value(), t);
    }
    if clearIsdst {
      tm.isdst := 0;
    }
  }

  /** What fields convert to is always within reach of the conversion back. */
  lemma ConvertedInRange(v: Fields)
    requires SafeFields(v)
    ensures SafeTime(Converted(v)) && YearsFit(DaysSince2000(Converted(v)))
  {
    var d, s := I32(DayCount(v) + Slip(v)), SecondsOfDay(v);
    DayPart(Converted(v), d + 10957 + s / 86400, s % 86400);
  }

  /**
   Two calls of mktime, one after the other: the second returns the same time and changes nothing but the
   flag exactly if the first result is not in December and its day fits an int.
   */
  method MktimeTwice(tm: Tm, clearFirst: bool, clearSecond: bool) returns (t: int, t': int, ghost between: Fields)
    requires SafeFields(tm.Value()) && FitsInt(tm.year - 100)
    modifies tm
    ensures t == Converted(old(tm.Value())) && Normal(between, t) && Normal(tm.Value(), t')
    ensures t' == t <==> !InDecember(t) && FitsInt(DaysSince2000(t))
    ensures t' == t ==> tm.Value() == between.(isdst := tm.isdst)
    ensures InDecember(t) && FitsInt(DaysSince2000(t) + 1) ==> t' == t + 86400
  {
    t := Mktime(tm, clearFirst);
    between := tm.Value();
    NormalDenotes(between, t);
    NormalMonth(between, t);
    t' := Mktime(tm, clearSecond);
    if t' == t {
      NormalUnique(tm.Value(), between, t);
    }
  }

  /** Normal fields convert back to their time exactly outside December, and in December to a day more. */
  lemma NormalConverts(v: Fields, t: int)
    requires Normal(v, t)
    ensures Converted(v) == t <==> v.mon != 11 && FitsInt(DaysSince2000(t))
    ensures v.mon == 11 && FitsInt(DaysSince2000(t) + 1) ==> Converted(v) == t + 86400
  {
    NormalDenotes(v, t);
    ConversionRightIff(v);
  }

  /** Every December day converts to the day after it. */
  lemma DecemberIsLate(v: Fields)
    requires MonthOf(v) == 11 && FitsInt(DayCount(v) + 1)
    ensures Converted(v) == Instant(v.(mday := v.mday + 1))
  {
  }

  /** From the Epoch on, normal fields satisfy the formula of POSIX.1-2017, Base Definitions, section 4.16. */
  lemma PosixFormula(v: Fields, t: int)
    requires Normal(v, t) && t >= 0
    ensures t == v.sec + v.min * 60 + v.hour * 3600 + v.yday * 86400 + (v.year - 70) * 31536000
                 + ((v.year - 69) / 4) * 86400 - ((v.year - 1) / 100) * 86400 + ((v.year + 299) / 400) * 86400
  {
    YearStartClosed(1900 + v.year);
    PosixLeaps(v.year);
    SplitSeconds(t);
  }

  lemma SplitSeconds(t: int)
    ensures t == 86400 * (t / 86400) + t % 86400
  {
  }

  lemma PosixLeaps(year: int)
    ensures Leaps(1900 + year) - Leaps(1970) == (year - 69) / 4 - (year - 1) / 100 + (year + 299) / 400
  {
    var y := 1900 + year;
    assert (y - 1) / 4 == 492 + (year - 69) / 4;
    assert (y - 1) / 100 == 19 + (year - 1) / 100;
    assert (y - 1) / 400 == 4 + (year + 299) / 400;
  }
}
