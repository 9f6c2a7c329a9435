/** Expiry dates as seconds: the Julian-day formula against the Gregorian calendar. */
module Calendar {
  import opened Words

  const UNIX_JDN: int := 2440588
  const SECONDS_PER_DAY: nat := 86400

  /** Division that rounds toward zero. */
  function TruncDiv(a: int, b: int): int
    requires b > 0
  {
    if a >= 0 then a / b else -((-a) / b)
  }

  function JulianDay(y: int, m: int, d: int): int {
    var a := TruncDiv(14 - m, 12);
    var yAdj := y + 4800 - a;
    var mAdj := m + 12 * a - 3;
    d + TruncDiv(153 * mAdj + 2, 5) + 365 * yAdj + TruncDiv(yAdj, 4) - TruncDiv(yAdj, 100) + TruncDiv(yAdj, 400) - 32045
  }

  /** The date is read as YYYYMMDD; the signed result is cast to 64 unsigned bits. */
  function DateToUnixSecs(date: uint32): uint64 {
    var year, month, day := date / 10000, (date % 10000) / 100, date % 100;
    ((JulianDay(year, month, day) - UNIX_JDN) * SECONDS_PER_DAY) % TWO_64
  }

  /** Years to maturity at the given time, zero once the expiry is reached. */
  function TimeToMaturity(date: uint32, now: uint64): real {
    var expiry := DateToUnixSecs(date);
    if expiry <= now then 0.0 else ((expiry - now) as real) / (365.25 * 86400.0)
  }

  // ---------------------------------------------------------------- the Gregorian calendar

  predicate Leap(y: nat) {
    y % 4 == 0 && (y % 100 != 0 || y % 400 == 0)
  }

  function MonthDays(y: nat, m: nat): nat {
    if m == 2 then (if Leap(y) then 29 else 28)
    else if m == 4 || m == 6 || m == 9 || m == 11 then 30
    else 31
  }

  function YearDays(y: nat): nat {
    if Leap(y) then 366 else 365
  }

  function DaysBeforeYear(y: nat): nat {
    if y == 0 then 0 else DaysBeforeYear(y - 1) + YearDays(y - 1)
  }

  function DaysBeforeMonth(y: nat, m: nat): nat {
    if m <= 1 then 0 else DaysBeforeMonth(y, m - 1) + MonthDays(y, m - 1)
  }

  predicate ValidDate(y: nat, m: nat, d: nat) {
    1 <= m <= 12 && 1 <= d <= MonthDays(y, m)
  }

  /** Days since the first of January of year 0. */
  function DayNumber(y: nat, m: nat, d: nat): nat
    requires d >= 1
  {
    DaysBeforeYear(y) + DaysBeforeMonth(y, m) + d - 1
  }

  function DaysSinceEpoch(y: nat, m: nat, d: nat): int
    requires d >= 1
  {
    DayNumber(y, m, d) - DayNumber(1970, 1, 1)
  }

  function DateCode(y: nat, m: nat, d: nat): nat {
    y * 10000 + m * 100 + d
  }

  // ---------------------------------------------------------------- closed forms

  function LeapsBefore(y: nat): int {
    (y + 3) / 4 - (y + 99) / 100 + (y + 399) / 400
  }

  lemma FourYears(y: nat)
    ensures (y + 4) / 4 == (y + 3) / 4 + if y % 4 == 0 then 1 else 0
  {
  }

  lemma Century(y: nat)
    ensures (y + 100) / 100 == (y + 99) / 100 + if y % 100 == 0 then 1 else 0
  {
  }

  lemma FourCenturies(y: nat)
    ensures (y + 400) / 400 == (y + 399) / 400 + if y % 400 == 0 then 1 else 0
  {
  }

  lemma CenturyIsRound(y: nat)
    requires y % 100 == 0
    ensures y % 4 == 0
  {
    var k := 25 * (y / 100);
    assert y == 4 * k;
  }

  lemma FourCenturiesAreRound(y: nat)
    requires y % 400 == 0
    ensures y % 100 == 0
  {
  }

  lemma LeapStep(y: nat)
    ensures LeapsBefore(y + 1) == LeapsBefore(y) + if Leap(y) then 1 else 0
  {
    FourYears(y);
    Century(y);
    FourCenturies(y);
    if y % 100 == 0 { CenturyIsRound(y); }
    if y % 400 == 0 { FourCenturiesAreRound(y); }
  }

  lemma {:induction false} DaysBeforeYearClosed(y: nat)
    ensures DaysBeforeYear(y) == 365 * y + LeapsBefore(y)
  {
    if y > 0 {
      DaysBeforeYearClosed(y - 1);
      LeapStep(y - 1);
    }
  }

  lemma MonthTable(y: nat, m: nat)
    requires 1 <= m <= 12
    ensures m <= 2 ==> DaysBeforeMonth(y, m) == (153 * (m + 9) + 2) / 5 - 306
    ensures m > 2 ==> DaysBeforeMonth(y, m) == (153 * (m - 3) + 2) / 5 + 59 + if Leap(y) then 1 else 0
  {
    assert DaysBeforeMonth(y, 1) == 0;
    assert DaysBeforeMonth(y, 2) == 31;
    assert DaysBeforeMonth(y, 3) == 31 + MonthDays(y, 2);
    assert DaysBeforeMonth(y, 4) == 62 + MonthDays(y, 2);
    assert DaysBeforeMonth(y, 5) == 92 + MonthDays(y, 2);
    assert DaysBeforeMonth(y, 6) == 123 + MonthDays(y, 2);
    assert DaysBeforeMonth(y, 7) == 153 + MonthDays(y, 2);
    assert DaysBeforeMonth(y, 8) == 184 + MonthDays(y, 2);
    assert DaysBeforeMonth(y, 9) == 215 + MonthDays(y, 2);
    assert DaysBeforeMonth(y, 10) == 245 + MonthDays(y, 2);
    assert DaysBeforeMonth(y, 11) == 276 + MonthDays(y, 2);
    assert DaysBeforeMonth(y, 12) == 306 + MonthDays(y, 2);
  }

  /** The leap-day count of the formula, for a year that is counted from March. */
  lemma ShiftedLeaps(y: nat)
    ensures (y + 4800) / 4 - (y + 4800) / 100 + (y + 4800) / 400 == LeapsBefore(y + 1) + 1163
    ensures (y + 4799) / 4 - (y + 4799) / 100 + (y + 4799) / 400 == LeapsBefore(y) + 1163
  {
    assert (y + 4800) / 4 == (y + 4) / 4 + 1199;
    assert (y + 4800) / 100 == (y + 100) / 100 + 47;
    assert (y + 4800) / 400 == (y + 400) / 400 + 11;
    assert (y + 4799) / 4 == (y + 3) / 4 + 1199;
    assert (y + 4799) / 100 == (y + 99) / 100 + 47;
    assert (y + 4799) / 400 == (y + 399) / 400 + 11;
  }

  lemma EarlyMonths(y: nat, m: nat, d: nat)
    requires 1 <= m <= 2
    ensures JulianDay(y, m, d) == d + (153 * (m + 9) + 2) / 5 + 365 * (y + 4799)
      + ((y + 4799) / 4 - (y + 4799) / 100 + (y + 4799) / 400) - 32045
  {
  }

  lemma LateMonths(y: nat, m: nat, d: nat)
    requires 3 <= m <= 12
    ensures JulianDay(y, m, d) == d + (153 * (m - 3) + 2) / 5 + 365 * (y + 4800)
      + ((y + 4800) / 4 - (y + 4800) / 100 + (y + 4800) / 400) - 32045
  {
  }

  /** The formula counts days: it is the calendar's day number up to a constant. */
  lemma JulianDayIsDayNumber(y: nat, m: nat, d: nat)
    requires 1 <= m <= 12 && d >= 1
    ensures JulianDay(y, m, d) == DayNumber(y, m, d) + 1721060
  {
    hide JulianDay, DaysBeforeYear, DaysBeforeMonth, LeapsBefore;
    DaysBeforeYearClosed(y);
    MonthTable(y, m);
    ShiftedLeaps(y);
    LeapStep(y);
    if m <= 2 { EarlyMonths(y, m, d); } else { LateMonths(y, m, d); }
  }

  lemma Digits(y: nat, m: nat, d: nat)
    requires m < 100 && d < 100
    ensures DateCode(y, m, d) / 10000 == y && (DateCode(y, m, d) % 10000) / 100 == m && DateCode(y, m, d) % 100 == d
  {
  }

  lemma EpochJulianDay()
    ensures JulianDay(1970, 1, 1) == UNIX_JDN
  {
  }

  /** On every valid date the result is 86400 times the days since the first of January 1970
      counted by the calendar, as an unsigned 64-bit number. */
  lemma DateToUnixSecsIsCalendar(y: nat, m: nat, d: nat)
    requires ValidDate(y, m, d) && DateCode(y, m, d) < TWO_32
    ensures DateToUnixSecs(DateCode(y, m, d)) == (DaysSinceEpoch(y, m, d) * SECONDS_PER_DAY) % TWO_64
  {
    hide DayNumber, JulianDay;
    Digits(y, m, d);
    JulianDayIsDayNumber(y, m, d);
    JulianDayIsDayNumber(1970, 1, 1);
    assert JulianDay(1970, 1, 1) == UNIX_JDN by { EpochJulianDay(); }
  }

  lemma {:induction false} YearsGrow(y: nat, z: nat)
    requires y < z
    ensures DaysBeforeYear(y) + YearDays(y) <= DaysBeforeYear(z)
    decreases z
  {
    if y < z - 1 { YearsGrow(y, z - 1); }
  }

  lemma {:induction false} MonthsGrow(y: nat, m: nat, k: nat)
    requires 1 <= m < k
    ensures DaysBeforeMonth(y, m) + MonthDays(y, m) <= DaysBeforeMonth(y, k)
    decreases k
  {
    if m < k - 1 { MonthsGrow(y, m, k - 1); }
  }

  lemma YearEnds(y: nat)
    ensures DaysBeforeMonth(y, 12) + 31 == YearDays(y)
  {
    MonthTable(y, 12);
  }

  lemma InYear(y: nat, m: nat, d: nat)
    requires ValidDate(y, m, d)
    ensures DaysBeforeMonth(y, m) + d <= YearDays(y)
  {
    YearEnds(y);
    if m < 12 { MonthsGrow(y, m, 12); }
  }

  /** A later date has a larger day number. */
  lemma DayNumberGrows(y: nat, m: nat, d: nat, y': nat, m': nat, d': nat)
    requires ValidDate(y, m, d) && ValidDate(y', m', d')
    requires DateCode(y, m, d) < DateCode(y', m', d')
    ensures DayNumber(y, m, d) < DayNumber(y', m', d')
  {
    if y < y' {
      YearsGrow(y, y');
      InYear(y, m, d);
    } else {
      assert y == y';
      if m < m' { MonthsGrow(y, m, m'); } else { assert m == m'; }
    }
  }

  function NextDay(y: nat, m: nat, d: nat): (nat, nat, nat) {
    if d < MonthDays(y, m) then (y, m, d + 1)
    else if m < 12 then (y, m + 1, 1)
    else (y + 1, 1, 1)
  }

  lemma NextDayIsNext(y: nat, m: nat, d: nat)
    requires ValidDate(y, m, d)
    ensures var (y', m', d') := NextDay(y, m, d);
      ValidDate(y', m', d') && DayNumber(y', m', d') == DayNumber(y, m, d) + 1
  {
    YearEnds(y);
  }

  /** No date that fits in 32 bits is far enough away for the seconds to wrap. */
  lemma YearsAreShort(y: nat, m: nat, d: nat)
    requires ValidDate(y, m, d) && DateCode(y, m, d) < TWO_32
    ensures DayNumber(y, m, d) * SECONDS_PER_DAY < TWO_64 / 2
  {
    assert y <= 429496;
    DaysBeforeYearClosed(y);
    InYear(y, m, d);
  }

  lemma CastOf(x: int)
    requires -(TWO_64 / 2) < x < TWO_64 / 2
    ensures x % TWO_64 == (if x >= 0 then x else x + TWO_64)
  {
  }

  lemma EpochSplitsDates(y: nat, m: nat, d: nat)
    requires ValidDate(y, m, d)
    ensures DaysSinceEpoch(y, m, d) >= 0 <==> y >= 1970
  {
    if DateCode(y, m, d) < DateCode(1970, 1, 1) {
      DayNumberGrows(y, m, d, 1970, 1, 1);
    } else if DateCode(1970, 1, 1) < DateCode(y, m, d) {
      DayNumberGrows(1970, 1, 1, y, m, d);
    }
  }

  lemma DateOfEpoch()
    ensures DateCode(1970, 1, 1) == 19700101
  {
  }

  /** The plain count of seconds is returned exactly for the dates from 1970 on. Earlier dates
      wrap around to enormous times. */
  lemma ExactFrom1970(y: nat, m: nat, d: nat)
    requires ValidDate(y, m, d) && DateCode(y, m, d) < TWO_32
    ensures DateToUnixSecs(DateCode(y, m, d)) == DaysSinceEpoch(y, m, d) * SECONDS_PER_DAY <==> y >= 1970
    ensures y < 1970 ==> DateToUnixSecs(DateCode(y, m, d)) > TWO_64 / 2
  {
    hide DayNumber, DateToUnixSecs, DateCode;
    DateToUnixSecsIsCalendar(y, m, d);
    YearsAreShort(y, m, d);
    assert DateCode(1970, 1, 1) < TWO_32 by { DateOfEpoch(); }
    YearsAreShort(1970, 1, 1);
    EpochSplitsDates(y, m, d);
    CastOf(DaysSinceEpoch(y, m, d) * SECONDS_PER_DAY);
  }

  /** From 1970 on: strictly increasing in the date, and consecutive calendar days are 86400
      seconds apart. */
  lemma LaterDatesAreLater(y: nat, m: nat, d: nat, y': nat, m': nat, d': nat)
    requires ValidDate(y, m, d) && ValidDate(y', m', d') && y >= 1970
    requires DateCode(y, m, d) < DateCode(y', m', d') < TWO_32
    ensures DateToUnixSecs(DateCode(y, m, d)) < DateToUnixSecs(DateCode(y', m', d'))
    ensures (y', m', d') == NextDay(y, m, d) ==>
      DateToUnixSecs(DateCode(y', m', d')) == DateToUnixSecs(DateCode(y, m, d)) + SECONDS_PER_DAY
  {
    assert y' >= y;
    ExactFrom1970(y, m, d);
    ExactFrom1970(y', m', d');
    DayNumberGrows(y, m, d, y', m', d');
    NextDayIsNext(y, m, d);
  }

  /** When an expiry is seen as reached: at midnight of its day, or for a day before 1970 as
      many seconds before the 64-bit clock ends as it lies before 1970. */
  function ReachedAt(y: nat, m: nat, d: nat): int
    requires ValidDate(y, m, d)
  {
    DaysSinceEpoch(y, m, d) * SECONDS_PER_DAY + if y >= 1970 then 0 else TWO_64
  }

  lemma ReachedIsExpiry(y: nat, m: nat, d: nat)
    requires ValidDate(y, m, d) && DateCode(y, m, d) < TWO_32
    ensures DateToUnixSecs(DateCode(y, m, d)) == ReachedAt(y, m, d)
  {
    hide DayNumber, DateToUnixSecs, DateCode;
    DateToUnixSecsIsCalendar(y, m, d);
    YearsAreShort(y, m, d);
    assert DateCode(1970, 1, 1) < TWO_32 by { DateOfEpoch(); }
    YearsAreShort(1970, 1, 1);
    EpochSplitsDates(y, m, d);
    CastOf(DaysSinceEpoch(y, m, d) * SECONDS_PER_DAY);
  }

  /** The time left is in years of 365.25 days: 31557600 seconds. */
  lemma YearsLeft(y: nat, m: nat, d: nat, now: uint64)
    requires ValidDate(y, m, d) && DateCode(y, m, d) < TWO_32
    ensures TimeToMaturity(DateCode(y, m, d), now) * 31557600.0
         == if ReachedAt(y, m, d) <= now then 0.0 else (ReachedAt(y, m, d) - now) as real
  {
    hide DateToUnixSecs, DateCode, ReachedAt;
    ReachedIsExpiry(y, m, d);
  }

  /** Maturity: no time is left exactly from that moment on, whatever the clock says. For a day
      before 1970 that is beyond the first 2^63 seconds. */
  lemma MaturityIsReached(y: nat, m: nat, d: nat, now: uint64)
    requires ValidDate(y, m, d) && DateCode(y, m, d) < TWO_32
    ensures TimeToMaturity(DateCode(y, m, d), now) == 0.0 <==> ReachedAt(y, m, d) <= now
    ensures TimeToMaturity(DateCode(y, m, d), now) >= 0.0
    ensures y < 1970 ==> ReachedAt(y, m, d) > TWO_64 / 2
  {
    hide DateToUnixSecs, DateCode, ReachedAt;
    ReachedIsExpiry(y, m, d);
    ExactFrom1970(y, m, d);
    var expiry := DateToUnixSecs(DateCode(y, m, d));
    if expiry > now {
      var left := (expiry - now) as real;
      assert left > 0.0 && left / (365.25 * 86400.0) > 0.0;
    }
  }
}
