/** The proleptic Gregorian calendar in UTC, and the normalising date arithmetic of Go's Time.AddDate. */
module Calendar {

  /** Nanoseconds since 1970-01-01T00:00:00Z. */
  type Instant = int

  const SECOND: int := 1_000_000_000
  const HOUR: int := 3600 * SECOND
  const DAY: int := 24 * HOUR

  // ---------- dates ----------

  predicate IsLeap(year: int) {
    year % 4 == 0 && (year % 100 != 0 || year % 400 == 0)
  }

  function DaysIn(year: int, month: int): (days: int)
    ensures 28 <= days <= 31
  {
    if month == 2 then (if IsLeap(year) then 29 else 28)
    else if month in {4, 6, 9, 11} then 30
    else 31
  }

  datatype Date = Date(year: int, month: int, day: int) {
    predicate Valid() {
      1 <= month <= 12 && 1 <= day <= DaysIn(year, month)
    }
  }

  // ---------- day numbers ----------

  /** January 1970, when months are numbered from January of year 0. */
  const EPOCH: int := 12 * 1970

  function MonthLength(i: int): int {
    DaysIn(i / 12, i % 12 + 1)
  }

  /** The day number, counted from 1970-01-01, of the first day of month i. */
  function MonthStart(i: int): int
    decreases if i < EPOCH then EPOCH - i else i - EPOCH
  {
    if i == EPOCH then 0
    else if i > EPOCH then MonthStart(i - 1) + MonthLength(i - 1)
    else MonthStart(i + 1) - MonthLength(i)
  }

  /** The month that holds day n, looked for from month i. */
  function Seek(n: int, i: int): (m: int)
    ensures MonthStart(m) <= n < MonthStart(m + 1)
    decreases n < MonthStart(i), if n < MonthStart(i) then MonthStart(i) - n else n - MonthStart(i)
  {
    NextMonth(i - 1);
    NextMonth(i);
    if n < MonthStart(i) then Seek(n, i - 1)
    else if n < MonthStart(i + 1) then i
    else Seek(n, i + 1)
  }

  lemma NextMonth(i: int)
    ensures MonthStart(i + 1) == MonthStart(i) + MonthLength(i)
  {
  }

  function MonthOf(n: int): (m: int)
    ensures MonthStart(m) <= n < MonthStart(m + 1)
  {
    Seek(n, EPOCH)
  }

  /** Day number of a date whose month and day may lie outside their ranges: both spill over. */
  function DayNumber(year: int, month: int, day: int): int {
    MonthStart(12 * year + month - 1) + day - 1
  }

  function DateOf(n: int): Date {
    var i := MonthOf(n);
    Date(i / 12, i % 12 + 1, n - MonthStart(i) + 1)
  }

  /** Time.AddDate for a UTC time: the date is shifted field by field and normalised, the time of day is kept. */
  function AddDate(t: Instant, years: int, months: int, days: int): Instant {
    var d := DateOf(t / DAY);
    DayNumber(d.year + years, d.month + months, d.day + days) * DAY + t % DAY
  }

  // ---------- conversion ----------

  /** k months span between 28k and 31k days. */
  lemma {:induction false} MonthSpan(i: int, k: nat)
    ensures 28 * k <= MonthStart(i + k) - MonthStart(i) <= 31 * k
  {
    if k > 0 {
      MonthSpan(i, k - 1);
      NextMonth(i + k - 1);
    }
  }

  lemma MonthOrder(i: int, j: int)
    ensures i <= j ==> MonthStart(i) <= MonthStart(j)
  {
    if i <= j { MonthSpan(i, j - i); }
  }

  /** A day lies in one month only. */
  lemma MonthUnique(n: int, i: int)
    requires MonthStart(i) <= n < MonthStart(i + 1)
    ensures MonthOf(n) == i
  {
    var j := MonthOf(n);
    MonthOrder(j + 1, i);
    MonthOrder(i + 1, j);
  }

  /** Converting a valid date to a day number and back gives the date. */
  lemma DateRoundTrip(d: Date)
    requires d.Valid()
    ensures DateOf(DayNumber(d.year, d.month, d.day)) == d
  {
    var i := 12 * d.year + d.month - 1;
    NextMonth(i);
    MonthUnique(DayNumber(d.year, d.month, d.day), i);
  }

  /** Every day number is that of exactly one valid date. */
  lemma DayRoundTrip(n: int)
    ensures DateOf(n).Valid()
    ensures DayNumber(DateOf(n).year, DateOf(n).month, DateOf(n).day) == n
  {
    NextMonth(MonthOf(n));
  }

  // ---------- AddDate ----------

  /** How many days a shift by k months moves day n. */
  function MonthShift(n: int, k: int): int {
    MonthStart(MonthOf(n) + k) - MonthStart(MonthOf(n))
  }

  /** Shifting by k months moves a day by 28k to 31k days, whatever the overflow of the day of the month. */
  lemma MonthShiftBounds(n: int, k: int)
    ensures if k >= 0 then 28 * k <= MonthShift(n, k) <= 31 * k else 31 * k <= MonthShift(n, k) <= 28 * k
  {
    if k >= 0 { MonthSpan(MonthOf(n), k); } else { MonthSpan(MonthOf(n) + k, -k); }
  }

  /** AddDate moves a time by whole days and keeps the time of day. */
  lemma AddDateShifts(t: Instant, years: int, months: int, days: int)
    ensures AddDate(t, years, months, days) == t + (MonthShift(t / DAY, 12 * years + months) + days) * DAY
  {
    var n, d, i := t / DAY, DateOf(t / DAY), MonthOf(t / DAY);
    assert 12 * (d.year + years) + (d.month + months) - 1 == i + (12 * years + months);
    Scale(t, DayNumber(d.year + years, d.month + months, d.day + days), MonthShift(n, 12 * years + months) + days);
  }

  lemma Scale(t: Instant, m: int, shift: int)
    requires m == t / DAY + shift
    ensures m * DAY + t % DAY == t + shift * DAY
  {
  }

  /** When the shifted month is long enough for the day, AddDate changes month and year and nothing else. */
  lemma AddDateKeepsDay(t: Instant, years: int, months: int, target: Date)
    requires target.Valid() && target.day == DateOf(t / DAY).day
    requires 12 * target.year + target.month == 12 * (DateOf(t / DAY).year + years) + DateOf(t / DAY).month + months
    ensures DateOf(AddDate(t, years, months, 0) / DAY) == target
    ensures AddDate(t, years, months, 0) % DAY == t % DAY
  {
    hide DateOf, MonthStart;
    var d := DateOf(t / DAY);
    assert 12 * target.year + target.month - 1 == 12 * (d.year + years) + (d.month + months) - 1;
    DateRoundTrip(target);
    Split(DayNumber(d.year + years, d.month + months, d.day), t % DAY);
  }

  lemma Split(n: int, rest: int)
    requires 0 <= rest < DAY
    ensures (n * DAY + rest) / DAY == n && (n * DAY + rest) % DAY == rest
  {
  }

  // ---------- the calendar itself ----------

  /** Every fourth year has a leap day, but of the centuries only every fourth. */
  lemma LeapRule(year: int)
    ensures IsLeap(year) <==> (year % 4 == 0 && year % 100 != 0) || year % 400 == 0
    ensures LeapDay(year) == if IsLeap(year) then 1 else 0
  {
    if year % 400 == 0 {
      Quotient(year, 4, 100 * (year / 400), 0);
    }
  }

  /** The lengths of the months. */
  lemma MonthLengths(year: int)
    ensures DaysIn(year, 1) == 31 && DaysIn(year, 3) == 31 && DaysIn(year, 4) == 30 && DaysIn(year, 5) == 31
    ensures DaysIn(year, 6) == 30 && DaysIn(year, 7) == 31 && DaysIn(year, 8) == 31 && DaysIn(year, 9) == 30
    ensures DaysIn(year, 10) == 31 && DaysIn(year, 11) == 30 && DaysIn(year, 12) == 31
    ensures DaysIn(year, 2) == if (year % 4 == 0 && year % 100 != 0) || year % 400 == 0 then 29 else 28
  {
    LeapRule(year);
    hide IsLeap;
  }

  /** Days from January 1 to the first of a month, when the year is not a leap year. */
  function Before(month: int): int {
    if month <= 1 then 0 else if month == 2 then 31 else if month == 3 then 59 else if month == 4 then 90
    else if month == 5 then 120 else if month == 6 then 151 else if month == 7 then 181 else if month == 8 then 212
    else if month == 9 then 243 else if month == 10 then 273 else if month == 11 then 304 else 334
  }

  function LeapDay(year: int): int {
    if (year % 4 == 0 && year % 100 != 0) || year % 400 == 0 then 1 else 0
  }

  lemma {:induction false} MonthInYear(year: int, month: int)
    requires 1 <= month <= 12
    ensures MonthStart(12 * year + month - 1) == MonthStart(12 * year) + Before(month) + if month > 2 then LeapDay(year) else 0
    ensures month == 12 ==> MonthStart(12 * (year + 1)) == MonthStart(12 * year) + 365 + LeapDay(year)
    decreases month
  {
    LengthInYear(year, month);
    if month > 1 {
      MonthInYear(year, month - 1);
      LengthInYear(year, month - 1);
      NextMonth(12 * year + month - 2);
      assert (12 * year + month - 2) + 1 == 12 * year + month - 1;
    }
    if month == 12 {
      NextMonth(12 * year + 11);
      assert (12 * year + 11) + 1 == 12 * (year + 1);
    }
    hide MonthStart, DaysIn;
  }

  lemma LengthInYear(year: int, month: int)
    requires 1 <= month <= 12
    ensures MonthLength(12 * year + month - 1) == DaysIn(year, month)
    ensures DaysIn(year, month) == (if month < 12 then Before(month + 1) else 365) - Before(month) + if month == 2 then LeapDay(year) else 0
  {
    Quotient(12 * year + month - 1, 12, year, month - 1);
    MonthLengths(year);
    hide DaysIn;
  }

  /** The leap years before a year, counted from year 1. */
  function Leaps(year: int): int {
    (year - 1) / 4 - (year - 1) / 100 + (year - 1) / 400
  }

  lemma NextLeap(year: int)
    ensures Leaps(year + 1) == Leaps(year) + LeapDay(year)
  {
    Floor(year, 4);
    Floor(year, 100);
    Floor(year, 400);
    if year % 100 == 0 {
      Quotient(year, 4, 25 * (year / 100), 0);
    }
    if year % 400 == 0 {
      Quotient(year, 100, 4 * (year / 400), 0);
    }
  }

  lemma Floor(y: int, m: int)
    requires m > 1
    ensures y / m == (y - 1) / m + if y % m == 0 then 1 else 0
  {
    var q := (y - 1) / m;
    assert y - 1 == q * m + (y - 1) % m;
    if (y - 1) % m == m - 1 {
      assert y == (q + 1) * m;
      Quotient(y, m, q + 1, 0);
    } else {
      Quotient(y, m, q, (y - 1) % m + 1);
    }
  }

  lemma Quotient(y: int, m: int, q: int, r: int)
    requires m > 0 && y == q * m + r && 0 <= r < m
    ensures y / m == q && y % m == r
  {
    var d := y / m - q;
    assert d * m == r - y % m;
    assert d == 0 by {
      Small(d, m);
    }
  }

  lemma Small(d: int, m: int)
    requires m > 0 && -m < d * m < m
    ensures d == 0
  {
  }

  lemma {:induction false} YearStart(year: int)
    ensures MonthStart(12 * year) == 365 * year + Leaps(year) - 719527
    decreases if year < 1970 then 1970 - year else year - 1970
  {
    if year > 1970 {
      YearStart(year - 1);
      MonthInYear(year - 1, 12);
      NextLeap(year - 1);
    } else if year < 1970 {
      YearStart(year + 1);
      MonthInYear(year, 12);
      NextLeap(year);
    }
    hide Leaps, LeapDay;
  }

  /** The day number of every date of the Gregorian calendar in closed form, by the rule for leap years and the lengths of the months. */
  lemma CivilDay(d: Date)
    requires 1 <= d.month <= 12
    ensures DayNumber(d.year, d.month, d.day) ==
            365 * d.year + (d.year - 1) / 4 - (d.year - 1) / 100 + (d.year - 1) / 400 - 719527
            + Before(d.month)
            + (if d.month > 2 && ((d.year % 4 == 0 && d.year % 100 != 0) || d.year % 400 == 0) then 1 else 0)
            + d.day - 1
  {
    MonthInYear(d.year, d.month);
    YearStart(d.year);
    hide MonthStart;
  }

  /** Known days: the epoch, a leap day, the day after one that a century skips, and a day before the epoch. */
  lemma KnownDays()
    ensures DayNumber(1970, 1, 1) == 0 && DayNumber(2024, 2, 29) == 19782 && DayNumber(2100, 3, 1) == 47541
    ensures DayNumber(1969, 12, 31) == -1 && DayNumber(1900, 3, 1) == -25508
    ensures SECOND == 1_000_000_000 && HOUR == 3_600_000_000_000 && DAY == 86_400_000_000_000
  {
    hide DayNumber;
    CivilDay(Date(1970, 1, 1));
    CivilDay(Date(1969, 12, 31));
    KnownLeapDay();
    KnownCentury();
  }

  lemma KnownLeapDay()
    ensures DayNumber(2024, 2, 29) == 19782
  {
    hide DayNumber;
    CivilDay(Date(2024, 2, 29));
  }

  lemma KnownCentury()
    ensures DayNumber(2100, 3, 1) == 47541 && DayNumber(1900, 3, 1) == -25508
  {
    hide DayNumber;
    CivilDay(Date(2100, 3, 1));
    CivilDay(Date(1900, 3, 1));
  }
}
