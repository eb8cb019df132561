/**
  Gregorian calendar dates in the range of Python's `datetime` (years 1 to 9999).

  `PrevDay` is the "today minus one day" step of the job, written as day,
  month and year rollover. Python itself computes `date - timedelta(days=1)`
  through the proleptic ordinal (`toordinal`, day 1 = 0001-01-01); `Ordinal`
  below follows that closed formula and serves as the independent reference
  that `PrevDay` is proved against.
 */
module Calendar {

  datatype Date = Date(year: int, month: int, day: int)

  const MinYear := 1
  const MaxYear := 9999

  /** The one date in range that has no predecessor (Python raises OverflowError there). */
  const FirstDate := Date(MinYear, 1, 1)
  /** The one date in range that has no successor. */
  const LastDate := Date(MaxYear, 12, 31)

  predicate IsLeapYear(y: int) {
    y % 4 == 0 && (y % 100 != 0 || y % 400 == 0)
  }

  function DaysInMonth(y: int, m: int): (n: int)
    requires 1 <= m <= 12
    ensures 28 <= n <= 31
  {
    if m == 2 then (if IsLeapYear(y) then 29 else 28)
    else if m == 4 || m == 6 || m == 9 || m == 11 then 30
    else 31
  }

  function DaysInYear(y: int): (n: int) {
    if IsLeapYear(y) then 366 else 365
  }

  predicate ValidDate(d: Date) {
    && MinYear <= d.year <= MaxYear
    && 1 <= d.month <= 12
    && 1 <= d.day <= DaysInMonth(d.year, d.month)
  }

  /** A clock reading from which one day can be subtracted. */
  predicate HasPredecessor(d: Date) {
    ValidDate(d) && d != FirstDate
  }

  predicate HasSuccessor(d: Date) {
    ValidDate(d) && d != LastDate
  }

  /** Calendar order: earlier year, else earlier month, else earlier day. */
  predicate Before(a: Date, b: Date) {
    || a.year < b.year
    || (a.year == b.year && a.month < b.month)
    || (a.year == b.year && a.month == b.month && a.day < b.day)
  }

  /** The calendar day before `d`, with month and year rollover and leap February. */
  function PrevDay(d: Date): (r: Date)
    requires HasPredecessor(d)
    ensures HasSuccessor(r)
    ensures Before(r, d)
  {
    if d.day > 1 then Date(d.year, d.month, d.day - 1)
    else if d.month > 1 then Date(d.year, d.month - 1, DaysInMonth(d.year, d.month - 1))
    else Date(d.year - 1, 12, 31)
  }

  /** The calendar day after `d`. */
  function NextDay(d: Date): (r: Date)
    requires HasSuccessor(d)
    ensures HasPredecessor(r)
    ensures Before(d, r)
  {
    if d.day < DaysInMonth(d.year, d.month) then Date(d.year, d.month, d.day + 1)
    else if d.month < 12 then Date(d.year, d.month + 1, 1)
    else Date(d.year + 1, 1, 1)
  }

  /** Days in the years before `y`, as CPython's `_days_before_year`. */
  function DaysBeforeYear(y: int): (n: int)
    requires y >= 1
  {
    var p := y - 1;
    p * 365 + p / 4 - p / 100 + p / 400
  }

  /** Days in the months of `y` before `m`, as CPython's `_days_before_month`. */
  function DaysBeforeMonth(y: int, m: int): (n: int)
    requires 1 <= m <= 12
  {
    var table := [0, 31, 59, 90, 120, 151, 181, 212, 243, 273, 304, 334];
    table[m - 1] + (if m > 2 && IsLeapYear(y) then 1 else 0)
  }

  /** Proleptic Gregorian ordinal, as Python's `date.toordinal`: 0001-01-01 is day 1. */
  function Ordinal(d: Date): (n: int)
    requires ValidDate(d)
  {
    DaysBeforeYear(d.year) + DaysBeforeMonth(d.year, d.month) + d.day
  }

  // ----- arithmetic facts behind the ordinal -----

  lemma DivStep4(k: int)
    requires k >= 1
    ensures k / 4 - (k - 1) / 4 == if k % 4 == 0 then 1 else 0
  {
  }

  lemma DivStep100(k: int)
    requires k >= 1
    ensures k / 100 - (k - 1) / 100 == if k % 100 == 0 then 1 else 0
  {
  }

  lemma DivStep400(k: int)
    requires k >= 1
    ensures k / 400 - (k - 1) / 400 == if k % 400 == 0 then 1 else 0
  {
  }

  /** Consecutive year starts are one year length apart. */
  lemma YearStep(y: int)
    requires y >= 1
    ensures DaysBeforeYear(y + 1) == DaysBeforeYear(y) + DaysInYear(y)
  {
    var p := y - 1;
    DivStep4(y);
    DivStep100(y);
    DivStep400(y);
    LeapDivisors(y);
    var a := (if y % 4 == 0 then 1 else 0) - (if y % 100 == 0 then 1 else 0) + (if y % 400 == 0 then 1 else 0);
    assert a == DaysInYear(y) - 365;
    assert DaysBeforeYear(y + 1) - DaysBeforeYear(y) == 365 + (y / 4 - p / 4) - (y / 100 - p / 100) + (y / 400 - p / 400);
  }

  /** Every fourth-century year is a century year, and every century year is a fourth year. */
  lemma LeapDivisors(y: int)
    ensures y % 100 == 0 ==> y % 4 == 0
    ensures y % 400 == 0 ==> y % 100 == 0
  {
    if y % 100 == 0 {
      assert y == 100 * (y / 100);
      assert y == 4 * (25 * (y / 100));
    }
    if y % 400 == 0 {
      assert y == 100 * (4 * (y / 400));
    }
  }

  /** Consecutive month starts are one month length apart; December ends the year. */
  lemma MonthStep(y: int, m: int)
    requires 1 <= m <= 12
    ensures m < 12 ==> DaysBeforeMonth(y, m + 1) == DaysBeforeMonth(y, m) + DaysInMonth(y, m)
    ensures m == 12 ==> DaysBeforeMonth(y, m) + DaysInMonth(y, m) == DaysInYear(y)
  {
  }

  // ----- PrevDay and NextDay against the ordinal -----

  /** `PrevDay` is exactly Python's `d - timedelta(days=1)`: one ordinal back. */
  lemma PrevDayOrdinal(d: Date)
    requires HasPredecessor(d)
    ensures Ordinal(PrevDay(d)) == Ordinal(d) - 1
  {
    if d.day == 1 {
      if d.month > 1 {
        MonthStep(d.year, d.month - 1);
      } else {
        MonthStep(d.year - 1, 12);
        YearStep(d.year - 1);
      }
    }
  }

  /** `NextDay` is one ordinal forward. */
  lemma NextDayOrdinal(d: Date)
    requires HasSuccessor(d)
    ensures Ordinal(NextDay(d)) == Ordinal(d) + 1
  {
    if d.day == DaysInMonth(d.year, d.month) {
      MonthStep(d.year, d.month);
      if d.month == 12 {
        YearStep(d.year);
      }
    }
  }

  /** Stepping back and then forward returns the same date. */
  lemma NextOfPrev(d: Date)
    requires HasPredecessor(d)
    ensures NextDay(PrevDay(d)) == d
  {
  }

  /** Stepping forward and then back returns the same date. */
  lemma PrevOfNext(d: Date)
    requires HasSuccessor(d)
    ensures PrevDay(NextDay(d)) == d
  {
  }

  // ----- calendar order agrees with ordinal order -----

  lemma YearsMonotone(a: int, b: int)
    requires 1 <= a < b
    ensures DaysBeforeYear(a) + DaysInYear(a) <= DaysBeforeYear(b)
    decreases b - a
  {
    YearStep(a);
    if a + 1 < b {
      YearsMonotone(a + 1, b);
    }
  }

  lemma MonthsMonotone(y: int, a: int, b: int)
    requires 1 <= a < b <= 12
    ensures DaysBeforeMonth(y, a) + DaysInMonth(y, a) <= DaysBeforeMonth(y, b)
  {
  }

  lemma WithinYear(d: Date)
    requires ValidDate(d)
    ensures DaysBeforeMonth(d.year, d.month) + d.day <= DaysInYear(d.year)
  {
    if d.month < 12 {
      MonthsMonotone(d.year, d.month, 12);
    }
    MonthStep(d.year, 12);
  }

  /** On valid dates, calendar order and ordinal order coincide. */
  lemma OrdinalOrder(a: Date, b: Date)
    requires ValidDate(a) && ValidDate(b)
    ensures Before(a, b) <==> Ordinal(a) < Ordinal(b)
    ensures a == b <==> Ordinal(a) == Ordinal(b)
  {
    if a.year != b.year {
      var (lo, hi) := if a.year < b.year then (a, b) else (b, a);
      WithinYear(lo);
      YearsMonotone(lo.year, hi.year);
    } else if a.month != b.month {
      var (lo, hi) := if a.month < b.month then (a, b) else (b, a);
      MonthsMonotone(lo.year, lo.month, hi.month);
    }
  }

  /** Consequently the predecessor is the unique valid date one ordinal back. */
  lemma PrevDayUnique(d: Date, e: Date)
    requires HasPredecessor(d) && ValidDate(e)
    ensures Ordinal(e) == Ordinal(d) - 1 <==> e == PrevDay(d)
  {
    PrevDayOrdinal(d);
    OrdinalOrder(e, PrevDay(d));
  }

  /** Nothing lies strictly between the predecessor and the day itself. */
  lemma PrevDayAdjacent(d: Date, e: Date)
    requires HasPredecessor(d) && ValidDate(e)
    ensures Before(e, d) <==> (e == PrevDay(d) || Before(e, PrevDay(d)))
  {
    PrevDayOrdinal(d);
    OrdinalOrder(e, d);
    OrdinalOrder(e, PrevDay(d));
  }
}
