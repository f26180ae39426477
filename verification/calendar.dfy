/** The proleptic Gregorian calendar on day ordinals, counted the way Python's
    `date.toordinal` counts them: 0001-01-01 is day 1 and 9999-12-31, the last
    day a `datetime` can hold, is day 3652059. Adding `timedelta(weeks = w)`
    to a date is adding `7 * w` to its ordinal; the calendar is only needed to
    read the month number of a date back out. */
module Calendar {

  const MaxYear: int := 9999

  /** Ordinal of 9999-12-31. */
  const MaxOrdinal: int := 3652059

  /** A representable date, as its day ordinal. */
  type Date = n: int | 1 <= n <= MaxOrdinal witness 1

  datatype Civil = Civil(year: int, month: int, day: int)

  predicate IsLeapYear(y: int) {
    y % 4 == 0 && (y % 100 != 0 || y % 400 == 0)
  }

  function DaysInYear(y: int): int {
    if IsLeapYear(y) then 366 else 365
  }

  function DaysInMonth(y: int, m: int): int
    requires 1 <= m <= 12
  {
    if m == 2 then (if IsLeapYear(y) then 29 else 28)
    else if m == 4 || m == 6 || m == 9 || m == 11 then 30
    else 31
  }

  /** Days in all the years before year `y`, counted year by year. */
  function DaysBeforeYear(y: int): int
    requires y >= 1
    decreases y
  {
    if y == 1 then 0 else DaysBeforeYear(y - 1) + DaysInYear(y - 1)
  }

  /** Days in year `y` before the first of month `m`. */
  function DaysBeforeMonth(y: int, m: int): int
    requires 1 <= m <= 12
  {
    var common := [0, 31, 59, 90, 120, 151, 181, 212, 243, 273, 304, 334];
    common[m - 1] + (if m > 2 && IsLeapYear(y) then 1 else 0)
  }

  predicate ValidCivil(c: Civil) {
    && c.year >= 1
    && 1 <= c.month <= 12
    && 1 <= c.day <= DaysInMonth(c.year, c.month)
  }

  /** Strict chronological order on (year, month, day) triples. */
  predicate CivilBefore(a: Civil, b: Civil) {
    || a.year < b.year
    || (a.year == b.year && a.month < b.month)
    || (a.year == b.year && a.month == b.month && a.day < b.day)
  }

  function ToOrdinal(c: Civil): int
    requires ValidCivil(c)
  {
    DaysBeforeYear(c.year) + DaysBeforeMonth(c.year, c.month) + c.day
  }

  /** The month table adds up: each month starts where the previous one ends
      and the twelve months fill the year. */
  lemma MonthTable(y: int)
    ensures forall m :: 1 <= m < 12 ==> DaysBeforeMonth(y, m + 1) == DaysBeforeMonth(y, m) + DaysInMonth(y, m)
    ensures forall m :: 1 <= m <= 12 ==> DaysBeforeMonth(y, m) + DaysInMonth(y, m) <= DaysInYear(y)
    ensures DaysBeforeMonth(y, 12) + DaysInMonth(y, 12) == DaysInYear(y)
  {
  }

  lemma YearStep(y: int)
    requires y >= 1
    ensures DaysBeforeYear(y + 1) == DaysBeforeYear(y) + DaysInYear(y)
  {
  }

  /** The closed form of the year count: 365 days a year plus one for every
      fourth year, less the centuries, plus every fourth century. */
  lemma {:induction false} DaysBeforeYearClosedForm(y: int)
    requires y >= 1
    ensures var p := y - 1; DaysBeforeYear(y) == 365 * p + p / 4 - p / 100 + p / 400
    decreases y
  {
    if y > 1 {
      DaysBeforeYearClosedForm(y - 1);
      var p := y - 1;
      LeapCount(p);
    }
  }

  /** Year `p` is a leap year exactly when it adds one to the count of fourth
      years less centuries plus fourth centuries. */
  lemma LeapCount(p: int)
    requires p >= 1
    ensures (if IsLeapYear(p) then 1 else 0) ==
      (p / 4 - (p - 1) / 4) - (p / 100 - (p - 1) / 100) + (p / 400 - (p - 1) / 400)
  {
    CountStep(p);
    DivisorChain(p);
  }

  /** Moving from `p - 1` to `p` adds one fourth year, century or fourth
      century exactly when `p` is one. */
  lemma CountStep(p: int)
    requires p >= 1
    ensures p / 4 - (p - 1) / 4 == if p % 4 == 0 then 1 else 0
    ensures p / 100 - (p - 1) / 100 == if p % 100 == 0 then 1 else 0
    ensures p / 400 - (p - 1) / 400 == if p % 400 == 0 then 1 else 0
  {
  }

  /** Every fourth century is a century and every century a fourth year. */
  lemma DivisorChain(p: int)
    ensures p % 400 == 0 ==> p % 100 == 0
    ensures p % 100 == 0 ==> p % 4 == 0
  {
    if p % 400 == 0 {
      FourthCenturyIsCentury(p);
    }
    if p % 100 == 0 {
      CenturyIsFourthYear(p);
    }
  }

  lemma FourthCenturyIsCentury(p: int)
    requires p % 400 == 0
    ensures p % 100 == 0
  {
    var q := p / 400;
    assert p == 100 * (4 * q) + 0;
  }

  lemma CenturyIsFourthYear(p: int)
    requires p % 100 == 0
    ensures p % 4 == 0
  {
    var q := p / 100;
    assert p == 4 * (25 * q) + 0;
  }

  /** Every later year starts at least 365 days per year later. */
  lemma {:induction false} DaysBeforeYearMonotone(a: int, b: int)
    requires 1 <= a <= b
    ensures DaysBeforeYear(a) + 365 * (b - a) <= DaysBeforeYear(b)
    decreases b - a
  {
    if a < b {
      YearStep(a);
      DaysBeforeYearMonotone(a + 1, b);
    }
  }

  /** The date `n` days into year `y`, counting from month `m`: the day
      numbered `DaysBeforeMonth(y, m) + n` of the year. */
  function MonthDayFrom(y: int, m: int, n: int): (c: Civil)
    requires y >= 1 && 1 <= m <= 12
    requires 1 <= n <= DaysInYear(y) - DaysBeforeMonth(y, m)
    ensures ValidCivil(c) && c.year == y && m <= c.month
    ensures DaysBeforeMonth(y, c.month) + c.day == DaysBeforeMonth(y, m) + n
    decreases 12 - m
  {
    MonthTable(y);
    if n > DaysInMonth(y, m) then MonthDayFrom(y, m + 1, n - DaysInMonth(y, m))
    else Civil(y, m, n)
  }

  /** The date `n - 1` days after the first of January of year `y`. */
  function CivilFrom(y: int, n: int): (c: Civil)
    requires y >= 1 && n >= 1
    ensures ValidCivil(c) && y <= c.year
    ensures ToOrdinal(c) == DaysBeforeYear(y) + n
    decreases n
  {
    YearStep(y);
    if n > DaysInYear(y) then CivilFrom(y + 1, n - DaysInYear(y))
    else MonthDayFrom(y, 1, n)
  }

  /** The calendar date of day ordinal `n`; Python's `date.fromordinal`. */
  function FromOrdinal(n: int): (c: Civil)
    requires n >= 1
    ensures ValidCivil(c)
    ensures ToOrdinal(c) == n
  {
    CivilFrom(1, n)
  }

  lemma {:induction false} MonthDayFromAt(y: int, m0: int, c: Civil)
    requires ValidCivil(c) && c.year == y && 1 <= m0 <= c.month
    ensures 1 <= DaysBeforeMonth(y, c.month) - DaysBeforeMonth(y, m0) + c.day <= DaysInYear(y) - DaysBeforeMonth(y, m0)
    ensures MonthDayFrom(y, m0, DaysBeforeMonth(y, c.month) - DaysBeforeMonth(y, m0) + c.day) == c
    decreases c.month - m0
  {
    MonthTable(y);
    if m0 < c.month {
      MonthDayFromAt(y, m0 + 1, c);
    }
  }

  /** Within its own year, a date is found by the month walk. */
  lemma CivilFromOwnYear(c: Civil)
    requires ValidCivil(c)
    ensures 1 <= DaysBeforeMonth(c.year, c.month) + c.day <= DaysInYear(c.year)
    ensures CivilFrom(c.year, DaysBeforeMonth(c.year, c.month) + c.day) == c
  {
    MonthDayFromAt(c.year, 1, c);
  }

  lemma {:induction false} CivilFromYear(y0: int, c: Civil)
    requires ValidCivil(c) && 1 <= y0 <= c.year
    ensures ToOrdinal(c) - DaysBeforeYear(y0) >= 1
    ensures CivilFrom(y0, ToOrdinal(c) - DaysBeforeYear(y0)) == c
    decreases c.year - y0
  {
    var n := ToOrdinal(c) - DaysBeforeYear(y0);
    if y0 == c.year {
      CivilFromOwnYear(c);
    } else {
      YearStep(y0);
      DaysBeforeYearMonotone(y0 + 1, c.year);
      assert n > DaysInYear(y0);
      CivilFromYear(y0 + 1, c);
      assert CivilFrom(y0, n) == CivilFrom(y0 + 1, n - DaysInYear(y0));
    }
  }

  /** Reading a valid date's ordinal back gives the same date, so ordinals and
      valid dates are in one-to-one correspondence. */
  lemma OrdinalRoundTrip(c: Civil)
    requires ValidCivil(c)
    ensures ToOrdinal(c) >= 1
    ensures FromOrdinal(ToOrdinal(c)) == c
  {
    CivilFromYear(1, c);
  }

  /** Ordinals follow chronological order. */
  lemma OrdinalOrder(a: Civil, b: Civil)
    requires ValidCivil(a) && ValidCivil(b)
    ensures CivilBefore(a, b) <==> ToOrdinal(a) < ToOrdinal(b)
  {
    MonthTable(a.year);
    MonthTable(b.year);
    if a.year < b.year {
      YearStep(a.year);
      DaysBeforeYearMonotone(a.year + 1, b.year);
    } else if b.year < a.year {
      YearStep(b.year);
      DaysBeforeYearMonotone(b.year + 1, a.year);
    }
  }

  /** An ordinal is representable exactly when its year is at most 9999. */
  lemma DateRange(n: int)
    requires n >= 1
    ensures n <= MaxOrdinal <==> FromOrdinal(n).year <= MaxYear
  {
    var c := FromOrdinal(n);
    DaysBeforeYearClosedForm(MaxYear + 1);
    if c.year <= MaxYear {
      MonthTable(c.year);
      YearStep(c.year);
      assert n <= DaysBeforeYear(c.year + 1);
      DaysBeforeYearMonotone(c.year + 1, MaxYear + 1);
    } else {
      DaysBeforeYearMonotone(MaxYear + 1, c.year);
      assert n > DaysBeforeYear(c.year);
    }
  }

  /** The month number (1 to 12) of a date; Python's `.month`. */
  function MonthOf(n: Date): (m: int)
    ensures 1 <= m <= 12
  {
    FromOrdinal(n).month
  }

  /** The year of a date; Python's `.year`. */
  function YearOf(n: Date): (y: int)
    ensures 1 <= y <= MaxYear
  {
    DateRange(n);
    FromOrdinal(n).year
  }

  /** Later ordinals never fall in an earlier (year, month). */
  lemma FromOrdinalMonotone(n1: int, n2: int)
    requires 1 <= n1 <= n2
    ensures !CivilBefore(FromOrdinal(n2), FromOrdinal(n1))
  {
    OrdinalOrder(FromOrdinal(n2), FromOrdinal(n1));
  }
}
