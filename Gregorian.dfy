/**
 * Proleptic Gregorian calendar arithmetic on (year, month, day) triples, as
 * the calendar component gets it from JavaScript's `Date`.  Months are
 * numbered 0 (January) to 11 (December), as `getMonth` numbers them;
 * weekdays 0 (Sunday) to 6 (Saturday), as `getDay` numbers them.
 */
module Gregorian {

  type Month = m: int | 0 <= m < 12

  /** Divisible by 4, and not by 100 unless also by 400. */
  predicate IsLeapYear(year: int) {
    year % 4 == 0 && (year % 100 != 0 || year % 400 == 0)
  }

  /** The number of days of a month. */
  function DaysInMonth(year: int, month: Month): (n: int)
    ensures 28 <= n <= 31
  {
    if month == 1 then (if IsLeapYear(year) then 29 else 28)
    else if month == 3 || month == 5 || month == 8 || month == 10 then 30
    else 31
  }

  /** The month length is fixed except for February, which has 29 days exactly in leap years. */
  lemma FebruaryLength(year: int)
    ensures DaysInMonth(year, 1) == 29 <==> IsLeapYear(year)
    ensures DaysInMonth(year, 1) == 28 <==> !IsLeapYear(year)
  {
  }

  datatype Date = Date(year: int, month: Month, day: int)

  predicate ValidDate(d: Date) {
    1 <= d.day <= DaysInMonth(d.year, d.month)
  }

  /**
   * The number of days from 1 January of year 1 to 1 January of `year`,
   * counted by the leap rule in closed form (Dafny's division rounds down
   * for a positive divisor, so this holds for years before 1 as well).
   */
  function DaysBeforeYear(year: int): int {
    var y := year - 1;
    365 * y + y / 4 - y / 100 + y / 400
  }

  /** The number of days of the year before the first of `month`, from the cumulative table. */
  function DaysBeforeMonth(year: int, month: Month): int {
    [0, 31, 59, 90, 120, 151, 181, 212, 243, 273, 304, 334][month]
      + if month >= 2 && IsLeapYear(year) then 1 else 0
  }

  /** Days since 1 January of year 1 (day 0). */
  function DayNumber(d: Date): int {
    DaysBeforeYear(d.year) + DaysBeforeMonth(d.year, d.month) + d.day - 1
  }

  /** Day of the week, 0 = Sunday; 1 January of year 1 was a Monday. */
  function Weekday(d: Date): (w: int)
    ensures 0 <= w < 7
  {
    (DayNumber(d) + 1) % 7
  }

  /** Division with a remainder in range is unique: it is what `/` and `%` compute. */
  lemma DivisionUnique(n: int, k: int, q: int, r: int)
    requires k > 0 && 0 <= r < k && n == q * k + r
    ensures n / k == q && n % k == r
  {
    var t := q - n / k;
    assert t * k == n % k - r;
  }

  /** Counting multiples of `k`: moving from `y` to `y + 1` passes one exactly when `k` divides `y + 1`. */
  lemma DivisionStep(y: int, k: int)
    requires k > 0
    ensures (y + 1) / k - y / k == if (y + 1) % k == 0 then 1 else 0
  {
    var q, r := y / k, y % k;
    if r == k - 1 {
      DivisionUnique(y + 1, k, q + 1, 0);
    } else {
      DivisionUnique(y + 1, k, q, r + 1);
    }
  }

  /** Adding a whole number of `k`s moves the quotient by that number and keeps the remainder. */
  lemma DivisionShift(n: int, k: int, m: int)
    requires k > 0
    ensures (n + m * k) / k == n / k + m && (n + m * k) % k == n % k
  {
    DivisionUnique(n + m * k, k, n / k + m, n % k);
  }

  /** A remainder may be taken before adding: `(a + b) % k == (a % k + b) % k`. */
  lemma RemainderOfSum(a: int, b: int, k: int)
    requires k > 0
    ensures (a + b) % k == (a % k + b) % k
  {
    DivisionShift(a % k + b, k, a / k);
  }

  /** A year is 366 days long when it is a leap year and 365 otherwise. */
  lemma YearLength(year: int)
    ensures DaysBeforeYear(year + 1) - DaysBeforeYear(year) == if IsLeapYear(year) then 366 else 365
  {
    var y := year - 1;
    DivisionStep(y, 4);
    DivisionStep(y, 100);
    DivisionStep(y, 400);
  }

  /** The month after `month` of `year`, with December rolling over to January of the next year. */
  function FirstOfNextMonth(year: int, month: Month): Date {
    if month == 11 then Date(year + 1, 0, 1) else Date(year, month + 1, 1)
  }

  /**
   * The month table and the day count agree: the first of the next month
   * comes `DaysInMonth` days after the first of this month, across the year
   * boundary as well.
   */
  lemma NextMonthStart(year: int, month: Month)
    ensures DayNumber(FirstOfNextMonth(year, month)) == DayNumber(Date(year, month, 1)) + DaysInMonth(year, month)
  {
    if month == 11 {
      YearLength(year);
    }
  }

  /**
   * The weekday of the first of the next month is the weekday of the first
   * of this month moved on by the length of this month.
   */
  lemma NextMonthFirstWeekday(year: int, month: Month)
    ensures Weekday(FirstOfNextMonth(year, month)) == (Weekday(Date(year, month, 1)) + DaysInMonth(year, month)) % 7
  {
    NextMonthStart(year, month);
    RemainderOfSum(DayNumber(Date(year, month, 1)) + 1, DaysInMonth(year, month), 7);
  }

  /** The Gregorian calendar repeats every 400 years (146097 days, a whole number of weeks). */
  lemma FourHundredYearCycle(d: Date)
    ensures DayNumber(Date(d.year + 400, d.month, d.day)) == DayNumber(d) + 146097
    ensures Weekday(Date(d.year + 400, d.month, d.day)) == Weekday(d)
  {
    var y := d.year - 1;
    DivisionShift(y, 4, 100);
    DivisionShift(y, 100, 4);
    DivisionShift(y, 400, 1);
    DivisionShift(d.year, 4, 100);
    DivisionShift(d.year, 100, 4);
    DivisionShift(d.year, 400, 1);
    DivisionShift(DayNumber(d) + 1, 7, 20871);
  }

  /** Day numbers grow by one from each day of a month to the next. */
  lemma DayNumberWithinMonth(d: Date, k: int)
    ensures DayNumber(Date(d.year, d.month, d.day + k)) == DayNumber(d) + k
  {
  }

  /** Every valid date lies inside its year: its day number is before that of the next 1 January. */
  lemma DayNumberWithinYear(d: Date)
    requires ValidDate(d)
    ensures DaysBeforeYear(d.year) <= DayNumber(d) < DaysBeforeYear(d.year + 1)
  {
    YearLength(d.year);
  }

  /** Later years start later. */
  lemma {:induction false} DaysBeforeYearIncreasing(a: int, b: int)
    requires a < b
    ensures DaysBeforeYear(a) < DaysBeforeYear(b)
    decreases b - a
  {
    YearLength(a);
    if a + 1 < b {
      DaysBeforeYearIncreasing(a + 1, b);
    }
  }

  /** Distinct valid dates have distinct day numbers: a day number names one calendar day. */
  lemma DayNumberInjective(a: Date, b: Date)
    requires ValidDate(a) && ValidDate(b)
    ensures DayNumber(a) == DayNumber(b) <==> a == b
  {
    if a.year != b.year {
      DayNumberWithinYear(a);
      DayNumberWithinYear(b);
      if a.year < b.year {
        DaysBeforeYearIncreasing(a.year + 1, b.year + 1);
        if a.year + 1 < b.year { DaysBeforeYearIncreasing(a.year + 1, b.year); }
      } else {
        if b.year + 1 < a.year { DaysBeforeYearIncreasing(b.year + 1, a.year); }
      }
    } else if a.month != b.month {
      assert DaysBeforeMonth(a.year, a.month) + DaysInMonth(a.year, a.month) <= DaysBeforeMonth(a.year, b.month)
          || DaysBeforeMonth(b.year, b.month) + DaysInMonth(b.year, b.month) <= DaysBeforeMonth(b.year, a.month);
    }
  }

  /** The first weekday of a month, 0 = Sunday: `getFirstDayOfMonth`. */
  function FirstDayOfMonth(year: int, month: Month): (w: int)
    ensures 0 <= w < 7
  {
    Weekday(Date(year, month, 1))
  }

  /** Known days anchor the count: 1 January 1970 and 1 February 2024 were Thursdays, 1 January 2000 a Saturday. */
  lemma KnownWeekdays()
    ensures Weekday(Date(1970, 0, 1)) == 4
    ensures Weekday(Date(2000, 0, 1)) == 6
    ensures FirstDayOfMonth(2024, 1) == 4 && DaysInMonth(2024, 1) == 29
  {
    assert DaysBeforeYear(1970) == 719162;
    assert DaysBeforeYear(2000) == 730119;
    assert DaysBeforeYear(2024) == 738885;
    assert DayNumber(Date(2024, 1, 1)) == 738916;
  }

  /** Years divisible by 100 but not by 400 are common years; years divisible by 400 are leap years. */
  lemma CenturyYears()
    ensures DaysInMonth(1900, 1) == 28 && DaysInMonth(2000, 1) == 29 && DaysInMonth(2100, 1) == 28
  {
  }

  /** A displayed month. */
  datatype YearMonth = YearMonth(year: int, month: Month)

  /** Months counted from January of year 0. */
  function MonthIndex(ym: YearMonth): int {
    12 * ym.year + ym.month
  }

  /**
   * `new Date(year, month)` with a month outside 0..11 carries the overflow
   * into the year: it names the same month, counted from January of year 0.
   */
  function NormalizeMonth(year: int, month: int): (ym: YearMonth)
    ensures MonthIndex(ym) == 12 * year + month
  {
    YearMonth(year + month / 12, month % 12)
  }

  /** The calendar month after `ym`; `handleNextMonth` reaches it through ConstructedNextMonth. */
  function NextMonth(ym: YearMonth): YearMonth {
    NormalizeMonth(ym.year, ym.month + 1)
  }

  /** The calendar month before `ym`; `handlePrevMonth` reaches it through ConstructedPrevMonth. */
  function PrevMonth(ym: YearMonth): YearMonth {
    NormalizeMonth(ym.year, ym.month - 1)
  }

  /** A month index names exactly one month. */
  lemma MonthIndexInjective(a: YearMonth, b: YearMonth)
    ensures MonthIndex(a) == MonthIndex(b) <==> a == b
  {
    if MonthIndex(a) == MonthIndex(b) {
      DivisionUnique(MonthIndex(a), 12, a.year, a.month);
      DivisionUnique(MonthIndex(b), 12, b.year, b.month);
    }
  }

  /**
   * Next moves one month on, December rolling over to January of the next
   * year; Prev moves one month back, January rolling over to December of
   * the year before.
   */
  lemma MonthRollover(ym: YearMonth)
    ensures NextMonth(ym) == if ym.month == 11 then YearMonth(ym.year + 1, 0) else YearMonth(ym.year, ym.month + 1)
    ensures PrevMonth(ym) == if ym.month == 0 then YearMonth(ym.year - 1, 11) else YearMonth(ym.year, ym.month - 1)
    ensures Date(NextMonth(ym).year, NextMonth(ym).month, 1) == FirstOfNextMonth(ym.year, ym.month)
  {
    var next := if ym.month == 11 then YearMonth(ym.year + 1, 0) else YearMonth(ym.year, ym.month + 1);
    var prev := if ym.month == 0 then YearMonth(ym.year - 1, 11) else YearMonth(ym.year, ym.month - 1);
    MonthIndexInjective(NextMonth(ym), next);
    MonthIndexInjective(PrevMonth(ym), prev);
  }

  /** Prev undoes Next and Next undoes Prev. */
  lemma PrevNextInverse(ym: YearMonth)
    ensures PrevMonth(NextMonth(ym)) == ym
    ensures NextMonth(PrevMonth(ym)) == ym
  {
    MonthIndexInjective(PrevMonth(NextMonth(ym)), ym);
    MonthIndexInjective(NextMonth(PrevMonth(ym)), ym);
  }

  /** `k` calendar months after `ym`. */
  function AdvanceMonths(ym: YearMonth, k: nat): YearMonth {
    if k == 0 then ym else NextMonth(AdvanceMonths(ym, k - 1))
  }

  /** `k` calendar months on, the month index has grown by `k`. */
  lemma {:induction false} AdvanceMonthsIndex(ym: YearMonth, k: nat)
    ensures MonthIndex(AdvanceMonths(ym, k)) == MonthIndex(ym) + k
  {
    if k > 0 {
      AdvanceMonthsIndex(ym, k - 1);
    }
  }

  /** Twelve calendar months on is the same month one year later. */
  lemma TwelveNextsIsOneYear(ym: YearMonth)
    ensures AdvanceMonths(ym, 12) == YearMonth(ym.year + 1, ym.month)
  {
    AdvanceMonthsIndex(ym, 12);
    MonthIndexInjective(AdvanceMonths(ym, 12), YearMonth(ym.year + 1, ym.month));
  }

  /**
   * The year `new Date(year, month, …)` builds on: JavaScript reads a year
   * from 0 to 99 as 1900 + year, and takes any other year as it is.
   */
  function ConstructorYear(year: int): int {
    if 0 <= year <= 99 then 1900 + year else year
  }

  /** `new Date(year, month + 1)` in `handleNextMonth`: the month after, counted from the constructor's year. */
  function ConstructedNextMonth(ym: YearMonth): YearMonth {
    NextMonth(YearMonth(ConstructorYear(ym.year), ym.month))
  }

  /** `new Date(year, month - 1)` in `handlePrevMonth`: the month before, counted from the constructor's year. */
  function ConstructedPrevMonth(ym: YearMonth): YearMonth {
    PrevMonth(YearMonth(ConstructorYear(ym.year), ym.month))
  }

  /** Outside the years 0..99 the constructor moves exactly one month either way. */
  lemma ConstructedMonthsOutsideTwoDigitYears(ym: YearMonth)
    requires ym.year < 0 || ym.year > 99
    ensures ConstructedNextMonth(ym) == NextMonth(ym) && ConstructedPrevMonth(ym) == PrevMonth(ym)
    ensures MonthIndex(ConstructedNextMonth(ym)) == MonthIndex(ym) + 1
    ensures MonthIndex(ConstructedPrevMonth(ym)) == MonthIndex(ym) - 1
  {
  }

  /**
   * Previous and Next undo each other as long as neither the shown month
   * nor either press lies in the years 0..99.
   */
  lemma ConstructedPrevNextInverse(ym: YearMonth)
    requires ym.year < 0 || ym.year > 99
    requires !(0 <= ConstructedNextMonth(ym).year <= 99) && !(0 <= ConstructedPrevMonth(ym).year <= 99)
    ensures ConstructedPrevMonth(ConstructedNextMonth(ym)) == ym
    ensures ConstructedNextMonth(ConstructedPrevMonth(ym)) == ym
  {
    ConstructedMonthsOutsideTwoDigitYears(ym);
    MonthRollover(ym);
    ConstructedMonthsOutsideTwoDigitYears(NextMonth(ym));
    ConstructedMonthsOutsideTwoDigitYears(PrevMonth(ym));
    PrevNextInverse(ym);
  }

  /**
   * At the two-digit years the constructor jumps: Previous from January 100
   * shows December 99, Next from there shows January 2000, and Previous from
   * December 99 shows November 1999.
   */
  lemma TwoDigitYearJump()
    ensures ConstructedPrevMonth(YearMonth(100, 0)) == YearMonth(99, 11)
    ensures ConstructedNextMonth(YearMonth(99, 11)) == YearMonth(2000, 0)
    ensures ConstructedPrevMonth(YearMonth(99, 11)) == YearMonth(1999, 10)
  {
    MonthRollover(YearMonth(100, 0));
    MonthRollover(YearMonth(1999, 11));
  }

  /** `k` presses of the calendar's Next button, each `new Date(getFullYear(), getMonth() + 1)`. */
  function PressNext(ym: YearMonth, k: nat): YearMonth {
    if k == 0 then ym else ConstructedNextMonth(PressNext(ym, k - 1))
  }

  /**
   * When no press starts in the years 0..99, every press moves one calendar
   * month on: from a year above 99, or from a negative year while the
   * presses end no later than January of year 0.
   */
  lemma {:induction false} PressNextOutsideTwoDigitYears(ym: YearMonth, k: nat)
    requires ym.year > 99 || MonthIndex(ym) + k <= 0
    ensures PressNext(ym, k) == AdvanceMonths(ym, k)
    ensures MonthIndex(PressNext(ym, k)) == MonthIndex(ym) + k
  {
    if k > 0 {
      PressNextOutsideTwoDigitYears(ym, k - 1);
      ConstructedMonthsOutsideTwoDigitYears(PressNext(ym, k - 1));
    }
  }

  /** Away from the years 0..99, twelve presses of Next show the same month one year later. */
  lemma TwelvePressesIsOneYear(ym: YearMonth)
    requires ym.year > 99 || MonthIndex(ym) + 12 <= 0
    ensures PressNext(ym, 12) == YearMonth(ym.year + 1, ym.month)
  {
    PressNextOutsideTwoDigitYears(ym, 12);
    TwelveNextsIsOneYear(ym);
  }

  /**
   * The press that starts from January of year 0 lands in February 1900:
   * so twelve presses from February of year -1 show February 1900, not
   * February of year 0.
   */
  lemma PressNextPastYearZero(ym: YearMonth, k: nat)
    requires 1 <= k && MonthIndex(ym) + k == 1
    ensures PressNext(ym, k - 1) == YearMonth(0, 0)
    ensures PressNext(ym, k) == YearMonth(1900, 1)
  {
    var january := PressNext(ym, k - 1);
    PressNextOutsideTwoDigitYears(ym, k - 1);
    assert MonthIndex(january) == 0;
    MonthIndexInjective(january, YearMonth(0, 0));
    assert january == YearMonth(0, 0);
    MonthRollover(YearMonth(1900, 0));
  }
}
