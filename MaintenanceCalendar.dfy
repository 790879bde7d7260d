/**
 * The maintenance calendar: a month grid of leading blanks and day cells,
 * the preventive requests scheduled on each day, today's highlight, the
 * truncated subject on each request chip, and Previous/Next month buttons.
 */
module MaintenanceCalendar {
  import opened Sequences
  import opened JsText
  import opened Gregorian

  /** A preventive request as the calendar receives it; `scheduledDate` is the stored text. */
  datatype PreventiveRequest = PreventiveRequest(id: string, subject: string, scheduledDate: string)

  /**
   * The year as `toISOString` writes it: four digits for 0..9999, otherwise
   * a sign and six digits (JavaScript dates stay within six-digit years).
   */
  function IsoYear(year: int): (s: string)
    ensures |s| >= 4
    ensures 0 <= year <= 9999 ==> |s| == 4 && IsDigits(s) && DecimalValue(s) == year
    ensures year < 0 ==> s[0] == '-' && IsDigits(s[1..]) && DecimalValue(s[1..]) == -year
    ensures year > 9999 ==> s[0] == '+' && IsDigits(s[1..]) && DecimalValue(s[1..]) == year
    ensures (year < 0 || year > 9999) && -999999 <= year <= 999999 ==> |s| == 7
  {
    if 0 <= year <= 9999 then
      DecimalLength(year, 4);
      PadDecimalRoundTrip(year, 4);
      PadDecimal(year, 4)
    else if year < 0 then
      PadDecimalRoundTrip(-year, 6);
      SixDigitField(-year);
      var digits := PadDecimal(-year, 6);
      assert ("-" + digits)[1..] == digits;
      "-" + digits
    else
      PadDecimalRoundTrip(year, 6);
      SixDigitField(year);
      var digits := PadDecimal(year, 6);
      assert ("+" + digits)[1..] == digits;
      "+" + digits
  }

  /**
   * `date.toISOString().split("T")[0]`: the `YYYY-MM-DD` text of a day, the
   * year field, a dash, the two digits of the 1-based month, a dash and the
   * two digits of the day.
   */
  function IsoDateText(d: Date): (text: string)
    requires ValidDate(d)
    ensures var y := |IsoYear(d.year)|;
      && |text| == y + 6
      && text[..y] == IsoYear(d.year) && text[y] == '-' && text[y + 3] == '-'
      && IsDigits(text[y + 1..y + 3]) && DecimalValue(text[y + 1..y + 3]) == d.month + 1
      && IsDigits(text[y + 4..]) && DecimalValue(text[y + 4..]) == d.day
  {
    var year := IsoYear(d.year);
    var month := PadDecimal(d.month + 1, 2);
    var day := PadDecimal(d.day, 2);
    TwoDigitField(d.month + 1);
    TwoDigitField(d.day);
    PadDecimalRoundTrip(d.month + 1, 2);
    PadDecimalRoundTrip(d.day, 2);
    DashedFields(year, month, day);
    year + "-" + month + "-" + day
  }

  /** Where the three fields sit in a text `year-mm-dd` with two-character `mm` and `dd`. */
  lemma DashedFields(year: string, month: string, day: string)
    requires |month| == |day| == 2
    ensures var text := year + "-" + month + "-" + day;
      && |text| == |year| + 6
      && text[..|year|] == year && text[|year|] == '-' && text[|year| + 3] == '-'
      && text[|year| + 1..|year| + 3] == month && text[|year| + 4..] == day
  {
    var text := year + "-" + month + "-" + day;
    assert text[..|year|] == year;
    assert text[|year| + 1..|year| + 3] == month;
    assert text[|year| + 4..] == day;
  }

  /** A day of February 2024, written out. */
  lemma IsoDateTextExample()
    ensures IsoDateText(Date(2024, 1, 15)) == "2024-02-15"
  {
    assert Decimal(20) == "20";
    assert Decimal(202) == "202";
    assert Decimal(2024) == "2024";
    assert IsoYear(2024) == "2024";
    assert Decimal(2) == "2";
    assert PadDecimal(2, 2) == "02";
    assert Decimal(15) == "15";
    assert PadDecimal(15, 2) == "15";
  }

  /** Different years are written differently. */
  lemma IsoYearInjective(a: int, b: int)
    ensures IsoYear(a) == IsoYear(b) <==> a == b
  {
    if IsoYear(a) == IsoYear(b) {
      var s := IsoYear(a);
      if 0 <= a <= 9999 {
        assert '0' <= s[0] <= '9';
        PadDecimalRoundTrip(a, 4);
        PadDecimalRoundTrip(b, 4);
      } else if a < 0 {
        assert s[0] == '-';
        assert s[1..] == PadDecimal(-a, 6) == PadDecimal(-b, 6);
        PadDecimalRoundTrip(-a, 6);
        PadDecimalRoundTrip(-b, 6);
      } else {
        assert s[0] == '+';
        assert s[1..] == PadDecimal(a, 6) == PadDecimal(b, 6);
        PadDecimalRoundTrip(a, 6);
        PadDecimalRoundTrip(b, 6);
      }
    }
  }

  /** A six-digit field of a signed year. */
  lemma SixDigitField(n: nat)
    ensures n <= 999999 ==> |PadDecimal(n, 6)| == 6
  {
    if n <= 999999 {
      DecimalLength(n, 6);
    }
  }

  /** A two-digit field of the date text. */
  lemma TwoDigitField(n: nat)
    requires n < 100
    ensures |PadDecimal(n, 2)| == 2
  {
  }

  /** A text `year-mm-dd` with two-character `mm` and `dd` splits back into its three fields. */
  lemma DashedFieldsSplit(y1: string, m1: string, d1: string, y2: string, m2: string, d2: string)
    requires |m1| == |m2| == |d1| == |d2| == 2
    requires y1 + "-" + m1 + "-" + d1 == y2 + "-" + m2 + "-" + d2
    ensures y1 == y2 && m1 == m2 && d1 == d2
  {
    var s := y1 + "-" + m1 + "-" + d1;
    var t := y2 + "-" + m2 + "-" + d2;
    assert |y1| == |y2|;
    assert y1 == s[..|y1|] == t[..|y2|] == y2;
    assert m1 == s[|y1| + 1..|y1| + 3] == t[|y2| + 1..|y2| + 3] == m2;
    assert d1 == s[|y1| + 4..] == t[|y2| + 4..] == d2;
  }

  /** Different valid days have different `YYYY-MM-DD` texts. */
  lemma IsoDateTextInjective(a: Date, b: Date)
    requires ValidDate(a) && ValidDate(b)
    ensures IsoDateText(a) == IsoDateText(b) <==> a == b
  {
    if IsoDateText(a) == IsoDateText(b) {
      TwoDigitField(a.month + 1);
      TwoDigitField(b.month + 1);
      TwoDigitField(a.day);
      TwoDigitField(b.day);
      DashedFieldsSplit(IsoYear(a.year), PadDecimal(a.month + 1, 2), PadDecimal(a.day, 2),
                        IsoYear(b.year), PadDecimal(b.month + 1, 2), PadDecimal(b.day, 2));
      IsoYearInjective(a.year, b.year);
      PadDecimalRoundTrip(a.month + 1, 2);
      PadDecimalRoundTrip(b.month + 1, 2);
      PadDecimalRoundTrip(a.day, 2);
      PadDecimalRoundTrip(b.day, 2);
    }
  }

  /** `getRequestsForDate`: the requests whose scheduled date text is the day's `YYYY-MM-DD` text. */
  function RequestsForDate(requests: seq<PreventiveRequest>, d: Date): (found: seq<PreventiveRequest>)
    requires ValidDate(d)
    ensures forall r :: r in found <==> r in requests && r.scheduledDate == IsoDateText(d)
  {
    Filter(requests, (r: PreventiveRequest) => r.scheduledDate == IsoDateText(d))
  }

  /**
   * The requests of a day are all the matching requests, in input order,
   * each occurrence kept: they are the input at the ascending indices whose
   * scheduled date matches.
   */
  lemma RequestsForDateKeepsAllInOrder(requests: seq<PreventiveRequest>, d: Date) returns (idx: seq<nat>)
    requires ValidDate(d)
    ensures Selects(requests, idx, RequestsForDate(requests, d))
    ensures forall i :: 0 <= i < |requests| && requests[i].scheduledDate == IsoDateText(d) ==> i in idx
  {
    idx := FilterIsOrderedSelection(requests, (r: PreventiveRequest) => r.scheduledDate == IsoDateText(d));
  }

  /** No request is listed under two different days. */
  lemma RequestOnAtMostOneDay(requests: seq<PreventiveRequest>, a: Date, b: Date)
    requires ValidDate(a) && ValidDate(b) && a != b
    ensures forall r :: r in RequestsForDate(requests, a) ==> r !in RequestsForDate(requests, b)
  {
    IsoDateTextInjective(a, b);
  }

  /** A cell of the month grid. */
  datatype Cell = Blank | DayCell(day: int)

  /**
   * The grid below the weekday header: `emptyDays` (one blank per weekday
   * before the first) and then `days` (the numbers 1 to the month length),
   * in increasing order.
   */
  function MonthGrid(year: int, month: Month): (grid: seq<Cell>)
    ensures |grid| == FirstDayOfMonth(year, month) + DaysInMonth(year, month)
    ensures forall i :: 0 <= i < FirstDayOfMonth(year, month) ==> grid[i] == Blank
    ensures forall d :: 1 <= d <= DaysInMonth(year, month) ==> grid[FirstDayOfMonth(year, month) + d - 1] == DayCell(d)
  {
    var first, days := FirstDayOfMonth(year, month), DaysInMonth(year, month);
    seq(first, _ => Blank) + seq(days, i requires 0 <= i < days => DayCell(i + 1))
  }

  /**
   * With seven columns headed Sun..Sat, every day cell lands in the column
   * of its own weekday.
   */
  lemma DayCellsUnderTheirWeekday(year: int, month: Month)
    ensures forall d :: 1 <= d <= DaysInMonth(year, month) ==>
              (FirstDayOfMonth(year, month) + d - 1) % 7 == Weekday(Date(year, month, d))
  {
    forall d | 1 <= d <= DaysInMonth(year, month)
      ensures (FirstDayOfMonth(year, month) + d - 1) % 7 == Weekday(Date(year, month, d))
    {
      DayCellColumn(year, month, d);
    }
  }

  /** The column of one day cell: the first weekday moved on by the days before it. */
  lemma DayCellColumn(year: int, month: Month, d: int)
    ensures (FirstDayOfMonth(year, month) + d - 1) % 7 == Weekday(Date(year, month, d))
  {
    var first := Date(year, month, 1);
    var n := DayNumber(first) + 1;
    DayNumberWithinMonth(first, d - 1);
    assert DayNumber(Date(year, month, d)) + 1 == n + (d - 1);
    RemainderOfSum(n, d - 1, 7);
    assert FirstDayOfMonth(year, month) == n % 7;
  }

  /** `date.toDateString() === new Date().toDateString()`: the cell is the current calendar day. */
  predicate IsToday(cell: Date, today: Date) {
    cell == today
  }

  /** A month grid highlights one day when today falls in that month and none otherwise. */
  lemma TodayHighlightedOnce(year: int, month: Month, today: Date)
    requires ValidDate(today)
    ensures (exists d :: 1 <= d <= DaysInMonth(year, month) && IsToday(Date(year, month, d), today))
            <==> today.year == year && today.month == month
    ensures forall d, e ::
              (1 <= d <= DaysInMonth(year, month) && 1 <= e <= DaysInMonth(year, month)
               && IsToday(Date(year, month, d), today) && IsToday(Date(year, month, e), today)) ==> d == e
  {
    if today.year == year && today.month == month {
      assert IsToday(Date(year, month, today.day), today);
    }
  }

  /** The chip text `{subject.substring(0, 12)}...`: at most twelve characters of the subject, then an ellipsis. */
  function ChipLabel(subject: string): (chip: string)
    ensures |chip| == (if |subject| < 12 then |subject| else 12) + 3
    ensures chip[..|chip| - 3] <= subject && chip[|chip| - 3..] == "..."
    ensures |subject| <= 12 ==> chip == subject + "..."
  {
    subject[..if |subject| < 12 then |subject| else 12] + "..."
  }

  /** The calendar component's state: the displayed date and the requests it was given. */
  class Calendar {
    var currentDate: Date
    const requests: seq<PreventiveRequest>

    /** Mounted on the current day. */
    constructor (today: Date, requests: seq<PreventiveRequest>)
      requires ValidDate(today)
      ensures currentDate == today && this.requests == requests
    {
      currentDate := today;
      this.requests := requests;
    }

    /** The month in the heading: `getFullYear()` and `getMonth()` of the displayed date. */
    function Shown(): YearMonth
      reads this
    {
      YearMonth(currentDate.year, currentDate.month)
    }

    /**
     * The month whose days the grid draws: `getDaysInMonth`,
     * `getFirstDayOfMonth` and every cell build `new Date(getFullYear(),
     * getMonth(), …)`, so a shown year from 0 to 99 draws 1900 + year.
     */
    function Rendered(): (ym: YearMonth)
      reads this
      ensures ym.month == currentDate.month
      ensures currentDate.year < 0 || currentDate.year > 99 ==> ym == Shown()
      ensures 0 <= currentDate.year <= 99 ==> ym.year == currentDate.year + 1900
    {
      YearMonth(ConstructorYear(currentDate.year), currentDate.month)
    }

    /** `handlePrevMonth`: the first day of the month before, as the `Date` constructor counts it. */
    method HandlePrevMonth()
      modifies this
      ensures ValidDate(currentDate)
      ensures currentDate == Date(ConstructedPrevMonth(old(Shown())).year, ConstructedPrevMonth(old(Shown())).month, 1)
    {
      var target := ConstructedPrevMonth(Shown());
      currentDate := Date(target.year, target.month, 1);
    }

    /** `handleNextMonth`: the first day of the month after, as the `Date` constructor counts it. */
    method HandleNextMonth()
      modifies this
      ensures ValidDate(currentDate)
      ensures currentDate == Date(ConstructedNextMonth(old(Shown())).year, ConstructedNextMonth(old(Shown())).month, 1)
    {
      var target := ConstructedNextMonth(Shown());
      currentDate := Date(target.year, target.month, 1);
    }

    /** The grid of the drawn month. */
    function Grid(): (grid: seq<Cell>)
      reads this
      ensures |grid| == FirstDayOfMonth(Rendered().year, Rendered().month) + DaysInMonth(Rendered().year, Rendered().month)
    {
      MonthGrid(Rendered().year, Rendered().month)
    }

    /** `dayRequests` of the cell for `day` of the drawn month. */
    function DayRequests(day: int): (found: seq<PreventiveRequest>)
      reads this
      requires 1 <= day <= DaysInMonth(Rendered().year, Rendered().month)
      ensures forall r :: r in found <==> r in requests && r.scheduledDate == IsoDateText(Date(Rendered().year, Rendered().month, day))
    {
      RequestsForDate(requests, Date(Rendered().year, Rendered().month, day))
    }
  }

  /** Away from the years 0..99, Next then Previous shows the month first shown; so does Previous then Next. */
  method NavigationScenario(today: Date)
    requires ValidDate(today) && (today.year < -1 || today.year > 100)
  {
    var calendar := new Calendar(today, []);
    var shown := calendar.Shown();
    ConstructedPrevNextInverse(shown);
    calendar.HandleNextMonth();
    calendar.HandlePrevMonth();
    assert calendar.Shown() == shown;
    calendar.HandlePrevMonth();
    calendar.HandleNextMonth();
    assert calendar.Shown() == shown;
  }
}
