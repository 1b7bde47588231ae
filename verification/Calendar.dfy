/** UTC dates as ECMA-262 section 21.4.1 counts them, and a badge's term on that calendar. */
module Calendar {
  const MS_PER_DAY: int := 86_400_000

  // ----- years and months ---------------------------------------------------

  predicate Leap(year: int) {
    (year % 4 == 0 && year % 100 != 0) || year % 400 == 0
  }

  function DaysInYear(year: int): int {
    if Leap(year) then 366 else 365
  }

  /** The day number of a year's first day; day 0 is 1 January 1970. */
  function DayFromYear(year: int): int {
    365 * (year - 1970) + (year - 1969) / 4 - (year - 1901) / 100 + (year - 1601) / 400
  }

  lemma FourthYears(year: int)
    ensures (year - 1968) / 4 == (year - 1969) / 4 + if year % 4 == 0 then 1 else 0
  {
  }

  lemma Centuries(year: int)
    ensures (year - 1900) / 100 == (year - 1901) / 100 + if year % 100 == 0 then 1 else 0
  {
  }

  lemma FourthCenturies(year: int)
    ensures (year - 1600) / 400 == (year - 1601) / 400 + if year % 400 == 0 then 1 else 0
  {
  }

  lemma HundredsAreFours(year: int)
    requires year % 100 == 0
    ensures year % 4 == 0
  {
    var q := year / 100;
    assert year == 4 * (25 * q);
  }

  lemma FourHundredsAreHundreds(year: int)
    requires year % 400 == 0
    ensures year % 100 == 0
  {
    var q := year / 400;
    assert year == 100 * (4 * q);
  }

  /** The closed formula counts exactly the leap years. */
  lemma YearsAbut(year: int)
    ensures DayFromYear(year + 1) == DayFromYear(year) + DaysInYear(year)
  {
    FourthYears(year);
    Centuries(year);
    FourthCenturies(year);
    if year % 400 == 0 {
      FourHundredsAreHundreds(year);
    }
    if year % 100 == 0 {
      HundredsAreFours(year);
    }
  }

  /** Month 0 is January. */
  function LengthIn(leap: bool, month: int): int
    requires 0 <= month < 12
  {
    if month == 1 then (if leap then 29 else 28)
    else if month in {3, 5, 8, 10} then 30 else 31
  }

  const MONTH_STARTS: seq<int> := [0, 31, 59, 90, 120, 151, 181, 212, 243, 273, 304, 334, 365]

  /** Days of the year before this month. */
  function StartIn(leap: bool, month: nat): int
    requires month <= 12
  {
    MONTH_STARTS[month] + if leap && month > 1 then 1 else 0
  }

  lemma MonthStartsAbut(leap: bool, month: nat)
    requires month < 12
    ensures StartIn(leap, month + 1) == StartIn(leap, month) + LengthIn(leap, month)
  {
  }

  // Months are numbered across years: month n is month n % 12 of year n / 12.

  const EPOCH_MONTH: int := 1970 * 12

  function MonthLength(n: int): (r: int)
    ensures 28 <= r <= 31
  {
    LengthIn(Leap(n / 12), n % 12)
  }

  /** The first day of a month by the closed formula. */
  function MonthStart(n: int): int {
    DayFromYear(n / 12) + StartIn(Leap(n / 12), n % 12)
  }

  lemma MonthStartsStep(n: int)
    ensures MonthStart(n + 1) == MonthStart(n) + MonthLength(n)
  {
    MonthStartsAbut(Leap(n / 12), n % 12);
    if n % 12 == 11 {
      assert (n + 1) / 12 == n / 12 + 1 && (n + 1) % 12 == 0;
      YearsAbut(n / 12);
    } else {
      assert (n + 1) / 12 == n / 12 && (n + 1) % 12 == n % 12 + 1;
    }
  }

  /** The first day of a month by counting months from January 1970. */
  function FirstDay(n: int): int
    decreases if n < EPOCH_MONTH then EPOCH_MONTH - n else n - EPOCH_MONTH
  {
    if n == EPOCH_MONTH then 0
    else if n > EPOCH_MONTH then FirstDay(n - 1) + MonthLength(n - 1)
    else FirstDay(n + 1) - MonthLength(n)
  }

  lemma MonthsAbut(n: int)
    ensures FirstDay(n + 1) == FirstDay(n) + MonthLength(n)
  {
  }

  /** The closed formula is the count, for every month before and after 1970. */
  lemma {:induction false} ClosedFormulaCounts(n: int)
    ensures MonthStart(n) == FirstDay(n)
    decreases if n < EPOCH_MONTH then EPOCH_MONTH - n else n - EPOCH_MONTH
  {
    if n > EPOCH_MONTH {
      ClosedFormulaCounts(n - 1);
      MonthStartsStep(n - 1);
    } else if n < EPOCH_MONTH {
      ClosedFormulaCounts(n + 1);
      MonthStartsStep(n);
    } else {
      EpochStart();
    }
  }

  lemma EpochStart()
    ensures MonthStart(EPOCH_MONTH) == 0
  {
    assert EPOCH_MONTH / 12 == 1970 && EPOCH_MONTH % 12 == 0;
    assert DayFromYear(1970) == 0;
  }

  /** The month a day falls in. */
  function MonthOf(day: int): (n: int)
    ensures FirstDay(n) <= day < FirstDay(n + 1)
  {
    if 0 <= day then MonthUp(day, EPOCH_MONTH) else MonthDown(day, EPOCH_MONTH)
  }

  function MonthUp(day: int, n: int): (r: int)
    requires FirstDay(n) <= day
    ensures FirstDay(r) <= day < FirstDay(r + 1)
    decreases day - FirstDay(n)
  {
    MonthsAbut(n);
    if day < FirstDay(n + 1) then n else MonthUp(day, n + 1)
  }

  function MonthDown(day: int, n: int): (r: int)
    requires day < FirstDay(n)
    ensures FirstDay(r) <= day < FirstDay(r + 1)
    decreases FirstDay(n) - day
  {
    MonthsAbut(n - 1);
    if FirstDay(n - 1) <= day then n - 1 else MonthDown(day, n - 1)
  }

  // ----- adding months ------------------------------------------------------

  function Day(t: int): int { t / MS_PER_DAY }

  function TimeInDay(t: int): int { t % MS_PER_DAY }

  /** MakeDay: a date past the end of its month runs on into the next. */
  function MakeDay(month: int, date: int): int {
    MonthStart(month) + date - 1
  }

  /** The day of the month, from 1. */
  function DateOf(day: int): (d: int)
    ensures 1 <= d <= MonthLength(MonthOf(day))
  {
    MonthsAbut(MonthOf(day));
    day - FirstDay(MonthOf(day)) + 1
  }

  function AddMonthsTo(day: int, months: int): int {
    MakeDay(MonthOf(day) + months, DateOf(day))
  }

  /** `setUTCMonth(getUTCMonth() + months)` on a copy. */
  function AddMonths(t: int, months: int): int {
    AddMonthsTo(Day(t), months) * MS_PER_DAY + TimeInDay(t)
  }

  /** The lengths of consecutive months, starting with this one. */
  function Lengths(n: int, count: nat): int {
    if count == 0 then 0 else Lengths(n, count - 1) + MonthLength(n + count - 1)
  }

  lemma {:induction false} LengthsAbut(n: int, count: nat)
    ensures FirstDay(n + count) == FirstDay(n) + Lengths(n, count)
    ensures 28 * count <= Lengths(n, count) <= 31 * count
  {
    if count > 0 {
      LengthsAbut(n, count - 1);
      MonthsAbut(n + count - 1);
    }
  }

  lemma MakeDayCounts(month: int, date: int)
    ensures MakeDay(month, date) == FirstDay(month) + date - 1
  {
    ClosedFormulaCounts(month);
  }

  /** From one month's first day to another's. */
  function Span(n: int, months: nat): int {
    FirstDay(n + months) - FirstDay(n)
  }

  lemma TermDaySpans(day: int, months: nat)
    ensures AddMonthsTo(day, months) == day + Span(MonthOf(day), months)
  {
    MakeDayCounts(MonthOf(day) + months, DateOf(day));
  }

  lemma SameTimeOnAnotherDay(t: int, day: int)
    ensures day * MS_PER_DAY + TimeInDay(t) - t == (day - Day(t)) * MS_PER_DAY
  {
    assert t == Day(t) * MS_PER_DAY + TimeInDay(t);
  }

  lemma TermSpans(t: int, months: nat)
    ensures AddMonths(t, months) - t == Span(MonthOf(Day(t)), months) * MS_PER_DAY
  {
    TermDaySpans(Day(t), months);
    SameTimeOnAnotherDay(t, AddMonthsTo(Day(t), months));
  }

  /** A term of some months is exactly that many consecutive month lengths, month-end overflow included. */
  lemma TermIsMonthLengths(t: int, months: nat)
    ensures AddMonths(t, months) - t == Lengths(MonthOf(Day(t)), months) * MS_PER_DAY
  {
    TermSpans(t, months);
    SpanIsLengths(MonthOf(Day(t)), months);
  }

  lemma SpanIsLengths(n: int, months: nat)
    ensures Span(n, months) == Lengths(n, months)
  {
    LengthsAbut(n, months);
  }

  /** Three months are 89 to 92 days; twelve are 366 when a 29 February lies in them and 365 otherwise. */
  lemma TermDays(n: int)
    ensures 89 <= Lengths(n, 3) <= 92
    ensures Lengths(n, 12) == if n % 12 <= 1 then DaysInYear(n / 12) else DaysInYear(n / 12 + 1)
  {
    ThreeMonths(n);
    TwelveMonths(n, 12);
  }

  lemma ThreeMonths(n: int)
    ensures 89 <= Lengths(n, 3) <= 92
  {
    assert Lengths(n, 2) == Lengths(n, 1) + MonthLength(n + 1) && Lengths(n, 1) == Lengths(n, 0) + MonthLength(n);
    assert Lengths(n, 3) == MonthLength(n) + MonthLength(n + 1) + MonthLength(n + 2);
    ConsecutiveMonths(n);
  }

  lemma TwelveMonths(n: int, months: nat)
    requires months == 12
    ensures Lengths(n, months) == MonthStart(n + 12) - MonthStart(n)
    ensures Lengths(n, months) == if n % 12 <= 1 then DaysInYear(n / 12) else DaysInYear(n / 12 + 1)
  {
    LengthsAbut(n, months);
    ClosedFormulaCounts(n);
    ClosedFormulaCounts(n + 12);
    SameMonthNextYear(n);
  }

  lemma SameMonthNextYear(n: int)
    ensures MonthStart(n + 12) - MonthStart(n)
         == if n % 12 <= 1 then DaysInYear(n / 12) else DaysInYear(n / 12 + 1)
  {
    var year, month := n / 12, n % 12;
    assert (n + 12) / 12 == year + 1 && (n + 12) % 12 == month;
    YearsAbut(year);
    assert StartIn(Leap(year + 1), month) - StartIn(Leap(year), month)
        == if month <= 1 then 0 else (if Leap(year + 1) then 1 else 0) - (if Leap(year) then 1 else 0);
  }

  lemma ConsecutiveMonths(n: int)
    ensures 89 <= MonthLength(n) + MonthLength(n + 1) + MonthLength(n + 2) <= 92
  {
    var m := n % 12;
    assert (n + 1) % 12 == if m == 11 then 0 else m + 1;
    assert (n + 2) % 12 == if m >= 10 then m - 10 else m + 2;
  }

  // ----- what the database allows -------------------------------------------

  /** The date, or the last of the month where the month is too short for it. */
  function Clamped(date: int, month: int): int {
    if date <= MonthLength(month) then date else MonthLength(month)
  }

  function BoundDay(t: int, months: nat): int {
    var n := MonthOf(Day(t)) + months;
    MakeDay(n, Clamped(DateOf(Day(t)), n))
  }

  /** `issued_at + interval '12 months'`, which stops at the end of a shorter month. */
  function IntervalMonths(t: int, months: nat): int {
    BoundDay(t, months) * MS_PER_DAY + TimeInDay(t)
  }

  /** The table's own bound on a badge's term. */
  predicate ExpiryIsBounded(issuedAt: int, expiresAt: int) {
    issuedAt < expiresAt <= IntervalMonths(issuedAt, 12)
  }

  predicate LeapDay(t: int) {
    MonthOf(Day(t)) % 12 == 1 && DateOf(Day(t)) == 29
  }

  lemma {:induction false} SpansGrow(n: int, few: nat, many: nat)
    requires few <= many
    ensures Span(n, few) + 28 * (many - few) <= Span(n, many)
    decreases many
  {
    if few < many {
      SpansGrow(n, few, many - 1);
      MonthsAbut(n + many - 1);
    }
  }

  /** A year on, a month has the length it had, but for February after a leap year's. */
  lemma MonthLengthNextYear(n: int)
    ensures n % 12 != 1 ==> MonthLength(n + 12) == MonthLength(n)
    ensures n % 12 == 1 && MonthLength(n) == 29 ==> MonthLength(n + 12) == 28
    ensures n % 12 == 1 ==> MonthLength(n) <= 29
  {
    assert (n + 12) / 12 == n / 12 + 1 && (n + 12) % 12 == n % 12;
    assert Leap(n / 12) ==> !Leap(n / 12 + 1);
  }

  /** The same month a year on has the day, unless the day is 29 February. */
  lemma SameDayNextYear(t: int)
    ensures DateOf(Day(t)) <= MonthLength(MonthOf(Day(t)) + 12) <==> !LeapDay(t)
  {
    MonthLengthNextYear(MonthOf(Day(t)));
  }

  /** How many days short of the term the table's bound stops. */
  function Short(t: int, months: nat): (short: int)
    ensures 0 <= short <= 3
  {
    DateOf(Day(t)) - Clamped(DateOf(Day(t)), MonthOf(Day(t)) + months)
  }

  lemma BoundDaySpans(t: int, months: nat)
    ensures BoundDay(t, months) == Day(t) + Span(MonthOf(Day(t)), months) - Short(t, months)
  {
    var n := MonthOf(Day(t)) + months;
    MakeDayCounts(n, Clamped(DateOf(Day(t)), n));
  }

  lemma BoundSpans(t: int, months: nat)
    ensures IntervalMonths(t, months) - t == (Span(MonthOf(Day(t)), months) - Short(t, months)) * MS_PER_DAY
  {
    BoundDaySpans(t, months);
    SameTimeOnAnotherDay(t, BoundDay(t, months));
  }

  lemma ShortIffLeapDay(t: int)
    ensures Short(t, 12) > 0 <==> LeapDay(t)
  {
    SameDayNextYear(t);
  }

  /** Days, not dates: a term inside the bound, and what a few days short can take from it. */
  lemma InsideTheBound(t: int, expires: int, bound: int, days: int, year: int, short: int, months: int)
    requires expires - t == days * MS_PER_DAY && bound - t == (year - short) * MS_PER_DAY
    requires 1 <= months <= 12 && 0 < days && days + 28 * (12 - months) <= year && (months == 12 ==> days == year)
    requires 0 <= short <= 3
    ensures t < expires <= bound <==> !(months == 12 && short > 0)
  {
  }

  /**
  The term the worker computes is one the table accepts exactly when it is shorter than
  twelve months or the badge is not issued on 29 February. On that day a twelve-month
  term runs on to 1 March, and the table's bound stops at 28 February.
  */
  lemma TermAcceptedIff(t: int, months: nat)
    requires 1 <= months <= 12
    ensures ExpiryIsBounded(t, AddMonths(t, months)) <==> !(months == 12 && LeapDay(t))
  {
    var n := MonthOf(Day(t));
    TermSpans(t, months);
    BoundSpans(t, 12);
    SpansGrow(n, 0, months);
    SpansGrow(n, months, 12);
    ShortIffLeapDay(t);
    InsideTheBound(t, AddMonths(t, months), IntervalMonths(t, 12), Span(n, months), Span(n, 12), Short(t, 12), months);
  }
}
