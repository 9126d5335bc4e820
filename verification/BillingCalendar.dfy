/**
 * Billing-cycle windows over the Gregorian calendar: cycleWindow in
 * seed/tou-service.js, readDateFor in packages/shared/prisma/seed.ts, nextRunBillDate
 * in seed/delinquency-ladder.js and computeBillPeriod in
 * packages/api/src/services/bill.service.ts.
 *
 * A date is its day number (0 is 1970-01-01, UTC) and a month is 12 * year + month,
 * with months counted from 0, so `Date.UTC(y, m + k, d)` is MonthStart(month + k) + d - 1.
 */
module GregorianMonths {
  const EPOCH := 719_528

  /** The first day of each month. */
  type Months = int -> int

  predicate Leap(year: int) { year % 4 == 0 && (year % 100 != 0 || year % 400 == 0) }

  /** Days from the start of year 0. */
  function YearStart(year: int): int {
    365 * year + (year + 3) / 4 - (year + 99) / 100 + (year + 399) / 400
  }

  function MonthLength(month: int): int {
    match month % 12
    case 1 => if Leap(month / 12) then 29 else 28
    case 3 => 30
    case 5 => 30
    case 8 => 30
    case 10 => 30
    case _ => 31
  }

  function DaysBeforeMonth(m: int, leap: bool): int
    requires 0 <= m < 12
  {
    [0, 31, 59, 90, 120, 151, 181, 212, 243, 273, 304, 334][m] + if leap && m >= 2 then 1 else 0
  }

  function MonthStart(month: int): int {
    YearStart(month / 12) - EPOCH + DaysBeforeMonth(month % 12, Leap(month / 12))
  }

  const GREGORIAN: Months := month => MonthStart(month)

  lemma FloorStep4(y: int)
    ensures (y + 4) / 4 == (y + 3) / 4 + if y % 4 == 0 then 1 else 0
  {
    var q, r := y / 4, y % 4;
    assert y == 4 * q + r;
  }

  lemma FloorStep100(y: int)
    ensures (y + 100) / 100 == (y + 99) / 100 + if y % 100 == 0 then 1 else 0
  {
    var q, r := y / 100, y % 100;
    assert y == 100 * q + r;
  }

  lemma FloorStep400(y: int)
    ensures (y + 400) / 400 == (y + 399) / 400 + if y % 400 == 0 then 1 else 0
  {
    var q, r := y / 400, y % 400;
    assert y == 400 * q + r;
  }

  lemma CenturiesAreMultiplesOfFour(y: int)
    ensures y % 400 == 0 ==> y % 100 == 0
    ensures y % 100 == 0 ==> y % 4 == 0
  {
    if y % 400 == 0 { FourHundreds(y, y / 400); }
    if y % 100 == 0 { Hundreds(y, y / 100); }
  }

  lemma FourHundreds(y: int, k: int)
    requires y == 400 * k
    ensures y % 100 == 0
  {
    assert y == 100 * (4 * k);
  }

  lemma Hundreds(y: int, k: int)
    requires y == 100 * k
    ensures y % 4 == 0
  {
    assert y == 4 * (25 * k);
  }

  lemma YearLength(year: int)
    ensures YearStart(year + 1) == YearStart(year) + if Leap(year) then 366 else 365
  {
    FloorStep4(year);
    FloorStep100(year);
    FloorStep400(year);
    CenturiesAreMultiplesOfFour(year);
    YearStartTerms(year + 1, year + 4, year + 100, year + 400);
    YearStartTerms(year, year + 3, year + 99, year + 399);
  }

  lemma YearStartTerms(year: int, a: int, b: int, c: int)
    requires a == year + 3 && b == year + 99 && c == year + 399
    ensures YearStart(year) == 365 * year + a / 4 - b / 100 + c / 400
  {}

  /** The closed form agrees with the table of month lengths, leap years included. */
  lemma MonthStartsFollow(month: int)
    ensures MonthStart(month + 1) == MonthStart(month) + MonthLength(month)
  {
    var y, m := month / 12, month % 12;
    YearLength(y);
    if m == 11 {
      assert (month + 1) / 12 == y + 1 && (month + 1) % 12 == 0;
    } else {
      assert (month + 1) / 12 == y && (month + 1) % 12 == m + 1;
    }
  }

  /** Day 0 is 1 January 1970. */
  lemma EpochIsDayZero()
    ensures MonthStart(12 * 1970) == 0 && GREGORIAN(12 * 1970) == 0
  {}

  // ---------------------------------------------------------------- dates over any regular calendar

  ghost predicate RegularAt(ms: Months, month: int) { 28 <= ms(month + 1) - ms(month) <= 31 }

  ghost predicate Regular(ms: Months) { forall month :: RegularAt(ms, month) }

  /** The calendars the window arithmetic is correct over; the Gregorian one is the instance that matters. */
  type Calendar = ms: Months | Regular(ms) witness (month: int) => 30 * month

  lemma GregorianIsRegular()
    ensures Regular(GREGORIAN)
    ensures forall month :: GREGORIAN(month + 1) - GREGORIAN(month) == MonthLength(month)
  {
    forall month ensures RegularAt(GREGORIAN, month) && GREGORIAN(month + 1) - GREGORIAN(month) == MonthLength(month) {
      MonthStartsFollow(month);
    }
  }

  function Length(ms: Months, month: int): int { ms(month + 1) - ms(month) }

  lemma {:induction false} MonthsIncrease(ms: Calendar, a: int, b: int)
    requires a <= b
    ensures ms(b) >= ms(a) + 28 * (b - a)
    decreases b - a
  {
    if a < b {
      MonthsIncrease(ms, a, b - 1);
      assert RegularAt(ms, b - 1);
    }
  }

  /** A month that starts no later than `day`. */
  function EarlyMonth(ms: Calendar, day: int): (month: int)
    ensures ms(month) <= day
  {
    if ms(0) <= day then 0
    else
      MonthsIncrease(ms, day - ms(0), 0);
      day - ms(0)
  }

  function MonthFrom(ms: Calendar, day: int, month: int): (result: int)
    requires ms(month) <= day
    ensures ms(result) <= day < ms(result + 1)
    decreases day - ms(month)
  {
    assert RegularAt(ms, month);
    if day < ms(month + 1) then month else MonthFrom(ms, day, month + 1)
  }

  /** The month a day falls in (getUTCFullYear and getUTCMonth). */
  function MonthOf(ms: Calendar, day: int): (month: int)
    ensures ms(month) <= day < ms(month + 1)
  {
    MonthFrom(ms, day, EarlyMonth(ms, day))
  }

  /** getUTCDate. */
  function DayOfMonth(ms: Calendar, day: int): (d: int)
    ensures 1 <= d <= Length(ms, MonthOf(ms, day))
  {
    day - ms(MonthOf(ms, day)) + 1
  }

  /** Reading a date back from its month and day of month gives the same two. */
  lemma DateRoundTrip(ms: Calendar, month: int, d: int)
    requires 1 <= d <= Length(ms, month)
    ensures MonthOf(ms, ms(month) + d - 1) == month && DayOfMonth(ms, ms(month) + d - 1) == d
  {
    var other := MonthOf(ms, ms(month) + d - 1);
    if other < month { MonthsIncrease(ms, other + 1, month); }
    if other > month { MonthsIncrease(ms, month + 1, other); }
  }

  /** The source's "day 0 of the next month" is the last day of this one. */
  function DaysIn(ms: Calendar, month: int): (d: int)
    ensures d == Length(ms, month) && 28 <= d <= 31
  {
    assert RegularAt(ms, month);
    DateRoundTrip(ms, month, Length(ms, month));
    DayOfMonth(ms, ms(month + 1) + 0 - 1)
  }
}

module BillingCalendar {
  import opened Common
  import opened IntervalCoverage
  import opened CoverageSweep
  import opened GregorianMonths
  import LocalDays

  // ---------------------------------------------------------------- the implementations

  datatype Cycle = Cycle(billDayOfMonth: int, readDayOfMonth: int) {
    predicate Valid() { 1 <= billDayOfMonth <= 31 && 1 <= readDayOfMonth <= 31 }
  }

  datatype CycleDates = CycleDates(startDate: int, endDate: int, readDate: int)

  /** dayIn: a cycle's day in one month, clamped to months that are shorter. */
  function DayIn(ms: Calendar, month: int, d: int): int {
    ms(month) + Min(d, DaysIn(ms, month)) - 1
  }

  /** cycleWindow. */
  function CycleWindow(ms: Calendar, c: Cycle, today: int): CycleDates {
    var thisMonth := DayIn(ms, MonthOf(ms, today), c.billDayOfMonth);
    var endDate := if DayOfMonth(ms, today) >= DayOfMonth(ms, thisMonth) then thisMonth
                   else DayIn(ms, MonthOf(ms, today) - 1, c.billDayOfMonth);
    var previousEnd := DayIn(ms, MonthOf(ms, endDate) - 1, c.billDayOfMonth);
    CycleDates(previousEnd + 1, endDate, DayIn(ms, MonthOf(ms, endDate), c.readDayOfMonth))
  }

  /** readDateFor. */
  function ReadDateFor(ms: Calendar, c: Cycle, today: int): int {
    var billDayThisMonth := Min(c.billDayOfMonth, DaysIn(ms, MonthOf(ms, today)));
    var anchor := ms(if DayOfMonth(ms, today) >= billDayThisMonth then MonthOf(ms, today) else MonthOf(ms, today) - 1);
    var month := MonthOf(ms, anchor);
    ms(month) + Min(c.readDayOfMonth, DaysIn(ms, month)) - 1
  }

  /** nextRunBillDate: no clamping, so Date.UTC may roll into the following month. */
  function NextRunBillDate(ms: Calendar, billDayOfMonth: int, today: int): int {
    if DayOfMonth(ms, today) >= billDayOfMonth then ms(MonthOf(ms, today)) + billDayOfMonth - 1
    else ms(MonthOf(ms, today) - 1) + billDayOfMonth - 1
  }

  /** computeBillPeriod, for a MONTHLY cycle and an account created on day `created`. */
  function ComputeBillPeriod(ms: Calendar, billDayOfMonth: int, created: int, asOf: int): (int, int) {
    var thisMonth := Min(billDayOfMonth, DaysIn(ms, MonthOf(ms, asOf)));
    var periodEnd := if DayOfMonth(ms, asOf) >= thisMonth then ms(MonthOf(ms, asOf)) + thisMonth - 1
                     else DayIn(ms, MonthOf(ms, asOf) - 1, billDayOfMonth);
    var previousEnd := DayIn(ms, MonthOf(ms, periodEnd) - 1, billDayOfMonth);
    (Max(created, previousEnd + 1), periodEnd)
  }

  // ---------------------------------------------------------------- what a window is

  /** The day a cycle bills in one month. */
  function BillDate(ms: Calendar, billDay: int, month: int): int { ms(month) + Min(billDay, Length(ms, month)) - 1 }

  /** A clamped day exists in its month, and reads back as itself. */
  lemma DayInReadsBack(ms: Calendar, month: int, d: int)
    requires d >= 1
    ensures DayIn(ms, month, d) == BillDate(ms, d, month)
    ensures MonthOf(ms, DayIn(ms, month, d)) == month
    ensures DayOfMonth(ms, DayIn(ms, month, d)) == Min(d, Length(ms, month))
  {
    assert RegularAt(ms, month);
    DateRoundTrip(ms, month, Min(d, Length(ms, month)));
  }

  lemma BillDatesAreOnePerMonth(ms: Calendar, billDay: int, month: int)
    requires billDay >= 1
    ensures ms(month) <= BillDate(ms, billDay, month) < ms(month + 1)
    ensures BillDate(ms, billDay, month) < BillDate(ms, billDay, month + 1)
  {
    assert RegularAt(ms, month) && RegularAt(ms, month + 1);
  }

  lemma {:induction false} BillDatesIncrease(ms: Calendar, billDay: int, a: int, b: int)
    requires billDay >= 1 && a <= b
    ensures BillDate(ms, billDay, a) <= BillDate(ms, billDay, b)
    decreases b - a
  {
    if a < b {
      BillDatesIncrease(ms, billDay, a, b - 1);
      BillDatesAreOnePerMonth(ms, billDay, b - 1);
    }
  }

  /** The month whose bill date is the latest on or before `today`. */
  ghost predicate LatestBillMonth(ms: Calendar, billDay: int, today: int, month: int) {
    BillDate(ms, billDay, month) <= today < BillDate(ms, billDay, month + 1)
  }

  /** The month `cycleWindow` and its siblings choose. */
  function ChosenMonth(ms: Calendar, billDay: int, today: int): int {
    if DayOfMonth(ms, today) >= Min(billDay, Length(ms, MonthOf(ms, today))) then MonthOf(ms, today)
    else MonthOf(ms, today) - 1
  }

  lemma ChosenMonthIsLatest(ms: Calendar, billDay: int, today: int)
    requires billDay >= 1
    ensures LatestBillMonth(ms, billDay, today, ChosenMonth(ms, billDay, today))
  {
    var here := MonthOf(ms, today);
    BillDatesAreOnePerMonth(ms, billDay, here - 1);
    BillDatesAreOnePerMonth(ms, billDay, here);
    BillDatesAreOnePerMonth(ms, billDay, here + 1);
  }

  lemma LatestBillMonthUnique(ms: Calendar, billDay: int, today: int, m: int, n: int)
    requires billDay >= 1 && LatestBillMonth(ms, billDay, today, m) && LatestBillMonth(ms, billDay, today, n)
    ensures m == n
  {
    if m < n { BillDatesIncrease(ms, billDay, m + 1, n); }
    if n < m { BillDatesIncrease(ms, billDay, n + 1, m); }
  }

  /** The three dates, given the chosen month. */
  lemma CycleWindowOfMonth(ms: Calendar, c: Cycle, today: int, month: int)
    requires c.Valid() && month == ChosenMonth(ms, c.billDayOfMonth, today)
    ensures CycleWindow(ms, c, today) ==
            CycleDates(DayIn(ms, month - 1, c.billDayOfMonth) + 1, DayIn(ms, month, c.billDayOfMonth),
                       DayIn(ms, month, c.readDayOfMonth))
  {
    hide MonthOf, DaysIn, Regular;
    DayInReadsBack(ms, MonthOf(ms, today), c.billDayOfMonth);
    DayInReadsBack(ms, month, c.billDayOfMonth);
  }

  /**
   * Main result: the window ends on the latest bill date on or before today and starts
   * the day after the bill date before that.
   */
  lemma CycleWindowIsLatest(ms: Calendar, c: Cycle, today: int, month: int)
    requires c.Valid() && LatestBillMonth(ms, c.billDayOfMonth, today, month)
    ensures CycleWindow(ms, c, today) ==
            CycleDates(BillDate(ms, c.billDayOfMonth, month - 1) + 1, BillDate(ms, c.billDayOfMonth, month),
                       BillDate(ms, c.readDayOfMonth, month))
  {
    var chosen := ChosenMonth(ms, c.billDayOfMonth, today);
    ChosenMonthIsLatest(ms, c.billDayOfMonth, today);
    LatestBillMonthUnique(ms, c.billDayOfMonth, today, month, chosen);
    CycleWindowOfMonth(ms, c, today, chosen);
    assert DaysIn(ms, month) == Length(ms, month) && DaysIn(ms, month - 1) == Length(ms, month - 1);
  }

  /** `day` is in the window that `month`'s bill date closes. */
  ghost predicate InMonthWindow(ms: Calendar, c: Cycle, day: int, month: int) {
    BillDate(ms, c.billDayOfMonth, month - 1) < day <= BillDate(ms, c.billDayOfMonth, month)
  }

  /** On a bill date the window ends that very day. */
  lemma WindowOnBillDate(ms: Calendar, c: Cycle, month: int)
    requires c.Valid()
    ensures CycleWindow(ms, c, BillDate(ms, c.billDayOfMonth, month)).endDate == BillDate(ms, c.billDayOfMonth, month)
  {
    BillDatesAreOnePerMonth(ms, c.billDayOfMonth, month);
    CycleWindowIsLatest(ms, c, BillDate(ms, c.billDayOfMonth, month), month);
  }

  lemma WindowStartsAfterBillDate(ms: Calendar, c: Cycle, today: int) returns (month: int)
    requires c.Valid()
    ensures CycleWindow(ms, c, today).startDate == BillDate(ms, c.billDayOfMonth, month) + 1
    ensures CycleWindow(ms, c, today).startDate <= CycleWindow(ms, c, today).endDate <= today
  {
    month := ChosenMonth(ms, c.billDayOfMonth, today) - 1;
    ChosenMonthIsLatest(ms, c.billDayOfMonth, today);
    CycleWindowIsLatest(ms, c, today, month + 1);
    BillDatesAreOnePerMonth(ms, c.billDayOfMonth, month);
  }

  /** Main result: a window ends by today, and the day before it starts ends that day's own window. */
  lemma CycleWindowsMeet(ms: Calendar, c: Cycle, today: int)
    requires c.Valid()
    ensures var w := CycleWindow(ms, c, today);
            && w.startDate <= w.endDate <= today
            && CycleWindow(ms, c, w.startDate - 1).endDate == w.startDate - 1
  {
    var month := WindowStartsAfterBillDate(ms, c, today);
    WindowOnBillDate(ms, c, month);
  }

  /** Every day of the calendar lies in exactly one month's window. */
  lemma MonthWindowsTile(ms: Calendar, c: Cycle, day: int)
    requires c.Valid()
    ensures exists month :: InMonthWindow(ms, c, day, month)
    ensures forall m, n :: InMonthWindow(ms, c, day, m) && InMonthWindow(ms, c, day, n) ==> m == n
  {
    var month := ChosenMonth(ms, c.billDayOfMonth, day - 1);
    ChosenMonthIsLatest(ms, c.billDayOfMonth, day - 1);
    assert InMonthWindow(ms, c, day, month + 1);
    forall m, n | InMonthWindow(ms, c, day, m) && InMonthWindow(ms, c, day, n) ensures m == n {
      if m < n { BillDatesIncrease(ms, c.billDayOfMonth, m, n - 1); }
      if n < m { BillDatesIncrease(ms, c.billDayOfMonth, n, m - 1); }
    }
  }

  /** `day` is in the window `cycleWindow` returns on `today`. */
  ghost predicate InCycleWindow(ms: Calendar, c: Cycle, day: int, today: int) {
    CycleWindow(ms, c, today).startDate <= day <= CycleWindow(ms, c, today).endDate
  }

  lemma InItsMonthsWindow(ms: Calendar, c: Cycle, day: int, today: int)
    requires c.Valid()
    ensures InCycleWindow(ms, c, day, today) <==> InMonthWindow(ms, c, day, ChosenMonth(ms, c.billDayOfMonth, today))
  {
    hide CycleWindow, BillDate;
    var month := ChosenMonth(ms, c.billDayOfMonth, today);
    ChosenMonthIsLatest(ms, c.billDayOfMonth, today);
    CycleWindowIsLatest(ms, c, today, month);
  }

  /**
   * Main result: every day is in a window some day returns, and any two windows returned
   * that share a day are the same.
   */
  lemma CycleWindowsTile(ms: Calendar, c: Cycle, day: int)
    requires c.Valid()
    ensures exists today :: InCycleWindow(ms, c, day, today)
    ensures forall t, u :: InCycleWindow(ms, c, day, t) && InCycleWindow(ms, c, day, u) ==>
                           CycleWindow(ms, c, t) == CycleWindow(ms, c, u)
  {
    hide CycleWindow, BillDate, InCycleWindow, InMonthWindow, ChosenMonth;
    MonthWindowsTile(ms, c, day);
    var month :| InMonthWindow(ms, c, day, month);
    WindowOnBillDateIsItsMonths(ms, c, month);
    InItsMonthsWindow(ms, c, day, BillDate(ms, c.billDayOfMonth, month));
    forall t, u | InCycleWindow(ms, c, day, t) && InCycleWindow(ms, c, day, u)
      ensures CycleWindow(ms, c, t) == CycleWindow(ms, c, u)
    {
      InItsMonthsWindow(ms, c, day, t);
      InItsMonthsWindow(ms, c, day, u);
      ChosenMonthIsLatest(ms, c.billDayOfMonth, t);
      ChosenMonthIsLatest(ms, c.billDayOfMonth, u);
      CycleWindowIsLatest(ms, c, t, ChosenMonth(ms, c.billDayOfMonth, t));
      CycleWindowIsLatest(ms, c, u, ChosenMonth(ms, c.billDayOfMonth, u));
    }
  }

  lemma WindowOnBillDateIsItsMonths(ms: Calendar, c: Cycle, month: int)
    requires c.Valid()
    ensures ChosenMonth(ms, c.billDayOfMonth, BillDate(ms, c.billDayOfMonth, month)) == month
  {
    var today := BillDate(ms, c.billDayOfMonth, month);
    BillDatesAreOnePerMonth(ms, c.billDayOfMonth, month);
    ChosenMonthIsLatest(ms, c.billDayOfMonth, today);
    LatestBillMonthUnique(ms, c.billDayOfMonth, today, month, ChosenMonth(ms, c.billDayOfMonth, today));
  }

  /** The read is inside the window exactly when its day precedes the bill day once both are clamped. */
  lemma ReadDateInsideExactly(ms: Calendar, c: Cycle, today: int)
    requires c.Valid()
    ensures var w := CycleWindow(ms, c, today);
            w.startDate <= w.readDate <= w.endDate <==>
            || c.readDayOfMonth <= c.billDayOfMonth
            || c.billDayOfMonth >= Length(ms, ChosenMonth(ms, c.billDayOfMonth, today))
  {
    var month := ChosenMonth(ms, c.billDayOfMonth, today);
    CycleWindowOfMonth(ms, c, today, month);
    DayInReadsBack(ms, month, c.billDayOfMonth);
    BillDatesAreOnePerMonth(ms, c.billDayOfMonth, month - 1);
    assert DaysIn(ms, month) == Length(ms, month) && DaysIn(ms, month - 1) == Length(ms, month - 1);
  }

  // ---------------------------------------------------------------- the implementations agree

  /** Main result: the second implementation of the read date agrees on every input. */
  lemma ReadDatesAgree(ms: Calendar, c: Cycle, today: int)
    requires c.Valid()
    ensures ReadDateFor(ms, c, today) == CycleWindow(ms, c, today).readDate
  {
    var month := ChosenMonth(ms, c.billDayOfMonth, today);
    ChosenMonthIsLatest(ms, c.billDayOfMonth, today);
    CycleWindowIsLatest(ms, c, today, month);
    assert RegularAt(ms, month);
    DateRoundTrip(ms, month, 1);
  }

  /** The production period is the seed's window, cut at the account's creation. */
  lemma BillPeriodAgrees(ms: Calendar, c: Cycle, created: int, today: int)
    requires c.Valid()
    ensures var w := CycleWindow(ms, c, today);
            ComputeBillPeriod(ms, c.billDayOfMonth, created, today) == (Max(created, w.startDate), w.endDate)
  {
    hide MonthOf, DaysIn, Regular;
    DayInReadsBack(ms, MonthOf(ms, today), c.billDayOfMonth);
    assert DayIn(ms, MonthOf(ms, today), c.billDayOfMonth)
        == ms(MonthOf(ms, today)) + Min(c.billDayOfMonth, DaysIn(ms, MonthOf(ms, today))) - 1;
  }

  /**
   * The unclamped date agrees exactly when the bill day has passed, or is still to come
   * in a month long enough to hold it and existed last month.
   */
  lemma NextRunBillDateAgreesExactly(ms: Calendar, c: Cycle, today: int)
    requires c.Valid()
    ensures var bill, d, here := c.billDayOfMonth, DayOfMonth(ms, today), MonthOf(ms, today);
            NextRunBillDate(ms, bill, today) == CycleWindow(ms, c, today).endDate <==>
            d >= bill || (d < Length(ms, here) && bill <= Length(ms, here - 1))
  {
    hide MonthOf, CycleWindow;
    var bill, here := c.billDayOfMonth, MonthOf(ms, today);
    ChosenMonthIsLatest(ms, bill, today);
    CycleWindowIsLatest(ms, c, today, ChosenMonth(ms, bill, today));
    assert RegularAt(ms, here - 1);
    assert RegularAt(ms, here);
  }

  /** For the bill days the product accepts, 1 to 28, the two always agree. */
  lemma NextRunBillDateAgreesUpTo28(ms: Calendar, c: Cycle, today: int)
    requires c.Valid() && c.billDayOfMonth <= 28
    ensures NextRunBillDate(ms, c.billDayOfMonth, today) == CycleWindow(ms, c, today).endDate
  {
    NextRunBillDateAgreesExactly(ms, c, today);
    assert RegularAt(ms, MonthOf(ms, today)) && RegularAt(ms, MonthOf(ms, today) - 1);
  }

  /** On 15 March 2026 a cycle on the 31st rolls past February into March. */
  lemma NextRunBillDateDisagreesExample()
    ensures Regular(GREGORIAN)
    ensures var march := 12 * 2026 + 2;
            var today := GREGORIAN(march) + 14;
            && NextRunBillDate(GREGORIAN, 31, today) == GREGORIAN(march) + 2
            && CycleWindow(GREGORIAN, Cycle(31, 8), today).endDate == GREGORIAN(march) - 1
  {
    hide Regular, MonthLength, MonthStart, CycleWindow, NextRunBillDate;
    GregorianIsRegular();
    FebruaryOf2026();
    GregorianLength(12 * 2026 + 1);
    DisagreesAfterShortMonth(GREGORIAN, 12 * 2026 + 2);
  }

  lemma GregorianLength(month: int)
    ensures Length(GREGORIAN, month) == MonthLength(month)
  {
    GregorianIsRegular();
  }

  lemma FebruaryOf2026()
    ensures MonthLength(12 * 2026 + 1) == 28
  {
    assert (12 * 2026 + 1) % 12 == 1 && (12 * 2026 + 1) / 12 == 2026 && 2026 % 4 == 2;
  }

  lemma DisagreesAfterShortMonth(ms: Calendar, march: int)
    requires Length(ms, march - 1) == 28
    ensures NextRunBillDate(ms, 31, ms(march) + 14) == ms(march) + 2
    ensures CycleWindow(ms, Cycle(31, 8), ms(march) + 14).endDate == ms(march) - 1
  {
    var today := ms(march) + 14;
    assert RegularAt(ms, march);
    DateRoundTrip(ms, march, 15);
    ChosenMonthIsLatest(ms, 31, today);
    CycleWindowIsLatest(ms, Cycle(31, 8), today, march - 1);
  }

  // ---------------------------------------------------------------- the seed's grid

  /** A cycle's window as instants: whole UTC days. */
  function WindowMs(dates: CycleDates): Window {
    Window(dates.startDate * LocalDays.DAY_MS, dates.endDate * LocalDays.DAY_MS)
  }

  lemma WholeDaysAreWholeHours(dates: CycleDates)
    requires dates.startDate <= dates.endDate
    ensures var w := WindowMs(dates); w.startDate <= w.endDate && (w.endDate - w.startDate) % HOUR_MS == 0
  {
    var w := WindowMs(dates);
    assert w.endDate - w.startDate == (24 * (dates.endDate - dates.startDate)) * HOUR_MS;
  }

  /** Main result: the hourly grid has no coverage problem over any window a cycle can return. */
  lemma GridCoversEveryCycleWindow(ms: Calendar, c: Cycle, today: int)
    requires c.Valid()
    ensures var w := WindowMs(CycleWindow(ms, c, today));
            Problems(HourlyGrid(w.startDate, w.endDate), w) == []
  {
    hide CycleWindow, Problems, HourlyGrid;
    CycleWindowsMeet(ms, c, today);
    WholeDaysAreWholeHours(CycleWindow(ms, c, today));
    GridTilesWholeHours(WindowMs(CycleWindow(ms, c, today)));
  }
}
