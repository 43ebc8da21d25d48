/** Monthly reset instants: the clamped day of each month at local midnight, and their order in time. */
module Calendar {

  /** A local date: months are counted through from January of year 0, days from 1. */
  datatype Date = Date(month: nat, day: nat)

  predicate IsLeap(year: nat) {
    year % 4 == 0 && (year % 100 != 0 || year % 400 == 0)
  }

  function DaysInMonth(month: nat): (d: nat)
    ensures 28 <= d <= 31
  {
    var m := month % 12;
    if m == 1 then (if IsLeap(month / 12) then 29 else 28)
    else if m == 3 || m == 5 || m == 8 || m == 10 then 30
    else 31
  }

  /** The number of the first day of a month, counted from the first day of all. */
  function FirstDay(month: nat): nat {
    if month == 0 then 0 else FirstDay(month - 1) + DaysInMonth(month - 1)
  }

  predicate IsDate(d: Date) {
    1 <= d.day <= DaysInMonth(d.month)
  }

  function Number(d: Date): int {
    FirstDay(d.month) + d.day - 1
  }

  /** A time zone: when each day begins, and which day an instant falls on. Times are milliseconds. */
  datatype Zone = Zone(midnight: int -> int, dateOf: int -> Date)

  ghost predicate Lawful(z: Zone) {
    && (forall a, b :: a < b ==> z.midnight(a) < z.midnight(b))
    && (forall t :: t >= 0 ==> OnDay(z, t, z.dateOf(t)))
  }

  predicate OnDay(z: Zone, t: int, d: Date) {
    d.month > 0 && IsDate(d) && z.midnight(Number(d)) <= t < z.midnight(Number(d) + 1)
  }

  /** The day is cut to the length of the month. */
  function MonthlyInstant(z: Zone, month: nat, day: nat): int {
    var last := DaysInMonth(month);
    z.midnight(Number(Date(month, if day > last then last else day)))
  }

  /** The latest monthly instant at or before now. */
  function ResetInstantFor(z: Zone, now: int, day: nat): int {
    var m := z.dateOf(now).month;
    var candidate := MonthlyInstant(z, m, day);
    if candidate > now && m > 0 then MonthlyInstant(z, m - 1, day) else candidate
  }

  /** The earliest monthly instant after now. */
  function NextResetInstantFor(z: Zone, now: int, day: nat): int {
    var m := z.dateOf(now).month;
    var candidate := MonthlyInstant(z, m, day);
    if candidate <= now then MonthlyInstant(z, m + 1, day) else candidate
  }

  lemma NextMonthStarts(month: nat, day: nat)
    requires 1 <= day
    ensures FirstDay(month) <= Number(Date(month, if day > DaysInMonth(month) then DaysInMonth(month) else day)) < FirstDay(month + 1)
  {
  }

  lemma {:induction false} MonthsOrdered(m: nat, n: nat)
    requires m < n
    ensures FirstDay(m) + DaysInMonth(m) <= FirstDay(n)
    decreases n
  {
    hide DaysInMonth;
    if n > m + 1 {
      MonthsOrdered(m, n - 1);
    }
  }

  /** Each month has its instant, and they come in the order of the months. */
  lemma InstantsOrdered(z: Zone, m: nat, n: nat, day: nat)
    requires Lawful(z) && 1 <= day && m < n
    ensures MonthlyInstant(z, m, day) < MonthlyInstant(z, n, day)
  {
    hide DaysInMonth;
    NextMonthStarts(m, day);
    NextMonthStarts(n, day);
    MonthsOrdered(m, n);
  }

  /** The instant of an earlier month has passed, that of a later month is still to come. */
  lemma InstantsAround(z: Zone, now: int, day: nat, m: nat)
    requires Lawful(z) && now >= 0 && 1 <= day
    ensures m < z.dateOf(now).month ==> MonthlyInstant(z, m, day) <= now
    ensures m > z.dateOf(now).month ==> now < MonthlyInstant(z, m, day)
  {
    hide DaysInMonth;
    var d := z.dateOf(now);
    NextMonthStarts(m, day);
    NextMonthStarts(d.month, d.day);
    if m < d.month {
      MonthsOrdered(m, d.month);
    } else if m > d.month {
      MonthsOrdered(d.month, m);
    }
  }

  /** No monthly instant lies after the reset instant and at or before now. */
  lemma ResetInstantLatest(z: Zone, now: int, day: nat, m: nat)
    requires Lawful(z) && now >= 0 && 1 <= day
    ensures ResetInstantFor(z, now, day) <= now
    ensures MonthlyInstant(z, m, day) <= now ==> MonthlyInstant(z, m, day) <= ResetInstantFor(z, now, day)
    ensures exists n :: ResetInstantFor(z, now, day) == MonthlyInstant(z, n, day)
  {
    var cur := z.dateOf(now).month;
    hide DaysInMonth, MonthlyInstant;
    InstantsAround(z, now, day, cur - 1);
    InstantsAround(z, now, day, m);
    if m < cur - 1 {
      InstantsOrdered(z, m, cur - 1, day);
    }
    if m < cur {
      InstantsOrdered(z, m, cur, day);
    }
  }

  /** No monthly instant lies after now and before the next reset instant. */
  lemma NextResetInstantEarliest(z: Zone, now: int, day: nat, m: nat)
    requires Lawful(z) && now >= 0 && 1 <= day
    ensures now < NextResetInstantFor(z, now, day)
    ensures now < MonthlyInstant(z, m, day) ==> NextResetInstantFor(z, now, day) <= MonthlyInstant(z, m, day)
    ensures exists n :: NextResetInstantFor(z, now, day) == MonthlyInstant(z, n, day)
  {
    var cur := z.dateOf(now).month;
    hide DaysInMonth, MonthlyInstant;
    InstantsAround(z, now, day, cur + 1);
    InstantsAround(z, now, day, m);
    if m > cur + 1 {
      InstantsOrdered(z, cur + 1, m, day);
    }
    if m > cur {
      InstantsOrdered(z, cur, m, day);
    }
  }

  /** The reset instant never goes back, and stays put exactly until the next one. */
  lemma ResetInstantSteps(z: Zone, before: int, now: int, day: nat)
    requires Lawful(z) && 0 <= before <= now && 1 <= day
    ensures ResetInstantFor(z, before, day) <= ResetInstantFor(z, now, day)
    ensures ResetInstantFor(z, now, day) == ResetInstantFor(z, before, day) <==> now < NextResetInstantFor(z, before, day)
  {
    ResetInstantLatest(z, before, day, 0);
    ResetInstantLatest(z, now, day, 0);
    NextResetInstantEarliest(z, before, day, 0);
    hide ResetInstantFor, NextResetInstantFor, MonthlyInstant;
    var a :| ResetInstantFor(z, before, day) == MonthlyInstant(z, a, day);
    var b :| ResetInstantFor(z, now, day) == MonthlyInstant(z, b, day);
    var c :| NextResetInstantFor(z, before, day) == MonthlyInstant(z, c, day);
    ResetInstantLatest(z, now, day, a);
    ResetInstantLatest(z, now, day, c);
    ResetInstantLatest(z, before, day, b);
    NextResetInstantEarliest(z, before, day, b);
  }

  // ----- on which day an instant falls

  lemma NumberInjective(d: Date, e: Date)
    requires IsDate(d) && IsDate(e) && Number(d) == Number(e)
    ensures d == e
  {
    hide DaysInMonth;
    if d.month < e.month {
      MonthsOrdered(d.month, e.month);
    } else if e.month < d.month {
      MonthsOrdered(e.month, d.month);
    }
  }

  lemma BeforeTime(z: Zone, day: nat)
    requires Lawful(z) && 1 <= day
    ensures MonthlyInstant(z, 0, day) < 0
  {
    hide DaysInMonth;
    NextMonthStarts(0, day);
    var d := z.dateOf(0);
    assert OnDay(z, 0, d);
    MonthsOrdered(0, d.month);
  }

  /**
   The monthly instant is the midnight at which the day begins in that month, or, in a month without such a day, its last
   day, so that the next midnight begins the month after.
   */
  lemma InstantDay(z: Zone, month: nat, day: nat)
    requires Lawful(z) && 1 <= day && MonthlyInstant(z, month, day) >= 0
    ensures var d := z.dateOf(MonthlyInstant(z, month, day));
      && d.month == month && MonthlyInstant(z, month, day) == z.midnight(Number(d))
      && (d.day == day || (d.day < day && Number(d) + 1 == FirstDay(month + 1)))
  {
    var t := MonthlyInstant(z, month, day);
    var date := Date(month, if day > DaysInMonth(month) then DaysInMonth(month) else day);
    var d := z.dateOf(t);
    if month == 0 {
      BeforeTime(z, day);
    }
    assert OnDay(z, t, d) && t == z.midnight(Number(date));
    MidnightOrder(z, Number(d), Number(date));
    NumberInjective(d, date);
  }

  lemma MidnightOrder(z: Zone, a: int, b: int)
    requires Lawful(z) && z.midnight(a) <= z.midnight(b) < z.midnight(a + 1)
    ensures a == b
  {
  }

  // ----- the calendar

  /** The days before the first of a month within a common year. */
  function DaysBefore(m: nat): nat
    requires m < 12
  {
    [0, 31, 59, 90, 120, 151, 181, 212, 243, 273, 304, 334][m]
  }

  function LeapDays(years: nat): nat {
    (years + 3) / 4 - (years + 99) / 100 + (years + 399) / 400
  }

  lemma Fourths(y: nat)
    ensures (y + 4) / 4 == (y + 3) / 4 + (if y % 4 == 0 then 1 else 0) && (y + 403) / 4 == (y + 3) / 4 + 100
  {
  }

  lemma Hundredths(y: nat)
    ensures (y + 100) / 100 == (y + 99) / 100 + (if y % 100 == 0 then 1 else 0) && (y + 499) / 100 == (y + 99) / 100 + 4
    ensures y % 100 == 0 ==> y % 4 == 0
  {
  }

  lemma FourHundredths(y: nat)
    ensures (y + 400) / 400 == (y + 399) / 400 + (if y % 400 == 0 then 1 else 0) && (y + 799) / 400 == (y + 399) / 400 + 1
    ensures y % 400 == 0 ==> y % 100 == 0
  {
    var q, r := y / 400, y % 400;
    assert y == 400 * q + r;
    Quotient(y + 400, q + 1, r);
    if r == 0 {
      Quotient(y + 399, q, 399);
      Quotient(y + 799, q + 1, 399);
    } else {
      Quotient(y + 399, q + 1, r - 1);
      Quotient(y + 799, q + 2, r - 1);
    }
  }

  lemma Quotient(n: nat, q: nat, r: nat)
    requires r < 400 && n == 400 * q + r
    ensures n / 400 == q
  {
  }

  lemma LeapDaysNext(y: nat)
    ensures LeapDays(y + 1) == LeapDays(y) + if IsLeap(y) then 1 else 0
    ensures LeapDays(y + 400) == LeapDays(y) + 97
  {
    Fourths(y);
    Hundredths(y);
    FourHundredths(y);
  }

  /** Each year begins where the leap days before it put it, and each month within it by the common table. */
  lemma {:induction false} GregorianCalendar(year: nat, m: nat)
    requires m < 12
    ensures FirstDay(12 * year + m) == 365 * year + LeapDays(year) + DaysBefore(m) + if m >= 2 && IsLeap(year) then 1 else 0
    decreases year, m
  {
    hide FirstDay, DaysInMonth, DaysBefore, LeapDays, IsLeap;
    if m > 0 {
      GregorianCalendar(year, m - 1);
      MonthLength(year, m - 1);
      FirstDayNext(12 * year + m - 1);
    } else if year > 0 {
      GregorianCalendar(year - 1, 11);
      MonthLength(year - 1, 11);
      FirstDayNext(12 * year - 1);
      LeapDaysNext(year - 1);
      YearStarts();
    } else {
      YearStarts();
    }
  }

  lemma FirstDayNext(month: nat)
    ensures FirstDay(month + 1) == FirstDay(month) + DaysInMonth(month)
  {
  }

  lemma YearStarts()
    ensures DaysBefore(0) == 0 && DaysBefore(11) == 334 && FirstDay(0) == 0 && LeapDays(0) == 0
  {
  }

  /** The common table and a leap year's February give the length of every month. */
  lemma MonthLength(year: nat, m: nat)
    requires m < 12
    ensures DaysInMonth(12 * year + m) ==
      (if m == 11 then 31 else DaysBefore(m + 1) - DaysBefore(m)) + if m == 1 && IsLeap(year) then 1 else 0
  {
    MonthOf(year, m);
    hide IsLeap;
  }

  lemma MonthOf(year: nat, m: nat)
    requires m < 12
    ensures (12 * year + m) % 12 == m && (12 * year + m) / 12 == year
  {
  }

  /** Four hundred years are 146097 days, and 1970 began 719528 days after the first of all. */
  lemma KnownSpans(year: nat)
    ensures FirstDay(12 * (year + 400)) == FirstDay(12 * year) + 146097
    ensures FirstDay(12 * 1970) == 719528
  {
    hide FirstDay, LeapDays, IsLeap;
    GregorianCalendar(year + 400, 0);
    GregorianCalendar(year, 0);
    GregorianCalendar(1970, 0);
    LeapDaysNext(year);
    LeapDays1970();
    assert DaysBefore(0) == 0;
  }

  lemma LeapDays1970()
    ensures LeapDays(1970) == 478
  {
  }

  // ----- a zone that is lawful

  const DAY_MILLIS := 86_400_000
  const EPOCH_MONTH := 1970 * 12

  /** The date of a day not before the first day of a given month. */
  function DateFrom(month: nat, day: nat): Date
    decreases day
  {
    if day < DaysInMonth(month) then Date(month, day + 1) else DateFrom(month + 1, day - DaysInMonth(month))
  }

  lemma {:induction false} DateFromExact(month: nat, day: nat)
    ensures IsDate(DateFrom(month, day)) && Number(DateFrom(month, day)) == FirstDay(month) + day
    ensures DateFrom(month, day).month >= month
    decreases day
  {
    hide DaysInMonth;
    if day >= DaysInMonth(month) {
      DateFromExact(month + 1, day - DaysInMonth(month));
    }
  }

  function Utc(): Zone {
    Zone(n => (n - FirstDay(EPOCH_MONTH)) * DAY_MILLIS, t => DateFrom(EPOCH_MONTH, if t >= 0 then t / DAY_MILLIS else 0))
  }

  lemma UtcLawful()
    ensures Lawful(Utc())
  {
    var z := Utc();
    hide DaysInMonth, FirstDay;
    forall t | t >= 0
      ensures OnDay(z, t, z.dateOf(t))
    {
      DateFromExact(EPOCH_MONTH, t / DAY_MILLIS);
    }
  }
}
