/** The proleptic Gregorian calendar behind the `replace` and `timedelta` steps of app/core/credit_refresh.py.
    Years are not bounded above. */
module Calendar {

  datatype Date = Date(year: int, month: int, day: int)

  /** A point in time: a date and the seconds since its midnight. */
  datatype DateTime = DateTime(date: Date, seconds: real)

  const DAY: real := 86400.0

  predicate Leap(year: int) {
    year % 4 == 0 && (year % 100 != 0 || year % 400 == 0)
  }

  function DaysIn(year: int, month: int): (n: int)
    ensures 28 <= n <= 31
  {
    if month == 2 then if Leap(year) then 29 else 28
    else if month in {4, 6, 9, 11} then 30
    else 31
  }

  predicate IsDate(d: Date) {
    1 <= d.year && 1 <= d.month <= 12 && 1 <= d.day <= DaysIn(d.year, d.month)
  }

  predicate IsDateTime(t: DateTime) {
    IsDate(t.date) && 0.0 <= t.seconds < DAY
  }

  // --------------------------------------------------------------------- days

  function NextMonth(d: Date): Date {
    if d.month == 12 then Date(d.year + 1, 1, 1) else Date(d.year, d.month + 1, 1)
  }

  function NextDay(d: Date): Date {
    if d.day < DaysIn(d.year, d.month) then d.(day := d.day + 1) else NextMonth(d)
  }

  /** Adding a timedelta of whole days. */
  function AddDays(d: Date, n: nat): Date {
    if n == 0 then d else NextDay(AddDays(d, n - 1))
  }

  function DaysBeforeYear(year: int): int {
    365 * (year - 1) + (year - 1) / 4 - (year - 1) / 100 + (year - 1) / 400
  }

  function DaysBeforeMonth(year: int, month: nat): nat {
    if month <= 1 then 0 else DaysBeforeMonth(year, month - 1) + DaysIn(year, month - 1)
  }

  /** Days since 1 January of the year 1. */
  function Ordinal(d: Date): int
    requires IsDate(d)
  {
    DaysBeforeYear(d.year) + DaysBeforeMonth(d.year, d.month) + d.day - 1
  }

  /** Seconds on the same scale. */
  function Instant(t: DateTime): real
    requires IsDateTime(t)
  {
    Ordinal(t.date) as real * DAY + t.seconds
  }

  predicate Before(d: Date, e: Date) {
    || d.year < e.year
    || (d.year == e.year && d.month < e.month)
    || (d.year == e.year && d.month == e.month && d.day < e.day)
  }

  lemma YearLength(year: int)
    ensures DaysBeforeMonth(year, 13) == 365 + if Leap(year) then 1 else 0
    ensures DaysBeforeYear(year + 1) == DaysBeforeYear(year) + DaysBeforeMonth(year, 13)
  {
    assert DaysBeforeMonth(year, 4) == 59 + DaysIn(year, 2) - 28 + 31 by {
      assert DaysBeforeMonth(year, 2) == 31;
      assert DaysBeforeMonth(year, 3) == 31 + DaysIn(year, 2);
    }
    assert DaysBeforeMonth(year, 7) == DaysBeforeMonth(year, 4) + 91 by {
      assert DaysBeforeMonth(year, 5) == DaysBeforeMonth(year, 4) + 30;
      assert DaysBeforeMonth(year, 6) == DaysBeforeMonth(year, 5) + 31;
    }
    assert DaysBeforeMonth(year, 10) == DaysBeforeMonth(year, 7) + 92 by {
      assert DaysBeforeMonth(year, 8) == DaysBeforeMonth(year, 7) + 31;
      assert DaysBeforeMonth(year, 9) == DaysBeforeMonth(year, 8) + 31;
    }
    assert DaysBeforeMonth(year, 13) == DaysBeforeMonth(year, 10) + 92 by {
      assert DaysBeforeMonth(year, 11) == DaysBeforeMonth(year, 10) + 31;
      assert DaysBeforeMonth(year, 12) == DaysBeforeMonth(year, 11) + 30;
    }
    LeapDays(year);
  }

  /** The three quotients count the leap years. */
  lemma LeapDays(year: int)
    ensures year / 4 - year / 100 + year / 400
            == (year - 1) / 4 - (year - 1) / 100 + (year - 1) / 400 + if Leap(year) then 1 else 0
  {
    Quotient(year, 4);
    Quotient(year, 100);
    Quotient(year, 400);
    Multiples(year);
  }

  lemma Multiples(n: int)
    ensures n % 400 == 0 ==> n % 100 == 0
    ensures n % 100 == 0 ==> n % 4 == 0
  {
    NoRemainder(100, 4 * (n / 400) - n / 100, n % 100);
    NoRemainder(4, 25 * (n / 100) - n / 4, n % 4);
  }

  lemma NoRemainder(k: int, t: int, r: int)
    requires k in {4, 100} && 0 <= r < k
    ensures r == k * t ==> r == 0
  {
    assert t >= 1 ==> k * t >= k;
    assert t <= -1 ==> k * t <= -k;
  }

  lemma Quotient(n: int, k: int)
    requires k in {4, 100, 400}
    ensures n / k == (n - 1) / k + if n % k == 0 then 1 else 0
  {
  }

  lemma NextMonthOrdinal(d: Date)
    requires IsDate(d)
    ensures IsDate(NextMonth(d)) && Ordinal(NextMonth(d)) == Ordinal(d) - d.day + 1 + DaysIn(d.year, d.month)
  {
    YearLength(d.year);
    assert DaysBeforeMonth(d.year, d.month + 1) == DaysBeforeMonth(d.year, d.month) + DaysIn(d.year, d.month);
  }

  /** The closed form counts days: it goes up by one from each day to the next. */
  lemma {:induction false} OrdinalCounts(d: Date, n: nat)
    requires IsDate(d)
    ensures IsDate(AddDays(d, n)) && Ordinal(AddDays(d, n)) == Ordinal(d) + n
  {
    if n > 0 {
      OrdinalCounts(d, n - 1);
      NextMonthOrdinal(AddDays(d, n - 1));
    }
  }

  lemma {:induction false} MonthsUp(year: int, m: nat, n: nat)
    requires 1 <= m < n
    ensures DaysBeforeMonth(year, n) >= DaysBeforeMonth(year, m) + DaysIn(year, m)
  {
    if n > m + 1 {
      MonthsUp(year, m, n - 1);
    }
  }

  lemma {:induction false} YearsUp(y: int, z: int)
    requires y < z
    ensures DaysBeforeYear(z) >= DaysBeforeYear(y) + DaysBeforeMonth(y, 13)
    decreases z - y
  {
    YearLength(z - 1);
    if z > y + 1 {
      YearsUp(y, z - 1);
    }
  }

  lemma EarlierIsLess(d: Date, e: Date)
    requires IsDate(d) && IsDate(e) && Before(d, e)
    ensures Ordinal(d) < Ordinal(e)
  {
    if d.year < e.year {
      YearsUp(d.year, e.year);
      MonthsUp(d.year, d.month, 13);
    } else if d.month < e.month {
      MonthsUp(d.year, d.month, e.month);
    }
  }

  /** Ordinals order dates as the calendar does, so no two dates share one. */
  lemma OrdinalOrder(d: Date, e: Date)
    requires IsDate(d) && IsDate(e)
    ensures Ordinal(d) < Ordinal(e) <==> Before(d, e)
  {
    if Before(d, e) {
      EarlierIsLess(d, e);
    } else if Before(e, d) {
      EarlierIsLess(e, d);
    }
  }

  // ------------------------------------------------------- first of next month

  /** now.replace(day=1, hour=0, ...) + timedelta(days=32), then replace(day=1) */
  function FirstOfNextMonth(now: DateTime): DateTime {
    DateTime(AddDays(now.date.(day := 1), 32).(day := 1), 0.0)
  }

  lemma {:induction false} WithinMonth(d: Date, n: nat)
    requires d.day + n <= DaysIn(d.year, d.month)
    ensures AddDays(d, n) == d.(day := d.day + n)
  {
    if n > 0 {
      WithinMonth(d, n - 1);
    }
  }

  lemma {:induction false} AddDaysAdds(d: Date, m: nat, n: nat)
    ensures AddDays(d, m + n) == AddDays(AddDays(d, m), n)
  {
    if n > 0 {
      AddDaysAdds(d, m, n - 1);
    }
  }

  /** The detour over 32 days lands in the next month, whatever the month. */
  lemma ThirtyTwoDaysOn(d: Date)
    requires IsDate(d)
    ensures AddDays(d.(day := 1), 32).(day := 1) == NextMonth(d)
  {
    var first, n := d.(day := 1), DaysIn(d.year, d.month);
    WithinMonth(first, n - 1);
    assert AddDays(first, n) == NextMonth(d);
    AddDaysAdds(first, n, 32 - n);
    WithinMonth(NextMonth(d), 32 - n);
  }

  /** It is the first midnight of a month strictly after `now`, at most 31 days away, for every date and time. */
  lemma NextMonthIsNear(now: DateTime)
    requires IsDateTime(now)
    ensures var next := FirstOfNextMonth(now);
            && IsDateTime(next) && next.date == NextMonth(now.date) && next.date.day == 1
            && Instant(now) < Instant(next) <= Instant(now) + 31.0 * DAY
            && forall d: Date :: IsDate(d) && d.day == 1 && Instant(DateTime(d, 0.0)) > Instant(now) ==>
                 Instant(DateTime(d, 0.0)) >= Instant(next)
  {
    var next := FirstOfNextMonth(now);
    ThirtyTwoDaysOn(now.date);
    NextMonthOrdinal(now.date);
    forall d: Date | IsDate(d) && d.day == 1 && Instant(DateTime(d, 0.0)) > Instant(now)
      ensures Instant(DateTime(d, 0.0)) >= Instant(next)
    {
      OrdinalOrder(now.date, d);
      OrdinalOrder(d, next.date);
      assert Ordinal(d) > Ordinal(now.date) || d == now.date;
    }
  }
}
