/** Proleptic Gregorian calendar dates and the two kinds of date arithmetic
    the recurrence rollover uses: `setDate(getDate() + n)` (whole days) and
    `setMonth(getMonth() + 1)` (one calendar month, letting a day-of-month
    that the target month lacks overflow into the month after it). */
module Calendar {

  datatype Date = Date(year: int, month: int, day: int)

  predicate IsLeapYear(y: int) {
    y % 4 == 0 && (y % 100 != 0 || y % 400 == 0)
  }

  function DaysInMonth(y: int, m: int): (n: int)
    requires 1 <= m <= 12
    ensures 28 <= n <= 31
    ensures n < 31 <==> m in {2, 4, 6, 9, 11}
  {
    if m == 2 then (if IsLeapYear(y) then 29 else 28)
    else if m == 4 || m == 6 || m == 9 || m == 11 then 30
    else 31
  }

  predicate Valid(d: Date) {
    1 <= d.month <= 12 && 1 <= d.day <= DaysInMonth(d.year, d.month)
  }

  /** Chronological order of two dates: `a` is strictly earlier than `b`. */
  predicate Before(a: Date, b: Date) {
    a.year < b.year
    || (a.year == b.year && a.month < b.month)
    || (a.year == b.year && a.month == b.month && a.day < b.day)
  }

  /** The first day of the month after the month of `d`. */
  function FirstOfNextMonth(d: Date): (r: Date)
    requires 1 <= d.month <= 12
    ensures Valid(r) && r.day == 1
    ensures Before(d, r)
  {
    if d.month == 12 then Date(d.year + 1, 1, 1) else Date(d.year, d.month + 1, 1)
  }

  /** The calendar day after `d`. */
  function NextDay(d: Date): (r: Date)
    requires Valid(d)
    ensures Valid(r) && Before(d, r)
    ensures r.year == d.year || (d.month == 12 && d.day == 31 && r == Date(d.year + 1, 1, 1))
  {
    if d.day < DaysInMonth(d.year, d.month) then d.(day := d.day + 1)
    else FirstOfNextMonth(d)
  }

  /** `n` whole days after `d`. */
  function AddDays(d: Date, n: nat): (r: Date)
    requires Valid(d)
    ensures Valid(r)
    ensures n > 0 ==> Before(d, r)
    decreases n
  {
    if n == 0 then d else AddDays(NextDay(d), n - 1)
  }

  /** Adding days in two steps is adding their sum. */
  lemma {:induction false} AddDaysAdditive(d: Date, a: nat, b: nat)
    requires Valid(d)
    ensures AddDays(AddDays(d, a), b) == AddDays(d, a + b)
    decreases a
  {
    if a > 0 {
      AddDaysAdditive(NextDay(d), a - 1, b);
    }
  }

  /** While the day of the month does not run past the month's end, adding
      days only moves the day of the month. */
  lemma {:induction false} AddDaysWithinMonth(d: Date, n: nat)
    requires Valid(d) && d.day + n <= DaysInMonth(d.year, d.month)
    ensures AddDays(d, n) == d.(day := d.day + n)
    decreases n
  {
    if n > 0 {
      AddDaysWithinMonth(NextDay(d), n - 1);
    }
  }

  /** `setMonth(getMonth() + 1)`: same day of the month in the following
      month; when that month is too short, the surplus days carry into the
      month after it (Jan 31 becomes Mar 3 in a common year). One carry is
      enough: the surplus is at most 3 days and every month that follows a
      short month has 31 days. */
  function AddMonth(d: Date): (r: Date)
    requires Valid(d)
    ensures Valid(r) && Before(d, r)
    ensures r.day == d.day || r.day <= 3
  {
    var next := FirstOfNextMonth(d);
    var len := DaysInMonth(next.year, next.month);
    if d.day <= len then next.(day := d.day)
    else FirstOfNextMonth(next).(day := d.day - len)
  }

  /** The month step agrees with JavaScript's normalisation of an
      out-of-range day: the date `d.day - 1` days after the first of the
      next month. */
  lemma {:induction false} AddMonthIsDayOffset(d: Date)
    requires Valid(d)
    ensures AddMonth(d) == AddDays(FirstOfNextMonth(d), d.day - 1)
  {
    var next := FirstOfNextMonth(d);
    var len := DaysInMonth(next.year, next.month);
    if d.day <= len {
      AddDaysWithinMonth(next, d.day - 1);
    } else {
      var last := next.(day := len);
      AddDaysWithinMonth(next, len - 1);
      AddDaysAdditive(next, len - 1, d.day - len);
      assert NextDay(last) == FirstOfNextMonth(next);
      AddDaysWithinMonth(FirstOfNextMonth(next), d.day - len - 1);
    }
  }

  /** One month after January 31 is March 3 in a common year and March 2
      in a leap year, not the last day of February. */
  lemma MonthAfterJan31CommonYear()
    ensures AddMonth(Date(2023, 1, 31)) == Date(2023, 3, 3)
    ensures AddMonth(Date(2024, 1, 31)) == Date(2024, 3, 2)
  {
  }

  // ---- instants ----

  /** The current instant: a calendar day and the milliseconds elapsed
      since its midnight. */
  datatype Moment = Moment(date: Date, msOfDay: nat)

  /** `new Date(due) < new Date()` for a due date the date picker produced,
      which stands for the midnight that starts its day: a due date is past
      once its day has begun (except at the very midnight), and never while
      its day lies ahead. */
  function PastDue(due: Date, now: Moment): (b: bool)
    ensures due == now.date ==> (b <==> now.msOfDay > 0)
    ensures Before(now.date, due) ==> !b
    ensures Before(due, now.date) ==> b
  {
    Before(due, now.date) || (due == now.date && now.msOfDay > 0)
  }
}
