/** The annual-leave calculator: months of service between the join date and
    the base date, the statutory entitlement they give, the days left after
    the days already used, and the service period in years and months. */
module AnnualLeave {
  import opened Wrappers
  import opened JsNumber
  import opened Forms

  /** A date reduced to what the calculator reads from it:
      `getFullYear()` and `getMonth()` (0 for January). The day of the month
      is ignored by the calculation. */
  datatype CalendarMonth = CalendarMonth(year: int, month: int)

  predicate ValidMonth(d: CalendarMonth) { 0 <= d.month < 12 }

  /** Lexicographic "not later than" on (year, month). */
  predicate NotAfter(a: CalendarMonth, b: CalendarMonth) {
    a.year < b.year || (a.year == b.year && a.month <= b.month)
  }

  datatype WorkPeriod = WorkPeriod(years: int, months: int)

  datatype LeaveResult = LeaveResult(total: int, used: int, available: int, period: WorkPeriod)

  const FirstYearMonths := 12
  const BaseDays := 15
  const MaxDays := 25

  /** Calendar-month difference, day of month ignored. */
  function MonthsBetween(join: CalendarMonth, base: CalendarMonth): (m: int)
    ensures ValidMonth(join) && ValidMonth(base) ==> (NotAfter(join, base) <==> m >= 0)
    ensures ValidMonth(join) && ValidMonth(base) && join.year < base.year ==> m >= 12 * (base.year - join.year) - 11
  {
    (base.year - join.year) * 12 + (base.month - join.month)
  }

  /** The calendar month `k` months after `d` (before it for negative `k`). */
  function AddMonths(d: CalendarMonth, k: int): (r: CalendarMonth)
    ensures ValidMonth(r)
  {
    CalendarMonth(d.year + (d.month + k) / 12, (d.month + k) % 12)
  }

  /** The month count is the one number of months that leads from the join
      month to the base month. */
  lemma MonthsBetweenRoundTrip(join: CalendarMonth, base: CalendarMonth, k: int)
    requires ValidMonth(join) && ValidMonth(base)
    ensures AddMonths(join, MonthsBetween(join, base)) == base
    ensures AddMonths(join, k) == base ==> k == MonthsBetween(join, base)
  {
    var m := MonthsBetween(join, base);
    assert join.month + m == 12 * (base.year - join.year) + base.month;
    if AddMonths(join, k) == base {
      var t := join.month + k;
      assert t == 12 * (t / 12) + t % 12;
    }
  }

  /** Days of leave earned after `m` months: none before the first full
      month, one per month during the first year, then 15 plus one per extra
      full year, never more than 25. */
  function Entitlement(m: int): (days: int)
    ensures 0 <= days <= MaxDays
    ensures m < 1 ==> days == 0
    ensures 1 <= m < FirstYearMonths ==> days == m
    ensures m >= FirstYearMonths ==> days >= BaseDays
  {
    if m >= FirstYearMonths then
      Min(BaseDays + (m - FirstYearMonths) / 12, MaxDays)
    else if m >= 1 then
      m
    else
      0
  }

  /** `{ years: Math.floor(m / 12), months: m % 12 }` with JavaScript's
      truncating `%`. */
  function PeriodOf(m: int): (p: WorkPeriod)
    ensures m >= 0 ==> p.years * 12 + p.months == m && 0 <= p.months < 12 && p.years >= 0
    ensures m < 0 ==> p.years < 0 && -12 < p.months <= 0
    ensures m < 0 && m % 12 == 0 ==> p.years * 12 + p.months == m && p.months == 0
  {
    WorkPeriod(m / 12, Rem(m, 12))
  }

  /** The computation that runs once both dates are present. */
  function Compute(join: CalendarMonth, base: CalendarMonth, used: int): (r: LeaveResult)
    ensures r.used == used
    ensures r.total == Entitlement(MonthsBetween(join, base))
    ensures r.period == PeriodOf(MonthsBetween(join, base))
    ensures r.available >= 0
    ensures used >= 0 ==> r.available <= r.total
    ensures r.available == 0 <==> used >= r.total
    ensures r.available > 0 ==> r.available + used == r.total
  {
    var m := MonthsBetween(join, base);
    var total := Entitlement(m);
    LeaveResult(total, used, Max(0, total - used), PeriodOf(m))
  }

  /** The submit handler: both dates are required, the used-days box is
      read with `parseInt(..) || 0`. */
  function Submit(join: Option<CalendarMonth>, base: Option<CalendarMonth>, usedLeave: NumField)
    : (r: Result<LeaveResult, FormError>)
    ensures r.Err? <==> join.None? || base.None?
    ensures r.Ok? ==> r.value == Compute(join.value, base.value, ParseOrZero(usedLeave))
    ensures r.Ok? && usedLeave.Blank? ==> r.value.used == 0 && r.value.available == r.value.total
  {
    if join.None? || base.None? then Err(MissingRequiredInput)
    else Ok(Compute(join.value, base.value, ParseOrZero(usedLeave)))
  }

  // ---------------------------------------------------------------------
  // Properties of the entitlement rule

  /** More months of service never give fewer days. */
  lemma EntitlementMonotone(m1: int, m2: int)
    requires m1 <= m2
    ensures Entitlement(m1) <= Entitlement(m2)
  {
    if m1 >= FirstYearMonths {
      YearsMonotone(m1 - FirstYearMonths, m2 - FirstYearMonths);
    }
  }

  lemma YearsMonotone(a: int, b: int)
    requires 0 <= a <= b
    ensures a / 12 <= b / 12
  {
  }

  /** Each further full year of service adds one day until the cap. */
  lemma EntitlementYearlyStep(m: int)
    requires m >= FirstYearMonths
    ensures Entitlement(m + 12) == Min(Entitlement(m) + 1, MaxDays)
  {
    assert (m + 12 - FirstYearMonths) / 12 == (m - FirstYearMonths) / 12 + 1;
  }

  /** The cap of 25 days is reached exactly at 11 years (132 months). */
  lemma EntitlementCapped(m: int)
    ensures Entitlement(m) == MaxDays <==> m >= 132
  {
    if m >= FirstYearMonths {
      if m >= 132 {
        YearsMonotone(120, m - FirstYearMonths);
      } else {
        YearsMonotone(m - FirstYearMonths, 119);
      }
    }
  }

  /** For a join date not after the base date the period splits the month
      count into whole years and 0..11 remaining months. */
  lemma PeriodSplitsMonths(join: CalendarMonth, base: CalendarMonth, used: int)
    requires ValidMonth(join) && ValidMonth(base) && NotAfter(join, base)
    ensures var r := Compute(join, base, used);
      r.period.years * 12 + r.period.months == MonthsBetween(join, base)
      && 0 <= r.period.months < 12
  {
  }

  /** With a base date before the join date and a month count that is not a
      multiple of 12, `Math.floor` and the truncating `%` disagree: the shown
      years and months add up to one year less than the month count. */
  lemma PeriodOfNegative(m: int)
    requires m < 0 && m % 12 != 0
    ensures PeriodOf(m).years * 12 + PeriodOf(m).months == m - 12
  {
    var q := (-m) / 12;
    var s := (-m) % 12;
    assert -m == 12 * q + s && 0 < s < 12;
    assert m == 12 * (-q - 1) + (12 - s);
    assert m / 12 == -q - 1;
  }

  /** Using more days than were earned leaves nothing rather than a negative
      balance, e.g. 100 used out of 15. */
  lemma OverusedLeavesZero()
    ensures Compute(CalendarMonth(2020, 0), CalendarMonth(2021, 0), 100).total == 15
    ensures Compute(CalendarMonth(2020, 0), CalendarMonth(2021, 0), 100).available == 0
  {
  }
}
