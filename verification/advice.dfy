/** The canned advice the advice panel picks for a calculation by fixed
    thresholds. The messages are represented by which of them is chosen,
    not by their text. */
module Advice {
  import opened Calculation
  import AnnualLeave
  import Severance
  import Overtime
  import JsNumber

  datatype LeaveAdvice = UseSoon | PlentyLeft | OnTrack
  datatype SeveranceAdvice = Healthy | CheckBenefits
  datatype OvertimeAdvice = Overworked | Light | Manageable

  datatype Advice =
    | LeaveTip(leave: LeaveAdvice)
    | SeveranceTip(severance: SeveranceAdvice)
    | OvertimeTip(overtime: OvertimeAdvice)

  const LowLeaveDays := 2
  const PlentyLeaveDays := 10
  const HealthyMonthly := 3000000
  const OverworkHours := 20
  const LightHours := 5

  /** Two days or fewer left: use them soon; ten or more: plenty; else on track. */
  function AdviseLeave(available: int): (a: LeaveAdvice)
    ensures a == UseSoon <==> available <= LowLeaveDays
    ensures a == PlentyLeft <==> available >= PlentyLeaveDays
    ensures a == OnTrack <==> LowLeaveDays < available < PlentyLeaveDays
  {
    if available <= LowLeaveDays then UseSoon
    else if available >= PlentyLeaveDays then PlentyLeft
    else OnTrack
  }

  /** More than 20 extra hours: overwork; fewer than 5: light; else manageable. */
  function AdviseOvertime(totalHours: int): (a: OvertimeAdvice)
    ensures a == Overworked <==> totalHours > OverworkHours
    ensures a == Light <==> totalHours < LightHours
    ensures a == Manageable <==> LightHours <= totalHours <= OverworkHours
  {
    if totalHours > OverworkHours then Overworked
    else if totalHours < LightHours then Light
    else Manageable
  }

  /** `Math.floor(amount / years / 12) > 3000000` in JavaScript numbers. A
      zero year count divides by zero: a positive amount gives +Infinity
      (above the threshold), zero gives NaN and a negative amount -Infinity
      (neither is above it). */
  predicate MonthlyEquivalentAbove(amount: int, years: int)
    ensures years == 0 ==> (MonthlyEquivalentAbove(amount, years) <==> amount > 0)
    ensures amount <= 0 && years >= 0 ==> !MonthlyEquivalentAbove(amount, years)
    ensures amount >= 0 && years < 0 ==> !MonthlyEquivalentAbove(amount, years)
  {
    if years == 0 then amount > 0
    else (amount as real / years as real / 12.0).Floor > HealthyMonthly
  }

  function AdviseSeverance(r: Severance.SeveranceResult): (a: SeveranceAdvice)
    ensures r.period.years == 0 ==> (a == Healthy <==> r.amount > 0)
    ensures r.amount <= 0 && r.period.years >= 0 ==> a == CheckBenefits
  {
    if MonthlyEquivalentAbove(r.amount, r.period.years) then Healthy else CheckBenefits
  }

  /** One rule per calculator, chosen by the result's tag. */
  function Advise(c: CalcResult): (a: Advice)
    ensures c.LeaveCalc? <==> a.LeaveTip?
    ensures c.SeveranceCalc? <==> a.SeveranceTip?
    ensures c.OvertimeCalc? <==> a.OvertimeTip?
    ensures c.LeaveCalc? ==> a == LeaveTip(AdviseLeave(c.leave.available))
    ensures c.SeveranceCalc? ==> a == SeveranceTip(AdviseSeverance(c.severance))
    ensures c.OvertimeCalc? ==> a == OvertimeTip(AdviseOvertime(
              c.overtime.overtimeHours + c.overtime.nightHours + c.overtime.holidayHours))
  {
    match c
    case LeaveCalc(r) => LeaveTip(AdviseLeave(r.available))
    case SeveranceCalc(r) => SeveranceTip(AdviseSeverance(r))
    case OvertimeCalc(r) => OvertimeTip(AdviseOvertime(r.overtimeHours + r.nightHours + r.holidayHours))
  }

  // ---------------------------------------------------------------------
  // Properties

  /** For at least one whole year of service the severance rule is a plain
      threshold: the amount per year of service is at least twelve months
      of 3,000,001. */
  lemma SeveranceAdviceThreshold(r: Severance.SeveranceResult)
    requires r.period.years > 0
    ensures AdviseSeverance(r) == Healthy <==> r.amount >= 12 * (HealthyMonthly + 1) * r.period.years
  {
    var a, y := r.amount, r.period.years;
    var x := a as real / y as real / 12.0;
    assert x * (12 * y) as real == a as real;
    if a >= 12 * (HealthyMonthly + 1) * y {
      assert x >= (HealthyMonthly + 1) as real;
    } else {
      assert a as real < (12 * (HealthyMonthly + 1) * y) as real;
      assert x < (HealthyMonthly + 1) as real;
    }
  }

  /** With the leave date before the join date the year count is negative,
      and so is the amount for a positive wage: the two signs cancel in the
      division, and a large enough negative amount is advised as healthy. */
  lemma BackwardServiceAdviceThreshold(r: Severance.SeveranceResult)
    requires r.period.years < 0
    ensures AdviseSeverance(r) == Healthy <==> r.amount <= 12 * (HealthyMonthly + 1) * r.period.years
  {
    var a, y := r.amount, r.period.years;
    var x := a as real / y as real / 12.0;
    assert x * (12 * y) as real == a as real;
    if a <= 12 * (HealthyMonthly + 1) * y {
      assert x >= (HealthyMonthly + 1) as real;
    } else {
      assert a as real > (12 * (HealthyMonthly + 1) * y) as real;
      assert x < (HealthyMonthly + 1) as real;
    }
  }

  /** A leave date 3,650 days before the join date at a salary of 5,000,000:
      amount -1,500,000,000 over -10 years, advised as healthy. */
  lemma BackwardServiceExample()
    ensures Severance.Compute(5000000, 0, -3650).amount == -1500000000
    ensures Severance.Compute(5000000, 0, -3650).period.years == -10
    ensures AdviseSeverance(Severance.Compute(5000000, 0, -3650)) == Healthy
  {
    Severance.AmountClosedForm(5000000, 0, -3650);
    Severance.PeriodInIntegersNegative(-3650);
    BackwardServiceAdviceThreshold(Severance.Compute(5000000, 0, -3650));
  }

  /** A newcomer within two months of joining (with no negative used count) is
      always told to use it soon; anyone past the first year who has used
      at most five days is told there is plenty left. */
  lemma LeaveAdviceByTenure(join: AnnualLeave.CalendarMonth, base: AnnualLeave.CalendarMonth, used: int)
    requires used >= 0
    ensures AnnualLeave.MonthsBetween(join, base) <= 2
            ==> AdviseLeave(AnnualLeave.Compute(join, base, used).available) == UseSoon
    ensures AnnualLeave.MonthsBetween(join, base) >= 12 && used <= 5
            ==> AdviseLeave(AnnualLeave.Compute(join, base, used).available) == PlentyLeft
  {
  }

  /** More than 20 holiday hours is advised as overwork, and is paid more
      than 20 hours at 150%. */
  lemma OverworkedWeekPaysPremium(rate: int, holiday: int)
    requires holiday > OverworkHours && rate > 0
    ensures var r := Overtime.Compute(rate, 0, 0, holiday);
      Advise(OvertimeCalc(r)) == OvertimeTip(Overworked)
      && r.totalAllowance > Overtime.PremiumPay(OverworkHours, rate)
  {
    var r := Overtime.Compute(rate, 0, 0, holiday);
    Overtime.LongHolidayPaysMore(holiday, rate);
    JsNumber.MulMonotone(OverworkHours, holiday, rate);
  }
}
