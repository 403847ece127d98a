/** The severance-pay calculator: thirty days of average monthly wage per
    year of service, pro rata to the day. Amounts are computed in exact
    rational arithmetic and floored, as the source floors its
    floating-point product. */
module Severance {
  import opened Wrappers
  import opened JsNumber
  import opened Forms

  datatype ServicePeriod = ServicePeriod(days: int, years: int, months: int)

  /** `details` keeps the parsed salary and bonus as entered. */
  datatype SeveranceResult = SeveranceResult(
    amount: int,
    period: ServicePeriod,
    averageWage: real,
    monthlySalary: int,
    bonus: int)

  const DaysPerYear := 365

  /** Monthly salary plus the annual bonus spread over twelve months. */
  function AverageWage(salary: int, bonus: int): (w: real)
    ensures w * 12.0 == (12 * salary + bonus) as real
  {
    salary as real + bonus as real / 12.0
  }

  /** Service in years, not rounded: `workDays / 365`. */
  function WorkYears(workDays: int): (y: real)
    ensures y * 365.0 == workDays as real
  {
    workDays as real / 365.0
  }

  /** `Math.floor(averageWage * 30 * workYears)`. */
  function Amount(salary: int, bonus: int, workDays: int): (a: int)
    ensures a as real <= AverageWage(salary, bonus) * 30.0 * WorkYears(workDays) < a as real + 1.0
  {
    (AverageWage(salary, bonus) * 30.0 * WorkYears(workDays)).Floor
  }

  /** `{ days, years: Math.floor(workYears), months: Math.floor((workYears % 1) * 12) }`. */
  function PeriodOf(workDays: int): (p: ServicePeriod)
    ensures p.days == workDays
    ensures p.years as real <= WorkYears(workDays) < p.years as real + 1.0
    ensures workDays >= 0 ==> 0 <= p.months < 12
    ensures workDays < 0 ==> -12 <= p.months <= 0
  {
    var y := WorkYears(workDays);
    ServicePeriod(workDays, y.Floor, (FracPart(y) * 12.0).Floor)
  }

  function Compute(salary: int, bonus: int, workDays: int): (r: SeveranceResult)
    ensures r.amount == Amount(salary, bonus, workDays)
    ensures r.period == PeriodOf(workDays)
    ensures r.averageWage * 12.0 == (12 * salary + bonus) as real
    ensures r.monthlySalary == salary && r.bonus == bonus
  {
    SeveranceResult(Amount(salary, bonus, workDays), PeriodOf(workDays),
                    AverageWage(salary, bonus), salary, bonus)
  }

  /** The submit handler. Dates are day numbers; the source's millisecond
      difference divided by a day and floored is their difference. Both
      dates and the salary box are required; the bonus box is optional. */
  function Submit(joinDay: Option<int>, leaveDay: Option<int>, monthlySalary: NumField, bonus: NumField)
    : (r: Result<SeveranceResult, FormError>)
    ensures r.Err? <==> joinDay.None? || leaveDay.None? || monthlySalary.Blank?
    ensures r.Ok? ==> r.value.period.days == leaveDay.value - joinDay.value
    ensures r.Ok? ==> r.value.monthlySalary == ParseOrZero(monthlySalary)
                      && r.value.bonus == ParseOrZero(bonus)
    ensures r.Ok? ==> r.value == Compute(ParseOrZero(monthlySalary), ParseOrZero(bonus), leaveDay.value - joinDay.value)
  {
    if joinDay.None? || leaveDay.None? || monthlySalary.Blank? then Err(MissingRequiredInput)
    else Ok(Compute(ParseOrZero(monthlySalary), ParseOrZero(bonus), leaveDay.value - joinDay.value))
  }

  // ---------------------------------------------------------------------
  // Properties of the formula

  /** The amount in integers: the floor of `(12 * salary + bonus) * 30 * days / (12 * 365)`. */
  lemma AmountClosedForm(salary: int, bonus: int, workDays: int)
    ensures Amount(salary, bonus, workDays) == ((12 * salary + bonus) * 30 * workDays) / 4380
  {
    var n := (12 * salary + bonus) * 30 * workDays;
    var w := 12 * salary + bonus;
    calc {
      AverageWage(salary, bonus) * 30.0 * WorkYears(workDays);
      == { assert AverageWage(salary, bonus) == w as real / 12.0; }
      (w as real / 12.0) * 30.0 * (workDays as real / 365.0);
      == { RealProduct(w, workDays); }
      n as real / 4380.0;
    }
    FloorOfQuotient(n, 4380);
  }

  lemma RealProduct(w: int, d: int)
    ensures (w as real / 12.0) * 30.0 * (d as real / 365.0) == (w * 30 * d) as real / 4380.0
  {
    assert (w * 30 * d) as real == w as real * 30.0 * d as real;
  }

  lemma FloorOfQuotient(n: int, k: int)
    requires k > 0
    ensures (n as real / k as real).Floor == n / k
  {
    var q, s := n / k, n % k;
    assert n == k * q + s && 0 <= s < k;
    var f := s as real / k as real;
    assert 0.0 <= f < 1.0 by {
      assert f * k as real == s as real;
    }
    assert n as real / k as real == q as real + f by {
      assert n as real == q as real * k as real + s as real;
    }
  }

  /** With no negative input the amount is never negative. */
  lemma AmountNonNegative(salary: int, bonus: int, workDays: int)
    requires salary >= 0 && bonus >= 0 && workDays >= 0
    ensures Amount(salary, bonus, workDays) >= 0
  {
    AmountClosedForm(salary, bonus, workDays);
    assert (12 * salary + bonus) * 30 * workDays >= 0;
  }

  /** A higher salary never lowers the amount. */
  lemma AmountMonotoneInSalary(s1: int, s2: int, bonus: int, workDays: int)
    requires s1 <= s2 && workDays >= 0
    ensures Amount(s1, bonus, workDays) <= Amount(s2, bonus, workDays)
  {
    AmountClosedForm(s1, bonus, workDays);
    AmountClosedForm(s2, bonus, workDays);
    MulMonotone(12 * s1 + bonus, 12 * s2 + bonus, 30 * workDays);
    assert (12 * s1 + bonus) * 30 * workDays == (12 * s1 + bonus) * (30 * workDays);
    assert (12 * s2 + bonus) * 30 * workDays == (12 * s2 + bonus) * (30 * workDays);
    QuotientMonotone((12 * s1 + bonus) * 30 * workDays, (12 * s2 + bonus) * 30 * workDays);
  }

  /** A longer service never lowers the amount, for a non-negative wage. */
  lemma AmountMonotoneInDays(salary: int, bonus: int, d1: int, d2: int)
    requires d1 <= d2 && 12 * salary + bonus >= 0
    ensures Amount(salary, bonus, d1) <= Amount(salary, bonus, d2)
  {
    var w := 12 * salary + bonus;
    AmountClosedForm(salary, bonus, d1);
    AmountClosedForm(salary, bonus, d2);
    MulMonotone(d1, d2, w * 30);
    assert w * 30 * d1 == d1 * (w * 30);
    assert w * 30 * d2 == d2 * (w * 30);
    QuotientMonotone(w * 30 * d1, w * 30 * d2);
  }

  lemma QuotientMonotone(a: int, b: int)
    requires a <= b
    ensures a / 4380 <= b / 4380
  {
  }

  /** The amount is not clamped: a leave date before the join date with a
      positive wage gives a negative amount. */
  lemma NegativeServiceGivesNegativeAmount(salary: int, bonus: int, workDays: int)
    requires workDays < 0 && 12 * salary + bonus > 0
    ensures Amount(salary, bonus, workDays) < 0
  {
    AmountClosedForm(salary, bonus, workDays);
    var w := 12 * salary + bonus;
    assert w * 30 * workDays == (w * 30) * workDays;
    assert (w * 30) * workDays <= -(w * 30) by {
      MulMonotone(workDays, -1, w * 30);
      assert workDays * (w * 30) == (w * 30) * workDays;
    }
  }

  /** For a non-negative day count the period is whole years of 365 days
      and the months of the remainder, `floor(12 * rest / 365)`. */
  lemma PeriodInIntegers(workDays: int)
    requires workDays >= 0
    ensures PeriodOf(workDays).years == workDays / DaysPerYear
    ensures PeriodOf(workDays).months == (12 * (workDays % DaysPerYear)) / DaysPerYear
  {
    var y := WorkYears(workDays);
    FloorOfQuotient(workDays, 365);
    assert y.Floor == workDays / 365;
    var q, s := workDays / 365, workDays % 365;
    assert workDays == 365 * q + s;
    assert y == q as real + s as real / 365.0;
    assert FracPart(y) == s as real / 365.0;
    assert FracPart(y) * 12.0 == (12 * s) as real / 365.0;
    FloorOfQuotient(12 * s, 365);
  }

  /** For a negative day count the years are still the floor of the
      service in years, but `% 1` keeps the sign of the dividend, so the
      months are the floor of minus twelve times the remaining days over
      365: negative unless the count is whole years. */
  lemma PeriodInIntegersNegative(workDays: int)
    requires workDays < 0
    ensures PeriodOf(workDays).years == workDays / DaysPerYear
    ensures PeriodOf(workDays).months == (-12 * ((-workDays) % DaysPerYear)) / DaysPerYear
    ensures (-workDays) % DaysPerYear == 0 <==> PeriodOf(workDays).months == 0
  {
    var y := WorkYears(workDays);
    var n := -workDays;
    FloorOfQuotient(workDays, 365);
    FloorOfQuotient(n, 365);
    var q, s := n / 365, n % 365;
    assert n == 365 * q + s;
    assert -y == n as real / 365.0;
    assert Trunc(y) == -q;
    assert FracPart(y) == -(s as real / 365.0);
    assert FracPart(y) * 12.0 == (-12 * s) as real / 365.0;
    FloorOfQuotient(-12 * s, 365);
  }

  /** Each whole year of 365 days pays thirty days of average wage. */
  lemma WholeYearsPayThirtyDays(salary: int, bonus: int, years: int)
    ensures Amount(salary, bonus, 365 * years) == (30 * years * (12 * salary + bonus)) / 12
  {
    var w := 12 * salary + bonus;
    AmountClosedForm(salary, bonus, 365 * years);
    assert w * 30 * (365 * years) == (30 * years * w) * 365;
    DivideOutYear(30 * years * w);
  }

  lemma DivideOutYear(n: int)
    ensures (n * 365) / 4380 == n / 12
  {
    var q, s := n / 12, n % 12;
    assert n == 12 * q + s;
    assert n * 365 == 4380 * q + 365 * s;
  }

  /** Three years and a day (2020-01-01 to 2023-01-01) at 3,000,000 a month. */
  lemma ThreeYearExample()
    ensures Amount(3000000, 0, 1096) == 270246575
    ensures PeriodOf(1096).years == 3 && PeriodOf(1096).months == 0
  {
    AmountClosedForm(3000000, 0, 1096);
    PeriodInIntegers(1096);
  }
}
