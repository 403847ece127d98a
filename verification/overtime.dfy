/** The overtime-allowance calculator: extended and night hours at 150% of
    the hourly rate, holiday hours at 150% for the first eight and 200% for
    the rest. Hours and the rate are integers after `parseInt`; pay is a
    multiple of half a won and is kept exactly as a real. */
module Overtime {
  import opened Wrappers
  import opened JsNumber
  import opened Forms

  datatype OvertimeResult = OvertimeResult(
    totalAllowance: real,
    overtimePay: real,
    nightPay: real,
    holidayPay: real,
    overtimeHours: int,
    nightHours: int,
    holidayHours: int,
    hourlyRate: int)

  const HolidayBaseHours := 8

  /** Hours paid at 150%: `hours * rate * 1.5`. */
  function PremiumPay(hours: int, rate: int): (pay: real)
    ensures pay * 2.0 == (3 * hours * rate) as real
  {
    (hours * rate) as real * 1.5
  }

  /** Holiday hours: 150% up to eight hours, 200% for each hour beyond. */
  function HolidayPay(hours: int, rate: int): (pay: real)
    ensures hours <= HolidayBaseHours ==> pay == PremiumPay(hours, rate)
    ensures rate >= 0 ==> pay >= PremiumPay(hours, rate)
    ensures hours > HolidayBaseHours ==> pay - PremiumPay(hours, rate) == 0.5 * ((hours - HolidayBaseHours) * rate) as real
  {
    if hours <= HolidayBaseHours then (hours * rate) as real * 1.5
    else (HolidayBaseHours * rate) as real * 1.5 + ((hours - HolidayBaseHours) * rate) as real * 2.0
  }

  function Compute(rate: int, overtime: int, night: int, holiday: int): (r: OvertimeResult)
    ensures r.totalAllowance == r.overtimePay + r.nightPay + r.holidayPay
    ensures r.overtimePay == PremiumPay(overtime, rate) && r.nightPay == PremiumPay(night, rate)
    ensures r.holidayPay == HolidayPay(holiday, rate)
    ensures r.overtimeHours == overtime && r.nightHours == night && r.holidayHours == holiday
    ensures r.hourlyRate == rate
  {
    var overtimePay := PremiumPay(overtime, rate);
    var nightPay := PremiumPay(night, rate);
    var holidayPay := HolidayPay(holiday, rate);
    OvertimeResult(overtimePay + nightPay + holidayPay, overtimePay, nightPay, holidayPay,
                   overtime, night, holiday, rate)
  }

  /** The submit handler: the hourly rate box is required, every box is
      read with `parseInt(..) || 0`. */
  function Submit(hourlySalary: NumField, overtimeHours: NumField, nightHours: NumField, holidayHours: NumField)
    : (r: Result<OvertimeResult, FormError>)
    ensures r.Err? <==> hourlySalary.Blank?
    ensures r.Ok? ==> r.value.hourlyRate == ParseOrZero(hourlySalary)
    ensures r.Ok? ==> r.value == Compute(ParseOrZero(hourlySalary), ParseOrZero(overtimeHours),
                                         ParseOrZero(nightHours), ParseOrZero(holidayHours))
    ensures r.Ok? && overtimeHours.Blank? && nightHours.Blank? && holidayHours.Blank? ==> r.value.totalAllowance == 0.0
  {
    if hourlySalary.Blank? then Err(MissingRequiredInput)
    else Ok(Compute(ParseOrZero(hourlySalary), ParseOrZero(overtimeHours),
                    ParseOrZero(nightHours), ParseOrZero(holidayHours)))
  }

  // ---------------------------------------------------------------------
  // Properties of the tiers

  /** An independent statement of the holiday tiers: 150% of the rate for
      the hours up to eight and 200% for the hours past eight. */
  lemma HolidayPayTiers(hours: int, rate: int)
    ensures HolidayPay(hours, rate)
         == 1.5 * (Min(hours, HolidayBaseHours) * rate) as real
          + 2.0 * (Max(hours - HolidayBaseHours, 0) * rate) as real
  {
  }

  /** Both branches of the holiday formula give the same pay at eight
      hours, so holiday pay has no jump at the tier boundary, and the ninth
      hour adds twice the rate. */
  lemma HolidayTiersMeet(rate: int)
    ensures (HolidayBaseHours * rate) as real * 1.5 + ((HolidayBaseHours - HolidayBaseHours) * rate) as real * 2.0
         == HolidayPay(HolidayBaseHours, rate)
    ensures HolidayPay(HolidayBaseHours + 1, rate) == HolidayPay(HolidayBaseHours, rate) + 2.0 * rate as real
  {
  }

  /** For a non-negative rate, more holiday hours never pay less. */
  lemma HolidayPayMonotone(h1: int, h2: int, rate: int)
    requires h1 <= h2 && rate >= 0
    ensures HolidayPay(h1, rate) <= HolidayPay(h2, rate)
  {
    var a1, a2 := Min(h1, HolidayBaseHours), Min(h2, HolidayBaseHours);
    var b1, b2 := Max(h1 - HolidayBaseHours, 0), Max(h2 - HolidayBaseHours, 0);
    HolidayPayTiers(h1, rate);
    HolidayPayTiers(h2, rate);
    MulMonotone(a1, a2, rate);
    MulMonotone(b1, b2, rate);
  }

  /** With no negative input the allowance is never negative. */
  lemma AllowanceNonNegative(rate: int, overtime: int, night: int, holiday: int)
    requires rate >= 0 && overtime >= 0 && night >= 0 && holiday >= 0
    ensures Compute(rate, overtime, night, holiday).totalAllowance >= 0.0
  {
    MulMonotone(0, overtime, rate);
    MulMonotone(0, night, rate);
    HolidayPayMonotone(0, holiday, rate);
  }

  /** Hours past the eighth on a holiday pay more than the same hours as
      extended work. */
  lemma LongHolidayPaysMore(hours: int, rate: int)
    requires hours > HolidayBaseHours && rate > 0
    ensures HolidayPay(hours, rate) > PremiumPay(hours, rate)
  {
    assert (hours * rate) == HolidayBaseHours * rate + (hours - HolidayBaseHours) * rate;
    MulMonotone(1, hours - HolidayBaseHours, rate);
  }

  /** Rate 10,000 with 10 extended hours and 10 holiday hours pays 310,000. */
  lemma WorkedExample()
    ensures Compute(10000, 10, 0, 10).overtimePay == 150000.0
    ensures Compute(10000, 10, 0, 10).holidayPay == 160000.0
    ensures Compute(10000, 10, 0, 10).totalAllowance == 310000.0
  {
  }
}
