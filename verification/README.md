# Labor-law calculators: a verified model

This project models the computational core of a client-side web application
offering three Korean labor-law calculators, and proves properties of it:

- **Annual leave** (`AnnualLeave`): the calendar-month difference between the
  join date and the base date, the entitlement it gives (nothing before the
  first month, one day per month in the first year, then 15 days plus one per
  further full year, at most 25), the days left after the days already used
  (never below zero), and the service period in years and months.
- **Severance pay** (`Severance`): thirty days of average monthly wage
  (monthly salary plus a twelfth of the annual bonus) per 365 days of
  service, floored; the service period in days, years and months.
- **Overtime allowance** (`Overtime`): extended and night hours at 150% of
  the hourly rate; holiday hours at 150% for the first eight and 200% beyond.
- **Submit handlers** (`*.Submit`, `Calculators`): a required box left empty
  refuses the form (the source's `alert`), every numeric box is read with
  `parseInt(..) || 0`, and a computed result is recorded in the history.
- **Calculation history** (`History`): newest first, at most ten entries, a
  new entry goes first and the oldest beyond ten is dropped; "delete all"
  empties it; the history view filters by calculator type and search term.
- **Advice** (`Advice`): the threshold rule that picks one of the canned
  advice messages for each calculator, represented by which message is
  chosen.

Modelling choices:

- Dates are abstracted. The annual-leave calculator reads only the year and
  month (0 for January) of each date (`CalendarMonth`); the severance
  calculator reads only the whole number of days between the dates, so its
  dates are day numbers. Parsing date strings is not modelled.
- A numeric text box is `Blank` (the empty string), `Text(None)` (text
  `parseInt` turns into NaN) or `Text(Some(n))`.
- JavaScript numbers are modelled as exact numbers: integers are unbounded, the
  severance formula is evaluated in exact rationals and floored with
  `.Floor`, overtime pay is a `real` (always a multiple of one half).
  JavaScript's `%`, which truncates toward zero, is written out (`JsNumber.Rem`,
  `JsNumber.FracPart`) because it differs from Dafny's for negative operands.
- The clock (`Date.now()`, `new Date()`) is a parameter of `HistoryStore.Add`:
  the entry id and the printed date are supplied by the caller.
- Each submit handler waits (800 ms, or 500 ms for overtime) before it
  records its result, and `addToHistory` builds the new history from the
  history the handler saw when its button was pressed, not from the current
  one. `HistoryStore.Add` and the `Calculators` methods therefore take that
  snapshot (`seen`) as a parameter; when nothing touched the history during
  the wait it equals the stored history.

Behaviour of the code that the model follows, though a reader might not
expect it:

- The severance amount is not clamped at zero when the leave date precedes
  the join date; it is negative then (`NegativeServiceGivesNegativeAmount`).
- The severance result carries the parsed salary and bonus as entered, not
  separately floored salary and bonus components of the amount.
- The annual-leave service period uses JavaScript's truncating `%`, so for a
  base date before the join date the months are negative, and for a month
  count that is not a multiple of 12 the years and months add up to the
  month count minus 12 (`PeriodOfNegative`); negative multiples of 12 do
  add up.
- A "delete all" pressed while a calculation is pending is undone when the
  result is recorded, and of two calculations pending at once only the one
  that finishes last is kept (`StaleRecordUndoesClear`,
  `StaleRecordLosesEarlier`). On a wide screen the history panel sits beside
  the calculator, so both can happen.
- A leave date before the join date gives a negative amount over a
  negative year count; the signs cancel in the monthly equivalent, so a
  large enough backward service is advised as healthy
  (`BackwardServiceAdviceThreshold`, `BackwardServiceExample`).

## Model

| member | source | states |
|---|---|---|
| JsNumber.Rem | pages/index.js:665 | JavaScript `%`: the dividend minus the remainder is a multiple of the divisor; the remainder has the sign of the dividend and is below the divisor in magnitude |
| JsNumber.FracPart | pages/index.js:816 | JavaScript `x % 1`: the fractional part, in [0, 1) for non-negative x and in (-1, 0] otherwise, and x minus it is whole |
| Forms.ParseOrZero | pages/index.js:648 | `parseInt(..) || 0`: the parsed number, or 0 for an empty box or unparsable text |
| AnnualLeave.MonthsBetween | pages/index.js:650 | for real months, the month count is non-negative exactly when the join date is not after the base date, and at least 12·(years apart) − 11 when the years differ |
| AnnualLeave.MonthsBetweenRoundTrip | pages/index.js:650 | the month count is the unique number of months that, added to the join month, gives the base month |
| AnnualLeave.Entitlement | pages/index.js:652-659 | the entitlement is within [0, 25]; 0 before one month; equal to the month count during the first year; at least 15 from twelve months on |
| AnnualLeave.EntitlementMonotone | pages/index.js:652-659 | more months of service never give fewer days |
| AnnualLeave.EntitlementYearlyStep | pages/index.js:653-656 | from the first year on, twelve more months add one day until the cap of 25 |
| AnnualLeave.EntitlementCapped | pages/index.js:656 | the entitlement is 25 exactly when the month count is at least 132 (eleven years) |
| AnnualLeave.PeriodOf | pages/index.js:665 | for a non-negative month count, years*12 + months equals it with months in 0..11; for a negative one, negative years and months in (-12, 0], and for a negative multiple of 12 no months and years*12 equal to the count |
| AnnualLeave.PeriodSplitsMonths | pages/index.js:650-665 | when the join date is not after the base date, the reported years and months add up to the month count, months in 0..11 |
| AnnualLeave.PeriodOfNegative | pages/index.js:665 | with the base date before the join date and a month count not a multiple of 12, years*12 + months is the month count minus 12 |
| AnnualLeave.Compute | pages/index.js:646-666 | the total is the entitlement of the month count and the period is `PeriodOf` the month count; the available days are never negative, never above the total for a non-negative used count, zero exactly when the used days reach the total, and otherwise total minus used |
| AnnualLeave.OverusedLeavesZero | pages/index.js:664 | one year of service with 100 days used: total 15, available 0 |
| AnnualLeave.Submit | pages/index.js:637-648 | refused exactly when a date is missing; otherwise computes with the used box read as `parseInt(..) || 0`, so an empty box means nothing used |
| Severance.AverageWage | pages/index.js:811 | twelve times the average wage is twelve salaries plus the annual bonus |
| Severance.WorkYears | pages/index.js:810 | the service in years times 365 is the day count |
| Severance.Amount | pages/index.js:812 | the amount is the floor of average wage × 30 × service years |
| Severance.AmountClosedForm | pages/index.js:809-812 | the amount equals the integer floor of (12·salary + bonus)·30·days / 4380 |
| Severance.AmountNonNegative | pages/index.js:812 | with non-negative salary, bonus and days the amount is non-negative |
| Severance.AmountMonotoneInSalary | pages/index.js:811-812 | for a non-negative day count a higher salary never lowers the amount |
| Severance.AmountMonotoneInDays | pages/index.js:809-812 | for a non-negative wage a longer service never lowers the amount |
| Severance.NegativeServiceGivesNegativeAmount | pages/index.js:809-812 | a leave date before the join date with a positive wage gives a negative amount: nothing clamps it |
| Severance.WholeYearsPayThirtyDays | pages/index.js:810-812 | a service of exactly k years of 365 days pays the floor of 30·k days of average wage |
| Severance.PeriodOf | pages/index.js:816 | the period keeps the day count, its years are the floor of the service years, and its months are in 0..11 for a non-negative day count, in -12..0 otherwise |
| Severance.PeriodInIntegersNegative | pages/index.js:809-816 | for a negative day count the years are still days / 365 (floored), and the months are floor(−12·((−days) mod 365) / 365), zero exactly for whole years |
| Severance.PeriodInIntegers | pages/index.js:816 | for a non-negative day count, years = days / 365 and months = floor(12·(days mod 365) / 365) |
| Severance.ThreeYearExample | pages/index.js:809-816 | 1096 days at 3,000,000 a month and no bonus: amount 270,246,575, three years and no months |
| Severance.Compute | pages/index.js:809-818 | the result holds the floored amount, the period, an average wage whose twelvefold is 12·salary + bonus, and the parsed salary and bonus |
| Severance.Submit | pages/index.js:795-818 | refused exactly when a date or the salary box is empty; otherwise the day count is the difference of the dates and the salary and bonus are read with `parseInt(..) || 0` |
| Overtime.PremiumPay | pages/index.js:954-955 | hours at 150%: twice the pay is three times hours × rate |
| Overtime.HolidayPay | pages/index.js:956 | up to eight hours it is the 150% pay; beyond eight it exceeds the 150% pay by half the rate for each hour past the eighth, so for a non-negative rate it is never below the 150% pay |
| Overtime.HolidayPayTiers | pages/index.js:956 | holiday pay is 1.5 × rate for the hours up to eight plus 2 × rate for the hours past eight |
| Overtime.HolidayTiersMeet | pages/index.js:956 | both branches of the holiday formula agree at eight hours, and the ninth hour adds twice the rate |
| Overtime.HolidayPayMonotone | pages/index.js:956 | for a non-negative rate more holiday hours never pay less |
| Overtime.LongHolidayPaysMore | pages/index.js:956 | more than eight holiday hours pay more than the same hours at 150% |
| Overtime.AllowanceNonNegative | pages/index.js:954-957 | with no negative input the total allowance is non-negative |
| Overtime.Compute | pages/index.js:954-962 | the total allowance is the sum of the overtime, night and holiday pay; the result keeps the hours and the rate |
| Overtime.WorkedExample | pages/index.js:954-957 | rate 10,000, 10 extended and 10 holiday hours: 150,000 + 160,000 = 310,000 |
| Overtime.Submit | pages/index.js:940-957 | refused exactly when the rate box is empty; otherwise every box is read with `parseInt(..) || 0`, and no hours entered means no allowance |
| Advice.AdviseLeave | pages/index.js:535-541 | "use soon" exactly when at most 2 days are left, "plenty" exactly when at least 10, "on track" exactly in between |
| Advice.AdviseOvertime | pages/index.js:553-561 | "overwork" exactly above 20 hours, "light" exactly below 5, "manageable" exactly from 5 to 20 |
| Advice.MonthlyEquivalentAbove | pages/index.js:545-546 | with zero whole years the division by zero makes it hold exactly for a positive amount; it never holds for a non-positive amount over non-negative years, nor for a non-negative amount over negative years |
| Advice.AdviseSeverance | pages/index.js:544-550 | with zero whole years the division by zero makes the advice "healthy" exactly for a positive amount; a non-positive amount over non-negative years is never "healthy" |
| Advice.SeveranceAdviceThreshold | pages/index.js:544-546 | for at least one whole year, the advice is "healthy" exactly when the amount is at least 12 × 3,000,001 per year of service |
| Advice.BackwardServiceAdviceThreshold | pages/index.js:544-546 | for a negative year count, the advice is "healthy" exactly when the amount is at most 12 × 3,000,001 × the (negative) year count |
| Advice.BackwardServiceExample | pages/index.js:544-546 | a leave date 3,650 days before the join date at 5,000,000 a month gives −1,500,000,000 over −10 years, advised as "healthy" |
| Advice.Advise | pages/index.js:533-562 | the advice is a tip of the calculator that produced the result: the leave rule applied to the available days, the severance rule applied to the severance result, the overtime rule applied to the sum of the three hour counts |
| Calculation.CalcResult.KindOf | pages/index.js:670 | the stored type tag is the annual-leave, severance or overtime tag exactly when the result came from that calculator |
| Advice.LeaveAdviceByTenure | pages/index.js:535-541 | within two months of joining the advice is "use soon"; past a year with at most five days used it is "plenty" |
| Advice.OverworkedWeekPaysPremium | pages/index.js:554-556 | more than 20 holiday hours are advised as overwork and pay more than 20 hours at 150% |
| History.Record | pages/index.js:296 | the new entry is first, the length is min(old length + 1, 10), and entry i+1 is old entry i |
| History.Newest | pages/index.js:1117 | a prefix of the list of length min(length, 10), so the whole list when it has at most ten |
| History.Reverse | pages/index.js:296 | the list in reverse order: element i is element length-1-i of the input |
| History.RecordIsNewest | pages/index.js:296 | recording keeps the first ten of the new entry followed by the old history |
| History.RecordAllKeepsNewest | pages/index.js:290-298 | after any sequence of recordings the history is the first ten of the recorded entries, latest first, followed by the older history |
| History.StaleRecordUndoesClear | pages/index.js:290-297 | recording in front of a non-empty history seen before a "delete all" brings its first entry back at index 1, unlike recording in front of the emptied history |
| History.StaleRecordLosesEarlier | pages/index.js:290-297 | of two recordings made against the same seen history, the second one does not contain the first entry, whereas recording in turn would |
| History.RecordAllBounded | pages/index.js:290-298 | after any non-empty sequence of recordings the history holds at most ten entries and the latest is at index 0 |
| History.TypeLabel | pages/index.js:1067 | each label has four to six characters, all Hangul syllables (so lowercasing cannot change them) |
| History.Contains | pages/index.js:1079 | `includes`: a prefix is contained, and a contained term is no longer than the text |
| History.ContainsOccurs | pages/index.js:1079 | `Contains` holds exactly when the term occurs at some index of the text |
| History.MatchesSearch | pages/index.js:1079 | an empty term matches every entry, a term that begins the label or the date matches, and a matching term is no longer than the label or the date |
| History.SearchIsSubstring | pages/index.js:1079 | a search term matches an entry exactly when it is empty or occurs at some index of the entry's type label or of its date |
| History.LabelSearchSeparatesKinds | pages/index.js:1067-1079 | searching for the full label of another calculator matches an entry only through its date |
| History.MatchesType | pages/index.js:1080 | "all" passes every entry; a selected type passes exactly the entries of that calculator |
| History.Keep | pages/index.js:1078-1081 | with every type selected only the search decides, with an empty term only the type filter decides, with both every entry is kept |
| History.Filtered | pages/index.js:1078-1082 | an entry is kept exactly when it is in the history and matches the search term and the type filter, each kept entry as many times as it occurs in the history; with a type selected every kept entry has that type; the result is an order-preserving subsequence of the history |
| History.FilterAllIsIdentity | pages/index.js:1078-1082 | with every type and an empty search term the filter returns the whole history |
| History.View | pages/index.js:1117 | for a history of at most ten entries, the rendered list is the filtered history itself |
| History.HistoryStore.constructor | pages/index.js:271 | the history starts empty |
| History.HistoryStore.Add | pages/index.js:290-298 | the new history is `Record` of the history the handler saw with the stamped entry; it never holds more than ten |
| History.HistoryStore.Clear | pages/index.js:1097 | the history is empty afterwards |
| History.HistoryStore.Shown | pages/index.js:1078-1082 | the shown entries are exactly the stored ones that match, each as often as it is stored, in their stored order |
| Calculators.CalculateAnnualLeave | pages/index.js:637-671 | the result is `AnnualLeave.Submit` of the form; a refused form leaves the history unchanged, a computed one is recorded first in front of the history seen when the button was pressed |
| Calculators.CalculateSeverancePay | pages/index.js:795-823 | the result is `Severance.Submit` of the form; a refused form leaves the history unchanged, a computed one is recorded first in front of the history seen when the button was pressed |
| Calculators.ClearDuringLeaveWait | pages/index.js:637-671 | a "delete all" during the leave calculator's wait is undone: the new entry is first and the entries from before the clear follow it |
| Calculators.OverlappingCalculations | pages/index.js:795-967 | a severance and an overtime calculation started from the same history: the history ends as the overtime entry recorded in front of the starting history, and the severance entry is lost |
| Calculators.CalculateOvertimePay | pages/index.js:940-967 | the result is `Overtime.Submit` of the form; a refused form leaves the history unchanged, a computed one is recorded first in front of the history seen when the button was pressed |

## Left out

- Advice.Advise: for overtime it classifies the integer sum of the parsed hours. The source adds the raw box strings from left to right (`(inputs.overtimeHours || 0) + (inputs.nightHours || 0) + (inputs.holidayHours || 0)`), so every box after the first filled one is appended as text, an empty one as "0", and the source's advice matches the model's only when the extended and night boxes are both empty: extended "3" alone gives "300", advised as overwork where the model says light; "2", "1", "1" gives "211" against the model's 4 hours; "10", "", "10" gives "10010" although the hours sum to 20. String coercion is not modelled.
- Severance.Amount: the amount is the exact rational product floored. The source multiplies IEEE doubles, whose rounding can land just below a whole number, so its amount can be one won lower for everyday inputs: salary 2,000,000, bonus 1,400,000 and 365 days give 63,499,999 in the source and 63,500,000 here; salary 0, bonus 36 and 1022 days give 251 there and 252 here.
- Overtime.HolidayPay, Overtime.PremiumPay: pay is exact; IEEE rounding of the source's products for very large rates and hours is not modelled.
- Date parsing, time zones and the millisecond difference of `Date` objects: the calculators receive year/month pairs and day numbers. An unparsable date (NaN) is not modelled.
- `toLowerCase` in the history search: the type labels are Hangul only, so lowercasing the search term cannot change whether it occurs in a label; it is omitted. `toLocaleDateString` is supplied as the entry's date text.
- The raw form strings stored with each history entry (`input`) are not modelled; no operation of the core reads them back.
- The chart geometry (line and pie charts), currency formatting, the message texts of the advice, dark mode, saved form inputs, notifications, the install prompt and manifest, toasts, navigation and rendering: presentation and browser I/O.
- The loading flags (`isCalculating`) and the timing of the delays: the model takes the history snapshot a handler records against as a parameter instead of scheduling the wait, and does not model the disabled button.
