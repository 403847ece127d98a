/** The submit buttons: run a calculator on the form and, when it computes a
    result, record it in the history. A refused form (a required box left
    empty) leaves the history as it was. Each handler waits (800 ms for the
    leave and severance calculators, 500 ms for overtime) before it records,
    and it records in front of `seen`, the history as it stood when its
    button was pressed: whatever happened to the history during the wait is
    overwritten. */
module Calculators {
  import opened Wrappers
  import opened Forms
  import opened Calculation
  import opened History
  import opened JsNumber
  import AnnualLeave
  import Severance
  import Overtime

  method CalculateAnnualLeave(store: HistoryStore, seen: seq<Entry>, now: int, date: string,
                              join: Option<AnnualLeave.CalendarMonth>, base: Option<AnnualLeave.CalendarMonth>,
                              usedLeave: NumField)
    returns (r: Result<AnnualLeave.LeaveResult, FormError>)
    modifies store
    ensures r == AnnualLeave.Submit(join, base, usedLeave)
    ensures r.Err? ==> store.entries == old(store.entries)
    ensures r.Ok? ==> store.entries == Record(seen, Entry(now, date, LeaveCalc(r.value)))
  {
    r := AnnualLeave.Submit(join, base, usedLeave);
    if r.Ok? {
      store.Add(seen, now, date, LeaveCalc(r.value));
    }
  }

  method CalculateSeverancePay(store: HistoryStore, seen: seq<Entry>, now: int, date: string,
                               joinDay: Option<int>, leaveDay: Option<int>,
                               monthlySalary: NumField, bonus: NumField)
    returns (r: Result<Severance.SeveranceResult, FormError>)
    modifies store
    ensures r == Severance.Submit(joinDay, leaveDay, monthlySalary, bonus)
    ensures r.Err? ==> store.entries == old(store.entries)
    ensures r.Ok? ==> store.entries == Record(seen, Entry(now, date, SeveranceCalc(r.value)))
  {
    r := Severance.Submit(joinDay, leaveDay, monthlySalary, bonus);
    if r.Ok? {
      store.Add(seen, now, date, SeveranceCalc(r.value));
    }
  }

  method CalculateOvertimePay(store: HistoryStore, seen: seq<Entry>, now: int, date: string,
                              hourlySalary: NumField, overtimeHours: NumField,
                              nightHours: NumField, holidayHours: NumField)
    returns (r: Result<Overtime.OvertimeResult, FormError>)
    modifies store
    ensures r == Overtime.Submit(hourlySalary, overtimeHours, nightHours, holidayHours)
    ensures r.Err? ==> store.entries == old(store.entries)
    ensures r.Ok? ==> store.entries == Record(seen, Entry(now, date, OvertimeCalc(r.value)))
  {
    r := Overtime.Submit(hourlySalary, overtimeHours, nightHours, holidayHours);
    if r.Ok? {
      store.Add(seen, now, date, OvertimeCalc(r.value));
    }
  }

  /** The leave calculator pressed, and the history emptied with "delete
      all" while its result is pending: once the result arrives the old
      entries are back, behind the new one. */
  method ClearDuringLeaveWait(store: HistoryStore, now: int, date: string,
                              join: Option<AnnualLeave.CalendarMonth>, base: Option<AnnualLeave.CalendarMonth>,
                              usedLeave: NumField)
    returns (r: Result<AnnualLeave.LeaveResult, FormError>)
    requires store.Valid()
    modifies store
    ensures r.Err? ==> store.entries == []
    ensures r.Ok? ==> |store.entries| > 0 && store.entries[0] == Entry(now, date, LeaveCalc(r.value))
                      && store.entries[1..] == old(store.entries)[..Min(|old(store.entries)|, Capacity - 1)]
  {
    var seen := store.entries;
    store.Clear();
    r := CalculateAnnualLeave(store, seen, now, date, join, base, usedLeave);
  }

  /** Two calculations pressed from the same history, finishing one after
      the other: only the second is recorded. */
  method OverlappingCalculations(store: HistoryStore, now1: int, now2: int, date: string,
                                 joinDay: Option<int>, leaveDay: Option<int>,
                                 monthlySalary: NumField, bonus: NumField,
                                 hourlySalary: NumField, overtimeHours: NumField,
                                 nightHours: NumField, holidayHours: NumField)
    returns (r1: Result<Severance.SeveranceResult, FormError>, r2: Result<Overtime.OvertimeResult, FormError>)
    modifies store
    ensures r1.Ok? && r2.Ok? && Entry(now1, date, SeveranceCalc(r1.value)) !in old(store.entries)
            ==> Entry(now1, date, SeveranceCalc(r1.value)) !in store.entries
    ensures r1.Ok? && r2.Ok? ==> store.entries == Record(old(store.entries), Entry(now2, date, OvertimeCalc(r2.value)))
  {
    var seen := store.entries;
    r1 := CalculateSeverancePay(store, seen, now1, date, joinDay, leaveDay, monthlySalary, bonus);
    r2 := CalculateOvertimePay(store, seen, now2, date, hourlySalary, overtimeHours, nightHours, holidayHours);
    if r1.Ok? && r2.Ok? && Entry(now1, date, SeveranceCalc(r1.value)) !in seen {
      StaleRecordLosesEarlier(seen, Entry(now1, date, SeveranceCalc(r1.value)), Entry(now2, date, OvertimeCalc(r2.value)));
    }
  }
}
