/** A finished calculation, tagged by the calculator that produced it. The
    history stores it and the advice panel classifies it. */
module Calculation {
  import AnnualLeave
  import Severance
  import Overtime

  datatype Kind = AnnualLeaveKind | SeveranceKind | OvertimeKind

  datatype CalcResult =
    | LeaveCalc(leave: AnnualLeave.LeaveResult)
    | SeveranceCalc(severance: Severance.SeveranceResult)
    | OvertimeCalc(overtime: Overtime.OvertimeResult)
  {
    /** The `type` tag each calculator stores with its result. */
    function KindOf(): (k: Kind)
      ensures k == AnnualLeaveKind <==> LeaveCalc?
      ensures k == SeveranceKind <==> SeveranceCalc?
      ensures k == OvertimeKind <==> OvertimeCalc?
    {
      match this
      case LeaveCalc(_) => AnnualLeaveKind
      case SeveranceCalc(_) => SeveranceKind
      case OvertimeCalc(_) => OvertimeKind
    }
  }
}
