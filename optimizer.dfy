/**
 * optimize_assignments: validate, hand the constraint set to the solver,
 * and turn its answer into a report. The solver itself is not modelled:
 * its answer is a parameter, a status and the 0/1 matrix it chose.
 */
module Optimizer {
  import opened Records
  import opened Validation
  import opened Matrix
  import opened Feasibility
  import opened Extraction

  /** The solver's result status (pywraplp.Solver's status codes). */
  datatype SolveStatus = Optimal | FeasibleStatus | Infeasible | Unbounded | Abnormal | ModelInvalid | NotSolved

  /** The integer the solver library uses for a status; the two accepted statuses are 0 and 1. */
  function StatusCode(s: SolveStatus): (code: nat)
    ensures code <= 6
    ensures code <= 1 <==> s == Optimal || s == FeasibleStatus
  {
    match s
    case Optimal => 0
    case FeasibleStatus => 1
    case Infeasible => 2
    case Unbounded => 3
    case Abnormal => 4
    case ModelInvalid => 5
    case NotSolved => 6
  }

  /**
   * What the solver library does for one run: either no SCIP solver could be
   * created, or a run ended with a status and a value for every x[i][j]
   * (a value above 0.5 read as selected).
   */
  datatype SolverRun = SolverUnavailable | Ran(status: SolveStatus, values: seq<seq<bool>>)

  /** The dictionary optimize_assignments returns. */
  datatype OptimizeResult =
    | ValidationFailed(details: seq<ValidationError>)   // "Validation failed"
    | SolverCreationFailed                               // "Could not create optimization solver"
    | NoFeasibleSolution(status: nat)                    // "No feasible solution found", with the status code
    | OptimizationFailed(key: Column)                    // "Optimization failed: 'Chemo_Type'" and the like
    | Solved(report: Report)                             // success

  /** The solver builds one variable per (nurse, patient) pair, so its matrix has that shape. */
  predicate WellShaped(nt: NurseTable, pt: PatientTable, run: SolverRun) {
    run.Ran? ==> Shaped(run.values, |nt.rows|, |pt.rows|)
  }

  /** A status for which the solution is read. */
  predicate Accepted(s: SolveStatus) {
    s == Optimal || s == FeasibleStatus
  }

  /** The specification of OptimizeAssignments. */
  function Optimize(nt: NurseTable, pt: PatientTable, run: SolverRun): OptimizeResult
    requires WellShaped(nt, pt, run)
  {
    match Validate(nt, pt)
    case RaisedKeyError(key) => OptimizationFailed(key)
    case Completed(errors) =>
      if errors != [] then ValidationFailed(errors)
      else if run.SolverUnavailable? then SolverCreationFailed
      else if Accepted(run.status) then Solved(Extract(run.values, nt.rows, pt.rows))
      else NoFeasibleSolution(StatusCode(run.status))
  }

  method OptimizeAssignments(nt: NurseTable, pt: PatientTable, run: SolverRun) returns (result: OptimizeResult)
    requires WellShaped(nt, pt, run)
    ensures result == Optimize(nt, pt, run)
  {
    var validation := ValidateInput(nt, pt);
    if validation.RaisedKeyError? {
      return OptimizationFailed(validation.key);
    }
    var errors := validation.errors;
    if errors != [] {
      return ValidationFailed(errors);
    }
    if run.SolverUnavailable? {
      return SolverCreationFailed;
    }
    var status := run.status;
    if status == Optimal || status == FeasibleStatus {
      var report := ExtractSolution(run.values, nt.rows, pt.rows);
      return Solved(report);
    }
    return NoFeasibleSolution(StatusCode(status));
  }

  /** The solver keeps the constraints it was given: an accepted answer satisfies them. */
  predicate SolverKeepsConstraints(nt: NurseTable, pt: PatientTable, run: SolverRun) {
    run.Ran? && Accepted(run.status) ==> Feasible(run.values, nt.rows, pt.rows)
  }

  /**
   * When validation reports anything, the result is that report, whatever
   * the solver would have done: the solver is never consulted.
   */
  lemma ValidationFailureSkipsSolver(nt: NurseTable, pt: PatientTable, run1: SolverRun, run2: SolverRun)
    requires WellShaped(nt, pt, run1) && WellShaped(nt, pt, run2)
    requires Validate(nt, pt) != Completed([])
    ensures Optimize(nt, pt, run1) == Optimize(nt, pt, run2)
    ensures Optimize(nt, pt, run1).ValidationFailed? || Optimize(nt, pt, run1).OptimizationFailed?
    ensures Optimize(nt, pt, run1).ValidationFailed? ==> Optimize(nt, pt, run1).details == Validate(nt, pt).errors
  {
  }

  /** A successful result comes only from inputs that pass validation and an accepted solver status. */
  lemma SolvedOnlyAfterValidation(nt: NurseTable, pt: PatientTable, run: SolverRun)
    requires WellShaped(nt, pt, run)
    ensures Optimize(nt, pt, run).Solved? <==>
      Validate(nt, pt) == Completed([]) && run.Ran? && Accepted(run.status)
  {
  }

  /** Distinct statuses have distinct codes. */
  lemma StatusCodeInjective(s: SolveStatus, t: SolveStatus)
    ensures StatusCode(s) == StatusCode(t) <==> s == t
  {
  }

  /**
   * When validation passes and the solver runs without an accepted status,
   * the result carries that status's code, which is never 0 or 1.
   */
  lemma RejectedStatusReported(nt: NurseTable, pt: PatientTable, run: SolverRun)
    requires WellShaped(nt, pt, run)
    ensures Optimize(nt, pt, run).NoFeasibleSolution? <==>
      Validate(nt, pt) == Completed([]) && run.Ran? && !Accepted(run.status)
    ensures Optimize(nt, pt, run).NoFeasibleSolution? ==>
      Optimize(nt, pt, run).status == StatusCode(run.status) && 2 <= Optimize(nt, pt, run).status <= 6
  {
  }

  /**
   * A successful report from a solver that keeps its constraints lists every
   * patient exactly once and never more than the unit holds: the patient
   * counts add up to the number of patients, which is at most 20.
   */
  lemma SolvedReportAccountsForPatients(nt: NurseTable, pt: PatientTable, run: SolverRun)
    requires WellShaped(nt, pt, run) && SolverKeepsConstraints(nt, pt, run)
    requires Optimize(nt, pt, run).Solved?
    ensures var r := Optimize(nt, pt, run).report;
      && SumPatientCounts(r.assignments) == |pt.rows| <= UNIT_CAPACITY
      && (r.stats == NoAssignments <==> pt.rows == [])
  {
    ExtractAccountsForEveryPatient(run.values, nt.rows, pt.rows);
    FeasibleWithinUnitCapacity(run.values, nt.rows, pt.rows);
  }

  /**
   * Validation turns away no input that the constraint set could satisfy:
   * with every required column present, the existence of a feasible matrix
   * means validation reports nothing.
   */
  lemma FeasibleInstancePassesValidation(nt: NurseTable, pt: PatientTable, x: seq<seq<bool>>)
    requires ColumnsPresent(nt, pt)
    requires Feasible(x, nt.rows, pt.rows)
    ensures Validate(nt, pt) == Completed([])
  {
    FeasibleWithinUnitCapacity(x, nt.rows, pt.rows);
    FeasibleIvBalance(x, nt.rows, pt.rows);
    PassesIff(nt, pt);
  }
}
