/**
 * The constraint set that optimize_assignments hands to the solver, as a
 * predicate over the 0/1 matrix the solver answers with, and what every
 * matrix satisfying it guarantees.
 */
module Feasibility {
  import opened Records
  import opened Constraints
  import opened Matrix

  /** Constraint 1: every patient is assigned to exactly one nurse. */
  predicate EachAssignedOnce(x: seq<seq<bool>>, nurses: seq<Nurse>, ps: seq<Patient>)
    requires Shaped(x, |nurses|, |ps|)
  {
    forall j :: 0 <= j < |ps| ==> ColCount(x, j) == 1
  }

  /** Constraint 2: no nurse takes more than Max_Patients (4 when absent). */
  predicate WithinCapacity(x: seq<seq<bool>>, nurses: seq<Nurse>, ps: seq<Patient>)
    requires Shaped(x, |nurses|, |ps|)
  {
    forall i :: 0 <= i < |nurses| ==> Count(x[i]) <= MaxPatients(nurses[i])
  }

  /** Constraint 3: a pair with any violation is not selected. */
  predicate Safe(x: seq<seq<bool>>, nurses: seq<Nurse>, ps: seq<Patient>)
    requires Shaped(x, |nurses|, |ps|)
  {
    forall i, j :: 0 <= i < |nurses| && 0 <= j < |ps| && Violations(nurses[i], ps[j]) != [] ==> !x[i][j]
  }

  /** Constraint 4: a certified nurse takes at most two IV patients. */
  predicate IvLimit(x: seq<seq<bool>>, nurses: seq<Nurse>, ps: seq<Patient>)
    requires Shaped(x, |nurses|, |ps|)
  {
    forall i :: 0 <= i < |nurses| && Certified(nurses[i]) ==> Weighted(x[i], ps, IvWeight) <= IV_PATIENTS_PER_NURSE
  }

  /** Constraint 5: at most 20 selected pairs in the whole unit. */
  predicate WithinUnit(x: seq<seq<bool>>) {
    Total(x) <= UNIT_CAPACITY
  }

  /**
   * A value `e` of a nurse's penalty variable that is admissible for a row
   * count `c`: the variable ranges over 0..4 and must be at least the
   * patients above the ideal ratio.
   */
  predicate ExcessFits(e: int, c: int) {
    0 <= e <= PENALTY_EXCESS_BOUND && e >= c - IDEAL_RATIO
  }

  /** The penalty variable can take some admissible value exactly when the row has at most 7 patients. */
  lemma ExcessBoundIff(c: int)
    ensures (exists e :: ExcessFits(e, c)) <==> c <= IDEAL_RATIO + PENALTY_EXCESS_BOUND
  {
    if c <= IDEAL_RATIO + PENALTY_EXCESS_BOUND {
      assert ExcessFits(if c <= IDEAL_RATIO then 0 else c - IDEAL_RATIO, c);
    }
  }

  /**
   * Constraint 6, implied by the ratio penalty: every nurse's penalty
   * variable has an admissible value, so no nurse takes more than 7 patients.
   */
  predicate WithinPenaltyBound(x: seq<seq<bool>>) {
    forall i :: 0 <= i < |x| ==> Count(x[i]) <= IDEAL_RATIO + PENALTY_EXCESS_BOUND
  }

  /** A matrix of the right shape meeting all six constraints. */
  predicate Feasible(x: seq<seq<bool>>, nurses: seq<Nurse>, ps: seq<Patient>) {
    && Shaped(x, |nurses|, |ps|)
    && EachAssignedOnce(x, nurses, ps)
    && WithinCapacity(x, nurses, ps)
    && Safe(x, nurses, ps)
    && IvLimit(x, nurses, ps)
    && WithinUnit(x)
    && WithinPenaltyBound(x)
  }

  /** Patient `j` has a selected nurse and no other. */
  predicate HasSoleNurse(x: seq<seq<bool>>, j: nat)
    requires forall k :: 0 <= k < |x| ==> j < |x[k]|
  {
    exists i :: 0 <= i < |x| && x[i][j] && forall k :: 0 <= k < |x| && x[k][j] ==> k == i
  }

  /** Constraint 1 holds exactly when every patient has one selected nurse and no other. */
  lemma EachAssignedOnceIff(x: seq<seq<bool>>, nurses: seq<Nurse>, ps: seq<Patient>)
    requires Shaped(x, |nurses|, |ps|)
    ensures EachAssignedOnce(x, nurses, ps) <==> forall j :: 0 <= j < |ps| ==> HasSoleNurse(x, j)
  {
    if EachAssignedOnce(x, nurses, ps) {
      forall j | 0 <= j < |ps| ensures HasSoleNurse(x, j) {
        var i := SelectedRow(x, j);
      }
    } else {
      var j :| 0 <= j < |ps| && ColCount(x, j) != 1;
      if HasSoleNurse(x, j) {
        var i :| 0 <= i < |x| && x[i][j] && forall k :: 0 <= k < |x| && x[k][j] ==> k == i;
        ColCountOne(x, j, i);
      }
    }
  }

  /** Constraint 3 holds exactly when every selected pair obeys the three rules of check_constraints. */
  lemma SafeIff(x: seq<seq<bool>>, nurses: seq<Nurse>, ps: seq<Patient>)
    requires Shaped(x, |nurses|, |ps|)
    ensures Safe(x, nurses, ps) <==> forall i, j :: 0 <= i < |nurses| && 0 <= j < |ps| && x[i][j] ==>
      && (IsIv(ps[j]) ==> Certified(nurses[i]))
      && (nurses[i].skillLevel < EXPERIENCED_SKILL ==> !IsVesicant(ps[j]) && ps[j].acuity < HIGH_ACUITY)
  {
    forall i, j | 0 <= i < |nurses| && 0 <= j < |ps| {
      EligibleIff(nurses[i], ps[j]);
    }
  }

  /** In a feasible matrix no nurse takes more than its Max_Patients, nor more than 7 patients. */
  lemma FeasibleRowBounded(x: seq<seq<bool>>, nurses: seq<Nurse>, ps: seq<Patient>, i: nat)
    requires Feasible(x, nurses, ps) && i < |nurses|
    ensures Count(x[i]) <= MaxPatients(nurses[i])
    ensures Count(x[i]) <= IDEAL_RATIO + PENALTY_EXCESS_BOUND
    ensures exists e :: ExcessFits(e, Count(x[i]))
  {
    ExcessBoundIff(Count(x[i]));
  }

  /** In a feasible matrix each patient has exactly one nurse, and that pair has no violation. */
  lemma FeasibleAssignsEligibleNurse(x: seq<seq<bool>>, nurses: seq<Nurse>, ps: seq<Patient>, j: nat)
    requires Feasible(x, nurses, ps) && j < |ps|
    ensures exists i :: (0 <= i < |nurses| && x[i][j] && Violations(nurses[i], ps[j]) == []
      && forall k :: 0 <= k < |nurses| && x[k][j] ==> k == i)
  {
    var i := SelectedRow(x, j);
    assert Violations(nurses[i], ps[j]) == [];
  }

  /** Under constraint 1 the total number of selected pairs is the number of patients. */
  lemma OnceTotal(x: seq<seq<bool>>, nurses: seq<Nurse>, ps: seq<Patient>)
    requires Shaped(x, |nurses|, |ps|) && EachAssignedOnce(x, nurses, ps)
    ensures Total(x) == |ps|
  {
    TotalIsSumOfOnes(x, ps);
    SumRowsOnce(x, ps, One);
    SumAllOne(ps);
  }

  /** A feasible matrix assigns all patients, so there are at most 20 of them. */
  lemma FeasibleWithinUnitCapacity(x: seq<seq<bool>>, nurses: seq<Nurse>, ps: seq<Patient>)
    requires Feasible(x, nurses, ps)
    ensures Total(x) == |ps| <= UNIT_CAPACITY
  {
    OnceTotal(x, nurses, ps);
  }

  /** Given constraint 1, the unit constraint holds exactly when there are at most 20 patients. */
  lemma UnitConstraintIff(x: seq<seq<bool>>, nurses: seq<Nurse>, ps: seq<Patient>)
    requires Shaped(x, |nurses|, |ps|) && EachAssignedOnce(x, nurses, ps)
    ensures WithinUnit(x) <==> |ps| <= UNIT_CAPACITY
  {
    OnceTotal(x, nurses, ps);
  }

  /** Under constraint 3 a nurse without IV certification has no IV patient. */
  lemma UncertifiedNoIv(x: seq<seq<bool>>, nurses: seq<Nurse>, ps: seq<Patient>, i: nat)
    requires Shaped(x, |nurses|, |ps|) && Safe(x, nurses, ps)
    requires i < |nurses| && !Certified(nurses[i])
    ensures forall j :: 0 <= j < |ps| && IsIv(ps[j]) ==> !x[i][j]
    ensures Weighted(x[i], ps, IvWeight) == 0
  {
    forall j | 0 <= j < |ps| && IsIv(ps[j]) ensures !x[i][j] {
      assert IvNeedsCertification in Violations(nurses[i], ps[j]);
    }
    WeightedZero(x[i], ps, IvWeight);
  }

  /** Rows whose IV counts are at most 2 for certified nurses and 0 for the others add up to at most 2 per certified nurse. */
  lemma {:induction false} IvRowsBounded(x: seq<seq<bool>>, nurses: seq<Nurse>, ps: seq<Patient>)
    requires Shaped(x, |nurses|, |ps|)
    requires forall i :: 0 <= i < |nurses| ==>
      Weighted(x[i], ps, IvWeight) <= if Certified(nurses[i]) then IV_PATIENTS_PER_NURSE else 0
    ensures SumRows(x, ps, IvWeight) <= IV_PATIENTS_PER_NURSE * CertifiedCount(nurses)
  {
    if x != [] {
      IvRowsBounded(x[..|x| - 1], nurses[..|nurses| - 1], ps);
    }
  }

  /**
   * A feasible matrix exists only when there are at most twice as many IV
   * patients as certified nurses: the balance rule of the validation is a
   * consequence of the constraint set.
   */
  lemma FeasibleIvBalance(x: seq<seq<bool>>, nurses: seq<Nurse>, ps: seq<Patient>)
    requires Feasible(x, nurses, ps)
    ensures IvPatientCount(ps) <= IV_PATIENTS_PER_NURSE * CertifiedCount(nurses)
  {
    forall i | 0 <= i < |nurses|
      ensures Weighted(x[i], ps, IvWeight) <= if Certified(nurses[i]) then IV_PATIENTS_PER_NURSE else 0
    {
      if !Certified(nurses[i]) {
        UncertifiedNoIv(x, nurses, ps, i);
      }
    }
    IvRowsBounded(x, nurses, ps);
    SumRowsOnce(x, ps, IvWeight);
    SumAllIv(ps);
  }
}
