/**
 * The hard-constraint check for one (nurse, patient) pair: the list of
 * reasons why the nurse may not take the patient, empty when the pair is
 * eligible (BMTOptimizer.check_constraints).
 */
module Constraints {
  import opened Records

  datatype Violation =
    | IvNeedsCertification        // "IV chemo requires certification"
    | VesicantNeedsExperience     // "Vesicant needs experienced nurse"
    | HighAcuityNeedsExperience   // "High acuity needs experienced nurse"

  /** The order in which the check reports violations. */
  function Rank(v: Violation): nat {
    match v
    case IvNeedsCertification => 0
    case VesicantNeedsExperience => 1
    case HighAcuityNeedsExperience => 2
  }

  predicate IvRuleBroken(n: Nurse, p: Patient) {
    IsIv(p) && !Certified(n)
  }

  predicate VesicantRuleBroken(n: Nurse, p: Patient) {
    IsVesicant(p) && n.skillLevel < EXPERIENCED_SKILL
  }

  predicate AcuityRuleBroken(n: Nurse, p: Patient) {
    p.acuity >= HIGH_ACUITY && n.skillLevel < EXPERIENCED_SKILL
  }

  /** Strictly increasing in rank: no violation twice, and always IV, vesicant, acuity. */
  predicate InReportOrder(vs: seq<Violation>) {
    forall a, b :: 0 <= a < b < |vs| ==> Rank(vs[a]) < Rank(vs[b])
  }

  /** The violations of a pair, as the specification of CheckConstraints. */
  function Violations(n: Nurse, p: Patient): (vs: seq<Violation>)
    ensures IvNeedsCertification in vs <==> IvRuleBroken(n, p)
    ensures VesicantNeedsExperience in vs <==> VesicantRuleBroken(n, p)
    ensures HighAcuityNeedsExperience in vs <==> AcuityRuleBroken(n, p)
    ensures InReportOrder(vs)
  {
    (if IvRuleBroken(n, p) then [IvNeedsCertification] else [])
    + (if VesicantRuleBroken(n, p) then [VesicantNeedsExperience] else [])
    + (if AcuityRuleBroken(n, p) then [HighAcuityNeedsExperience] else [])
  }

  /** A pair the constraint set allows: no violation. */
  predicate Eligible(n: Nurse, p: Patient) {
    Violations(n, p) == []
  }

  /** check_constraints: append each broken rule, in order. */
  method CheckConstraints(n: Nurse, p: Patient) returns (violations: seq<Violation>)
    ensures violations == Violations(n, p)
  {
    violations := [];
    if p.chemoType == "IV" && n.ivCert != "Y" {
      violations := violations + [IvNeedsCertification];
    }
    if p.vesicant == Some("Y") && n.skillLevel < 2 {
      violations := violations + [VesicantNeedsExperience];
    }
    if p.acuity >= 8 && n.skillLevel < 2 {
      violations := violations + [HighAcuityNeedsExperience];
    }
  }

  /** In a list in report order, the entry at index `a` has rank at least `a`. */
  lemma {:induction false} RankAtLeastIndex(vs: seq<Violation>, a: nat)
    requires InReportOrder(vs) && a < |vs|
    ensures Rank(vs[a]) >= a
  {
    if a > 0 {
      RankAtLeastIndex(vs, a - 1);
    }
  }

  /** Any list in report order has at most one entry per rule. */
  lemma InReportOrderBounded(vs: seq<Violation>)
    requires InReportOrder(vs)
    ensures |vs| <= 3
  {
    if vs != [] {
      RankAtLeastIndex(vs, |vs| - 1);
    }
  }

  /** Violations has at most three entries. */
  lemma AtMostThreeViolations(n: Nurse, p: Patient)
    ensures |Violations(n, p)| <= 3
  {
    InReportOrderBounded(Violations(n, p));
  }

  /** A certified nurse never gets the IV violation. */
  lemma CertifiedNurseNeverIv(n: Nurse, p: Patient)
    requires Certified(n)
    ensures IvNeedsCertification !in Violations(n, p)
  {
  }

  /** For an experienced nurse the only possible violation is the IV one. */
  lemma ExperiencedNurseOnlyIv(n: Nurse, p: Patient)
    requires n.skillLevel >= EXPERIENCED_SKILL
    ensures Violations(n, p) == if IsIv(p) && !Certified(n) then [IvNeedsCertification] else []
  {
  }

  /** A pair is eligible exactly when every rule is met. */
  lemma EligibleIff(n: Nurse, p: Patient)
    ensures Eligible(n, p) <==>
      (IsIv(p) ==> Certified(n))
      && (n.skillLevel < EXPERIENCED_SKILL ==> !IsVesicant(p) && p.acuity < HIGH_ACUITY)
  {
    if !Eligible(n, p) {
      var v := Violations(n, p)[0];
      assert v in Violations(n, p);
    }
  }
}
