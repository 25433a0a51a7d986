/**
 * Nurse and patient records of one assignment run of the BMT (bone-marrow
 * transplant) unit optimizer, the unit-wide constants it uses, and the
 * per-patient counts shared by the validation and the constraint set.
 */
module Records {

  /** A field that a record may leave out (a key absent from the JSON row). */
  datatype Option<T> = None | Some(value: T) {
    /** The value, or `default` when the field is absent (Python's `.get(key, default)`). */
    function GetOr(default: T): T {
      match this
      case Some(v) => v
      case None => default
    }
  }

  /** Most patients the unit takes in one run. */
  const UNIT_CAPACITY := 20
  /** Most IV-chemotherapy patients that one certified nurse may take. */
  const IV_PATIENTS_PER_NURSE := 2
  /** Capacity of a nurse whose record has no Max_Patients. */
  const DEFAULT_MAX_PATIENTS := 4
  /** A nurse with at most this many patients is at the "ideal" 1:3 ratio. */
  const IDEAL_RATIO := 3
  /** A nurse with exactly this many patients is at the "maximum" ratio. */
  const MAXIMUM_RATIO := 4
  /** Upper bound of each nurse's ratio-penalty variable (the patients over the ideal ratio). */
  const PENALTY_EXCESS_BOUND := 4
  /** Skill level from which a nurse counts as experienced. */
  const EXPERIENCED_SKILL := 2
  /** Acuity from which a patient needs an experienced nurse. */
  const HIGH_ACUITY := 8

  /**
   * One nurse row. `ivCert` is the raw Chemo_IV_Cert cell ("Y" means
   * certified); the optional fields are the columns that are not required, and
   * Max_Patients, whose absent value the constraint set reads as 4.
   */
  datatype Nurse = Nurse(
    id: string,
    name: string,
    skillLevel: int,
    ivCert: string,
    maxPatients: Option<int>,
    phone: Option<string>,
    podPref: Option<string>)

  /**
   * One patient row. `chemoType` is the raw Chemo_Type cell ("IV", "oral",
   * "none", ...); `vesicant` is the raw Vesicant cell ("Y" means vesicant).
   */
  datatype Patient = Patient(
    id: string,
    initials: string,
    acuity: int,
    chemoType: string,
    vesicant: Option<string>,
    chemoTime: Option<string>,
    lastNurse: Option<string>,
    pod: Option<string>)

  predicate Certified(n: Nurse) {
    n.ivCert == "Y"
  }

  predicate IsIv(p: Patient) {
    p.chemoType == "IV"
  }

  predicate IsVesicant(p: Patient) {
    p.vesicant == Some("Y")
  }

  /** The capacity the constraint set uses for a nurse (Max_Patients, default 4). */
  function MaxPatients(n: Nurse): (m: int)
    ensures n.maxPatients.Some? ==> m == n.maxPatients.value
    ensures n.maxPatients.None? ==> m == DEFAULT_MAX_PATIENTS
  {
    n.maxPatients.GetOr(DEFAULT_MAX_PATIENTS)
  }

  /** The Last_Nurse cell as text, the empty string when absent. */
  function LastNurseText(p: Patient): string {
    p.lastNurse.GetOr("")
  }

  /** Weights that patient-indexed sums are taken over. */
  function One(p: Patient): int { 1 }

  function IvWeight(p: Patient): int {
    if IsIv(p) then 1 else 0
  }

  function AcuityOf(p: Patient): int {
    p.acuity
  }

  /** Number of nurses whose Chemo_IV_Cert is "Y". */
  function CertifiedCount(nurses: seq<Nurse>): (k: nat)
    ensures k <= |nurses|
  {
    if nurses == [] then 0
    else CertifiedCount(nurses[..|nurses| - 1]) + (if Certified(nurses[|nurses| - 1]) then 1 else 0)
  }

  /** Number of patients whose Chemo_Type is "IV". */
  function IvPatientCount(ps: seq<Patient>): (k: nat)
    ensures k <= |ps|
  {
    if ps == [] then 0
    else IvPatientCount(ps[..|ps| - 1]) + (if IsIv(ps[|ps| - 1]) then 1 else 0)
  }

  /** The positions of the rows of `nurses[Chemo_IV_Cert == 'Y']`. */
  function CertifiedRows(nurses: seq<Nurse>): set<nat> {
    set i: nat | i < |nurses| && Certified(nurses[i])
  }

  /** The positions of the rows of `patients[Chemo_Type == 'IV']`. */
  function IvRows(ps: seq<Patient>): set<nat> {
    set j: nat | j < |ps| && IsIv(ps[j])
  }

  /** `CertifiedCount` is the length of the filtered nurse table. */
  lemma {:induction false} CertifiedCountIsFilterSize(nurses: seq<Nurse>)
    ensures CertifiedCount(nurses) == |CertifiedRows(nurses)|
  {
    if nurses != [] {
      var k := |nurses| - 1;
      var init := nurses[..k];
      CertifiedCountIsFilterSize(init);
      assert forall i :: 0 <= i < k ==> init[i] == nurses[i];
      if Certified(nurses[k]) {
        assert CertifiedRows(nurses) == CertifiedRows(init) + {k};
      } else {
        assert CertifiedRows(nurses) == CertifiedRows(init);
      }
    }
  }

  /** `IvPatientCount` is the length of the filtered patient table. */
  lemma {:induction false} IvPatientCountIsFilterSize(ps: seq<Patient>)
    ensures IvPatientCount(ps) == |IvRows(ps)|
  {
    if ps != [] {
      var k := |ps| - 1;
      var init := ps[..k];
      IvPatientCountIsFilterSize(init);
      assert forall j :: 0 <= j < k ==> init[j] == ps[j];
      if IsIv(ps[k]) {
        assert IvRows(ps) == IvRows(init) + {k};
      } else {
        assert IvRows(ps) == IvRows(init);
      }
    }
  }

  /** The sum of `f` over all patients. */
  function SumAll(ps: seq<Patient>, f: Patient -> int): int {
    if ps == [] then 0 else SumAll(ps[..|ps| - 1], f) + f(ps[|ps| - 1])
  }

  lemma {:induction false} SumAllOne(ps: seq<Patient>)
    ensures SumAll(ps, One) == |ps|
  {
    if ps != [] {
      SumAllOne(ps[..|ps| - 1]);
    }
  }

  lemma {:induction false} SumAllIv(ps: seq<Patient>)
    ensures SumAll(ps, IvWeight) == IvPatientCount(ps)
  {
    if ps != [] {
      SumAllIv(ps[..|ps| - 1]);
    }
  }
}
