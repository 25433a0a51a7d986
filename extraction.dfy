/**
 * extract_solution: from the solver's 0/1 matrix, the per-nurse assignment
 * records (nurses without patients left out) and the summary statistics.
 */
module Extraction {
  import opened Records
  import opened Matrix
  import opened Scoring
  import opened Feasibility

  /** One entry of a nurse's patient list. */
  datatype PatientEntry = PatientEntry(
    patientId: string,
    initials: string,
    acuity: int,
    chemo: string,
    chemoTime: string,   // Chemo_Time, "" when absent
    continuity: bool)    // 'Y' / 'N'

  datatype RatioStatus = Ideal | Maximum

  /** One element of `assignments`. */
  datatype NurseAssignment = NurseAssignment(
    nurseId: string,
    nurseName: string,
    skillLevel: int,
    phone: string,       // Phone_Number, "" when absent
    patients: seq<PatientEntry>,
    patientCount: nat,
    totalAcuity: int,
    ivChemoCount: nat,
    ratioStatus: RatioStatus,
    continuityCount: nat)

  /**
   * The summary statistics. `unitCapacityUsed` is the numerator of the
   * "k/20" text; the average acuity, timestamp and objective value are not
   * modelled.
   */
  datatype Stats =
    | NoAssignments   // {'error': 'No assignments generated'}
    | Summary(
        totalPatients: nat,
        totalNursesUsed: nat,
        unitCapacityUsed: nat,
        workloadVariance: int,
        idealRatios: nat,
        maxRatios: nat,
        continuityPreserved: nat)

  datatype Report = Report(assignments: seq<NurseAssignment>, stats: Stats)

  function EntryOf(n: Nurse, p: Patient): PatientEntry {
    PatientEntry(p.id, p.initials, p.acuity, p.chemoType, p.chemoTime.GetOr(""), Continuity(n, p))
  }

  /** The entries of the patients row `r` selects, in patient order. */
  function Entries(n: Nurse, r: seq<bool>, ps: seq<Patient>): seq<PatientEntry>
    requires |r| == |ps|
  {
    if r == [] then []
    else Entries(n, r[..|r| - 1], ps[..|ps| - 1]) + if r[|r| - 1] then [EntryOf(n, ps[|ps| - 1])] else []
  }

  /** Sum of the entries' acuities. */
  function TotalAcuity(es: seq<PatientEntry>): int {
    if es == [] then 0 else TotalAcuity(es[..|es| - 1]) + es[|es| - 1].acuity
  }

  /** Number of entries with IV chemotherapy. */
  function IvEntries(es: seq<PatientEntry>): nat {
    if es == [] then 0 else IvEntries(es[..|es| - 1]) + if es[|es| - 1].chemo == "IV" then 1 else 0
  }

  /** Number of entries whose patient had this nurse last time. */
  function ContinuityCount(es: seq<PatientEntry>): nat {
    if es == [] then 0 else ContinuityCount(es[..|es| - 1]) + if es[|es| - 1].continuity then 1 else 0
  }

  function RatioOf(patientCount: nat): RatioStatus {
    if patientCount <= IDEAL_RATIO then Ideal else Maximum
  }

  /** The record built for a nurse with a non-empty patient list. */
  function AssignmentOf(n: Nurse, es: seq<PatientEntry>): NurseAssignment {
    NurseAssignment(n.id, n.name, n.skillLevel, n.phone.GetOr(""), es, |es|,
      TotalAcuity(es), IvEntries(es), RatioOf(|es|), ContinuityCount(es))
  }

  /** The record of nurse `n` with matrix row `r`. */
  function RowAssignment(n: Nurse, r: seq<bool>, ps: seq<Patient>): NurseAssignment
    requires |r| == |ps|
  {
    AssignmentOf(n, Entries(n, r, ps))
  }

  /** The `assignments` list: one record per nurse with patients, in nurse order. */
  function Assignments(nurses: seq<Nurse>, x: seq<seq<bool>>, ps: seq<Patient>): seq<NurseAssignment>
    requires Shaped(x, |nurses|, |ps|)
  {
    if nurses == [] then []
    else
      var k := |nurses| - 1;
      var es := Entries(nurses[k], x[k], ps);
      Assignments(nurses[..k], x[..k], ps) + if es != [] then [AssignmentOf(nurses[k], es)] else []
  }

  function SumPatientCounts(records: seq<NurseAssignment>): nat {
    if records == [] then 0 else SumPatientCounts(records[..|records| - 1]) + records[|records| - 1].patientCount
  }

  /** sum(acuities), the numerator of the average acuity. */
  function SumAcuities(records: seq<NurseAssignment>): int {
    if records == [] then 0 else SumAcuities(records[..|records| - 1]) + records[|records| - 1].totalAcuity
  }

  function MaxAcuity(records: seq<NurseAssignment>): (m: int)
    requires records != []
    ensures forall k :: 0 <= k < |records| ==> records[k].totalAcuity <= m
    ensures exists k :: 0 <= k < |records| && records[k].totalAcuity == m
  {
    var last := records[|records| - 1].totalAcuity;
    if |records| == 1 then last
    else
      var m := MaxAcuity(records[..|records| - 1]);
      assert forall k :: 0 <= k < |records| - 1 ==> records[..|records| - 1][k] == records[k];
      if m < last then last else m
  }

  function MinAcuity(records: seq<NurseAssignment>): (m: int)
    requires records != []
    ensures forall k :: 0 <= k < |records| ==> m <= records[k].totalAcuity
    ensures exists k :: 0 <= k < |records| && records[k].totalAcuity == m
  {
    var last := records[|records| - 1].totalAcuity;
    if |records| == 1 then last
    else
      var m := MinAcuity(records[..|records| - 1]);
      assert forall k :: 0 <= k < |records| - 1 ==> records[..|records| - 1][k] == records[k];
      if last < m then last else m
  }

  /** Number of nurses with at most 3 patients. */
  function IdealCount(records: seq<NurseAssignment>): nat {
    if records == [] then 0 else IdealCount(records[..|records| - 1]) + if records[|records| - 1].patientCount <= IDEAL_RATIO then 1 else 0
  }

  /** Number of nurses with exactly 4 patients. */
  function MaximumCount(records: seq<NurseAssignment>): nat {
    if records == [] then 0 else MaximumCount(records[..|records| - 1]) + if records[|records| - 1].patientCount == MAXIMUM_RATIO then 1 else 0
  }

  function ContinuityPreserved(records: seq<NurseAssignment>): nat {
    if records == [] then 0 else ContinuityPreserved(records[..|records| - 1]) + records[|records| - 1].continuityCount
  }

  /** The statistics block. */
  function StatsOf(records: seq<NurseAssignment>, totalPatients: nat): Stats {
    if records == [] then NoAssignments
    else Summary(totalPatients, |records|, SumPatientCounts(records), MaxAcuity(records) - MinAcuity(records),
      IdealCount(records), MaximumCount(records), ContinuityPreserved(records))
  }

  /** The specification of ExtractSolution. */
  function Extract(x: seq<seq<bool>>, nurses: seq<Nurse>, ps: seq<Patient>): Report
    requires Shaped(x, |nurses|, |ps|)
  {
    var records := Assignments(nurses, x, ps);
    Report(records, StatsOf(records, |ps|))
  }

  /** One more patient column: its entry is appended exactly when the row selects it. */
  lemma EntriesStep(n: Nurse, r: seq<bool>, ps: seq<Patient>, j: nat)
    requires |r| == |ps| && j < |r|
    ensures Entries(n, r[..j + 1], ps[..j + 1]) ==
      Entries(n, r[..j], ps[..j]) + if r[j] then [EntryOf(n, ps[j])] else []
  {
    assert r[..j + 1][..j] == r[..j] && ps[..j + 1][..j] == ps[..j];
  }

  /** Appending an entry adds its acuity and, when it is IV, one to the IV count. */
  lemma EntrySumsStep(es: seq<PatientEntry>, e: PatientEntry)
    ensures TotalAcuity(es + [e]) == TotalAcuity(es) + e.acuity
    ensures IvEntries(es + [e]) == IvEntries(es) + if e.chemo == "IV" then 1 else 0
  {
    assert (es + [e])[..|es|] == es;
  }

  /** The inner loop over patients for one nurse. */
  method CollectPatients(n: Nurse, r: seq<bool>, ps: seq<Patient>)
    returns (nursePatients: seq<PatientEntry>, totalAcuity: int, ivCount: nat)
    requires |r| == |ps|
    ensures nursePatients == Entries(n, r, ps)
    ensures totalAcuity == TotalAcuity(nursePatients)
    ensures ivCount == IvEntries(nursePatients)
  {
    nursePatients, totalAcuity, ivCount := [], 0, 0;
    for j := 0 to |ps|
      invariant nursePatients == Entries(n, r[..j], ps[..j])
      invariant totalAcuity == TotalAcuity(nursePatients)
      invariant ivCount == IvEntries(nursePatients)
    {
      EntriesStep(n, r, ps, j);
      if r[j] {
        var patient := ps[j];
        var entry := PatientEntry(patient.id, patient.initials, patient.acuity, patient.chemoType,
          patient.chemoTime.GetOr(""), n.id == patient.lastNurse.GetOr(""));
        assert entry == EntryOf(n, patient);
        EntrySumsStep(nursePatients, entry);
        nursePatients := nursePatients + [entry];
        totalAcuity := totalAcuity + patient.acuity;
        if patient.chemoType == "IV" {
          ivCount := ivCount + 1;
        }
      }
    }
    assert r[..|r|] == r && ps[..|ps|] == ps;
  }

  /** extract_solution: the outer loop over nurses, then the statistics. */
  method ExtractSolution(x: seq<seq<bool>>, nurses: seq<Nurse>, ps: seq<Patient>) returns (report: Report)
    requires Shaped(x, |nurses|, |ps|)
    ensures report == Extract(x, nurses, ps)
  {
    var assignments: seq<NurseAssignment> := [];
    for i := 0 to |nurses|
      invariant Shaped(x[..i], i, |ps|)
      invariant assignments == Assignments(nurses[..i], x[..i], ps)
    {
      assert nurses[..i + 1][..i] == nurses[..i] && x[..i + 1][..i] == x[..i];
      var nurse := nurses[i];
      var nursePatients, totalAcuity, ivCount := CollectPatients(nurse, x[i], ps);
      if nursePatients != [] {
        var patientCount := |nursePatients|;
        assignments := assignments + [NurseAssignment(nurse.id, nurse.name, nurse.skillLevel,
          nurse.phone.GetOr(""), nursePatients, patientCount, totalAcuity, ivCount,
          if patientCount <= 3 then Ideal else Maximum, ContinuityCount(nursePatients))];
      }
    }
    assert nurses[..|nurses|] == nurses && x[..|x|] == x;
    report := Report(assignments, StatsOf(assignments, |ps|));
  }

  /** A row has one entry per selected patient. */
  lemma {:induction false} EntriesCount(n: Nurse, r: seq<bool>, ps: seq<Patient>)
    requires |r| == |ps|
    ensures |Entries(n, r, ps)| == Count(r)
  {
    if r != [] {
      var k := |r| - 1;
      var es := Entries(n, r, ps);
      var init := Entries(n, r[..k], ps[..k]);
      EntriesCount(n, r[..k], ps[..k]);
      if r[k] {
        assert es == init + [EntryOf(n, ps[k])];
        assert es[..|es| - 1] == init;
      } else {
        assert es == init;
      }
    }
  }

  /** The entries' acuities add up to the row's acuity sum. */
  lemma {:induction false} EntriesAcuity(n: Nurse, r: seq<bool>, ps: seq<Patient>)
    requires |r| == |ps|
    ensures TotalAcuity(Entries(n, r, ps)) == Weighted(r, ps, AcuityOf)
  {
    if r != [] {
      var k := |r| - 1;
      var es := Entries(n, r, ps);
      var init := Entries(n, r[..k], ps[..k]);
      EntriesAcuity(n, r[..k], ps[..k]);
      if r[k] {
        assert es == init + [EntryOf(n, ps[k])];
        assert es[..|es| - 1] == init;
      } else {
        assert es == init;
      }
    }
  }

  /** The IV entries are the row's IV patients. */
  lemma {:induction false} EntriesIv(n: Nurse, r: seq<bool>, ps: seq<Patient>)
    requires |r| == |ps|
    ensures IvEntries(Entries(n, r, ps)) == Weighted(r, ps, IvWeight)
  {
    if r != [] {
      var k := |r| - 1;
      var es := Entries(n, r, ps);
      var init := Entries(n, r[..k], ps[..k]);
      EntriesIv(n, r[..k], ps[..k]);
      if r[k] {
        assert es == init + [EntryOf(n, ps[k])];
        assert es[..|es| - 1] == init;
      } else {
        assert es == init;
      }
    }
  }

  lemma EntriesSums(n: Nurse, r: seq<bool>, ps: seq<Patient>)
    requires |r| == |ps|
    ensures |Entries(n, r, ps)| == Count(r)
    ensures TotalAcuity(Entries(n, r, ps)) == Weighted(r, ps, AcuityOf)
    ensures IvEntries(Entries(n, r, ps)) == Weighted(r, ps, IvWeight)
  {
    EntriesCount(n, r, ps);
    EntriesAcuity(n, r, ps);
    EntriesIv(n, r, ps);
  }

  /** A row's entries are exactly the entries of the patients it selects. */
  lemma {:induction false} EntriesMembership(n: Nurse, r: seq<bool>, ps: seq<Patient>)
    requires |r| == |ps|
    ensures forall e :: e in Entries(n, r, ps) <==> exists j :: 0 <= j < |ps| && r[j] && e == EntryOf(n, ps[j])
  {
    if r != [] {
      var k := |r| - 1;
      EntriesMembership(n, r[..k], ps[..k]);
      forall e | e in Entries(n, r, ps) ensures exists j :: 0 <= j < |ps| && r[j] && e == EntryOf(n, ps[j]) {
        if e in Entries(n, r[..k], ps[..k]) {
          var j :| 0 <= j < k && r[..k][j] && e == EntryOf(n, ps[..k][j]);
          assert r[j] && ps[j] == ps[..k][j];
        } else {
          assert r[k] && e == EntryOf(n, ps[k]);
        }
      }
      forall e | exists j :: 0 <= j < |ps| && r[j] && e == EntryOf(n, ps[j]) ensures e in Entries(n, r, ps) {
        var j :| 0 <= j < |ps| && r[j] && e == EntryOf(n, ps[j]);
        if j < k {
          assert r[..k][j] && ps[..k][j] == ps[j];
        }
      }
    }
  }

  lemma {:induction false} CountsBounded(es: seq<PatientEntry>)
    ensures IvEntries(es) <= |es| && ContinuityCount(es) <= |es|
  {
    if es != [] {
      CountsBounded(es[..|es| - 1]);
    }
  }

  /**
   * The record of a nurse with patients: its patient count is the number of
   * selected patients, its total acuity their acuity sum, its IV count the
   * number of IV patients among them (at most the patient count), and its
   * ratio is ideal exactly when it has at most 3 patients.
   */
  lemma RowAssignmentFacts(n: Nurse, r: seq<bool>, ps: seq<Patient>)
    requires |r| == |ps|
    ensures var a := RowAssignment(n, r, ps);
      && a.nurseId == n.id
      && a.patientCount == Count(r)
      && a.totalAcuity == Weighted(r, ps, AcuityOf)
      && a.ivChemoCount == Weighted(r, ps, IvWeight)
      && a.ivChemoCount <= a.patientCount
      && a.continuityCount <= a.patientCount
      && (a.ratioStatus == Ideal <==> a.patientCount <= IDEAL_RATIO)
  {
    EntriesSums(n, r, ps);
    CountsBounded(Entries(n, r, ps));
  }

  /** A nurse's patient list is empty exactly when its row selects nobody. */
  lemma EntriesEmptyIff(n: Nurse, r: seq<bool>, ps: seq<Patient>)
    requires |r| == |ps|
    ensures Entries(n, r, ps) == [] <==> Count(r) == 0
  {
    EntriesSums(n, r, ps);
  }

  /** Every listed record has at least one patient. */
  lemma {:induction false} ListedRecordsNonEmpty(nurses: seq<Nurse>, x: seq<seq<bool>>, ps: seq<Patient>)
    requires Shaped(x, |nurses|, |ps|)
    ensures forall a :: a in Assignments(nurses, x, ps) ==> a.patientCount > 0
  {
    if nurses != [] {
      var k := |nurses| - 1;
      ListedRecordsNonEmpty(nurses[..k], x[..k], ps);
    }
  }

  /** Every nurse with a selected patient has its record in the list. */
  lemma {:induction false} NursesWithPatientsListed(nurses: seq<Nurse>, x: seq<seq<bool>>, ps: seq<Patient>)
    requires Shaped(x, |nurses|, |ps|)
    ensures forall i :: 0 <= i < |nurses| && Count(x[i]) > 0 ==>
      RowAssignment(nurses[i], x[i], ps) in Assignments(nurses, x, ps)
  {
    if nurses != [] {
      var k := |nurses| - 1;
      NursesWithPatientsListed(nurses[..k], x[..k], ps);
      EntriesEmptyIff(nurses[k], x[k], ps);
      assert forall i :: 0 <= i < k ==> nurses[..k][i] == nurses[i] && x[..k][i] == x[i];
    }
  }

  /** Every record in the list is that of a nurse with a selected patient. */
  lemma {:induction false} ListedRecordsFromNurses(nurses: seq<Nurse>, x: seq<seq<bool>>, ps: seq<Patient>)
    requires Shaped(x, |nurses|, |ps|)
    ensures forall a :: a in Assignments(nurses, x, ps) ==>
      exists i :: 0 <= i < |nurses| && Count(x[i]) > 0 && a == RowAssignment(nurses[i], x[i], ps)
  {
    if nurses != [] {
      var k := |nurses| - 1;
      var init := Assignments(nurses[..k], x[..k], ps);
      ListedRecordsFromNurses(nurses[..k], x[..k], ps);
      EntriesEmptyIff(nurses[k], x[k], ps);
      forall a | a in Assignments(nurses, x, ps)
        ensures exists i :: 0 <= i < |nurses| && Count(x[i]) > 0 && a == RowAssignment(nurses[i], x[i], ps)
      {
        if a in init {
          var i :| 0 <= i < k && Count(x[..k][i]) > 0 && a == RowAssignment(nurses[..k][i], x[..k][i], ps);
          assert nurses[..k][i] == nurses[i] && x[..k][i] == x[i];
        } else {
          assert a == RowAssignment(nurses[k], x[k], ps);
        }
      }
    }
  }

  /**
   * A nurse is listed exactly when at least one patient is selected for it:
   * every nurse with patients has its record in the list, and every record
   * in the list is that of a nurse with patients.
   */
  lemma AssignmentsListed(nurses: seq<Nurse>, x: seq<seq<bool>>, ps: seq<Patient>)
    requires Shaped(x, |nurses|, |ps|)
    ensures forall i :: 0 <= i < |nurses| && Count(x[i]) > 0 ==>
      RowAssignment(nurses[i], x[i], ps) in Assignments(nurses, x, ps)
    ensures forall a :: a in Assignments(nurses, x, ps) ==>
      exists i :: 0 <= i < |nurses| && Count(x[i]) > 0 && a == RowAssignment(nurses[i], x[i], ps)
    ensures forall a :: a in Assignments(nurses, x, ps) ==> a.patientCount > 0
  {
    NursesWithPatientsListed(nurses, x, ps);
    ListedRecordsFromNurses(nurses, x, ps);
    ListedRecordsNonEmpty(nurses, x, ps);
  }

  /** The patient counts add up to the number of selected pairs. */
  lemma {:induction false} SumPatientCountsIsTotal(nurses: seq<Nurse>, x: seq<seq<bool>>, ps: seq<Patient>)
    requires Shaped(x, |nurses|, |ps|)
    ensures SumPatientCounts(Assignments(nurses, x, ps)) == Total(x)
    ensures SumAcuities(Assignments(nurses, x, ps)) == SumRows(x, ps, AcuityOf)
  {
    if nurses != [] {
      var k := |nurses| - 1;
      var records := Assignments(nurses, x, ps);
      SumPatientCountsIsTotal(nurses[..k], x[..k], ps);
      EntriesSums(nurses[k], x[k], ps);
      if Entries(nurses[k], x[k], ps) != [] {
        assert records[..|records| - 1] == Assignments(nurses[..k], x[..k], ps);
      } else {
        assert records == Assignments(nurses[..k], x[..k], ps);
        CountZero(x[k]);
        WeightedZero(x[k], ps, AcuityOf);
      }
    }
  }

  /** The variance is the largest difference between two nurses' total acuities, so it is never negative. */
  lemma VarianceIsLargestDifference(records: seq<NurseAssignment>, totalPatients: nat)
    requires records != []
    ensures var v := StatsOf(records, totalPatients).workloadVariance;
      && v >= 0
      && (forall k, l :: 0 <= k < |records| && 0 <= l < |records| ==> records[k].totalAcuity - records[l].totalAcuity <= v)
      && (exists k, l :: 0 <= k < |records| && 0 <= l < |records| && records[k].totalAcuity - records[l].totalAcuity == v)
  {
    assert MinAcuity(records) <= records[0].totalAcuity <= MaxAcuity(records);
  }

  /**
   * The ideal and maximum ratios never count more nurses than are used, and
   * they count every one exactly when no nurse has more than 4 patients.
   */
  lemma {:induction false} RatioCountsBounded(records: seq<NurseAssignment>)
    ensures IdealCount(records) + MaximumCount(records) <= |records|
    ensures IdealCount(records) + MaximumCount(records) == |records| <==>
      forall k :: 0 <= k < |records| ==> records[k].patientCount <= MAXIMUM_RATIO
  {
    if records != [] {
      var init := records[..|records| - 1];
      RatioCountsBounded(init);
      assert forall k :: 0 <= k < |init| ==> init[k] == records[k];
    }
  }

  /** One record per nurse whose row selects a patient. */
  lemma {:induction false} AssignmentsLength(nurses: seq<Nurse>, x: seq<seq<bool>>, ps: seq<Patient>)
    requires Shaped(x, |nurses|, |ps|)
    ensures |Assignments(nurses, x, ps)| == NursesUsed(x)
  {
    if nurses != [] {
      var k := |nurses| - 1;
      AssignmentsLength(nurses[..k], x[..k], ps);
      EntriesEmptyIff(nurses[k], x[k], ps);
      assert x[..k] == x[..|x| - 1];
    }
  }

  /**
   * The statistics are the error entry exactly when the matrix selects
   * nothing; otherwise `total_nurses_used` is the number of nurses with a
   * selected patient and `total_patients` the number of patient rows.
   */
  lemma NoAssignmentsIff(x: seq<seq<bool>>, nurses: seq<Nurse>, ps: seq<Patient>)
    requires Shaped(x, |nurses|, |ps|)
    ensures var s := Extract(x, nurses, ps).stats;
      && (s == NoAssignments <==> forall i :: 0 <= i < |nurses| ==> Count(x[i]) == 0)
      && (s.Summary? ==> s.totalNursesUsed == NursesUsed(x) > 0 && s.totalPatients == |ps|)
  {
    AssignmentsLength(nurses, x, ps);
    NursesUsedZero(x);
  }

  /** A list of positive patient counts with sum 0 is empty. */
  lemma {:induction false} ZeroSumEmpty(records: seq<NurseAssignment>)
    requires forall a :: a in records ==> a.patientCount > 0
    ensures SumPatientCounts(records) == 0 <==> records == []
  {
    if records != [] {
      assert records[|records| - 1] in records;
    }
  }

  /**
   * Under the exactly-once constraint the report accounts for every patient:
   * the patient counts add up to the number of patients, the total acuities
   * to the patients' acuity sum, and there are no statistics only when there
   * are no patients.
   */
  lemma ExtractAccountsForEveryPatient(x: seq<seq<bool>>, nurses: seq<Nurse>, ps: seq<Patient>)
    requires Shaped(x, |nurses|, |ps|) && EachAssignedOnce(x, nurses, ps)
    ensures var r := Extract(x, nurses, ps);
      && SumPatientCounts(r.assignments) == |ps|
      && SumAcuities(r.assignments) == SumAll(ps, AcuityOf)
      && (r.stats == NoAssignments <==> |ps| == 0)
      && (r.stats.Summary? ==> r.stats.unitCapacityUsed == r.stats.totalPatients == |ps|)
  {
    SumPatientCountsIsTotal(nurses, x, ps);
    OnceTotal(x, nurses, ps);
    SumRowsOnce(x, ps, AcuityOf);
    AssignmentsListed(nurses, x, ps);
    ZeroSumEmpty(Assignments(nurses, x, ps));
  }

  /** Every patient appears, with its entry for that nurse, in the list of the nurse the matrix assigns it to. */
  lemma EveryPatientListed(x: seq<seq<bool>>, nurses: seq<Nurse>, ps: seq<Patient>, j: nat)
    requires Shaped(x, |nurses|, |ps|) && EachAssignedOnce(x, nurses, ps) && j < |ps|
    ensures exists i :: (0 <= i < |nurses| && x[i][j]
      && RowAssignment(nurses[i], x[i], ps) in Extract(x, nurses, ps).assignments
      && EntryOf(nurses[i], ps[j]) in RowAssignment(nurses[i], x[i], ps).patients)
  {
    var i := SelectedRow(x, j);
    CountZero(x[i]);
    AssignmentsListed(nurses, x, ps);
    EntriesMembership(nurses[i], x[i], ps);
  }

  /** When no nurse may take more than 4 patients, every nurse used has an ideal or a maximum ratio. */
  lemma FeasibleRatiosCoverNurses(x: seq<seq<bool>>, nurses: seq<Nurse>, ps: seq<Patient>)
    requires Feasible(x, nurses, ps)
    requires forall i :: 0 <= i < |nurses| ==> MaxPatients(nurses[i]) <= MAXIMUM_RATIO
    ensures var s := Extract(x, nurses, ps).stats;
      s.Summary? ==> s.idealRatios + s.maxRatios == s.totalNursesUsed
  {
    var records := Assignments(nurses, x, ps);
    AssignmentsListed(nurses, x, ps);
    forall k | 0 <= k < |records| ensures records[k].patientCount <= MAXIMUM_RATIO {
      assert records[k] in records;
      var i :| 0 <= i < |nurses| && Count(x[i]) > 0 && records[k] == RowAssignment(nurses[i], x[i], ps);
      RowAssignmentFacts(nurses[i], x[i], ps);
    }
    RatioCountsBounded(records);
  }

  /**
   * For a feasible matrix every listed record respects its nurse's limits:
   * at most Max_Patients patients, at most 2 IV patients for a certified
   * nurse and none for an uncertified one.
   */
  lemma FeasibleRecordsWithinLimits(x: seq<seq<bool>>, nurses: seq<Nurse>, ps: seq<Patient>, i: nat)
    requires Feasible(x, nurses, ps) && i < |nurses|
    ensures var a := RowAssignment(nurses[i], x[i], ps);
      && a.patientCount <= MaxPatients(nurses[i])
      && a.patientCount <= IDEAL_RATIO + PENALTY_EXCESS_BOUND
      && a.ivChemoCount <= if Certified(nurses[i]) then IV_PATIENTS_PER_NURSE else 0
  {
    RowAssignmentFacts(nurses[i], x[i], ps);
    FeasibleRowBounded(x, nurses, ps, i);
    if !Certified(nurses[i]) {
      UncertifiedNoIv(x, nurses, ps, i);
    }
  }

  /**
   * A nurse with more than 4 patients is marked as at the maximum ratio but
   * counted in neither ratio total, so the two totals then fall short of the
   * nurses used.
   */
  lemma OverMaximumCountedInNeitherRatio(x: seq<seq<bool>>, nurses: seq<Nurse>, ps: seq<Patient>, i: nat)
    requires Shaped(x, |nurses|, |ps|) && i < |nurses| && Count(x[i]) > MAXIMUM_RATIO
    ensures var a := RowAssignment(nurses[i], x[i], ps);
      && a.ratioStatus == Maximum
      && IdealCount([a]) + MaximumCount([a]) == 0
    ensures var s := Extract(x, nurses, ps).stats;
      s.Summary? && s.idealRatios + s.maxRatios < s.totalNursesUsed
  {
    var records := Assignments(nurses, x, ps);
    var a := RowAssignment(nurses[i], x[i], ps);
    RowAssignmentFacts(nurses[i], x[i], ps);
    AssignmentsListed(nurses, x, ps);
    var k :| 0 <= k < |records| && records[k] == a;
    RatioCountsBounded(records);
  }
}
