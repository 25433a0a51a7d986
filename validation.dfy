/**
 * The input check that runs before any optimization
 * (BMTOptimizer.validate_input): required columns, the unit's patient limit
 * and the balance between IV patients and IV-certified nurses.
 */
module Validation {
  import opened Records

  /** The names of the nine columns the check asks for. */
  const REQUIRED_NAMES: set<string> :=
    {"Nurse_ID", "Name", "Skill_Level", "Chemo_IV_Cert", "Max_Patients",
     "Patient_ID", "Initials", "Acuity", "Chemo_Type"}

  /** The name of a column the check does not ask for. */
  type OtherName = s: string | s !in REQUIRED_NAMES witness "Phone_Number"

  /**
   * A column of an input table: the nine the check asks for by name, and
   * any other (Phone_Number, Vesicant, Last_Nurse, ...). Each name has
   * exactly one `Column` (`LabelInjective`), so a set of columns is a set
   * of names.
   */
  datatype Column =
    | NurseIdColumn | NameColumn | SkillLevelColumn | ChemoIvCertColumn | MaxPatientsColumn
    | PatientIdColumn | InitialsColumn | AcuityColumn | ChemoTypeColumn
    | OtherColumn(name: OtherName)

  /** The column's name as it appears in the input and in the error messages. */
  function Label(c: Column): string {
    match c
    case NurseIdColumn => "Nurse_ID"
    case NameColumn => "Name"
    case SkillLevelColumn => "Skill_Level"
    case ChemoIvCertColumn => "Chemo_IV_Cert"
    case MaxPatientsColumn => "Max_Patients"
    case PatientIdColumn => "Patient_ID"
    case InitialsColumn => "Initials"
    case AcuityColumn => "Acuity"
    case ChemoTypeColumn => "Chemo_Type"
    case OtherColumn(l) => l
  }

  /** Distinct columns have distinct names. */
  lemma LabelInjective(a: Column, b: Column)
    ensures Label(a) == Label(b) <==> a == b
  {
    if a.OtherColumn? != b.OtherColumn? {
      var named := if a.OtherColumn? then b else a;
      assert Label(named) in REQUIRED_NAMES;
    }
  }

  /** The names of a set of columns, as pandas' `df.columns` holds them. */
  function Names(columns: set<Column>): set<string> {
    set c | c in columns :: Label(c)
  }

  /** A column is present exactly when its name is among the table's column names. */
  lemma PresentIffNamed(columns: set<Column>, c: Column)
    ensures c in columns <==> Label(c) in Names(columns)
  {
    if Label(c) in Names(columns) {
      var d :| d in columns && Label(d) == Label(c);
      LabelInjective(c, d);
    }
  }

  /** Two column sets with the same names are the same set: a table has one encoding. */
  lemma NamesDetermineColumns(a: set<Column>, b: set<Column>)
    requires Names(a) == Names(b)
    ensures a == b
  {
    forall c | c in a ensures c in b {
      PresentIffNamed(a, c);
      PresentIffNamed(b, c);
    }
    forall c | c in b ensures c in a {
      PresentIffNamed(a, c);
      PresentIffNamed(b, c);
    }
  }

  /** A table as it arrives: the names of its columns and its rows. */
  datatype NurseTable = NurseTable(columns: set<Column>, rows: seq<Nurse>)
  datatype PatientTable = PatientTable(columns: set<Column>, rows: seq<Patient>)

  /** Which input table a missing-column error is about. */
  datatype Sheet = Nurses | Patients

  datatype ValidationError =
    | MissingColumn(sheet: Sheet, column: Column)  // "Missing nurse column: <col>" / "Missing patient column: <col>"
    | TooManyPatients(count: int)                  // "Too many patients: <n> > 20 unit capacity"
    | InsufficientIvNurses(ivPatients: int, ivNurses: int)  // "Insufficient IV certified nurses: ..."

  /**
   * What validate_input does: return its list of errors, or raise a KeyError
   * when the column it filters on (Chemo_Type, then Chemo_IV_Cert) is absent.
   */
  datatype Validation = Completed(errors: seq<ValidationError>) | RaisedKeyError(key: Column)

  const REQUIRED_NURSE_COLUMNS: seq<Column> :=
    [NurseIdColumn, NameColumn, SkillLevelColumn, ChemoIvCertColumn, MaxPatientsColumn]
  const REQUIRED_PATIENT_COLUMNS: seq<Column> :=
    [PatientIdColumn, InitialsColumn, AcuityColumn, ChemoTypeColumn]

  /** The required names are those of the nurse and patient columns the check lists. */
  lemma RequiredNamesAreLabels()
    ensures REQUIRED_NAMES == Names(set c | c in REQUIRED_NURSE_COLUMNS + REQUIRED_PATIENT_COLUMNS)
  {
    var required := set c | c in REQUIRED_NURSE_COLUMNS + REQUIRED_PATIENT_COLUMNS;
    assert required == {NurseIdColumn, NameColumn, SkillLevelColumn, ChemoIvCertColumn, MaxPatientsColumn,
      PatientIdColumn, InitialsColumn, AcuityColumn, ChemoTypeColumn};
  }

  /** The order of errors in the list: nurse columns, patient columns, patient limit, IV balance. */
  function Stage(e: ValidationError): nat {
    match e
    case MissingColumn(Nurses, _) => 0
    case MissingColumn(Patients, _) => 1
    case TooManyPatients(_) => 2
    case InsufficientIvNurses(_, _) => 3
  }

  predicate Distinct(s: seq<Column>) {
    forall a, b :: 0 <= a < b < |s| ==> s[a] != s[b]
  }

  /** The first index of `c` in `s`. */
  function Position(s: seq<Column>, c: Column): (k: nat)
    requires c in s
    ensures k < |s| && s[k] == c
    ensures forall a :: 0 <= a < k ==> s[a] != c
    decreases |s|
  {
    var init := s[..|s| - 1];
    if c in init then Position(init, c) else |s| - 1
  }

  /** The required columns absent from `present`, in the order of `required`. */
  function MissingColumns(required: seq<Column>, present: set<Column>): (r: seq<Column>)
    ensures forall c :: c in r <==> c in required && c !in present
    decreases |required|
  {
    if required == [] then []
    else
      var init := required[..|required| - 1];
      var last := required[|required| - 1];
      assert required == init + [last];
      MissingColumns(init, present) + (if last !in present then [last] else [])
  }

  /** Every entry of `r` is in `required`, and `r` lists them in the order of `required`, each once. */
  predicate FollowsOrder(r: seq<Column>, required: seq<Column>) {
    && (forall c :: c in r ==> c in required)
    && (forall a, b :: 0 <= a < b < |r| ==> r[a] in required && r[b] in required && Position(required, r[a]) < Position(required, r[b]))
  }

  /** Missing columns are reported in the order of the required list, each once. */
  lemma {:induction false} MissingColumnsOrdered(required: seq<Column>, present: set<Column>)
    requires Distinct(required)
    ensures FollowsOrder(MissingColumns(required, present), required)
    decreases |required|
  {
    if required != [] {
      var init := required[..|required| - 1];
      var last := required[|required| - 1];
      assert Distinct(init);
      MissingColumnsOrdered(init, present);
      var r0 := MissingColumns(init, present);
      forall k | 0 <= k < |init| ensures init[k] != last {
        assert required[k] == init[k];
      }
      forall c | c in r0 ensures Position(required, c) == Position(init, c) < |required| - 1 {
      }
      var r := MissingColumns(required, present);
      assert r == r0 + (if last !in present then [last] else []);
      forall a, b | 0 <= a < b < |r| ensures Position(required, r[a]) < Position(required, r[b]) {
        assert a < |r0| && r[a] == r0[a] && r0[a] in r0;
        if b < |r0| {
          assert r[b] == r0[b] && r0[b] in r0;
          assert FollowsOrder(r0, init);
          assert r0[a] in init && r0[b] in init && Position(init, r0[a]) < Position(init, r0[b]);
        } else {
          assert r[b] == last && last !in present;
          assert Position(required, last) == |required| - 1;
        }
      }
    }
  }

  /** One MissingColumn error per column of `cols`, in order. */
  function ColumnErrors(sheet: Sheet, cols: seq<Column>): (es: seq<ValidationError>)
    ensures |es| == |cols|
    ensures forall k :: 0 <= k < |cols| ==> es[k] == MissingColumn(sheet, cols[k])
  {
    seq(|cols|, k requires 0 <= k < |cols| => MissingColumn(sheet, cols[k]))
  }

  lemma ColumnErrorsMembership(sheet: Sheet, cols: seq<Column>)
    ensures forall e :: e in ColumnErrors(sheet, cols) ==> e.MissingColumn? && e.sheet == sheet && e.column in cols
    ensures forall c :: c in cols ==> MissingColumn(sheet, c) in ColumnErrors(sheet, cols)
  {
    var es := ColumnErrors(sheet, cols);
    forall c | c in cols ensures MissingColumn(sheet, c) in es {
      var k :| 0 <= k < |cols| && cols[k] == c;
      assert es[k] == MissingColumn(sheet, c);
    }
  }

  /** The error for the unit's patient limit, if it is exceeded. */
  function LimitErrors(pt: PatientTable): seq<ValidationError> {
    if |pt.rows| > UNIT_CAPACITY then [TooManyPatients(|pt.rows|)] else []
  }

  /** The error for too few IV-certified nurses, if there are. */
  function BalanceErrors(nt: NurseTable, pt: PatientTable): seq<ValidationError> {
    var ivPatients := IvPatientCount(pt.rows);
    var ivNurses := CertifiedCount(nt.rows);
    if ivPatients > IV_PATIENTS_PER_NURSE * ivNurses then [InsufficientIvNurses(ivPatients, ivNurses)] else []
  }

  /** The errors of the two column loops, in order. */
  function ColumnsErrors(nt: NurseTable, pt: PatientTable): seq<ValidationError> {
    ColumnErrors(Nurses, MissingColumns(REQUIRED_NURSE_COLUMNS, nt.columns))
    + ColumnErrors(Patients, MissingColumns(REQUIRED_PATIENT_COLUMNS, pt.columns))
  }

  /** The specification of ValidateInput. */
  function Validate(nt: NurseTable, pt: PatientTable): Validation {
    if ChemoTypeColumn !in pt.columns then RaisedKeyError(ChemoTypeColumn)
    else if ChemoIvCertColumn !in nt.columns then RaisedKeyError(ChemoIvCertColumn)
    else Completed(ColumnsErrors(nt, pt) + LimitErrors(pt) + BalanceErrors(nt, pt))
  }

  /** Every required column is present in its table. */
  predicate ColumnsPresent(nt: NurseTable, pt: PatientTable) {
    (forall c :: c in REQUIRED_NURSE_COLUMNS ==> c in nt.columns)
    && (forall c :: c in REQUIRED_PATIENT_COLUMNS ==> c in pt.columns)
  }

  /** One more required column: it is appended to the missing ones exactly when absent. */
  lemma MissingStep(required: seq<Column>, present: set<Column>, k: nat)
    requires k < |required|
    ensures MissingColumns(required[..k + 1], present) ==
      MissingColumns(required[..k], present) + if required[k] !in present then [required[k]] else []
  {
    assert required[..k + 1][..k] == required[..k];
  }

  lemma ColumnErrorsSnoc(errors: seq<ValidationError>, sheet: Sheet, cols: seq<Column>, c: Column)
    ensures errors + ColumnErrors(sheet, cols + [c]) == errors + ColumnErrors(sheet, cols) + [MissingColumn(sheet, c)]
  {
    assert ColumnErrors(sheet, cols + [c]) == ColumnErrors(sheet, cols) + [MissingColumn(sheet, c)];
  }

  /** One `for col in required` loop: append an error for each absent column. */
  method AppendMissing(errors: seq<ValidationError>, sheet: Sheet, required: seq<Column>, present: set<Column>)
    returns (result: seq<ValidationError>)
    ensures result == errors + ColumnErrors(sheet, MissingColumns(required, present))
  {
    result := errors;
    ghost var missing: seq<Column> := [];
    for k := 0 to |required|
      invariant missing == MissingColumns(required[..k], present)
      invariant result == errors + ColumnErrors(sheet, missing)
    {
      var col := required[k];
      MissingStep(required, present, k);
      if col !in present {
        ColumnErrorsSnoc(errors, sheet, missing, col);
        result := result + [MissingColumn(sheet, col)];
        missing := missing + [col];
      } else {
        assert missing + [] == missing;
      }
    }
    assert required[..|required|] == required;
  }

  lemma LimitAfterColumns(nt: NurseTable, pt: PatientTable, nurseErrors: seq<ValidationError>, errors: seq<ValidationError>)
    requires nurseErrors == [] + ColumnErrors(Nurses, MissingColumns(REQUIRED_NURSE_COLUMNS, nt.columns))
    requires errors == nurseErrors + ColumnErrors(Patients, MissingColumns(REQUIRED_PATIENT_COLUMNS, pt.columns))
    ensures ColumnsErrors(nt, pt) + LimitErrors(pt) ==
      if |pt.rows| > 20 then errors + [TooManyPatients(|pt.rows|)] else errors
  {
    assert nurseErrors == ColumnErrors(Nurses, MissingColumns(REQUIRED_NURSE_COLUMNS, nt.columns));
  }

  /** The first part of validate_input: the two column loops and the patient limit. */
  method CollectColumnAndLimitErrors(nt: NurseTable, pt: PatientTable) returns (errors: seq<ValidationError>)
    ensures errors == ColumnsErrors(nt, pt) + LimitErrors(pt)
  {
    var nurseErrors := AppendMissing([], Nurses, REQUIRED_NURSE_COLUMNS, nt.columns);
    errors := AppendMissing(nurseErrors, Patients, REQUIRED_PATIENT_COLUMNS, pt.columns);
    LimitAfterColumns(nt, pt, nurseErrors, errors);
    if |pt.rows| > 20 {
      errors := errors + [TooManyPatients(|pt.rows|)];
    }
  }

  /** validate_input: the collected errors, then the IV balance, which needs both chemotherapy columns. */
  method ValidateInput(nt: NurseTable, pt: PatientTable) returns (v: Validation)
    ensures v == Validate(nt, pt)
  {
    var errors := CollectColumnAndLimitErrors(nt, pt);
    if ChemoTypeColumn !in pt.columns {
      return RaisedKeyError(ChemoTypeColumn);
    }
    var ivPatients := IvPatientCount(pt.rows);
    if ChemoIvCertColumn !in nt.columns {
      return RaisedKeyError(ChemoIvCertColumn);
    }
    var ivNurses := CertifiedCount(nt.rows);
    if ivPatients > ivNurses * 2 {
      errors := errors + [InsufficientIvNurses(ivPatients, ivNurses)];
    }
    v := Completed(errors);
  }

  /** A KeyError is raised exactly when a chemotherapy column is absent, Chemo_Type first. */
  lemma RaisesIff(nt: NurseTable, pt: PatientTable)
    ensures Validate(nt, pt).RaisedKeyError? <==> ChemoTypeColumn !in pt.columns || ChemoIvCertColumn !in nt.columns
    ensures Validate(nt, pt).RaisedKeyError? ==>
      Validate(nt, pt).key == if ChemoTypeColumn !in pt.columns then ChemoTypeColumn else ChemoIvCertColumn
  {
  }

  /**
   * The KeyError in terms of column names, as pandas looks them up: it is
   * raised exactly when no patient column is named "Chemo_Type" or no nurse
   * column is named "Chemo_IV_Cert".
   */
  lemma RaisesIffNamed(nt: NurseTable, pt: PatientTable)
    ensures Validate(nt, pt).RaisedKeyError? <==>
      "Chemo_Type" !in Names(pt.columns) || "Chemo_IV_Cert" !in Names(nt.columns)
  {
    PresentIffNamed(pt.columns, ChemoTypeColumn);
    PresentIffNamed(nt.columns, ChemoIvCertColumn);
  }

  /** Validation sees a table only through its column names and its rows. */
  lemma ValidationDependsOnNames(nt1: NurseTable, pt1: PatientTable, nt2: NurseTable, pt2: PatientTable)
    requires Names(nt1.columns) == Names(nt2.columns) && Names(pt1.columns) == Names(pt2.columns)
    requires nt1.rows == nt2.rows && pt1.rows == pt2.rows
    ensures Validate(nt1, pt1) == Validate(nt2, pt2)
  {
    NamesDetermineColumns(nt1.columns, nt2.columns);
    NamesDetermineColumns(pt1.columns, pt2.columns);
  }

  /**
   * A list laid out as nurse-column errors, then patient-column errors, then
   * a tail of later-stage errors.
   */
  predicate LaidOut(errs: seq<ValidationError>, nm: seq<Column>, pm: seq<Column>, tail: seq<ValidationError>) {
    && errs == ColumnErrors(Nurses, nm) + ColumnErrors(Patients, pm) + tail
    && (forall k :: 0 <= k < |tail| ==> Stage(tail[k]) >= 2)
    && (forall a, b :: 0 <= a < b < |tail| ==> Stage(tail[a]) <= Stage(tail[b]))
  }

  lemma LayoutIndices(errs: seq<ValidationError>, nm: seq<Column>, pm: seq<Column>, tail: seq<ValidationError>)
    requires LaidOut(errs, nm, pm, tail)
    ensures |errs| == |nm| + |pm| + |tail|
    ensures forall k :: 0 <= k < |nm| ==> errs[k] == MissingColumn(Nurses, nm[k])
    ensures forall k :: 0 <= k < |pm| ==> errs[|nm| + k] == MissingColumn(Patients, pm[k])
    ensures forall k :: 0 <= k < |tail| ==> errs[|nm| + |pm| + k] == tail[k]
  {
    var front := ColumnErrors(Nurses, nm);
    var middle := ColumnErrors(Patients, pm);
    assert errs == front + middle + tail;
    forall k | 0 <= k < |nm| ensures errs[k] == MissingColumn(Nurses, nm[k]) {
      assert errs[k] == front[k];
    }
    forall k | 0 <= k < |pm| ensures errs[|nm| + k] == MissingColumn(Patients, pm[k]) {
      assert errs[|nm| + k] == middle[k];
    }
  }

  /** The stage of the entry at index k of a laid-out list. */
  lemma LayoutStageAt(errs: seq<ValidationError>, nm: seq<Column>, pm: seq<Column>, tail: seq<ValidationError>, k: nat)
    requires LaidOut(errs, nm, pm, tail) && k < |errs|
    ensures k < |nm| ==> Stage(errs[k]) == 0
    ensures |nm| <= k < |nm| + |pm| ==> Stage(errs[k]) == 1
    ensures |nm| + |pm| <= k ==> Stage(errs[k]) >= 2 && errs[k] == tail[k - |nm| - |pm|]
  {
    LayoutIndices(errs, nm, pm, tail);
    if k < |nm| {
      assert errs[k] == MissingColumn(Nurses, nm[k]);
    } else if k < |nm| + |pm| {
      assert errs[k] == MissingColumn(Patients, pm[k - |nm|]);
    } else {
      assert errs[k] == tail[k - |nm| - |pm|];
    }
  }

  lemma LayoutNurseColumns(errs: seq<ValidationError>, nm: seq<Column>, pm: seq<Column>, tail: seq<ValidationError>)
    requires LaidOut(errs, nm, pm, tail)
    ensures forall c :: MissingColumn(Nurses, c) in errs <==> c in nm
  {
    LayoutIndices(errs, nm, pm, tail);
    forall c ensures MissingColumn(Nurses, c) in errs <==> c in nm {
      if MissingColumn(Nurses, c) in errs {
        var k :| 0 <= k < |errs| && errs[k] == MissingColumn(Nurses, c);
        LayoutStageAt(errs, nm, pm, tail, k);
        assert nm[k] == c;
      }
      if c in nm {
        var k :| 0 <= k < |nm| && nm[k] == c;
        assert errs[k] == MissingColumn(Nurses, c);
      }
    }
  }

  lemma LayoutPatientColumns(errs: seq<ValidationError>, nm: seq<Column>, pm: seq<Column>, tail: seq<ValidationError>)
    requires LaidOut(errs, nm, pm, tail)
    ensures forall c :: MissingColumn(Patients, c) in errs <==> c in pm
  {
    LayoutIndices(errs, nm, pm, tail);
    forall c ensures MissingColumn(Patients, c) in errs <==> c in pm {
      if MissingColumn(Patients, c) in errs {
        var k :| 0 <= k < |errs| && errs[k] == MissingColumn(Patients, c);
        LayoutStageAt(errs, nm, pm, tail, k);
        assert pm[k - |nm|] == c;
      }
      if c in pm {
        var k :| 0 <= k < |pm| && pm[k] == c;
        assert errs[|nm| + k] == MissingColumn(Patients, c);
      }
    }
  }

  lemma LayoutTail(errs: seq<ValidationError>, nm: seq<Column>, pm: seq<Column>, tail: seq<ValidationError>)
    requires LaidOut(errs, nm, pm, tail)
    ensures forall e :: Stage(e) >= 2 ==> (e in errs <==> e in tail)
  {
    LayoutIndices(errs, nm, pm, tail);
    forall e | Stage(e) >= 2 ensures e in errs <==> e in tail {
      if e in errs {
        var k :| 0 <= k < |errs| && errs[k] == e;
        LayoutStageAt(errs, nm, pm, tail, k);
      }
      if e in tail {
        var k :| 0 <= k < |tail| && tail[k] == e;
        assert errs[|nm| + |pm| + k] == e;
      }
    }
  }

  lemma LayoutStages(errs: seq<ValidationError>, nm: seq<Column>, pm: seq<Column>, tail: seq<ValidationError>)
    requires LaidOut(errs, nm, pm, tail)
    ensures forall a, b :: 0 <= a < b < |errs| ==> Stage(errs[a]) <= Stage(errs[b])
  {
    forall a, b | 0 <= a < b < |errs| ensures Stage(errs[a]) <= Stage(errs[b]) {
      LayoutStageAt(errs, nm, pm, tail, a);
      LayoutStageAt(errs, nm, pm, tail, b);
    }
  }

  lemma RequiredColumnsDistinct()
    ensures Distinct(REQUIRED_NURSE_COLUMNS) && Distinct(REQUIRED_PATIENT_COLUMNS)
  {
  }

  /** The tail of a completed validation: the patient-limit error, then the IV-balance error. */
  lemma TailInStage(nt: NurseTable, pt: PatientTable)
    ensures var tail := LimitErrors(pt) + BalanceErrors(nt, pt);
      && (forall k :: 0 <= k < |tail| ==> Stage(tail[k]) >= 2)
      && (forall a, b :: 0 <= a < b < |tail| ==> Stage(tail[a]) <= Stage(tail[b]))
  {
  }

  /** The tail holds the patient-limit error iff the limit is exceeded, and the balance error iff the balance fails. */
  lemma TailMembership(nt: NurseTable, pt: PatientTable)
    ensures var tail := LimitErrors(pt) + BalanceErrors(nt, pt);
      && (forall e :: e in tail && e.TooManyPatients? <==> e == TooManyPatients(|pt.rows|) && |pt.rows| > UNIT_CAPACITY)
      && (forall e :: e in tail && e.InsufficientIvNurses? <==>
            e == InsufficientIvNurses(IvPatientCount(pt.rows), CertifiedCount(nt.rows))
            && IvPatientCount(pt.rows) > IV_PATIENTS_PER_NURSE * CertifiedCount(nt.rows))
  {
  }

  /** A column error appears exactly for each absent required column. */
  lemma ColumnErrorsIff(nt: NurseTable, pt: PatientTable)
    requires Validate(nt, pt).Completed?
    ensures var errs := Validate(nt, pt).errors;
      && (forall c :: MissingColumn(Nurses, c) in errs <==> c in REQUIRED_NURSE_COLUMNS && c !in nt.columns)
      && (forall c :: MissingColumn(Patients, c) in errs <==> c in REQUIRED_PATIENT_COLUMNS && c !in pt.columns)
  {
    var nm := MissingColumns(REQUIRED_NURSE_COLUMNS, nt.columns);
    var pm := MissingColumns(REQUIRED_PATIENT_COLUMNS, pt.columns);
    var tail := LimitErrors(pt) + BalanceErrors(nt, pt);
    var errs := Validate(nt, pt).errors;
    TailInStage(nt, pt);
    assert LaidOut(errs, nm, pm, tail);
    LayoutNurseColumns(errs, nm, pm, tail);
    LayoutPatientColumns(errs, nm, pm, tail);
  }

  /** The patient-limit error appears iff the limit is exceeded, the balance error iff the balance fails. */
  lemma LimitAndBalanceErrorsIff(nt: NurseTable, pt: PatientTable)
    requires Validate(nt, pt).Completed?
    ensures var errs := Validate(nt, pt).errors;
      && (forall e :: e in errs && e.TooManyPatients? <==> e == TooManyPatients(|pt.rows|) && |pt.rows| > UNIT_CAPACITY)
      && (forall e :: e in errs && e.InsufficientIvNurses? <==>
            e == InsufficientIvNurses(IvPatientCount(pt.rows), CertifiedCount(nt.rows))
            && IvPatientCount(pt.rows) > IV_PATIENTS_PER_NURSE * CertifiedCount(nt.rows))
  {
    var nm := MissingColumns(REQUIRED_NURSE_COLUMNS, nt.columns);
    var pm := MissingColumns(REQUIRED_PATIENT_COLUMNS, pt.columns);
    var tail := LimitErrors(pt) + BalanceErrors(nt, pt);
    var errs := Validate(nt, pt).errors;
    TailInStage(nt, pt);
    TailMembership(nt, pt);
    assert LaidOut(errs, nm, pm, tail);
    LayoutTail(errs, nm, pm, tail);
  }

  /** One error per absent required column, one for the patient limit, one for the IV balance, with the counts as payloads. */
  lemma ErrorsIff(nt: NurseTable, pt: PatientTable)
    requires Validate(nt, pt).Completed?
    ensures var errs := Validate(nt, pt).errors;
      && (forall c :: MissingColumn(Nurses, c) in errs <==> c in REQUIRED_NURSE_COLUMNS && c !in nt.columns)
      && (forall c :: MissingColumn(Patients, c) in errs <==> c in REQUIRED_PATIENT_COLUMNS && c !in pt.columns)
      && (TooManyPatients(|pt.rows|) in errs <==> |pt.rows| > UNIT_CAPACITY)
      && (forall k :: TooManyPatients(k) in errs ==> k == |pt.rows|)
      && (InsufficientIvNurses(IvPatientCount(pt.rows), CertifiedCount(nt.rows)) in errs
          <==> IvPatientCount(pt.rows) > IV_PATIENTS_PER_NURSE * CertifiedCount(nt.rows))
      && (forall a, b :: InsufficientIvNurses(a, b) in errs ==>
            a == IvPatientCount(pt.rows) && b == CertifiedCount(nt.rows))
  {
    ColumnErrorsIff(nt, pt);
    LimitAndBalanceErrorsIff(nt, pt);
  }

  /** Validation passes exactly when every check passes. */
  lemma PassesIff(nt: NurseTable, pt: PatientTable)
    ensures Validate(nt, pt) == Completed([]) <==>
      ColumnsPresent(nt, pt)
      && |pt.rows| <= UNIT_CAPACITY
      && IvPatientCount(pt.rows) <= IV_PATIENTS_PER_NURSE * CertifiedCount(nt.rows)
  {
    var nm := MissingColumns(REQUIRED_NURSE_COLUMNS, nt.columns);
    var pm := MissingColumns(REQUIRED_PATIENT_COLUMNS, pt.columns);
    assert ColumnsPresent(nt, pt) <==> nm == [] && pm == [] by {
      if nm != [] { assert nm[0] in nm; }
      if pm != [] { assert pm[0] in pm; }
    }
  }

  /** The errors come in stage order: nurse columns, patient columns, patient limit, IV balance. */
  lemma ErrorsInStageOrder(nt: NurseTable, pt: PatientTable)
    requires Validate(nt, pt).Completed?
    ensures var errs := Validate(nt, pt).errors;
      forall a, b :: 0 <= a < b < |errs| ==> Stage(errs[a]) <= Stage(errs[b])
  {
    var nm := MissingColumns(REQUIRED_NURSE_COLUMNS, nt.columns);
    var pm := MissingColumns(REQUIRED_PATIENT_COLUMNS, pt.columns);
    TailInStage(nt, pt);
    LayoutStages(Validate(nt, pt).errors, nm, pm, LimitErrors(pt) + BalanceErrors(nt, pt));
  }

  /** The columns named by the errors about one sheet, in list order. */
  function ColumnsNamed(errs: seq<ValidationError>, sheet: Sheet): seq<Column> {
    if errs == [] then []
    else
      var last := errs[|errs| - 1];
      ColumnsNamed(errs[..|errs| - 1], sheet) + if last.MissingColumn? && last.sheet == sheet then [last.column] else []
  }

  /** ColumnsNamed of a laid-out list gives back the two column lists. */
  lemma {:induction false} ColumnsNamedOfLayout(nm: seq<Column>, pm: seq<Column>, tail: seq<ValidationError>)
    requires forall k :: 0 <= k < |tail| ==> Stage(tail[k]) >= 2
    ensures ColumnsNamed(ColumnErrors(Nurses, nm) + ColumnErrors(Patients, pm) + tail, Nurses) == nm
    ensures ColumnsNamed(ColumnErrors(Nurses, nm) + ColumnErrors(Patients, pm) + tail, Patients) == pm
  {
    ColumnsNamedTail(ColumnErrors(Nurses, nm) + ColumnErrors(Patients, pm), tail, Nurses);
    ColumnsNamedTail(ColumnErrors(Nurses, nm) + ColumnErrors(Patients, pm), tail, Patients);
    ColumnsNamedAppend(ColumnErrors(Nurses, nm), ColumnErrors(Patients, pm), Nurses);
    ColumnsNamedAppend(ColumnErrors(Nurses, nm), ColumnErrors(Patients, pm), Patients);
    ColumnsNamedOfErrors(nm, Nurses, Nurses);
    ColumnsNamedOfErrors(nm, Nurses, Patients);
    ColumnsNamedOfErrors(pm, Patients, Nurses);
    ColumnsNamedOfErrors(pm, Patients, Patients);
  }

  lemma {:induction false} ColumnsNamedAppend(e1: seq<ValidationError>, e2: seq<ValidationError>, sheet: Sheet)
    ensures ColumnsNamed(e1 + e2, sheet) == ColumnsNamed(e1, sheet) + ColumnsNamed(e2, sheet)
    decreases |e2|
  {
    if e2 != [] {
      assert (e1 + e2)[..|e1 + e2| - 1] == e1 + e2[..|e2| - 1];
      ColumnsNamedAppend(e1, e2[..|e2| - 1], sheet);
    } else {
      assert e1 + e2 == e1;
    }
  }

  lemma {:induction false} ColumnsNamedTail(e1: seq<ValidationError>, tail: seq<ValidationError>, sheet: Sheet)
    requires forall k :: 0 <= k < |tail| ==> Stage(tail[k]) >= 2
    ensures ColumnsNamed(e1 + tail, sheet) == ColumnsNamed(e1, sheet)
    decreases |tail|
  {
    if tail != [] {
      assert (e1 + tail)[..|e1 + tail| - 1] == e1 + tail[..|tail| - 1];
      ColumnsNamedTail(e1, tail[..|tail| - 1], sheet);
    } else {
      assert e1 + tail == e1;
    }
  }

  lemma {:induction false} ColumnsNamedOfErrors(cols: seq<Column>, sheet: Sheet, asked: Sheet)
    ensures ColumnsNamed(ColumnErrors(sheet, cols), asked) == if sheet == asked then cols else []
    decreases |cols|
  {
    if cols != [] {
      var init := cols[..|cols| - 1];
      assert ColumnErrors(sheet, cols)[..|cols| - 1] == ColumnErrors(sheet, init);
      ColumnsNamedOfErrors(init, sheet, asked);
    }
  }

  /**
   * The columns that the errors about the nurse sheet name, read in list
   * order, are exactly its absent required columns, in the order of the
   * required list and each once.
   */
  lemma NurseErrorsFollowRequiredOrder(nt: NurseTable, pt: PatientTable)
    requires Validate(nt, pt).Completed?
    ensures FollowsOrder(ColumnsNamed(Validate(nt, pt).errors, Nurses), REQUIRED_NURSE_COLUMNS)
    ensures forall c :: c in ColumnsNamed(Validate(nt, pt).errors, Nurses) <==>
      c in REQUIRED_NURSE_COLUMNS && c !in nt.columns
  {
    var nm := MissingColumns(REQUIRED_NURSE_COLUMNS, nt.columns);
    var pm := MissingColumns(REQUIRED_PATIENT_COLUMNS, pt.columns);
    TailInStage(nt, pt);
    var tail := LimitErrors(pt) + BalanceErrors(nt, pt);
    assert Validate(nt, pt).errors == ColumnErrors(Nurses, nm) + ColumnErrors(Patients, pm) + tail;
    ColumnsNamedOfLayout(nm, pm, tail);
    RequiredColumnsDistinct();
    MissingColumnsOrdered(REQUIRED_NURSE_COLUMNS, nt.columns);
  }

  /** The same for the patient sheet. */
  lemma PatientErrorsFollowRequiredOrder(nt: NurseTable, pt: PatientTable)
    requires Validate(nt, pt).Completed?
    ensures FollowsOrder(ColumnsNamed(Validate(nt, pt).errors, Patients), REQUIRED_PATIENT_COLUMNS)
    ensures forall c :: c in ColumnsNamed(Validate(nt, pt).errors, Patients) <==>
      c in REQUIRED_PATIENT_COLUMNS && c !in pt.columns
  {
    var nm := MissingColumns(REQUIRED_NURSE_COLUMNS, nt.columns);
    var pm := MissingColumns(REQUIRED_PATIENT_COLUMNS, pt.columns);
    TailInStage(nt, pt);
    var tail := LimitErrors(pt) + BalanceErrors(nt, pt);
    assert Validate(nt, pt).errors == ColumnErrors(Nurses, nm) + ColumnErrors(Patients, pm) + tail;
    ColumnsNamedOfLayout(nm, pm, tail);
    RequiredColumnsDistinct();
    MissingColumnsOrdered(REQUIRED_PATIENT_COLUMNS, pt.columns);
  }
}
