# BMT nurse–patient assignment: a verified model

This project models the deterministic core of the BMT (bone-marrow
transplant) unit assignment service in `app.py`. The service takes a nurse
table and a patient table and returns an assignment of patients to nurses.
It works in five stages:

- **Input validation** (`validate_input`). It reports the required columns
  that are absent, nurse columns first and then patient columns, each in
  the order of its required list. It reports more than 20 patients, and
  more IV-chemotherapy patients than twice the IV-certified nurses. A
  missing `Chemo_Type` or `Chemo_IV_Cert` column raises a `KeyError`, which
  `optimize_assignments` turns into an "Optimization failed" result.
- **Hard constraints for one pair** (`check_constraints`). These are the
  violations that forbid a nurse from taking a patient, in a fixed order:
  IV without certification, then a vesicant with skill below 2, then acuity
  8 or more with skill below 2.
- **The constraint set handed to the solver**, as the predicate
  `Feasibility.Feasible` over the 0/1 matrix `x[i][j]`:
  - every patient is assigned exactly once;
  - no nurse exceeds `Max_Patients` (the `.get` default of 4 when the
    record has no value);
  - no ineligible pair is selected;
  - a certified nurse takes at most 2 IV patients;
  - at most 20 pairs are selected in total;
  - no nurse takes more than 7 patients. This bound comes from the ratio
    penalty: each nurse's penalty variable ranges over 0..4 and must be at
    least its patient count minus 3.
- **Solution extraction** (`extract_solution`). Builds one record per nurse
  with patients, each holding the nurse's patient list, the patient count,
  the total acuity, the IV count, the ratio status and the continuity
  count. Then computes the summary statistics.
- **Skill tiers of the score** (`calculate_score`). Four branches decide
  which skill term applies to a pair: senior, mid-level, junior or none.
  They carry the integer multipliers 10, 8 and 6.

Modules:

- `Records`: nurse and patient records and the unit constants.
- `Constraints`: `check_constraints`.
- `Scoring`: the terms of `calculate_score`.
- `Validation`: `validate_input`.
- `Matrix`: row, column and weighted sums over the matrix, plus the
  double-counting identity.
- `Feasibility`: the constraint set and its consequences.
- `Extraction`: `extract_solution`.
- `Optimizer`: `optimize_assignments`.

The code that builds lists and results step by step is modelled as methods,
each proved equal to a specification function: `CheckConstraints`,
`AppendMissing`, `ValidateInput`, `CollectPatients`, `ExtractSolution` and
`OptimizeAssignments`. `AppendMissing`, `CollectPatients` and
`ExtractSolution` carry the source's loops. The properties the program promises are proved as
lemmas about those functions.

Tables are modelled as a set of columns plus a sequence of rows. A column
is one of the nine that the check asks for by name, or `OtherColumn(name)`
for any other name. The name's type excludes the nine required names, so
every column name has exactly one encoding, and a set of columns is a set
of names (`Validation.LabelInjective`, `Validation.NamesDetermineColumns`).

Some cells are an `Option`, and what `None` stands for depends on the field:

- For `Vesicant`, `Chemo_Time`, `Last_Nurse`, `Pod`, `Phone_Number` and
  `Pod_Pref`, `None` is the key being absent, i.e. the column missing from
  the whole table, where `.get` returns its default (`None` or `""`).
  A NaN cell in a present column is not modelled: pandas would give
  `NaN == NaN` as false at app.py:66, and `str(NaN)` as `"nan"` at
  app.py:62 and 182.
- For `Max_Patients`, a required column, `None` is an empty cell (see
  "## Left out").

The other cells are plain fields; "## Left out" lists the defaults that
this does not capture.

The solver (OR-tools SCIP) is not modelled. Its answer is a parameter of
`Optimizer.Optimize`: either "no solver could be created", or a status
together with the matrix it chose. The lemmas about successful results
assume `Optimizer.SolverKeepsConstraints`, which says that an answer with
status OPTIMAL or FEASIBLE satisfies the constraint set the code gave it.

Two properties of the code:

- exactly-once is a hard constraint, so an instance the solver cannot
  satisfy gives "No feasible solution found";
- `workload_variance` is the largest total acuity minus the smallest.

## Model

| member | source | states |
|---|---|---|
| Constraints.Violations | app.py:42-55 | each violation is present iff its rule is broken (IV and not certified; vesicant and skill < 2; acuity ≥ 8 and skill < 2), and the list is strictly in report order IV, vesicant, acuity |
| Constraints.CheckConstraints | app.py:42-55 | the appended list equals `Violations` |
| Constraints.InReportOrderBounded | app.py:44-55 | a list strictly in report order has at most 3 entries |
| Constraints.AtMostThreeViolations | app.py:44-55 | a pair has at most 3 violations |
| Constraints.CertifiedNurseNeverIv | app.py:46-47 | a nurse with `Chemo_IV_Cert` = "Y" never gets the IV violation |
| Constraints.ExperiencedNurseOnlyIv | app.py:49-53 | for skill ≥ 2 the list is the single IV violation when that rule is broken, else empty |
| Constraints.EligibleIff | app.py:42-55 | no violation iff (IV ⇒ certified) and (skill < 2 ⇒ not vesicant and acuity < 8) |
| Scoring.Tier | app.py:73-78 | each of the four tiers is chosen iff its own condition holds, so the conditions are mutually exclusive |
| Scoring.TierOrderImmaterial | app.py:73-78 | testing the three conditions in the reverse order chooses the same tier |
| Scoring.MatchedExperiencedTierOnlyIv | app.py:73-76 | a pair in the senior or mid-level tier can be refused only by the IV rule |
| Scoring.JuniorTierNoAcuityViolation | app.py:77-78 | a pair in the junior tier never has the high-acuity violation |
| Scoring.TierPoints | app.py:73-78 | the skill multiplier of a tier is 0 exactly for no match, and at most 10 |
| Scoring.SkillPointsFollowSkill | app.py:69-78 | a pair's skill multiplier is 0 iff no tier matches, and otherwise 2 × skill + 4, i.e. 6, 8, 10 for skill 1, 2, 3 |
| Scoring.ContinuityIff | app.py:62-63 | the continuity term applies iff `Last_Nurse` is the nurse's ID, or `Last_Nurse` is absent and the ID is empty (both read as "") |
| Scoring.SamePodIff | app.py:66-67 | the geography term applies iff both pods are absent, or both are present and equal |
| Records.MaxPatients | app.py:107-109 | a nurse's capacity is its `Max_Patients` value, and 4 when the record holds none |
| Records.CertifiedCountIsFilterSize | app.py:36 | `iv_nurses` is the number of nurse rows whose `Chemo_IV_Cert` is "Y" |
| Records.IvPatientCountIsFilterSize | app.py:35 | `iv_patients` is the number of patient rows whose `Chemo_Type` is "IV" |
| Validation.LabelInjective | app.py:19-36 | two columns have the same name iff they are the same column, so the model's columns compare as the source's name strings do |
| Validation.PresentIffNamed | app.py:21-36 | a column is in a table's column set iff its name is among the table's column names |
| Validation.NamesDetermineColumns | app.py:14-40 | two column sets with the same names are equal, so each table has one encoding |
| Validation.RequiredNamesAreLabels | app.py:19-25 | the names excluded from `OtherColumn` are exactly those of the nine required columns |
| Validation.MissingColumns | app.py:19-28 | a column is listed iff it is required and absent |
| Validation.MissingColumnsOrdered | app.py:19-28 | the absent columns come in the order of the required list, each once |
| Validation.AppendMissing | app.py:20-22 | the loop appends exactly one MissingColumn error per absent required column, in list order |
| Validation.CollectColumnAndLimitErrors | app.py:16-32 | nurse-column errors, then patient-column errors, then the patient-limit error |
| Validation.ValidateInput | app.py:14-40 | the result equals `Validate`, including the KeyError outcomes |
| Validation.RaisesIff | app.py:35-36 | a KeyError is raised iff `Chemo_Type` or `Chemo_IV_Cert` is absent, naming `Chemo_Type` first |
| Validation.RaisesIffNamed | app.py:35-36 | the KeyError is raised iff no patient column is named "Chemo_Type" or no nurse column is named "Chemo_IV_Cert" |
| Validation.ValidationDependsOnNames | app.py:14-40 | tables with the same column names and rows give the same validation result |
| Validation.ErrorsIff | app.py:16-38 | a column error appears iff that required column is absent; "Too many patients" iff count > 20; "Insufficient IV certified nurses" iff IV patients > 2 × certified nurses; the payloads are those counts |
| Validation.ColumnErrorsIff | app.py:19-28 | a MissingColumn error for a sheet appears iff that column is required for the sheet and absent |
| Validation.LimitAndBalanceErrorsIff | app.py:31-38 | the only patient-limit error is "Too many patients" with the patient count, present iff count > 20; the only balance error carries the IV-patient and certified-nurse counts, present iff the balance fails |
| Validation.PassesIff | app.py:14-40 | the list is empty iff every required column is present, there are at most 20 patients, and the IV balance holds |
| Validation.ErrorsInStageOrder | app.py:16-38 | errors come in the order nurse columns, patient columns, patient limit, IV balance |
| Validation.NurseErrorsFollowRequiredOrder | app.py:19-22 | the nurse columns named by the errors are the absent required ones, in required-list order, each once |
| Validation.PatientErrorsFollowRequiredOrder | app.py:25-28 | the same for the patient columns |
| Matrix.RowsEqualCols | app.py:129 | summing the matrix row by row equals summing it column by column, for any patient weight |
| Matrix.SumRowsOnce | app.py:103-104 | when every column selects exactly one nurse, the weighted row sums add up to the weight of all patients |
| Matrix.SelectedRow | app.py:103-104 | a column with exactly one selected entry has a unique selected nurse |
| Matrix.TotalIsSumOfOnes | app.py:129 | `total_assigned` is the sum of the per-nurse counts |
| Matrix.WeightedIvBounded | app.py:124-125 | a nurse's IV count lies between 0 and its patient count |
| Matrix.ColCountOne | app.py:103-104 | a column with one selected nurse and no other has count 1 (the converse of `SelectedRow`) |
| Matrix.NursesUsedZero | app.py:188 | no nurse is used iff every row's count is 0 |
| Feasibility.Feasible | app.py:102-146 | the conjunction of the shape and the six constraints: exactly-once, capacity, safety, IV limit, unit capacity, and the penalty bound |
| Feasibility.EachAssignedOnceIff | app.py:103-104 | constraint 1 holds iff every patient has one selected nurse and no other |
| Feasibility.SafeIff | app.py:111-118 | constraint 3 holds iff every selected pair obeys the three rules of `check_constraints` |
| Feasibility.ExcessBoundIff | app.py:145-146 | a nurse's penalty variable has an admissible value in 0..4 iff the nurse has at most 7 patients |
| Feasibility.FeasibleRowBounded | app.py:106-109 | in a feasible matrix a nurse has at most `Max_Patients` patients and at most 7, so its penalty variable fits |
| Feasibility.FeasibleAssignsEligibleNurse | app.py:103-118 | in a feasible matrix every patient has exactly one nurse, and that pair has no violation |
| Feasibility.OnceTotal | app.py:103-104 | under exactly-once, the number of selected pairs is the number of patients |
| Feasibility.FeasibleWithinUnitCapacity | app.py:128-130 | a feasible matrix selects every patient once, so there are at most 20 patients |
| Feasibility.UnitConstraintIff | app.py:128-130 | given exactly-once, the unit constraint holds iff there are at most 20 patients |
| Feasibility.UncertifiedNoIv | app.py:111-118 | under the safety constraint an uncertified nurse has no IV patient |
| Feasibility.FeasibleIvBalance | app.py:120-126 | a feasible matrix exists only if IV patients ≤ 2 × certified nurses |
| Extraction.CollectPatients | app.py:173-186 | the inner loop builds the row's entries, their total acuity and their IV count |
| Extraction.ExtractSolution | app.py:163-227 | the nested loops and the statistics equal `Extract` |
| Extraction.EntriesCount | app.py:173-183 | a nurse's list has one entry per selected patient |
| Extraction.EntriesAcuity | app.py:184 | `total_acuity` is the acuity sum of the selected patients |
| Extraction.EntriesIv | app.py:185-186 | `iv_chemo_count` is the number of selected IV patients |
| Extraction.EntriesMembership | app.py:173-183 | the list's entries are exactly the entries of the selected patients |
| Extraction.RowAssignmentFacts | app.py:188-201 | patient count = selected patients; total acuity = their acuity sum; IV count ≤ patient count; continuity count ≤ patient count; ratio is ideal iff count ≤ 3 |
| Extraction.EntriesEmptyIff | app.py:188 | a nurse's list is empty iff its row selects nobody |
| Extraction.AssignmentsListed | app.py:167-201 | a nurse has a record iff at least one patient is selected for it; every record has a positive count |
| Extraction.SumPatientCountsIsTotal | app.py:205-213 | the patient counts add up to the selected pairs, and the total acuities to the weighted row sums |
| Extraction.MaxAcuity | app.py:212 | an upper bound of the total acuities that one of them attains |
| Extraction.MinAcuity | app.py:212 | a lower bound of the total acuities that one of them attains |
| Extraction.VarianceIsLargestDifference | app.py:212 | `workload_variance` is the largest difference between two nurses' total acuities, hence ≥ 0 |
| Extraction.RatioCountsBounded | app.py:214-215 | ideal plus maximum ratios ≤ nurses used, with equality iff no nurse has more than 4 patients |
| Extraction.AssignmentsLength | app.py:188-201 | there is one record per nurse whose row selects a patient |
| Extraction.NoAssignmentsIff | app.py:204-221 | the statistics are the error entry iff the matrix selects nothing; otherwise `total_nurses_used` is the number of nurses with a selected patient (> 0) and `total_patients` the number of patient rows |
| Extraction.ExtractAccountsForEveryPatient | app.py:204-216 | under exactly-once, the counts add up to the number of patients, the acuities to the patients' acuity sum, and there are no statistics iff there are no patients |
| Extraction.EveryPatientListed | app.py:173-201 | under exactly-once, every patient's entry appears in the record of the nurse the matrix assigns it to |
| Extraction.FeasibleRatiosCoverNurses | app.py:214-215 | for a feasible matrix with every `Max_Patients` ≤ 4, ideal plus maximum ratios equals nurses used |
| Extraction.FeasibleRecordsWithinLimits | app.py:106-126 | for a feasible matrix, a nurse's record has at most `Max_Patients` patients and at most 7, and at most 2 IV patients if certified, none otherwise |
| Extraction.OverMaximumCountedInNeitherRatio | app.py:199-215 | a nurse with more than 4 patients is marked "maximum" but counted in neither ratio total, so ideal plus maximum ratios fall short of the nurses used |
| Optimizer.OptimizeAssignments | app.py:82-161 | the result equals `Optimize` |
| Optimizer.ValidationFailureSkipsSolver | app.py:86-88 | when validation reports anything, the result is the validation failure or the KeyError failure, whatever the solver would do |
| Optimizer.SolvedOnlyAfterValidation | app.py:86-158 | success iff validation passes, a solver exists and the status is OPTIMAL or FEASIBLE |
| Optimizer.StatusCode | app.py:153-158 | the solver library's status integers, 0 to 6, with 0 and 1 exactly for the two accepted statuses |
| Optimizer.StatusCodeInjective | app.py:155-158 | distinct statuses have distinct codes |
| Optimizer.RejectedStatusReported | app.py:153-158 | "No feasible solution found" iff validation passes and the solver ran without an accepted status; it carries that status's code, between 2 and 6 |
| Optimizer.SolvedReportAccountsForPatients | app.py:155-156 | for a solver that keeps its constraints, a report's patient counts add up to the number of patients (≤ 20), and there are no statistics iff there are no patients |
| Optimizer.FeasibleInstancePassesValidation | app.py:31-38 | when all columns are present and a feasible matrix exists, validation reports nothing |

## Left out

- The Flask routes, JSON parsing and the `PORT` lookup (app.py:229-314). These are HTTP and I/O plumbing.
- The OR-tools SCIP solver itself: variable creation, the objective, the −5 weight of the penalty variables, maximisation, the 30-second limit and `Solve` (app.py:95-99, 132-153). The solver's answer is a parameter instead.
- `solution_value() > 0.5` (app.py:174): the solver's values are given as booleans.
- The floating-point weights and the score value of `calculate_score` (app.py:57-80). The model states which terms apply (`Scoring.Terms`) and the integer tier multipliers (`Scoring.TierPoints`).
- `average_acuity`, `generated_at` and `objective_value` (app.py:213, 217-218). These are floating point, the clock and the solver. The numerator of the average is `Extraction.SumAcuities`.
- `unit_capacity_used` is the text "k/20"; the model keeps only the number k.
- Pandas behaviour: `iloc`, NaN cells in a present column, and type coercion.
- Records.MaxPatients: `Max_Patients` is a required column, so after validation `.get('Max_Patients', 4)` (app.py:108) always finds the key and a missing cell is NaN in pandas. The model's `None`, read as 4, stands for that cell; the solver's treatment of a NaN bound is not modelled.
- The `.get` defaults for `Nurse_ID` (app.py:62), `Acuity` (app.py:71) and `Chemo_Type` (app.py:180) are not modelled: these are required columns, and the model's records always carry a value for them.
- The summary omits `success: True`, which every report carries.
- Exceptions other than the `KeyError` for a missing `Chemo_Type` or `Chemo_IV_Cert` column, such as a non-numeric `Acuity`, are not modelled.
- The skill-level default of 1 in `calculate_score` and `extract_solution` is not modelled: `Skill_Level` is a required column and every nurse record carries one.
- Optimizer.SolvedReportAccountsForPatients: assumes that the solver keeps its constraints (`SolverKeepsConstraints`), because the solver is outside the model.
