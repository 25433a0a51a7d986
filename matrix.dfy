/**
 * The 0/1 assignment matrix x[i][j] (nurse i takes patient j) and the sums
 * the constraint set and the statistics take over it: per-row counts and
 * weighted sums, per-column counts, and the double-counting identity that
 * relates summing row by row to summing column by column.
 */
module Matrix {
  import opened Records

  /** `x` has one row per nurse and one column per patient. */
  predicate Shaped(x: seq<seq<bool>>, n: nat, m: nat) {
    |x| == n && forall i :: 0 <= i < n ==> |x[i]| == m
  }

  /** Number of selected entries of a row. */
  function Count(r: seq<bool>): (k: nat)
    ensures k <= |r|
  {
    if r == [] then 0 else Count(r[..|r| - 1]) + (if r[|r| - 1] then 1 else 0)
  }

  /** The sum of `f` over the patients selected by row `r`. */
  function Weighted(r: seq<bool>, ps: seq<Patient>, f: Patient -> int): int
    requires |r| == |ps|
  {
    if r == [] then 0
    else Weighted(r[..|r| - 1], ps[..|ps| - 1], f) + (if r[|r| - 1] then f(ps[|ps| - 1]) else 0)
  }

  /** The number of selected entries of the whole matrix (`total_assigned`). */
  function Total(x: seq<seq<bool>>): nat {
    if x == [] then 0 else Total(x[..|x| - 1]) + Count(x[|x| - 1])
  }

  /** The row sums of `Weighted`, added over all nurses. */
  function SumRows(x: seq<seq<bool>>, ps: seq<Patient>, f: Patient -> int): int
    requires forall i :: 0 <= i < |x| ==> |x[i]| == |ps|
  {
    if x == [] then 0 else SumRows(x[..|x| - 1], ps, f) + Weighted(x[|x| - 1], ps, f)
  }

  /** Number of nurses that column `j` selects. */
  function ColCount(x: seq<seq<bool>>, j: nat): (k: nat)
    requires forall i :: 0 <= i < |x| ==> j < |x[i]|
    ensures k <= |x|
  {
    if x == [] then 0 else ColCount(x[..|x| - 1], j) + (if x[|x| - 1][j] then 1 else 0)
  }

  /** The weight of each of the first `m` patients times the number of nurses that select it. */
  function SumCols(x: seq<seq<bool>>, ps: seq<Patient>, f: Patient -> int, m: nat): int
    requires m <= |ps|
    requires forall i :: 0 <= i < |x| ==> |x[i]| == |ps|
  {
    if m == 0 then 0 else SumCols(x, ps, f, m - 1) + ColCount(x, m - 1) * f(ps[m - 1])
  }

  /** Counting a row is weighting it by One. */
  lemma {:induction false} WeightedOne(r: seq<bool>, ps: seq<Patient>)
    requires |r| == |ps|
    ensures Weighted(r, ps, One) == Count(r)
  {
    if r != [] {
      WeightedOne(r[..|r| - 1], ps[..|ps| - 1]);
    }
  }

  /** A row selects at most as many IV patients as patients, and a non-negative number of them. */
  lemma {:induction false} WeightedIvBounded(r: seq<bool>, ps: seq<Patient>)
    requires |r| == |ps|
    ensures 0 <= Weighted(r, ps, IvWeight) <= Count(r)
  {
    if r != [] {
      WeightedIvBounded(r[..|r| - 1], ps[..|ps| - 1]);
    }
  }

  /** A row that selects only patients of weight zero has weighted sum zero. */
  lemma {:induction false} WeightedZero(r: seq<bool>, ps: seq<Patient>, f: Patient -> int)
    requires |r| == |ps|
    requires forall j :: 0 <= j < |r| && r[j] ==> f(ps[j]) == 0
    ensures Weighted(r, ps, f) == 0
  {
    if r != [] {
      WeightedZero(r[..|r| - 1], ps[..|ps| - 1], f);
    }
  }

  /** A row selects nothing exactly when its count is zero. */
  lemma {:induction false} CountZero(r: seq<bool>)
    ensures Count(r) == 0 <==> forall j :: 0 <= j < |r| ==> !r[j]
  {
    if r != [] {
      CountZero(r[..|r| - 1]);
      assert forall j :: 0 <= j < |r| - 1 ==> r[..|r| - 1][j] == r[j];
    }
  }

  /** The total is the row count summed over the nurses. */
  lemma {:induction false} TotalIsSumOfOnes(x: seq<seq<bool>>, ps: seq<Patient>)
    requires forall i :: 0 <= i < |x| ==> |x[i]| == |ps|
    ensures Total(x) == SumRows(x, ps, One)
  {
    if x != [] {
      TotalIsSumOfOnes(x[..|x| - 1], ps);
      WeightedOne(x[|x| - 1], ps);
    }
  }

  /** A column selects no nurse exactly when its count is zero. */
  lemma {:induction false} ColCountZero(x: seq<seq<bool>>, j: nat)
    requires forall i :: 0 <= i < |x| ==> j < |x[i]|
    ensures ColCount(x, j) == 0 <==> forall i :: 0 <= i < |x| ==> !x[i][j]
  {
    if x != [] {
      ColCountZero(x[..|x| - 1], j);
    }
  }

  /** With no nurses, no patient is counted. */
  lemma {:induction false} SumColsOfNoRows(ps: seq<Patient>, f: Patient -> int, m: nat)
    requires m <= |ps|
    ensures SumCols([], ps, f, m) == 0
  {
    if m > 0 {
      SumColsOfNoRows(ps, f, m - 1);
    }
  }

  /** Taking the last row off the matrix takes its weighted sum off the column sums. */
  lemma {:induction false} SumColsSplitLastRow(x: seq<seq<bool>>, ps: seq<Patient>, f: Patient -> int, m: nat)
    requires x != [] && m <= |ps|
    requires forall i :: 0 <= i < |x| ==> |x[i]| == |ps|
    ensures SumCols(x, ps, f, m) ==
      SumCols(x[..|x| - 1], ps, f, m) + Weighted(x[|x| - 1][..m], ps[..m], f)
  {
    var r := x[|x| - 1];
    if m > 0 {
      SumColsSplitLastRow(x, ps, f, m - 1);
      assert r[..m][..m - 1] == r[..m - 1];
      assert ps[..m][..m - 1] == ps[..m - 1];
      var c := ColCount(x[..|x| - 1], m - 1);
      var b := if r[m - 1] then 1 else 0;
      assert ColCount(x, m - 1) == c + b;
      assert (c + b) * f(ps[m - 1]) == c * f(ps[m - 1]) + b * f(ps[m - 1]);
    }
  }

  /** Double counting: summing the matrix row by row equals summing it column by column. */
  lemma {:induction false} RowsEqualCols(x: seq<seq<bool>>, ps: seq<Patient>, f: Patient -> int)
    requires forall i :: 0 <= i < |x| ==> |x[i]| == |ps|
    ensures SumRows(x, ps, f) == SumCols(x, ps, f, |ps|)
  {
    if x == [] {
      SumColsOfNoRows(ps, f, |ps|);
    } else {
      RowsEqualCols(x[..|x| - 1], ps, f);
      SumColsSplitLastRow(x, ps, f, |ps|);
      assert x[|x| - 1][..|ps|] == x[|x| - 1];
      assert ps[..|ps|] == ps;
    }
  }

  /** When every column selects exactly one nurse, each patient's weight is counted once. */
  lemma {:induction false} SumColsOnce(x: seq<seq<bool>>, ps: seq<Patient>, f: Patient -> int, m: nat)
    requires m <= |ps|
    requires forall i :: 0 <= i < |x| ==> |x[i]| == |ps|
    requires forall j :: 0 <= j < m ==> ColCount(x, j) == 1
    ensures SumCols(x, ps, f, m) == SumAll(ps[..m], f)
  {
    if m > 0 {
      SumColsOnce(x, ps, f, m - 1);
      assert ps[..m][..m - 1] == ps[..m - 1];
    }
  }

  /** When every column selects exactly one nurse, the row sums add up to the sum over all patients. */
  lemma SumRowsOnce(x: seq<seq<bool>>, ps: seq<Patient>, f: Patient -> int)
    requires forall i :: 0 <= i < |x| ==> |x[i]| == |ps|
    requires forall j :: 0 <= j < |ps| ==> ColCount(x, j) == 1
    ensures SumRows(x, ps, f) == SumAll(ps, f)
  {
    RowsEqualCols(x, ps, f);
    SumColsOnce(x, ps, f, |ps|);
    assert ps[..|ps|] == ps;
  }

  /** The nurse that a column selecting exactly one nurse selects. */
  function SelectedRow(x: seq<seq<bool>>, j: nat): (i: nat)
    requires forall k :: 0 <= k < |x| ==> j < |x[k]|
    requires ColCount(x, j) == 1
    ensures i < |x| && x[i][j]
    ensures forall k :: 0 <= k < |x| && x[k][j] ==> k == i
  {
    var init := x[..|x| - 1];
    if x[|x| - 1][j] then
      ColCountZero(init, j);
      assert forall k :: 0 <= k < |init| ==> init[k] == x[k];
      |x| - 1
    else
      var i := SelectedRow(init, j);
      assert forall k :: 0 <= k < |init| ==> init[k] == x[k];
      i
  }

  /** Conversely, a column with one selected row and no other has count one. */
  lemma {:induction false} ColCountOne(x: seq<seq<bool>>, j: nat, i: nat)
    requires forall k :: 0 <= k < |x| ==> j < |x[k]|
    requires i < |x| && x[i][j]
    requires forall k :: 0 <= k < |x| && x[k][j] ==> k == i
    ensures ColCount(x, j) == 1
  {
    var init := x[..|x| - 1];
    assert forall k :: 0 <= k < |init| ==> init[k] == x[k];
    if i == |x| - 1 {
      ColCountZero(init, j);
    } else {
      ColCountOne(init, j, i);
    }
  }

  /** Number of rows that select at least one entry. */
  function NursesUsed(x: seq<seq<bool>>): (k: nat)
    ensures k <= |x|
  {
    if x == [] then 0 else NursesUsed(x[..|x| - 1]) + if Count(x[|x| - 1]) > 0 then 1 else 0
  }

  /** No row is used exactly when every row's count is zero. */
  lemma {:induction false} NursesUsedZero(x: seq<seq<bool>>)
    ensures NursesUsed(x) == 0 <==> forall i :: 0 <= i < |x| ==> Count(x[i]) == 0
  {
    if x != [] {
      var init := x[..|x| - 1];
      NursesUsedZero(init);
      assert forall i :: 0 <= i < |init| ==> init[i] == x[i];
    }
  }
}
