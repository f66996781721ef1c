// Red-Nosed Reports (src/aoc/2024/day_02/puzzle.py): a report is safe when its
// levels move strictly one way in steps of 1 to 3; the "problem dampener" also
// accepts a report that becomes safe after removing one level.
module Day02 {
  import opened Common

  /** `calc_diffs`: the differences of neighbouring levels. */
  function CalcDiffs(row: seq<int>): (d: seq<int>)
    ensures |row| > 0 ==> |d| == |row| - 1
    ensures |row| == 0 ==> d == []
    ensures forall i :: 0 <= i < |d| ==> d[i] == row[i + 1] - row[i]
  {
    if |row| <= 1 then [] else seq(|row| - 1, i requires 0 <= i < |row| - 1 => row[i + 1] - row[i])
  }

  /** The differences determine the report from its first level: `row[j] == row[0] + sum(diffs[..j])`. */
  lemma {:induction false} DiffsReconstruct(row: seq<int>, j: nat)
    requires j < |row|
    ensures row[j] == row[0] + Sum(CalcDiffs(row)[..j])
  {
    if j > 0 {
      DiffsReconstruct(row, j - 1);
      var d := CalcDiffs(row);
      assert d[..j] == d[..j - 1] + [d[j - 1]];
      SumAppend(d[..j - 1], [d[j - 1]]);
    }
  }

  /** `crit_1`: all differences positive, or all negative (true for no differences). */
  predicate Crit1(diffs: seq<int>)
  {
    (forall x :: x in diffs ==> x > 0) || (forall x :: x in diffs ==> x < 0)
  }

  /** `crit_2`: every difference has magnitude 1, 2 or 3. */
  predicate Crit2(diffs: seq<int>)
  {
    (forall x :: x in diffs ==> Abs(x) >= 1) && (forall x :: x in diffs ==> Abs(x) <= 3)
  }

  /** `check_criteria`. */
  predicate CheckCriteria(diffs: seq<int>)
  {
    Crit1(diffs) && Crit2(diffs)
  }

  /** Reference definition of a safe report, stated on the levels themselves. */
  predicate Safe(row: seq<int>)
  {
    (forall i :: 0 <= i < |row| - 1 ==> 1 <= row[i + 1] - row[i] <= 3) ||
    (forall i :: 0 <= i < |row| - 1 ==> 1 <= row[i] - row[i + 1] <= 3)
  }

  /** The difference-based criteria accept exactly the safe reports. */
  lemma CriteriaMeanSafe(row: seq<int>)
    ensures CheckCriteria(CalcDiffs(row)) <==> Safe(row)
  {
    if CheckCriteria(CalcDiffs(row)) {
      CriteriaGiveSafe(row);
    }
    if Safe(row) {
      SafeGivesCriteria(row);
    }
  }

  lemma CriteriaGiveSafe(row: seq<int>)
    requires CheckCriteria(CalcDiffs(row))
    ensures Safe(row)
  {
    var d := CalcDiffs(row);
    if forall x :: x in d ==> x > 0 {
      forall i | 0 <= i < |row| - 1 ensures 1 <= row[i + 1] - row[i] <= 3 {
        assert d[i] in d;
      }
    } else {
      forall i | 0 <= i < |row| - 1 ensures 1 <= row[i] - row[i + 1] <= 3 {
        assert d[i] in d;
      }
    }
  }

  lemma SafeGivesCriteria(row: seq<int>)
    requires Safe(row)
    ensures CheckCriteria(CalcDiffs(row))
  {
    var d := CalcDiffs(row);
    if forall i :: 0 <= i < |row| - 1 ==> 1 <= row[i + 1] - row[i] <= 3 {
      assert forall x :: x in d ==> 1 <= x <= 3;
    } else {
      assert forall x :: x in d ==> -3 <= x <= -1;
    }
  }

  /** The report with level `i` removed. */
  function RemoveAt(row: seq<int>, i: nat): (r: seq<int>)
    requires i < |row|
    ensures |r| == |row| - 1
  {
    row[..i] + row[i + 1..]
  }

  /** Some single-level removal makes the report safe. */
  predicate SomeRemovalSafe(row: seq<int>)
  {
    exists i :: 0 <= i < |row| && Safe(RemoveAt(row, i))
  }

  /** Specification of `keep_row_with_damp`: the report itself when it or some one-removal is safe, else None. */
  function Dampened(row: seq<int>): Option<seq<int>>
  {
    if Safe(row) || SomeRemovalSafe(row) then Some(row) else None
  }

  /** The criteria on one removal decide whether that removal is safe. */
  lemma RemovalChecked(row: seq<int>, i: nat, subset: seq<int>)
    requires i < |row| && subset == row[..i] + row[i + 1..]
    ensures CheckCriteria(CalcDiffs(subset)) <==> Safe(RemoveAt(row, i))
    ensures CheckCriteria(CalcDiffs(subset)) ==> SomeRemovalSafe(row)
  {
    CriteriaMeanSafe(subset);
  }

  /** `keep_row_with_damp`: tries the whole report, then every one-level removal, in order. */
  method KeepRowWithDamp(row: seq<int>) returns (r: Option<seq<int>>)
    ensures r.Some? <==> Safe(row) || SomeRemovalSafe(row)
    ensures r.Some? ==> r.value == row
  {
    CriteriaMeanSafe(row);
    if CheckCriteria(CalcDiffs(row)) {
      return Some(row);
    }
    var i := 0;
    while i < |row|
      invariant 0 <= i <= |row|
      invariant NoSafeRemovalBefore(row, i)
    {
      var subset := row[..i] + row[i + 1..];
      RemovalChecked(row, i, subset);
      if CheckCriteria(CalcDiffs(subset)) {
        return Some(row);
      }
      NoSafeRemovalStep(row, i);
      i := i + 1;
    }
    NoSafeRemovalAtAll(row);
    return None;
  }

  /** None of the removals of the first `i` levels is safe. */
  predicate NoSafeRemovalBefore(row: seq<int>, i: nat)
    requires i <= |row|
  {
    forall k :: 0 <= k < i ==> !Safe(RemoveAt(row, k))
  }

  lemma NoSafeRemovalStep(row: seq<int>, i: nat)
    requires i < |row| && NoSafeRemovalBefore(row, i) && !Safe(RemoveAt(row, i))
    ensures NoSafeRemovalBefore(row, i + 1)
  {
  }

  lemma NoSafeRemovalAtAll(row: seq<int>)
    requires NoSafeRemovalBefore(row, |row|)
    ensures !SomeRemovalSafe(row)
  {
  }

  /** `part1`: the number of reports whose differences pass the criteria. */
  function Part1(data: seq<seq<int>>): (n: nat)
    ensures n <= |data|
  {
    if data == [] then 0
    else Part1(data[..|data| - 1]) + (if CheckCriteria(CalcDiffs(data[|data| - 1])) then 1 else 0)
  }

  /** Python truthiness of `keep_row_with_damp`'s result: None and the empty list are both false. */
  predicate Truthy(r: Option<seq<int>>)
  {
    r.Some? && |r.value| > 0
  }

  /** `part2` as written: counts the truthy results, so an empty report is dropped. */
  function Part2(data: seq<seq<int>>): (n: nat)
    ensures n <= |data|
  {
    if data == [] then 0
    else Part2(data[..|data| - 1]) + (if Truthy(Dampened(data[|data| - 1])) then 1 else 0)
  }

  /** An empty report passes part 1 (no differences) but is falsy in part 2, so part 2 counts fewer. */
  lemma EmptyReportDroppedByPart2()
    ensures Part1([[]]) == 1 && Part2([[]]) == 0
  {
    var data: seq<seq<int>> := [[]];
    assert data[..0] == [];
    assert CheckCriteria(CalcDiffs(data[0]));
    assert Dampened(data[0]) == Some([]);
  }

  /** The dampened count as evidently intended: every report that `keep_row_with_damp` keeps. */
  function Part2Kept(data: seq<seq<int>>): (n: nat)
    ensures n <= |data|
  {
    if data == [] then 0
    else Part2Kept(data[..|data| - 1]) + (if Dampened(data[|data| - 1]).Some? then 1 else 0)
  }

  /** Every report that is safe as it stands is kept by the dampener, so the intended part 2 count is at least part 1's. */
  lemma {:induction false} Part2KeptAtLeastPart1(data: seq<seq<int>>)
    ensures Part1(data) <= Part2Kept(data)
  {
    if data != [] {
      Part2KeptAtLeastPart1(data[..|data| - 1]);
      CriteriaMeanSafe(data[|data| - 1]);
    }
  }

  /** On reports that are not empty the written and the intended part 2 agree. */
  lemma {:induction false} Part2AgreesOnNonEmptyReports(data: seq<seq<int>>)
    requires forall i :: 0 <= i < |data| ==> |data[i]| > 0
    ensures Part2(data) == Part2Kept(data)
  {
    if data != [] {
      Part2AgreesOnNonEmptyReports(data[..|data| - 1]);
    }
  }
}
