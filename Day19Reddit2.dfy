/**
 * The cached `count` of src/aoc/yr_2024/day_19/reddit_2.py: the empty
 * design counts once, any other design sums the counts of what each
 * pattern it starts with leaves over. The cache only saves work, so the
 * model leaves it out.
 */
module Day19Reddit2 {
  import opened Common
  import opened Day19

  /**
   * `count(d)`. An empty pattern starts every design, so on a non-empty
   * design it makes `count` call itself on `d` again until Python gives up
   * with RecursionError.
   */
  function Count(d: string, patterns: seq<string>): (r: Result<nat>)
    ensures r.Err? ==> r.error == RecursionError
    ensures "" !in patterns ==> r.Ok?
    decreases |d|, 1
  {
    if d == "" then Ok(1) else CountFrom(d, patterns, 0)
  }

  /** The generator inside `sum`, from pattern `i` on. */
  function CountFrom(d: string, patterns: seq<string>, i: nat): (r: Result<nat>)
    ensures r.Err? ==> r.error == RecursionError
    ensures "" !in patterns ==> r.Ok?
    decreases |d|, 0, |patterns| - i
  {
    if i >= |patterns| then Ok(0)
    else if !StartsWith(d, patterns[i]) then CountFrom(d, patterns, i + 1)
    else if patterns[i] == "" then Err(RecursionError)
    else
      match Count(d[|patterns[i]|..], patterns)
      case Err(e) => Err(e)
      case Ok(here) =>
        match CountFrom(d, patterns, i + 1)
        case Err(e) => Err(e)
        case Ok(later) => Ok(here + later)
  }

  /** `count(d)` is the number of layouts of `d`. */
  lemma {:induction false} CountIsWays(d: string, patterns: seq<string>)
    requires Count(d, patterns).Ok?
    ensures Count(d, patterns).value == Ways(d, patterns)
    decreases |d|, 1
  {
    if d != "" {
      CountFromIsWays(d, patterns, 0);
    }
  }

  lemma {:induction false} CountFromIsWays(d: string, patterns: seq<string>, i: nat)
    requires CountFrom(d, patterns, i).Ok?
    ensures CountFrom(d, patterns, i).value == WaysFrom(d, patterns, i)
    decreases |d|, 0, |patterns| - i
  {
    if i < |patterns| {
      var p := patterns[i];
      CountFromIsWays(d, patterns, i + 1);
      if StartsWith(d, p) && p != "" {
        CountIsWays(d[|p|..], patterns);
      }
    }
  }

  /** With an empty pattern, `count` never returns on a non-empty design. */
  lemma {:induction false} CountLoops(d: string, patterns: seq<string>)
    requires d != "" && "" in patterns
    ensures Count(d, patterns).Err?
    decreases |d|, 1
  {
    CountFromLoops(d, patterns, 0);
  }

  lemma {:induction false} CountFromLoops(d: string, patterns: seq<string>, i: nat)
    requires i <= |patterns| && d != "" && "" in patterns[i..]
    ensures CountFrom(d, patterns, i).Err?
    decreases |d|, 0, |patterns| - i
  {
    var p := patterns[i];
    assert "" in patterns by { assert forall k :: i <= k < |patterns| ==> patterns[k] in patterns; }
    if p != "" {
      assert "" in patterns[i + 1..] by { assert patterns[i..] == [p] + patterns[i + 1..]; }
      if StartsWith(d, p) && d[|p|..] != "" {
        CountLoops(d[|p|..], patterns);
      } else {
        CountFromLoops(d, patterns, i + 1);
      }
    }
  }

  /** `bool(count(d))` says whether `d` can be formed at all. */
  lemma CountSaysFormed(d: string, patterns: seq<string>)
    requires Count(d, patterns).Ok?
    ensures (Count(d, patterns).value > 0) == CanBeFormed(d, patterns)
  {
    CountIsWays(d, patterns);
    WaysPositive(d, patterns);
  }

  /** How many of the counts are non-zero: `sum(map(bool, counts))`. */
  function Truthy(counts: seq<nat>): (r: nat)
    ensures r <= |counts|
  {
    if counts == [] then 0 else Truthy(counts[..|counts| - 1]) + (if counts[|counts| - 1] > 0 then 1 else 0)
  }

  /**
   * The script: `P, _, *D` unpacks the lines (ValueError with fewer than
   * two), the patterns are `P.split(", ")`, and the two printed totals are
   * the number of designs that can be formed and the number of layouts.
   */
  function Solve(lines: seq<string>): (r: Result<(nat, int)>)
    ensures r.Err? <==> |lines| < 2 || ("" in Split(lines[0], ", ") && exists i :: 2 <= i < |lines| && lines[i] != "")
    ensures r.Ok? ==> r.value == (CountFormable(lines[2..], Split(lines[0], ", ")), TotalWays(lines[2..], Split(lines[0], ", ")))
  {
    if |lines| < 2 then Err(ValueError)
    else
      var patterns := Split(lines[0], ", ");
      CountsOutcome(lines);
      match Traverse(d => Count(d, patterns), lines[2..])
      case Err(e) => Err(e)
      case Ok(counts) => Ok((Truthy(counts), Sum(counts)))
  }

  lemma {:induction false} TotalsOfCounts(designs: seq<string>, patterns: seq<string>, counts: seq<nat>)
    requires Traverse(d => Count(d, patterns), designs) == Ok(counts)
    ensures Truthy(counts) == CountFormable(designs, patterns)
    ensures Sum(counts) == TotalWays(designs, patterns)
    decreases |designs|
  {
    if designs != [] {
      var n := |designs| - 1;
      var f := (d: string) => Count(d, patterns);
      TraverseEach(f, designs);
      var init := designs[..n];
      TraverseEach(f, init);
      assert forall i :: 0 <= i < n ==> init[i] == designs[i];
      assert designs == init + [designs[n]];
      TraverseSnoc(f, init, designs[n]);
      var prefix := Traverse(f, init).value;
      assert counts == prefix + [counts[n]];
      TotalsOfCounts(init, patterns, prefix);
      CountSaysFormed(designs[n], patterns);
      CountIsWays(designs[n], patterns);
    }
  }

  /**
   * The counts behind what the script prints: they fail only with an empty
   * pattern and a non-empty design, and otherwise give the number of
   * designs with a layout and the number of layouts of all designs.
   */
  lemma CountsOutcome(lines: seq<string>)
    requires |lines| >= 2
    ensures var r := Traverse(d => Count(d, Split(lines[0], ", ")), lines[2..]);
      (r.Err? <==> "" in Split(lines[0], ", ") && exists i :: 2 <= i < |lines| && lines[i] != "") &&
      (r.Ok? ==> Truthy(r.value) == CountFormable(lines[2..], Split(lines[0], ", ")) &&
                 Sum(r.value) == TotalWays(lines[2..], Split(lines[0], ", ")))
  {
    var patterns := Split(lines[0], ", ");
    var f := (d: string) => Count(d, patterns);
    var designs := lines[2..];
    TraverseEach(f, designs);
    if Traverse(f, designs).Ok? {
      TotalsOfCounts(designs, patterns, Traverse(f, designs).value);
    }
    if "" in patterns && exists i :: 2 <= i < |lines| && lines[i] != "" {
      var i :| 2 <= i < |lines| && lines[i] != "";
      assert designs[i - 2] == lines[i];
      CountLoops(lines[i], patterns);
    }
    if Traverse(f, designs).Err? {
      var i :| 0 <= i < |designs| && f(designs[i]).Err?;
      assert lines[i + 2] == designs[i];
    }
  }
}
