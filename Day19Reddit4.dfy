/**
 * The cached `is_possible(pattern, op)` of src/aoc/yr_2024/day_19/reddit_4.py,
 * run once with `op = any` and once with `op = sum`. The empty pattern is
 * possible under either; any other pattern hands `op` the results for what
 * follows each stripe that starts it. `any` stops at the first true result,
 * `sum` adds them all. The `@cache` decorator only saves work and is left
 * out.
 */
module Day19Reddit4 {
  import opened Common
  import opened Day19
  import Day19Reddit2

  /** The reduction passed as `op`. */
  datatype Op = AnyOp | SumOp

  /**
   * `is_possible(pattern, any)`. An empty stripe starts every pattern and
   * makes the call repeat itself until Python stops it with RecursionError,
   * unless an earlier stripe already made `any` return.
   */
  function PossibleAny(pattern: string, stripes: seq<string>): (r: Result<bool>)
    ensures r.Err? ==> r.error == RecursionError && pattern != ""
    ensures "" !in stripes ==> r.Ok?
    ensures pattern == "" ==> r == Ok(true)
    decreases |pattern|, 1
  {
    if pattern == "" then Ok(true) else AnyFrom(pattern, stripes, 0)
  }

  /** The generator inside `any`, from stripe `i` on, stopping at the first true result. */
  function AnyFrom(pattern: string, stripes: seq<string>, i: nat): (r: Result<bool>)
    ensures r.Err? ==> r.error == RecursionError
    ensures "" !in stripes ==> r.Ok?
    decreases |pattern|, 0, |stripes| - i
  {
    if i >= |stripes| then Ok(false)
    else if !StartsWith(pattern, stripes[i]) then AnyFrom(pattern, stripes, i + 1)
    else if stripes[i] == "" then Err(RecursionError)
    else
      match PossibleAny(pattern[|stripes[i]|..], stripes)
      case Err(e) => Err(e)
      case Ok(found) => if found then Ok(true) else AnyFrom(pattern, stripes, i + 1)
  }

  /**
   * `is_possible(pattern, sum)` is the recurrence of `count` in
   * src/aoc/yr_2024/day_19/reddit_2.py (`not pattern` gives True, which
   * `sum` adds as 1), so it is that function.
   */
  function PossibleSum(pattern: string, stripes: seq<string>): (r: Result<nat>)
  {
    Day19Reddit2.Count(pattern, stripes)
  }

  /** `is_possible(pattern, op)` as the number the outer `sum` adds: a bool counts 0 or 1. */
  function IsPossible(pattern: string, op: Op, stripes: seq<string>): (r: Result<nat>)
  {
    match op
    case AnyOp => (match PossibleAny(pattern, stripes)
                   case Err(e) => Err(e)
                   case Ok(b) => Ok(if b then 1 else 0))
    case SumOp => PossibleSum(pattern, stripes)
  }

  /** Under `any` the result says whether the pattern can be laid out with the stripes. */
  lemma {:induction false} PossibleAnyIsFormed(pattern: string, stripes: seq<string>)
    requires PossibleAny(pattern, stripes).Ok?
    ensures PossibleAny(pattern, stripes).value == CanBeFormed(pattern, stripes)
    decreases |pattern|, 1
  {
    if pattern != "" {
      AnyFromIsFormed(pattern, stripes, 0);
    }
  }

  lemma {:induction false} AnyFromIsFormed(pattern: string, stripes: seq<string>, i: nat)
    requires AnyFrom(pattern, stripes, i).Ok?
    ensures AnyFrom(pattern, stripes, i).value == FormedFrom(pattern, stripes, i)
    decreases |pattern|, 0, |stripes| - i
  {
    if i < |stripes| {
      var t := stripes[i];
      RemovePrefixChanges(pattern, t);
      if !StartsWith(pattern, t) {
        AnyFromIsFormed(pattern, stripes, i + 1);
      } else {
        PossibleAnyIsFormed(pattern[|t|..], stripes);
        if !PossibleAny(pattern[|t|..], stripes).value {
          AnyFromIsFormed(pattern, stripes, i + 1);
        }
      }
    }
  }

  /** Under `sum` the result is the number of ways to lay the pattern out. */
  lemma PossibleSumIsWays(pattern: string, stripes: seq<string>)
    requires PossibleSum(pattern, stripes).Ok?
    ensures PossibleSum(pattern, stripes).value == Ways(pattern, stripes)
    ensures PossibleSum(pattern, stripes).value > 0 <==> CanBeFormed(pattern, stripes)
  {
    Day19Reddit2.CountIsWays(pattern, stripes);
    WaysPositive(pattern, stripes);
  }

  /** The empty pattern is possible under either reduction. */
  lemma EmptyPossible(op: Op, stripes: seq<string>)
    ensures IsPossible("", op, stripes) == Ok(1)
  {
  }

  /** The number `is_possible(pattern, op)` adds to the printed total. */
  lemma IsPossibleMeans(pattern: string, op: Op, stripes: seq<string>)
    requires IsPossible(pattern, op, stripes).Ok?
    ensures op == AnyOp ==> IsPossible(pattern, op, stripes).value == (if CanBeFormed(pattern, stripes) then 1 else 0)
    ensures op == SumOp ==> IsPossible(pattern, op, stripes).value == Ways(pattern, stripes)
  {
    if op == AnyOp {
      PossibleAnyIsFormed(pattern, stripes);
    } else {
      PossibleSumIsWays(pattern, stripes);
    }
  }

  /** The two printed totals: `sum(is_possible(pattern, op) for pattern in patterns)`. */
  function Total(patterns: seq<string>, op: Op, stripes: seq<string>): (r: Result<nat>)
    decreases |patterns|
  {
    if patterns == [] then Ok(0)
    else
      match Total(patterns[..|patterns| - 1], op, stripes)
      case Err(e) => Err(e)
      case Ok(before) =>
        match IsPossible(patterns[|patterns| - 1], op, stripes)
        case Err(e) => Err(e)
        case Ok(n) => Ok(before + n)
  }

  lemma {:induction false} TotalMeans(patterns: seq<string>, op: Op, stripes: seq<string>)
    requires Total(patterns, op, stripes).Ok?
    ensures op == AnyOp ==> Total(patterns, op, stripes).value == CountFormable(patterns, stripes)
    ensures op == SumOp ==> Total(patterns, op, stripes).value == TotalWays(patterns, stripes)
    decreases |patterns|
  {
    if patterns != [] {
      TotalMeans(patterns[..|patterns| - 1], op, stripes);
      IsPossibleMeans(patterns[|patterns| - 1], op, stripes);
    }
  }

  lemma {:induction false} TotalDefined(patterns: seq<string>, op: Op, stripes: seq<string>)
    requires "" !in stripes
    ensures Total(patterns, op, stripes).Ok?
    decreases |patterns|
  {
    if patterns != [] {
      TotalDefined(patterns[..|patterns| - 1], op, stripes);
    }
  }

  /**
   * The script on the lines of its input: `stripes, _, *patterns = ls`
   * (ValueError with fewer than two lines), `stripes.split(", ")`, then one
   * printed total for `any` and one for `sum`.
   */
  function Script(ls: seq<string>): (r: Result<(nat, nat)>)
    ensures |ls| < 2 ==> r == Err(ValueError)
    ensures |ls| >= 2 && "" !in Split(ls[0], ", ") ==> r.Ok?
    ensures r.Ok? ==> r.value == (CountFormable(ls[2..], Split(ls[0], ", ")), TotalWays(ls[2..], Split(ls[0], ", ")))
  {
    if |ls| < 2 then Err(ValueError)
    else
      var stripes := Split(ls[0], ", ");
      TotalsOutcome(ls[2..], stripes);
      match Total(ls[2..], AnyOp, stripes)
      case Err(e) => Err(e)
      case Ok(formable) =>
        match Total(ls[2..], SumOp, stripes)
        case Err(e) => Err(e)
        case Ok(ways) => Ok((formable, ways))
  }

  /**
   * Both totals: the number of patterns that can be laid out and the number
   * of ways in all; without an empty stripe neither fails.
   */
  lemma TotalsOutcome(patterns: seq<string>, stripes: seq<string>)
    ensures Total(patterns, AnyOp, stripes).Ok? ==> Total(patterns, AnyOp, stripes).value == CountFormable(patterns, stripes)
    ensures Total(patterns, SumOp, stripes).Ok? ==> Total(patterns, SumOp, stripes).value == TotalWays(patterns, stripes)
    ensures "" !in stripes ==> Total(patterns, AnyOp, stripes).Ok? && Total(patterns, SumOp, stripes).Ok?
  {
    if Total(patterns, AnyOp, stripes).Ok? {
      TotalMeans(patterns, AnyOp, stripes);
    }
    if Total(patterns, SumOp, stripes).Ok? {
      TotalMeans(patterns, SumOp, stripes);
    }
    if "" !in stripes {
      TotalDefined(patterns, AnyOp, stripes);
      TotalDefined(patterns, SumOp, stripes);
    }
  }

  /** `any` stops at the first success: an empty stripe listed after a stripe that works does no harm. */
  lemma AnyShortCircuits()
    ensures PossibleAny("ab", ["ab", ""]) == Ok(true)
    ensures Day19Reddit2.Count("ab", ["ab", ""]).Err?
  {
    assert StartsWith("ab", "ab");
    assert "ab"[2..] == "";
    Day19Reddit2.CountLoops("ab", ["ab", ""]);
  }
}
