// Mull It Over (src/aoc/2024/day_03/puzzle.py): scan corrupted memory for
// `mul(a,b)` instructions, multiply and add them; in part 2 text after a
// `don't()` is switched off until the next `do()`.
module Day03 {
  import opened Common

  /** The shape of a match of `mul\(\d*,\d*\)`: "mul(", digits, ",", digits, ")". */
  predicate IsMulToken(t: string)
  {
    |t| >= 6 && t[..4] == "mul(" && t[|t| - 1] == ')' &&
    exists c :: 4 <= c < |t| - 1 && t[c] == ',' && AllDigits(t[4..c]) && AllDigits(t[c + 1..|t| - 1])
  }

  /**
   * Where a match of the pattern starting at `i` ends, if there is one.  The
   * digit groups are greedy and a digit is never ',' or ')', so the match is
   * unique.
   */
  function MatchEnd(s: string, i: nat): (r: Option<nat>)
    requires i <= |s|
    ensures r.Some? ==> i < r.value <= |s| && IsMulToken(s[i..r.value])
  {
    if !OccursAt(s, "mul(", i) then None
    else
      var a := DigitRun(s, i + 4);
      if i + 4 + a < |s| && s[i + 4 + a] == ',' then
        var b := DigitRun(s, i + 5 + a);
        if i + 5 + a + b < |s| && s[i + 5 + a + b] == ')' then
          MatchShape(s, i, a, b);
          Some(i + 6 + a + b)
        else None
      else None
  }

  lemma MatchShape(s: string, i: nat, a: nat, b: nat)
    requires i + 6 + a + b <= |s| && OccursAt(s, "mul(", i)
    requires AllDigits(s[i + 4..i + 4 + a]) && s[i + 4 + a] == ','
    requires AllDigits(s[i + 5 + a..i + 5 + a + b]) && s[i + 5 + a + b] == ')'
    ensures IsMulToken(s[i..i + 6 + a + b])
  {
    var t := s[i..i + 6 + a + b];
    assert |t| == 6 + a + b;
    assert t[..4] == s[i..i + 4];
    assert t[4 + a] == s[i + 4 + a];
    assert t[5 + a + b] == s[i + 5 + a + b];
    var x, y := t[4..4 + a], s[i + 4..i + 4 + a];
    assert forall k :: 0 <= k < a ==> x[k] == y[k];
    assert x == y;
    var u, v := t[5 + a..5 + a + b], s[i + 5 + a..i + 5 + a + b];
    assert forall k :: 0 <= k < b ==> u[k] == v[k];
    assert u == v;
  }

  /** `re.findall` from index `i`: each match is taken and the scan resumes after it. */
  function FindFrom(s: string, i: nat): (ms: seq<string>)
    requires i <= |s|
    ensures forall k :: 0 <= k < |ms| ==> IsMulToken(ms[k])
    ensures TotalLength(ms) <= |s| - i
    decreases |s| - i
  {
    if i == |s| then []
    else match MatchEnd(s, i)
      case Some(e) =>
        var rest := FindFrom(s, e);
        assert TotalLength([s[i..e]] + rest) == |s[i..e]| + TotalLength(rest) by {
          TotalLengthPrepend(s[i..e], rest);
        }
        [s[i..e]] + rest
      case None => FindFrom(s, i + 1)
  }

  lemma {:induction false} TotalLengthPrepend(x: string, xs: seq<string>)
    ensures TotalLength([x] + xs) == |x| + TotalLength(xs)
  {
    if xs != [] {
      assert ([x] + xs)[..|[x] + xs| - 1] == [x] + xs[..|xs| - 1];
      TotalLengthPrepend(x, xs[..|xs| - 1]);
    }
  }

  /**
   * The scan is `re.findall`'s: no match from `i` on gives no result; otherwise
   * the leftmost match comes first and the scan resumes where it ends.
   */
  lemma {:induction false} FindFromLeftmost(s: string, i: nat)
    requires i <= |s|
    ensures SearchFrom(s, i).None? ==> FindFrom(s, i) == []
    ensures SearchFrom(s, i).Some? ==>
      var j := SearchFrom(s, i).value;
      var e := MatchEnd(s, j).value;
      FindFrom(s, i) == [s[j..e]] + FindFrom(s, e)
    decreases |s| - i
  {
    if i < |s| && MatchEnd(s, i).None? {
      FindFromLeftmost(s, i + 1);
    }
  }

  /** `find_matches_in_str`: the non-overlapping matches, left to right. */
  function FindMatchesInStr(s: string): (ms: seq<string>)
    ensures forall k :: 0 <= k < |ms| ==> IsMulToken(ms[k])
    ensures TotalLength(ms) <= |s|
    ensures ms == [] <==> SearchFrom(s, 0).None?
    ensures SearchFrom(s, 0).Some? ==>
      var j := SearchFrom(s, 0).value;
      var e := MatchEnd(s, j).value;
      ms == [s[j..e]] + FindFrom(s, e)
  {
    FindFromLeftmost(s, 0);
    FindFrom(s, 0)
  }

  /** The first index from `i` at which the pattern matches (`re.search`). */
  function SearchFrom(s: string, i: nat): (r: Option<nat>)
    requires i <= |s|
    ensures r.Some? ==> i <= r.value < |s| && MatchEnd(s, r.value).Some?
    ensures r.Some? ==> forall k :: i <= k < r.value ==> MatchEnd(s, k).None?
    ensures r.None? ==> forall k :: i <= k < |s| ==> MatchEnd(s, k).None?
    decreases |s| - i
  {
    if i == |s| then None
    else if MatchEnd(s, i).Some? then Some(i)
    else SearchFrom(s, i + 1)
  }

  /**
   * `eval_match`: the product of the first match's two numbers; None without a
   * match; ValueError when a digit group is empty (`int("")`).
   */
  function EvalMatch(t: string): (r: Result<Option<int>>)
    ensures r == Ok(None) <==> SearchFrom(t, 0).None?
    ensures r.Err? ==> r.error == ValueError
  {
    match SearchFrom(t, 0)
    case None => Ok(None)
    case Some(i) =>
      var a := DigitRun(t, i + 4);
      var b := DigitRun(t, i + 5 + a);
      if a == 0 || b == 0 then Err(ValueError)
      else Ok(Some(DecimalValue(t[i + 4..i + 4 + a]) * DecimalValue(t[i + 5 + a..i + 5 + a + b])))
  }

  /** The instruction text for two numbers. */
  function MulText(a: nat, b: nat): string
  {
    "mul(" + ToDecimal(a) + "," + ToDecimal(b) + ")"
  }

  /** Evaluating the text of `mul(a,b)` gives back `a * b`. */
  lemma EvalMulText(a: nat, b: nat)
    ensures EvalMatch(MulText(a, b)) == Ok(Some(a * b))
  {
    var t := MulText(a, b);
    var da, db := ToDecimal(a), ToDecimal(b);
    MulTextLayout(da, db);
    DigitRunOf(t, 4, da);
    DigitRunOf(t, 5 + |da|, db);
    MatchAtStart(t, |da|, |db|);
    EvalAtStart(t, |da|, |db|);
    DecimalRoundTrip(a);
    DecimalRoundTrip(b);
    var x, y := DecimalValue(t[4..4 + |da|]), DecimalValue(t[5 + |da|..5 + |da| + |db|]);
    assert x == a && y == b;
  }

  /** A text laid out as "mul(", `a` digits, ",", `b` digits, ")" matches at its start. */
  lemma MatchAtStart(t: string, a: nat, b: nat)
    requires OccursAt(t, "mul(", 0) && 5 + a + b < |t|
    requires DigitRun(t, 4) == a && t[4 + a] == ','
    requires DigitRun(t, 5 + a) == b && t[5 + a + b] == ')'
    ensures SearchFrom(t, 0) == Some(0)
  {
    assert MatchEnd(t, 0) == Some(6 + a + b);
  }

  /** A match at the start with two non-empty digit groups evaluates to their product. */
  lemma EvalAtStart(t: string, a: nat, b: nat)
    requires SearchFrom(t, 0) == Some(0) && 5 + a + b < |t|
    requires DigitRun(t, 4) == a > 0 && DigitRun(t, 5 + a) == b > 0
    ensures EvalMatch(t) == Ok(Some(DecimalValue(t[4..4 + a]) * DecimalValue(t[5 + a..5 + a + b])))
  {
  }

  lemma MulTextLayout(da: string, db: string)
    requires |da| > 0 && |db| > 0 && AllDigits(da) && AllDigits(db)
    ensures var t := "mul(" + da + "," + db + ")";
      OccursAt(t, "mul(", 0) && |t| == 6 + |da| + |db| &&
      t[4..4 + |da|] == da && t[4 + |da|] == ',' && !IsDigit(t[4 + |da|]) &&
      t[5 + |da|..5 + |da| + |db|] == db && t[5 + |da| + |db|] == ')' && !IsDigit(t[5 + |da| + |db|])
  {
    var t := "mul(" + da + "," + db + ")";
    assert t[..4] == "mul(";
  }

  /** An empty digit group passes the pattern but makes `int("")` raise. */
  lemma EmptyDigitsRaise()
    ensures EvalMatch("mul(,5)") == Err(ValueError)
  {
    var t := "mul(,5)";
    assert OccursAt(t, "mul(", 0) by { assert t[..4] == "mul("; }
    assert DigitRun(t, 4) == 0;
    assert DigitRun(t, 5) == 1 by { assert DigitRun(t, 6) == 0; }
    assert MatchEnd(t, 0).Some?;
  }

  /** `sum` of the evaluated matches; a None in the list would be a TypeError, an error is passed on. */
  function SumEvaluated(ms: seq<string>): Result<int>
  {
    if ms == [] then Ok(0)
    else match SumEvaluated(ms[..|ms| - 1])
      case Err(e) => Err(e)
      case Ok(total) =>
        match EvalMatch(ms[|ms| - 1])
        case Err(e) => Err(e)
        case Ok(None) => Err(TypeError)
        case Ok(Some(v)) => Ok(total + v)
  }

  /** A match of the pattern matches again from its own first character. */
  lemma TokenMatchesAtStart(t: string)
    requires IsMulToken(t)
    ensures SearchFrom(t, 0) == Some(0)
  {
    var c :| 4 <= c < |t| - 1 && t[c] == ',' && AllDigits(t[4..c]) && AllDigits(t[c + 1..|t| - 1]);
    assert t[..4] == "mul(";
    DigitRunOf(t, 4, t[4..c]);
    DigitRunOf(t, c + 1, t[c + 1..|t| - 1]);
    assert MatchEnd(t, 0).Some?;
  }

  /**
   * Summing the evaluated matches never meets a None, which `sum` would
   * reject with TypeError: the only failure is an empty digit group.
   */
  lemma {:induction false} SumOfTokens(ms: seq<string>)
    requires forall k :: 0 <= k < |ms| ==> IsMulToken(ms[k])
    ensures SumEvaluated(ms).Err? ==> SumEvaluated(ms).error == ValueError
  {
    if ms != [] {
      SumOfTokens(ms[..|ms| - 1]);
      TokenMatchesAtStart(ms[|ms| - 1]);
    }
  }

  /** `part1`: the sum over all matches in the memory; it fails only on an empty digit group. */
  function Part1(s: string): (r: Result<int>)
    ensures r.Err? ==> r.error == ValueError
  {
    SumOfTokens(FindMatchesInStr(s));
    SumEvaluated(FindMatchesInStr(s))
  }

  /** `truncate_dont`: the text before the first `don't()`, or all of it. */
  function TruncateDont(s: string): (r: string)
    ensures |r| <= |s| && r == s[..|r|]
    ensures forall k :: !OccursAt(r, "don't()", k)
    ensures |r| < |s| ==> OccursAt(s, "don't()", |r|)
  {
    match FindText(s, "don't()", 0)
    case None =>
      s
    case Some(idx) =>
      var r := s[..idx];
      assert forall k :: OccursAt(r, "don't()", k) ==> OccursAt(s, "don't()", k) by {
        forall k | OccursAt(r, "don't()", k) ensures OccursAt(s, "don't()", k) {
          assert s[k..k + 7] == r[k..k + 7];
        }
      }
      r
  }

  /** The matches `part2` keeps from each piece: those before the piece's first `don't()`. */
  function PieceMatches(pieces: seq<string>): (lists: seq<seq<string>>)
    ensures |lists| == |pieces|
    ensures forall i :: 0 <= i < |pieces| ==> lists[i] == FindMatchesInStr(TruncateDont(pieces[i]))
  {
    if pieces == [] then []
    else [FindMatchesInStr(TruncateDont(pieces[0]))] + PieceMatches(pieces[1..])
  }

  /** `part2`: the matches of each `do()`-separated piece up to its first `don't()`, in order. */
  function Part2Matches(s: string): (ms: seq<string>)
    ensures forall k :: 0 <= k < |ms| ==> IsMulToken(ms[k])
  {
    var lists := PieceMatches(Split(s, "do()"));
    var ms := Flatten(lists);
    forall m | m in ms ensures IsMulToken(m) {
      FlattenMembership(lists, m);
      var i :| 0 <= i < |lists| && m in lists[i];
      var k :| 0 <= k < |lists[i]| && lists[i][k] == m;
    }
    assert forall k :: 0 <= k < |ms| ==> ms[k] in ms;
    ms
  }

  /** Text without a `do()` is switched on up to its first `don't()` and off after it. */
  lemma Part2WithoutDo(s: string)
    requires forall k :: !OccursAt(s, "do()", k)
    ensures Part2Matches(s) == FindMatchesInStr(TruncateDont(s))
  {
    assert FindText(s, "do()", 0).None?;
    assert Split(s, "do()") == [s];
    var lists := PieceMatches([s]);
    assert Flatten(lists) == Flatten(lists[..0]) + lists[0];
  }

  /**
   * At the first `do()` the text is switched on again: what comes before it
   * keeps its matches up to its first `don't()`, and the text after it is
   * handled afresh.
   */
  lemma Part2AtFirstDo(a: string, b: string)
    requires forall k :: !OccursAt(a, "do()", k)
    ensures Part2Matches(a + "do()" + b) == FindMatchesInStr(TruncateDont(a)) + Part2Matches(b)
  {
    var s := a + "do()" + b;
    FirstDo(a, b);
    assert s[..|a|] == a && s[|a| + 4..] == b;
    assert Split(s, "do()") == [a] + Split(b, "do()");
    var pieces := [a] + Split(b, "do()");
    assert pieces[1..] == Split(b, "do()");
    FlattenCons(FindMatchesInStr(TruncateDont(a)), PieceMatches(Split(b, "do()")));
  }

  /** An occurrence of `do()` holds no 'd' after its first character. */
  lemma OnlyLeadingD(s: string, k: nat)
    ensures OccursAt(s, "do()", k) ==> s[k + 1] != 'd' && s[k + 2] != 'd' && s[k + 3] != 'd'
  {
    if OccursAt(s, "do()", k) {
      var w := s[k..k + 4];
      assert w == "do()";
      assert s[k + 1] == w[1] && s[k + 2] == w[2] && s[k + 3] == w[3];
    }
  }

  /** The first `do()` of `a + "do()" + b`, when `a` holds none, is the one after `a`. */
  lemma FirstDo(a: string, b: string)
    requires forall k :: !OccursAt(a, "do()", k)
    ensures FindText(a + "do()" + b, "do()", 0) == Some(|a|)
  {
    var s := a + "do()" + b;
    assert s[|a|..|a| + 4] == "do()";
    forall k | 0 <= k < |a| ensures !OccursAt(s, "do()", k) {
      if k + 4 <= |a| {
        assert !OccursAt(a, "do()", k);
        assert s[..|a|] == a;
        assert s[k..k + 4] == s[..|a|][k..k + 4];
      } else {
        // An occurrence would run into the appended `do()`, whose first
        // character is the only 'd' in it.
        var d := |a| - k;
        assert 1 <= d <= 3 && s[k + d] == 'd';
        OnlyLeadingD(s, k);
      }
    }
    FindTextFirst(s, "do()", |a|);
  }

  /** `part2`: the sum over the kept matches; like `part1` it fails only on an empty digit group. */
  function Part2(s: string): (r: Result<int>)
    ensures r.Err? ==> r.error == ValueError
  {
    SumOfTokens(Part2Matches(s));
    SumEvaluated(Part2Matches(s))
  }

  /** Text without any `don't()` is evaluated by part 2 in the same way as by part 1 when it has no `do()` either. */
  lemma Part2WithoutSwitches(s: string)
    requires forall k :: !OccursAt(s, "don't()", k) && !OccursAt(s, "do()", k)
    ensures Part2Matches(s) == FindMatchesInStr(s)
  {
    assert FindText(s, "do()", 0).None?;
    assert Split(s, "do()") == [s];
    assert FindText(s, "don't()", 0).None?;
    assert TruncateDont(s) == s;
    var lists := PieceMatches([s]);
    assert Flatten(lists) == Flatten(lists[..0]) + lists[0];
  }
}
