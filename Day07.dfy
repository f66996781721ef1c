/**
 * Day 7: can `+` and `*`, placed between the numbers of a line and applied
 * left to right, make the line's target?  `solvable` peels numbers off the
 * end and answers True, False or, when it falls off its last branch, None.
 */
module Day07 {
  import opened Common

  /** What `solvable` returns: Python's True, False or None. */
  datatype Outcome = True | False | Nothing

  /** Python truthiness of an outcome: only True counts. */
  predicate Truthy(o: Outcome) { o == True }

  /** `divisible(x, y)`: `x % y == 0`; a zero divisor raises ZeroDivisionError. */
  function Divisible(x: int, y: int): (r: Result<bool>)
    ensures r.Err? <==> y == 0
    ensures r.Err? ==> r.error == ZeroDivisionError
    ensures r.Ok? ==> (r.value <==> x == (x / y) * y)
  {
    if y == 0 then Err(ZeroDivisionError) else Ok(x % y == 0)
  }

  /**
   * `solvable(x, ys)`.  The quotient `x // y` is only taken when `y` divides
   * `x`, where floor division and Dafny's division agree.
   */
  function Solvable(x: int, ys: seq<int>): (r: Outcome)
    ensures ys == [] ==> r == False
    ensures ys != [] && x == Sum(ys) ==> r == True
    decreases |ys|
  {
    if ys == [] then False
    else if x == Sum(ys) then True
    else
      var y := ys[|ys| - 1];
      var remaining := ys[..|ys| - 1];
      if Truthy(Solvable(x - y, remaining)) then True
      else if y != 0 && Divisible(x, y).value then Solvable(x / y, remaining)
      else Nothing
  }

  /**
   * A single number answers True when it is the target, False when it divides
   * the target, and None otherwise: the fall-through returns None, not False.
   */
  lemma SingleNumber(x: int, y: int)
    ensures Solvable(x, [y]) == if x == y then True else if y != 0 && x % y == 0 then False else Nothing
    ensures Truthy(Solvable(x, [y])) <==> x == y
  {
    assert [y][..0] == [];
    assert Sum([y]) == y;
  }

  /** Every value a left-to-right `+`/`*` evaluation of `ys` can take. */
  function Values(ys: seq<int>): (vs: set<int>)
    requires ys != []
    decreases |ys|
  {
    if |ys| == 1 then {ys[0]}
    else
      var init, y := ys[..|ys| - 1], ys[|ys| - 1];
      (set v | v in Values(init) :: v + y) + (set v | v in Values(init) :: v * y)
  }

  predicate AllPositive(ys: seq<int>)
  {
    forall i :: 0 <= i < |ys| ==> ys[i] > 0
  }

  /** Adding all the numbers is one of the evaluations. */
  lemma {:induction false} SumIsAValue(ys: seq<int>)
    requires ys != []
    ensures Sum(ys) in Values(ys)
    decreases |ys|
  {
    if |ys| == 1 {
      assert ys[..0] == [];
    } else {
      var init := ys[..|ys| - 1];
      SumIsAValue(init);
      var v := Sum(init);
      assert v + ys[|ys| - 1] in (set w | w in Values(init) :: w + ys[|ys| - 1]);
    }
  }

  /** Multiplying by a positive `y` and dividing by it again are inverse. */
  lemma MulDivCancel(v: int, y: int)
    requires y > 0
    ensures (v * y) % y == 0 && (v * y) / y == v
  {
    var q, r := (v * y) / y, (v * y) % y;
    var k := v - q;
    assert k * y == r by {
      assert v * y == q * y + r;
      assert k * y == v * y - q * y;
    }
    MulBound(k, y);
  }

  /** A non-zero multiple of a positive `y` is at least `y` away from zero. */
  lemma MulBound(k: int, y: int)
    requires y > 0
    ensures k > 0 ==> k * y >= y
    ensures k < 0 ==> k * y <= -y
  {
    if k > 0 {
      MulNonNegative(k - 1, y);
      assert k * y == (k - 1) * y + y;
    } else if k < 0 {
      MulNonNegative(-k - 1, y);
      assert k * y == -((-k - 1) * y) - y;
    }
  }

  lemma MulNonNegative(a: int, b: int)
    requires a >= 0 && b >= 0
    ensures a * b >= 0
  {
  }

  /** One `solvable` step: the sum, a subtraction, or an exact division. */
  lemma SolvableStep(x: int, ys: seq<int>)
    requires |ys| >= 2
    ensures var init, y := ys[..|ys| - 1], ys[|ys| - 1];
      Truthy(Solvable(x, ys)) <==>
        x == Sum(ys) || Truthy(Solvable(x - y, init)) ||
        (y != 0 && x % y == 0 && Truthy(Solvable(x / y, init)))
  {
  }

  /** One `Values` step for a positive last number. */
  lemma ValuesStep(x: int, ys: seq<int>)
    requires |ys| >= 2 && ys[|ys| - 1] > 0
    ensures var init, y := ys[..|ys| - 1], ys[|ys| - 1];
      x in Values(ys) <==> x - y in Values(init) || (x % y == 0 && x / y in Values(init))
  {
    var init, y := ys[..|ys| - 1], ys[|ys| - 1];
    if x in (set v | v in Values(init) :: v * y) {
      var v :| v in Values(init) && x == v * y;
      MulDivCancel(v, y);
    }
    if x % y == 0 && x / y in Values(init) {
      var w := x / y;
      assert w * y == x;
      assert w in Values(init);
      assert x in (set v | v in Values(init) :: v * y);
    }
    if x - y in Values(init) {
      var w := x - y;
      assert w + y == x;
      assert x in (set v | v in Values(init) :: v + y);
    }
  }

  /**
   * For positive numbers, `solvable` is truthy exactly when some
   * left-to-right evaluation with `+` and `*` makes the target.
   */
  lemma {:induction false} SolvableIffSomeEvaluation(x: int, ys: seq<int>)
    requires ys != [] && AllPositive(ys)
    ensures Truthy(Solvable(x, ys)) <==> x in Values(ys)
    decreases |ys|
  {
    if |ys| == 1 {
      assert ys == [ys[0]];
      SingleNumber(x, ys[0]);
    } else {
      var init, y := ys[..|ys| - 1], ys[|ys| - 1];
      assert AllPositive(init) by {
        forall i | 0 <= i < |init| ensures init[i] > 0 {
          assert init[i] == ys[i];
        }
      }
      SolvableStep(x, ys);
      ValuesStep(x, ys);
      SolvableIffSomeEvaluation(x - y, init);
      SolvableIffSomeEvaluation(x / y, init);
      if x == Sum(ys) {
        SumIsAValue(ys);
      }
    }
  }

  /**
   * `part1`: the sum of the targets of the solvable lines. Non-negative
   * targets give a non-negative sum; lines without numbers add nothing.
   */
  function Part1(lines: seq<(int, seq<int>)>): (total: int)
    ensures (forall i :: 0 <= i < |lines| ==> lines[i].0 >= 0) ==> total >= 0
    ensures (forall i :: 0 <= i < |lines| ==> lines[i].1 == []) ==> total == 0
  {
    if lines == [] then 0
    else
      var (x, ys) := lines[|lines| - 1];
      Part1(lines[..|lines| - 1]) + (if Truthy(Solvable(x, ys)) then x else 0)
  }

  /** The targets some evaluation of their line's numbers reaches. */
  function ReachableTargets(lines: seq<(int, seq<int>)>): int
  {
    if lines == [] then 0
    else
      var (x, ys) := lines[|lines| - 1];
      ReachableTargets(lines[..|lines| - 1]) + (if ys != [] && x in Values(ys) then x else 0)
  }

  /**
   * With positive numbers on every line, `part1` sums exactly the targets
   * some left-to-right evaluation reaches.
   */
  lemma {:induction false} Part1SumsReachableTargets(lines: seq<(int, seq<int>)>)
    requires forall i :: 0 <= i < |lines| ==> AllPositive(lines[i].1)
    ensures Part1(lines) == ReachableTargets(lines)
  {
    if lines != [] {
      var (x, ys) := lines[|lines| - 1];
      Part1SumsReachableTargets(lines[..|lines| - 1]);
      if ys != [] {
        SolvableIffSomeEvaluation(x, ys);
      }
    }
  }
}
