// Claw Contraption (src/aoc/yr_2024/day_13/puzzle.py): a claw machine has
// buttons A and B that move the claw by fixed offsets and a prize at D. A move
// (a, b) presses A a times and B b times and wins when a·A + b·B == D; A
// presses cost 3 tokens and B presses 1.
module Day13 {
  import opened Common
  import opened Position

  /** A machine: the offsets of buttons A and B and the prize location D. */
  datatype Machine = Machine(a: Pos, b: Pos, d: Pos)

  /** A move (a, b): press A a times and B b times. */
  type Move = (int, int)

  // ----- parse_coord -----

  /** `s[1:]`: empty for an empty string. */
  function Drop1(s: string): string
  {
    if |s| == 0 then s else s[1..]
  }

  /**
   * `parse_coord`: the text after the first `X` less one sign character,
   * split at `,` into exactly two parts (ValueError otherwise); the second
   * part's text after `Y`, less one character, is the column. Both go through
   * `int()`. A line without `X` or without `Y` after the comma raises IndexError.
   */
  function ParseCoord(line: string): (r: Result<Pos>)
    ensures r.Err? ==> r.error == IndexError || r.error == ValueError
  {
    var xs := Split(line, "X");
    if |xs| < 2 then Err(IndexError)
    else
      var parts := Split(Drop1(xs[1]), ",");
      if |parts| != 2 then Err(ValueError)
      else
        var ys := Split(parts[1], "Y");
        if |ys| < 2 then Err(IndexError)
        else
          var x := PyInt(parts[0]);
          var y := PyInt(Drop1(ys[1]));
          if x.Err? then Err(x.error)
          else if y.Err? then Err(y.error)
          else Ok(Pos(x.value, y.value))
  }

  /** The text `str(n)` holds no `X`, `Y` or `,`. */
  lemma IntTextHasNoSeparators(n: int)
    ensures 'X' !in IntToString(n) && 'Y' !in IntToString(n) && ',' !in IntToString(n)
  {
    var s := IntToString(n);
    assert forall k :: 0 <= k < |s| ==> IsDigit(s[k]) || s[k] == '-';
  }

  lemma SplitAtX(tag: string, c1: char, sx: string, tail: string)
    requires 'X' !in tag && c1 != 'X' && 'X' !in sx && 'X' !in tail
    ensures Split(tag + "X" + ([c1] + sx + [','] + tail), "X") == [tag, [c1] + sx + [','] + tail]
  {
    var rest := [c1] + sx + [','] + tail;
    assert 'X' !in rest;
    assert tag + "X" + rest == tag + ['X'] + rest;
    SplitOnce(tag, 'X', rest);
  }

  lemma SplitAtComma(c1: char, sx: string, tail: string)
    requires ',' !in sx && ',' !in tail
    ensures Split(Drop1([c1] + sx + [','] + tail), ",") == [sx, tail]
  {
    assert Drop1([c1] + sx + [','] + tail) == sx + [','] + tail;
    SplitOnce(sx, ',', tail);
  }

  lemma SplitAtY(c2: char, sy: string)
    requires c2 != 'Y' && 'Y' !in sy
    ensures Split(" Y" + [c2] + sy, "Y") == [" ", [c2] + sy]
  {
    assert " Y" + [c2] + sy == " " + ['Y'] + ([c2] + sy);
    SplitOnce(" ", 'Y', [c2] + sy);
  }

  /**
   * A line `<tag>X<c1><x>, Y<c2><y>` parses to Position(x, y) whatever the
   * tag (without `X`) and the sign characters, as in both
   * `Button A: X+69, Y+23` and `Prize: X=18641, Y=10279`.
   */
  lemma ParseCoordRoundTrip(tag: string, c1: char, c2: char, x: int, y: int)
    requires 'X' !in tag && c1 != 'X' && c1 != ','
    requires c2 != 'X' && c2 != ',' && c2 != 'Y'
    ensures ParseCoord(tag + "X" + [c1] + IntToString(x) + ", Y" + [c2] + IntToString(y)) == Ok(Pos(x, y))
  {
    IntTextHasNoSeparators(x);
    IntTextHasNoSeparators(y);
    CoordLineSplits(tag, c1, c2, IntToString(x), IntToString(y));
    PyIntRoundTrip(x);
    PyIntRoundTrip(y);
  }

  /** The three splits `parse_coord` makes of a line `<tag>X<c1><sx>, Y<c2><sy>`. */
  lemma CoordLineSplits(tag: string, c1: char, c2: char, sx: string, sy: string)
    requires 'X' !in tag && c1 != 'X' && c1 != ','
    requires c2 != 'X' && c2 != ',' && c2 != 'Y'
    requires 'X' !in sx && ',' !in sx && 'Y' !in sy && 'X' !in sy && ',' !in sy
    ensures var line := tag + "X" + [c1] + sx + ", Y" + [c2] + sy;
      var tail := " Y" + [c2] + sy;
      Split(line, "X") == [tag, [c1] + sx + [','] + tail] &&
      Split(Drop1([c1] + sx + [','] + tail), ",") == [sx, tail] &&
      Split(tail, "Y") == [" ", [c2] + sy] && Drop1([c2] + sy) == sy
  {
    var tail := " Y" + [c2] + sy;
    var line := tag + "X" + [c1] + sx + ", Y" + [c2] + sy;
    assert line == tag + "X" + ([c1] + sx + [','] + tail);
    SplitAtX(tag, c1, sx, tail);
    SplitAtComma(c1, sx, tail);
    SplitAtY(c2, sy);
    assert Drop1([c2] + sy) == sy;
  }

  lemma ButtonText()
    ensures "Button A: X+69, Y+23" == "Button A: " + "X" + ['+'] + IntToString(69) + ", Y" + ['+'] + IntToString(23)
  {
    assert IntToString(69) == "69" && IntToString(23) == "23";
  }

  lemma PrizeText()
    ensures "Prize: X=18641, Y=10279" == "Prize: " + "X" + ['='] + IntToString(18641) + ", Y" + ['='] + IntToString(10279)
  {
    PrizeRowText();
    PrizeColText();
  }

  lemma PrizeRowText()
    ensures IntToString(18641) == "18641"
  {
    assert ToDecimal(186) == "186";
  }

  lemma PrizeColText()
    ensures IntToString(10279) == "10279"
  {
    assert ToDecimal(102) == "102";
  }

  /** The button example of `puzzle_test.py`. */
  lemma ParseCoordButtonExample()
    ensures ParseCoord("Button A: X+69, Y+23") == Ok(Pos(69, 23))
  {
    ButtonText();
    ParseCoordRoundTrip("Button A: ", '+', '+', 69, 23);
  }

  /** The prize example of `puzzle_test.py`. */
  lemma ParseCoordPrizeExample()
    ensures ParseCoord("Prize: X=18641, Y=10279") == Ok(Pos(18641, 10279))
  {
    PrizeText();
    ParseCoordRoundTrip("Prize: ", '=', '=', 18641, 10279);
  }

  // ----- find_all_move_combos -----

  /** `A * a + B * b - D`: where the claw ends up relative to the prize. */
  function Delta(m: Machine, mv: Move): Pos
  {
    Pos(m.a.row * mv.0 + m.b.row * mv.1 - m.d.row, m.a.col * mv.0 + m.b.col * mv.1 - m.d.col)
  }

  /** A winning move: non-negative press counts that land the claw on the prize. */
  predicate IsSolution(m: Machine, mv: Move)
  {
    0 <= mv.0 && 0 <= mv.1 && Delta(m, mv) == Pos(0, 0)
  }

  /** Some button offset component is 0, so a bound divides by zero. */
  predicate HasZero(m: Machine)
  {
    m.a.row == 0 || m.a.col == 0 || m.b.row == 0 || m.b.col == 0
  }

  /** Both buttons move the claw forward along both axes. */
  predicate Positive(m: Machine)
  {
    m.a.row > 0 && m.a.col > 0 && m.b.row > 0 && m.b.col > 0
  }

  /**
   * `min(D.row // P.row, D.col // P.col) + 1`, the bound on the presses of a
   * button with offset P; ZeroDivisionError when a component of P is 0.
   */
  function PressBound(d: Pos, p: Pos): (r: Result<int>)
    ensures r.Ok? <==> p.row != 0 && p.col != 0
    ensures r.Err? ==> r.error == ZeroDivisionError
  {
    match FloorDiv(d.row, p.row)
    case Err(e) => Err(e)
    case Ok(qr) =>
      match FloorDiv(d.col, p.col)
      case Err(e) => Err(e)
      case Ok(qc) => Ok((if qr <= qc then qr else qc) + 1)
  }

  /** For a button moving forward on both axes, any press count that does not pass the prize is below the bound. */
  lemma PressBoundCovers(d: Pos, p: Pos, k: int)
    requires p.row > 0 && p.col > 0
    requires 0 <= k && k * p.row <= d.row && k * p.col <= d.col
    ensures PressBound(d, p).Ok? && k < PressBound(d, p).value
  {
    BelowQuotient(k, p.row, d.row, FloorDiv(d.row, p.row).value);
    BelowQuotient(k, p.col, d.col, FloorDiv(d.col, p.col).value);
  }

  lemma BelowQuotient(k: int, p: int, d: int, q: int)
    requires p > 0 && k * p <= d < q * p + p
    ensures k <= q
  {
    if k > q {
      MulMono(p, q + 1, k);
      assert false;
    }
  }

  lemma MulMono(x: int, y: int, z: int)
    requires x > 0 && y <= z
    ensures x * y <= x * z
  {
  }

  /** Every winning move presses A less than `aMax` times and B less than `bMax` times. */
  lemma SolutionsWithinBounds(m: Machine, aMax: int, bMax: int, mv: Move)
    requires Positive(m) && PressBound(m.d, m.a) == Ok(aMax) && PressBound(m.d, m.b) == Ok(bMax)
    requires IsSolution(m, mv)
    ensures mv.0 < aMax && mv.1 < bMax
  {
    var (a, b) := mv;
    MulMono(m.b.row, 0, b);
    MulMono(m.b.col, 0, b);
    MulMono(m.a.row, 0, a);
    MulMono(m.a.col, 0, a);
    PressBoundCovers(m.d, m.a, a);
    PressBoundCovers(m.d, m.b, b);
  }

  /** Once the claw passes the prize on an axis, more B presses keep it past. */
  lemma NoSolutionBeyond(m: Machine, a: int, b: int, b2: int)
    requires Positive(m) && b <= b2
    requires Delta(m, (a, b)).row > 0 || Delta(m, (a, b)).col > 0
    ensures !IsSolution(m, (a, b2))
  {
    MulMono(m.b.row, b, b2);
    MulMono(m.b.col, b, b2);
  }

  /** Move order: by A presses, then by B presses. */
  predicate MoveLess(x: Move, y: Move)
  {
    x.0 < y.0 || (x.0 == y.0 && x.1 < y.1)
  }

  predicate Ascending(moves: seq<Move>)
  {
    forall i, j :: 0 <= i < j < |moves| ==> MoveLess(moves[i], moves[j])
  }

  lemma AscendingSnoc(moves: seq<Move>, mv: Move)
    requires Ascending(moves) && forall x :: x in moves ==> MoveLess(x, mv)
    ensures Ascending(moves + [mv])
  {
    var ms := moves + [mv];
    forall i, j | 0 <= i < j < |ms| ensures MoveLess(ms[i], ms[j]) {
      assert ms[i] == moves[i];
      if j == |moves| {
        assert moves[i] in moves;
      } else {
        assert ms[j] == moves[j];
      }
    }
  }

  /**
   * `find_all_move_combos`: tries every a below `a_max` and, for each, b from
   * 0 until `b_max` or until the claw overshoots the prize on an axis. Every
   * move returned wins, in ascending order; when both buttons move forward on
   * both axes, no winning move is missed.
   */
  method FindAllMoveCombos(m: Machine) returns (r: Result<seq<Move>>)
    ensures r.Ok? <==> !HasZero(m)
    ensures r.Err? ==> r.error == ZeroDivisionError
    ensures r.Ok? ==> Ascending(r.value) && forall mv :: mv in r.value ==> IsSolution(m, mv)
    ensures r.Ok? && Positive(m) ==> forall mv :: IsSolution(m, mv) ==> mv in r.value
  {
    var aMax := PressBound(m.d, m.a);
    if aMax.Err? {
      return Err(aMax.error);
    }
    var bMax := PressBound(m.d, m.b);
    if bMax.Err? {
      return Err(bMax.error);
    }
    var validCombos: seq<Move> := [];
    var a := 0;
    while a < aMax.value
      invariant 0 <= a
      invariant Ascending(validCombos)
      invariant forall mv :: mv in validCombos ==> IsSolution(m, mv) && mv.0 < a
      invariant Positive(m) ==> forall mv :: IsSolution(m, mv) && mv.0 < a ==> mv in validCombos
    {
      var b := 0;
      while b < bMax.value
        invariant 0 <= b
        invariant Ascending(validCombos)
        invariant forall mv :: mv in validCombos ==> IsSolution(m, mv) && MoveLess(mv, (a, b))
        invariant Positive(m) ==> forall mv :: IsSolution(m, mv) && MoveLess(mv, (a, b)) ==> mv in validCombos
      {
        var delta := Delta(m, (a, b));
        if delta.row > 0 || delta.col > 0 {
          if Positive(m) {
            forall b2 | b <= b2 ensures !IsSolution(m, (a, b2)) {
              NoSolutionBeyond(m, a, b, b2);
            }
          }
          break;
        }
        if delta.row == 0 && delta.col == 0 {
          AscendingSnoc(validCombos, (a, b));
          validCombos := validCombos + [(a, b)];
        }
        b := b + 1;
      }
      if Positive(m) {
        forall mv | IsSolution(m, mv) && mv.0 < a + 1 ensures mv in validCombos {
          SolutionsWithinBounds(m, aMax.value, bMax.value, mv);
          assert mv.0 < a || MoveLess(mv, (a, b)) || mv.0 == a;
        }
      }
      a := a + 1;
    }
    if Positive(m) {
      forall mv | IsSolution(m, mv) ensures mv in validCombos {
        SolutionsWithinBounds(m, aMax.value, bMax.value, mv);
      }
    }
    return Ok(validCombos);
  }

  // ----- cost_per_combo, cheapest_move_cost -----

  /** `cost_per_combo`: 3 tokens per A press, 1 per B press, so between one and three per press. */
  function CostPerCombo(mv: Move): (c: int)
    ensures mv.0 >= 0 && mv.1 >= 0 ==> mv.0 + mv.1 <= c <= 3 * (mv.0 + mv.1)
    ensures mv.0 >= 0 && mv.1 >= 0 ==> (c == mv.0 + mv.1 <==> mv.0 == 0)
  {
    3 * mv.0 + mv.1
  }

  /** `min` of a non-empty list. */
  function MinOf(xs: seq<int>): (r: int)
    requires |xs| > 0
    ensures r in xs && forall x :: x in xs ==> r <= x
  {
    if |xs| == 1 then xs[0]
    else
      var rest := MinOf(xs[1..]);
      assert forall x :: x in xs ==> x == xs[0] || x in xs[1..];
      if xs[0] <= rest then xs[0] else rest
  }

  /** `c` is the fewest tokens that win the prize, or None when no move wins. */
  ghost predicate IsCheapest(m: Machine, c: Option<int>)
  {
    (c.None? <==> forall mv :: !IsSolution(m, mv)) &&
    (c.Some? ==> (exists mv :: IsSolution(m, mv) && CostPerCombo(mv) == c.value) &&
                 forall mv :: IsSolution(m, mv) ==> c.value <= CostPerCombo(mv))
  }

  /**
   * `cheapest_move_cost`: the least cost among the moves found, or None when
   * there are none (the `if move` filter keeps every move, since a pair is
   * never falsy). For machines whose buttons move forward on both axes this
   * is the cheapest win.
   */
  method CheapestMoveCost(m: Machine) returns (r: Result<Option<int>>)
    ensures r.Ok? <==> !HasZero(m)
    ensures r.Err? ==> r.error == ZeroDivisionError
    ensures r.Ok? && r.value.Some? ==> exists mv :: IsSolution(m, mv) && CostPerCombo(mv) == r.value.value
    ensures r.Ok? && Positive(m) ==> IsCheapest(m, r.value)
  {
    var moves := FindAllMoveCombos(m);
    if moves.Err? {
      return Err(moves.error);
    }
    var ms := moves.value;
    var costs := seq(|ms|, i requires 0 <= i < |ms| => CostPerCombo(ms[i]));
    if |costs| == 0 {
      return Ok(None);
    }
    var c := MinOf(costs);
    var i :| 0 <= i < |costs| && costs[i] == c;
    assert IsSolution(m, ms[i]);
    if Positive(m) {
      forall mv | IsSolution(m, mv) ensures c <= CostPerCombo(mv) {
        var j :| 0 <= j < |ms| && ms[j] == mv;
        assert costs[j] in costs;
      }
    }
    return Ok(Some(c));
  }

  /** The determinant of the two button offsets: non-zero exactly when the buttons are not parallel. */
  function Det(m: Machine): int
  {
    m.a.row * m.b.col - m.a.col * m.b.row
  }

  /** When A and B are not parallel a machine has at most one winning move. */
  lemma SolutionUnique(m: Machine, x: Move, y: Move)
    requires Det(m) != 0 && IsSolution(m, x) && IsSolution(m, y)
    ensures x == y
  {
    var da, db := x.0 - y.0, x.1 - y.1;
    assert m.a.row * da + m.b.row * db == 0;
    assert m.a.col * da + m.b.col * db == 0;
    CramerZero(m.a.row, m.b.row, m.a.col, m.b.col, da, db);
  }

  lemma CramerZero(p: int, q: int, s: int, t: int, u: int, v: int)
    requires p * u + q * v == 0 && s * u + t * v == 0 && p * t - s * q != 0
    ensures u == 0 && v == 0
  {
    assert (p * t - s * q) * u == t * (p * u + q * v) - q * (s * u + t * v);
    assert (p * t - s * q) * v == p * (s * u + t * v) - s * (p * u + q * v);
  }

  /** For non-parallel buttons the cheapest win is the unique one. */
  lemma CheapestOfUnique(m: Machine, mv: Move)
    requires Det(m) != 0 && IsSolution(m, mv)
    ensures IsCheapest(m, Some(CostPerCombo(mv)))
  {
    forall y | IsSolution(m, y) ensures CostPerCombo(mv) <= CostPerCombo(y) {
      SolutionUnique(m, mv, y);
    }
  }

  // ----- part1, modify_d, part2 -----

  /** `sum(cost for cost in costs if cost)`: None and 0 are skipped. */
  function SumPresent(costs: seq<Option<int>>): int
  {
    if costs == [] then 0
    else
      var last := costs[|costs| - 1];
      SumPresent(costs[..|costs| - 1]) + (if last.Some? && last.value != 0 then last.value else 0)
  }

  /**
   * The shared body of `part1` and `part2`: the cheapest cost of every
   * machine, summed over the machines that can be won. The costs are returned
   * as a ghost so the total can be stated over them.
   */
  method TotalCost(machines: seq<Machine>) returns (r: Result<int>, ghost costs: seq<Option<int>>)
    ensures r.Ok? <==> forall i :: 0 <= i < |machines| ==> !HasZero(machines[i])
    ensures r.Err? ==> r.error == ZeroDivisionError
    ensures r.Ok? ==> |costs| == |machines| && r.value == SumPresent(costs)
    ensures r.Ok? ==> forall i :: 0 <= i < |machines| && Positive(machines[i]) ==> IsCheapest(machines[i], costs[i])
  {
    costs := [];
    var total := 0;
    for i := 0 to |machines|
      invariant |costs| == i && total == SumPresent(costs)
      invariant forall j :: 0 <= j < i ==> !HasZero(machines[j])
      invariant forall j :: 0 <= j < i && Positive(machines[j]) ==> IsCheapest(machines[j], costs[j])
    {
      var c := CheapestMoveCost(machines[i]);
      if c.Err? {
        return Err(c.error), costs;
      }
      assert (costs + [c.value])[..i] == costs;
      costs := costs + [c.value];
      if c.value.Some? && c.value.value != 0 {
        total := total + c.value.value;
      }
    }
    return Ok(total), costs;
  }

  /** `part1`: the total over the machines as read. */
  method Part1(machines: seq<Machine>) returns (r: Result<int>, ghost costs: seq<Option<int>>)
    ensures r.Ok? <==> forall i :: 0 <= i < |machines| ==> !HasZero(machines[i])
    ensures r.Ok? ==> |costs| == |machines| && r.value == SumPresent(costs)
    ensures r.Ok? ==> forall i :: 0 <= i < |machines| && Positive(machines[i]) ==> IsCheapest(machines[i], costs[i])
  {
    r, costs := TotalCost(machines);
  }

  /** The amount `modify_d` adds to both coordinates of the prize. */
  const PrizeShift := 10000000000000

  /** `modify_d`: the prize moved by 10^13 on both axes, the buttons kept. */
  function ModifyD(m: Machine): (r: Machine)
    ensures r.a == m.a && r.b == m.b
  {
    Machine(m.a, m.b, Pos(m.d.row + PrizeShift, m.d.col + PrizeShift))
  }

  /** A move wins the modified machine exactly when it overshoots the original prize by 10^13 on both axes. */
  lemma ModifyDSolutions(m: Machine, mv: Move)
    ensures IsSolution(ModifyD(m), mv) <==>
      0 <= mv.0 && 0 <= mv.1 && Delta(m, mv) == Pos(PrizeShift, PrizeShift)
  {
  }

  /** `part2`: the total over the machines with their prizes moved by `modify_d`. */
  method Part2(machines: seq<Machine>) returns (r: Result<int>, ghost costs: seq<Option<int>>)
    ensures r.Ok? <==> forall i :: 0 <= i < |machines| ==> !HasZero(machines[i])
    ensures r.Ok? ==> |costs| == |machines| && r.value == SumPresent(costs)
    ensures r.Ok? ==> forall i :: 0 <= i < |machines| && Positive(machines[i]) ==>
      IsCheapest(ModifyD(machines[i]), costs[i])
  {
    var modified := seq(|machines|, i requires 0 <= i < |machines| => ModifyD(machines[i]));
    assert forall i :: 0 <= i < |machines| ==> modified[i].a == machines[i].a && modified[i].b == machines[i].b;
    r, costs := TotalCost(modified);
  }
}
