// Restroom Redoubt (src/aoc/yr_2024/day_14/puzzle.py): robots move across a
// grid with fixed velocities, wrapping around the edges (Python's `%`); the
// safety factor multiplies the numbers of robots in the four quadrants.
module Day14 {
  import opened Common
  import opened GridPoints

  // ----- Robot.move -----

  /** `(p + steps·v) % n`: a coordinate after `steps` moves on an axis of size `n` that wraps. */
  function Wrapped(p: int, v: int, steps: int, n: int): (r: Result<int>)
    ensures r.Err? <==> n == 0
    ensures r.Err? ==> r.error == ZeroDivisionError
    ensures n > 0 ==> 0 <= r.value < n
  {
    FloorMod(p + steps * v, n)
  }

  /** Moving s steps and then t steps lands where moving s + t steps does. */
  lemma WrappedTwice(p: int, v: int, s: int, t: int, n: int)
    requires n != 0
    ensures Wrapped(Wrapped(p, v, s, n).value, v, t, n) == Wrapped(p, v, s + t, n)
  {
    FloorModAdd(p + s * v, t * v, n);
    assert p + s * v + t * v == p + (s + t) * v;
  }

  /** On a positive axis the wrapped coordinate is on the grid. */
  lemma WrappedInRange(p: int, v: int, steps: int, n: int)
    requires n > 0
    ensures Wrapped(p, v, steps, n).Ok? && 0 <= Wrapped(p, v, steps, n).value < n
  {
  }

  /** A robot: a position that moves by its velocity. */
  class Robot {
    var row: int
    var col: int
    var vrow: int
    var vcol: int

    constructor (row: int, col: int, vrow: int, vcol: int)
      ensures this.row == row && this.col == col && this.vrow == vrow && this.vcol == vcol
    {
      this.row := row;
      this.col := col;
      this.vrow := vrow;
      this.vcol := vcol;
    }

    /** `pos`: the robot's (row, col). */
    function Pos(): Point
      reads this
    {
      (row, col)
    }

    /**
     * `move`: `steps` moves at once, each coordinate wrapped by `%` with the
     * grid's size. A grid with no rows raises ZeroDivisionError before
     * anything changes; one with rows but no columns raises after the row is
     * set. The velocity never changes.
     */
    method Move(grid: Grid<char>, steps: int) returns (r: Result<()>)
      modifies this
      ensures vrow == old(vrow) && vcol == old(vcol)
      ensures r.Ok? <==> grid.rows != 0 && grid.cols != 0
      ensures r.Err? ==> r.error == ZeroDivisionError
      ensures grid.rows != 0 ==> Ok(row) == Wrapped(old(row), vrow, steps, grid.rows)
      ensures grid.rows == 0 ==> row == old(row)
      ensures r.Ok? ==> Ok(col) == Wrapped(old(col), vcol, steps, grid.cols)
      ensures r.Err? ==> col == old(col)
      ensures r.Ok? && grid.rows > 0 && grid.cols > 0 ==> 0 <= row < grid.rows && 0 <= col < grid.cols
    {
      var newRow := row + steps * vrow;
      var newCol := col + steps * vcol;
      var nrows := grid.rows;
      var ncols := grid.cols;
      var wrappedRow := FloorMod(newRow, nrows);
      if wrappedRow.Err? {
        return Err(wrappedRow.error);
      }
      row := wrappedRow.value;
      var wrappedCol := FloorMod(newCol, ncols);
      if wrappedCol.Err? {
        return Err(wrappedCol.error);
      }
      col := wrappedCol.value;
      return Ok(());
    }
  }

  // ----- move_n -----

  /**
   * `move_n`: moves every robot `steps` times in list order and returns the
   * same list. On a grid with a zero dimension the first robot raises
   * ZeroDivisionError and the later ones are untouched.
   */
  method MoveN(grid: Grid<char>, robots: seq<Robot>, steps: int) returns (r: Result<seq<Robot>>)
    requires Distinct(robots)
    modifies set i | 0 <= i < |robots| :: robots[i]
    ensures r.Ok? <==> robots == [] || (grid.rows != 0 && grid.cols != 0)
    ensures r.Err? ==> r.error == ZeroDivisionError
    ensures r.Err? ==> forall i :: 1 <= i < |robots| ==> robots[i].Pos() == old(robots[i].Pos())
    ensures forall i :: 0 <= i < |robots| ==> robots[i].vrow == old(robots[i].vrow) && robots[i].vcol == old(robots[i].vcol)
    ensures r.Ok? ==> r.value == robots
    ensures r.Ok? ==> forall i :: 0 <= i < |robots| ==>
      Ok(robots[i].row) == Wrapped(old(robots[i].row), robots[i].vrow, steps, grid.rows) &&
      Ok(robots[i].col) == Wrapped(old(robots[i].col), robots[i].vcol, steps, grid.cols)
  {
    for i := 0 to |robots|
      invariant i > 0 ==> grid.rows != 0 && grid.cols != 0
      invariant forall j :: 0 <= j < |robots| ==>
        robots[j].vrow == old(robots[j].vrow) && robots[j].vcol == old(robots[j].vcol)
      invariant forall j :: 0 <= j < i ==>
        Ok(robots[j].row) == Wrapped(old(robots[j].row), robots[j].vrow, steps, grid.rows) &&
        Ok(robots[j].col) == Wrapped(old(robots[j].col), robots[j].vcol, steps, grid.cols)
      invariant forall j :: i <= j < |robots| ==> robots[j].Pos() == old(robots[j].Pos())
    {
      var moved := robots[i].Move(grid, steps);
      if moved.Err? {
        return Err(moved.error);
      }
    }
    return Ok(robots);
  }

  // ----- count_per_quadrant, safety_factor -----

  /** `(n - 1) // 2`: the middle row (or column) of an axis of size `n`. */
  function Middle(n: int): int
  {
    FloorDiv(n - 1, 2).value
  }

  /**
   * The quadrant a point falls in, numbered as q1..q4 are: 1 above-left,
   * 2 above-right, 3 below-right, 4 below-left; 0 on the middle row or column.
   */
  function Quadrant(p: Point, midRow: int, midCol: int): nat
  {
    if p.0 < midRow && p.1 < midCol then 1
    else if p.0 < midRow && p.1 > midCol then 2
    else if p.0 > midRow && p.1 > midCol then 3
    else if p.0 > midRow && p.1 < midCol then 4
    else 0
  }

  /** Only the points on the middle row or column fall in no quadrant. */
  lemma QuadrantZero(p: Point, midRow: int, midCol: int)
    ensures Quadrant(p, midRow, midCol) == 0 <==> p.0 == midRow || p.1 == midCol
  {
  }

  /** How many positions of the list fall in quadrant `k`. */
  function CountIn(region: seq<Point>, k: nat, midRow: int, midCol: int): nat
  {
    if region == [] then 0
    else
      var last := region[|region| - 1];
      CountIn(region[..|region| - 1], k, midRow, midCol) + (if Quadrant(last, midRow, midCol) == k then 1 else 0)
  }

  /** The five counts (four quadrants and the middle lines) cover the list once. */
  lemma {:induction false} CountsCoverRegion(region: seq<Point>, midRow: int, midCol: int)
    ensures CountIn(region, 0, midRow, midCol) + CountIn(region, 1, midRow, midCol) + CountIn(region, 2, midRow, midCol)
      + CountIn(region, 3, midRow, midCol) + CountIn(region, 4, midRow, midCol) == |region|
  {
    if region != [] {
      CountsCoverRegion(region[..|region| - 1], midRow, midCol);
    }
  }

  ghost function PickPoint(m: multiset<Point>): Point
    requires m != multiset{}
  {
    var p :| p in m; p
  }

  /** The counts of a Counter's keys that fall in quadrant `k`, summed. */
  ghost function BagCount(m: multiset<Point>, k: nat, midRow: int, midCol: int): nat
    decreases |m|
  {
    if m == multiset{} then 0
    else
      var p := PickPoint(m);
      assert |m[p := 0]| < |m| by {
        MultisetDropKey(m, p);
      }
      (if Quadrant(p, midRow, midCol) == k then m[p] else 0) + BagCount(m[p := 0], k, midRow, midCol)
  }

  lemma MultisetDropKey(m: multiset<Point>, p: Point)
    requires p in m
    ensures |m[p := 0]| < |m|
  {
    var d := m - m[p := 0];
    assert m == m[p := 0] + d;
    assert p in d;
  }

  /** The sum does not depend on which key is taken first. */
  lemma {:induction false} BagCountRemove(m: multiset<Point>, y: Point, k: nat, midRow: int, midCol: int)
    requires y in m
    ensures BagCount(m, k, midRow, midCol) ==
      (if Quadrant(y, midRow, midCol) == k then m[y] else 0) + BagCount(m[y := 0], k, midRow, midCol)
    decreases |m|
  {
    var x := PickPoint(m);
    if x != y {
      var wy := if Quadrant(y, midRow, midCol) == k then m[y] else 0;
      var wx := if Quadrant(x, midRow, midCol) == k then m[x] else 0;
      MultisetDropKey(m, x);
      MultisetDropKey(m, y);
      assert m[x := 0][y := 0] == m[y := 0][x := 0];
      calc {
        BagCount(m, k, midRow, midCol);
        wx + BagCount(m[x := 0], k, midRow, midCol);
        { BagCountRemove(m[x := 0], y, k, midRow, midCol); }
        wx + wy + BagCount(m[x := 0][y := 0], k, midRow, midCol);
        { BagCountRemove(m[y := 0], x, k, midRow, midCol); }
        wy + BagCount(m[y := 0], k, midRow, midCol);
      }
    }
  }

  /** Counting a Counter's entries gives the count over the list it was built from. */
  lemma {:induction false} BagCountOfList(region: seq<Point>, k: nat, midRow: int, midCol: int)
    ensures BagCount(multiset(region), k, midRow, midCol) == CountIn(region, k, midRow, midCol)
  {
    if region != [] {
      var init, x := region[..|region| - 1], region[|region| - 1];
      assert region == init + [x];
      BagCountOfList(init, k, midRow, midCol);
      var m := multiset(init);
      var m2 := m + multiset{x};
      assert multiset(region) == m2;
      BagCountRemove(m2, x, k, midRow, midCol);
      assert m2[x := 0] == m[x := 0];
      if x in m {
        BagCountRemove(m, x, k, midRow, midCol);
      } else {
        assert m[x := 0] == m;
      }
    }
  }

  /**
   * `count_per_quadrant`: builds a Counter of the positions and adds each
   * key's count to its quadrant's total; positions on the middle row or
   * column count nowhere. Each total is the number of list entries in that
   * quadrant.
   */
  method CountPerQuadrant(grid: Grid<char>, region: seq<Point>) returns (q1: nat, q2: nat, q3: nat, q4: nat)
    ensures var mr, mc := Middle(grid.rows), Middle(grid.cols);
      q1 == CountIn(region, 1, mr, mc) && q2 == CountIn(region, 2, mr, mc) &&
      q3 == CountIn(region, 3, mr, mc) && q4 == CountIn(region, 4, mr, mc)
    ensures q1 + q2 + q3 + q4 <= |region|
  {
    var midRow := Middle(grid.rows);
    var midCol := Middle(grid.cols);
    var counts := multiset(region);
    q1, q2, q3, q4 := 0, 0, 0, 0;
    var rest := counts;
    while rest != multiset{}
      invariant forall p :: p in rest ==> rest[p] == counts[p]
      invariant q1 + BagCount(rest, 1, midRow, midCol) == BagCount(counts, 1, midRow, midCol)
      invariant q2 + BagCount(rest, 2, midRow, midCol) == BagCount(counts, 2, midRow, midCol)
      invariant q3 + BagCount(rest, 3, midRow, midCol) == BagCount(counts, 3, midRow, midCol)
      invariant q4 + BagCount(rest, 4, midRow, midCol) == BagCount(counts, 4, midRow, midCol)
      decreases |rest|
    {
      var point :| point in rest;
      var cnt := counts[point];
      BagCountRemove(rest, point, 1, midRow, midCol);
      BagCountRemove(rest, point, 2, midRow, midCol);
      BagCountRemove(rest, point, 3, midRow, midCol);
      BagCountRemove(rest, point, 4, midRow, midCol);
      MultisetDropKey(rest, point);
      var (row, col) := point;
      if row < midRow && col < midCol {
        q1 := q1 + cnt;
      } else if row < midRow && col > midCol {
        q2 := q2 + cnt;
      } else if row > midRow && col > midCol {
        q3 := q3 + cnt;
      } else if row > midRow && col < midCol {
        q4 := q4 + cnt;
      }
      rest := rest[point := 0];
    }
    BagCountOfList(region, 1, midRow, midCol);
    BagCountOfList(region, 2, midRow, midCol);
    BagCountOfList(region, 3, midRow, midCol);
    BagCountOfList(region, 4, midRow, midCol);
    CountsCoverRegion(region, midRow, midCol);
  }

  /** `get_robot_positions`: each robot's (row, col), in list order. */
  function Positions(robots: seq<Robot>): (ps: seq<Point>)
    reads set i | 0 <= i < |robots| :: robots[i]
    ensures |ps| == |robots| && forall i :: 0 <= i < |robots| ==> ps[i] == robots[i].Pos()
  {
    seq(|robots|, i requires 0 <= i < |robots| reads set j | 0 <= j < |robots| :: robots[j] => robots[i].Pos())
  }

  /** The product of the four quadrant counts: never negative, and 0 exactly when a quadrant is empty. */
  function SafetyOf(region: seq<Point>, rows: int, cols: int): (f: int)
    ensures f >= 0
    ensures f == 0 <==> CountIn(region, 1, Middle(rows), Middle(cols)) == 0 || CountIn(region, 2, Middle(rows), Middle(cols)) == 0 ||
                        CountIn(region, 3, Middle(rows), Middle(cols)) == 0 || CountIn(region, 4, Middle(rows), Middle(cols)) == 0
  {
    var a, b := CountIn(region, 1, Middle(rows), Middle(cols)), CountIn(region, 2, Middle(rows), Middle(cols));
    var c, d := CountIn(region, 3, Middle(rows), Middle(cols)), CountIn(region, 4, Middle(rows), Middle(cols));
    ProductOfFour(a, b, c, d);
    a * b * c * d
  }

  lemma ProductOfFour(a: nat, b: nat, c: nat, d: nat)
    ensures a * b * c * d >= 0
    ensures a * b * c * d == 0 <==> a == 0 || b == 0 || c == 0 || d == 0
  {
    if a > 0 && b > 0 && c > 0 && d > 0 {
      assert a * b >= 1;
      assert a * b * c >= 1;
      assert a * b * c * d >= 1;
    }
  }

  /** `safety_factor`: the product of the quadrant counts of the robots' positions. */
  method SafetyFactor(robots: seq<Robot>, grid: Grid<char>) returns (f: int)
    ensures f == SafetyOf(Positions(robots), grid.rows, grid.cols)
    ensures f >= 0
  {
    var q1, q2, q3, q4 := CountPerQuadrant(grid, Positions(robots));
    f := q1 * q2 * q3 * q4;
  }

  /** Every position is a cell of a `rows` × `cols` grid, as `Grid.set` demands. */
  predicate AllOnGrid(ps: seq<Point>, rows: int, cols: int)
  {
    forall p :: p in ps ==> 0 <= p.0 < rows && 0 <= p.1 < cols
  }

  /**
   * `part1`: draws the robots' starting positions on a fresh `rows` × `cols`
   * grid, which raises IndexError for a robot off the grid before anything
   * moves; then moves every robot 100 times and returns the safety factor of
   * where they end up.
   */
  method Part1(robots: seq<Robot>, rows: nat, cols: nat) returns (r: Result<int>)
    requires Distinct(robots)
    modifies set i | 0 <= i < |robots| :: robots[i]
    ensures r.Ok? <==> AllOnGrid(old(Positions(robots)), rows, cols)
    ensures r.Err? ==> r.error == IndexError && Positions(robots) == old(Positions(robots))
    ensures r.Ok? ==> forall i :: 0 <= i < |robots| ==>
      Ok(robots[i].row) == Wrapped(old(robots[i].row), robots[i].vrow, 100, rows) &&
      Ok(robots[i].col) == Wrapped(old(robots[i].col), robots[i].vcol, 100, cols)
    ensures r.Ok? ==> r.value == SafetyOf(Positions(robots), rows, cols)
  {
    if !AllOnGrid(Positions(robots), rows, cols) {
      return Err(IndexError);
    }
    assert robots != [] ==> robots[0].Pos() in Positions(robots);
    var grid := new Grid<char>(rows, cols, '.');
    var moved := MoveN(grid, robots, 100);
    // A robot on the grid means a grid with rows and columns, so `%` never divides by zero.
    assert moved.Ok?;
    var f := SafetyFactor(moved.value, grid);
    return Ok(f);
  }

  // ----- parse_line -----

  /**
   * `re.findall(r"-?\d+", s)`: at each position a `-` followed by a digit
   * starts a signed number, a digit starts an unsigned one, and anything
   * else is skipped.
   */
  function FindInts(s: string): (ts: seq<string>)
    ensures forall t :: t in ts ==> IsIntToken(t)
    decreases |s|
  {
    if s == [] then []
    else if s[0] == '-' && |s| > 1 && IsDigit(s[1]) then
      var n := 1 + DigitRun(s, 1);
      assert s[..n][1..] == s[1..n];
      [s[..n]] + FindInts(s[n..])
    else if IsDigit(s[0]) then
      var n := DigitRun(s, 0);
      [s[..n]] + FindInts(s[n..])
    else FindInts(s[1..])
  }

  /** Text matching `-?\d+`. */
  predicate IsIntToken(t: string)
  {
    (|t| > 0 && AllDigits(t)) || (|t| > 1 && t[0] == '-' && AllDigits(t[1..]))
  }

  /** `int()` accepts every token that `findall` returns. */
  function TokenValue(t: string): (n: int)
    requires IsIntToken(t)
    ensures PyInt(t) == Ok(n)
  {
    assert StripLeft(t) == t;
    assert StripRight(t) == t;
    PyInt(t).value
  }

  /** `map(int, ts)` over tokens that `findall` returned: one value per token, in order. */
  function TokenValues(ts: seq<string>): (vs: seq<int>)
    requires forall t :: t in ts ==> IsIntToken(t)
    ensures |vs| == |ts| && forall i :: 0 <= i < |ts| ==> PyInt(ts[i]) == Ok(vs[i])
  {
    seq(|ts|, i requires 0 <= i < |ts| => TokenValueAt(ts, i))
  }

  /** The value of the `i`-th token. */
  function TokenValueAt(ts: seq<string>, i: nat): (n: int)
    requires i < |ts| && forall t :: t in ts ==> IsIntToken(t)
    ensures PyInt(ts[i]) == Ok(n)
  {
    assert ts[i] in ts;
    TokenValue(ts[i])
  }

  /**
   * `x, y, dx, dy = map(int, findall(...))`: exactly four numbers, in the
   * order they appear; any other count is ValueError.
   */
  function ParseNumbers(line: string): (r: Result<seq<int>>)
    ensures var ts := FindInts(Strip(line));
      && (r.Ok? <==> |ts| == 4)
      && (r.Err? ==> r.error == ValueError)
      && (r.Ok? ==> |r.value| == 4 && forall i :: 0 <= i < 4 ==> PyInt(ts[i]) == Ok(r.value[i]))
  {
    var stripped := Strip(line);
    var ts := FindInts(stripped);
    FourValues(ts)
  }

  /** The values of exactly four tokens; any other count is ValueError. */
  function FourValues(ts: seq<string>): (r: Result<seq<int>>)
    requires forall t :: t in ts ==> IsIntToken(t)
    ensures r.Ok? <==> |ts| == 4
    ensures r.Err? ==> r.error == ValueError
    ensures r.Ok? ==> |r.value| == 4 && forall i :: 0 <= i < 4 ==> PyInt(ts[i]) == Ok(r.value[i])
  {
    if |ts| != 4 then Err(ValueError)
    else Ok(TokenValues(ts))
  }

  /**
   * `parse_line`: `p=x,y v=dx,dy` becomes a robot at row y, column x with
   * velocity (dy, dx).
   */
  method ParseLine(line: string) returns (r: Result<Robot>)
    ensures r.Ok? <==> ParseNumbers(line).Ok?
    ensures r.Err? ==> r.error == ValueError
    ensures r.Ok? ==> fresh(r.value)
    ensures r.Ok? ==> var n := ParseNumbers(line).value;
      r.value.row == n[1] && r.value.col == n[0] && r.value.vrow == n[3] && r.value.vcol == n[2]
  {
    var numbers := ParseNumbers(line);
    if numbers.Err? {
      return Err(numbers.error);
    }
    var x, y, dx, dy := numbers.value[0], numbers.value[1], numbers.value[2], numbers.value[3];
    var robot := new Robot(y, x, dy, dx);
    return Ok(robot);
  }

  lemma SkipChar(c: char, rest: string)
    requires !IsDigit(c) && c != '-'
    ensures FindInts([c] + rest) == FindInts(rest)
  {
    assert ([c] + rest)[1..] == rest;
  }

  /** The text of a number followed by a non-digit is found as one token. */
  lemma TakeNumber(n: int, rest: string)
    requires rest == [] || !IsDigit(rest[0])
    ensures FindInts(IntToString(n) + rest) == [IntToString(n)] + FindInts(rest)
  {
    var t := IntToString(n);
    var s := t + rest;
    if n < 0 {
      var ds := ToDecimal(-n);
      assert t == "-" + ds;
      assert s[1..1 + |ds|] == ds;
      DigitRunOf(s, 1, ds);
      assert s[..1 + |ds|] == t && s[1 + |ds|..] == rest;
    } else {
      var ds := ToDecimal(n);
      assert s[..|ds|] == ds;
      DigitRunOf(s, 0, ds);
      assert s[|ds|..] == rest;
    }
  }

  /** Text with no digit and no `-` contributes no token. */
  lemma {:induction false} SkipText(sep: string, rest: string)
    requires forall c :: c in sep ==> !IsDigit(c) && c != '-'
    ensures FindInts(sep + rest) == FindInts(rest)
  {
    if sep != [] {
      assert sep[0] in sep;
      assert forall c :: c in sep[1..] ==> c in sep;
      calc {
        FindInts(sep + rest);
        { assert sep + rest == [sep[0]] + (sep[1..] + rest); }
        FindInts([sep[0]] + (sep[1..] + rest));
        { SkipChar(sep[0], sep[1..] + rest); }
        FindInts(sep[1..] + rest);
        { SkipText(sep[1..], rest); }
        FindInts(rest);
      }
    } else {
      assert sep + rest == rest;
    }
  }

  /** A number followed by a non-empty separator of non-digits is one token. */
  lemma NumberThenText(n: int, sep: string, rest: string)
    requires sep != [] && forall c :: c in sep ==> !IsDigit(c) && c != '-'
    ensures FindInts(IntToString(n) + (sep + rest)) == [IntToString(n)] + FindInts(rest)
  {
    assert sep[0] in sep;
    TakeNumber(n, sep + rest);
    SkipText(sep, rest);
  }

  /** The tokens of `p=x,y v=dx,dy` are the four numbers' texts. */
  lemma FindIntsFormat(x: int, y: int, dx: int, dy: int)
    ensures FindInts("p=" + IntToString(x) + "," + IntToString(y) + " v=" + IntToString(dx) + "," + IntToString(dy))
      == [IntToString(x), IntToString(y), IntToString(dx), IntToString(dy)]
  {
    var sx, sy, sdx, sdy := IntToString(x), IntToString(y), IntToString(dx), IntToString(dy);
    var t3 := sdx + ("," + sdy);
    var t2 := sy + (" v=" + t3);
    var t1 := sx + ("," + t2);
    AppendAssociates("p=" + sx + "," + sy + " v=" + sdx, ",", sdy);
    AppendAssociates("p=" + sx + "," + sy + " v=", sdx, "," + sdy);
    AppendAssociates("p=" + sx + "," + sy, " v=", t3);
    AppendAssociates("p=" + sx + ",", sy, " v=" + t3);
    AppendAssociates("p=" + sx, ",", t2);
    AppendAssociates("p=", sx, "," + t2);
    TakeNumber(dy, []);
    assert sdy + [] == sdy;
    NumberThenText(dx, ",", sdy);
    var f3 := FindInts(t3);
    assert f3 == [sdx] + [sdy];
    NumberThenText(y, " v=", t3);
    var f2 := FindInts(t2);
    assert f2 == [sy] + f3;
    NumberThenText(x, ",", t2);
    var f1 := FindInts(t1);
    assert f1 == [sx] + f2;
    SkipText("p=", t1);
    FourTokens(f1, sx, sy, sdx, sdy);
  }

  lemma FourTokens(ts: seq<string>, a: string, b: string, c: string, d: string)
    requires ts == [a] + ([b] + ([c] + [d]))
    ensures ts == [a, b, c, d]
  {
  }

  lemma FourElements(v: seq<int>, a: int, b: int, c: int, d: int)
    requires |v| == 4 && v[0] == a && v[1] == b && v[2] == c && v[3] == d
    ensures v == [a, b, c, d]
  {
  }

  /** The input format `p=x,y v=dx,dy` gives back the four numbers in order. */
  lemma ParseNumbersFormat(x: int, y: int, dx: int, dy: int)
    ensures ParseNumbers("p=" + IntToString(x) + "," + IntToString(y) + " v=" + IntToString(dx) + "," + IntToString(dy))
      == Ok([x, y, dx, dy])
  {
    var line := "p=" + IntToString(x) + "," + IntToString(y) + " v=" + IntToString(dx) + "," + IntToString(dy);
    assert line[0] == 'p';
    assert line[|line| - 1] == IntToString(dy)[|IntToString(dy)| - 1];
    FindIntsFormat(x, y, dx, dy);
    var ts := FindInts(Strip(line));
    assert ts == [IntToString(x), IntToString(y), IntToString(dx), IntToString(dy)];
    var r := ParseNumbers(line);
    PyIntRoundTrip(x);
    PyIntRoundTrip(y);
    PyIntRoundTrip(dx);
    PyIntRoundTrip(dy);
    assert PyInt(ts[0]) == Ok(r.value[0]);
    assert PyInt(ts[1]) == Ok(r.value[1]);
    assert PyInt(ts[2]) == Ok(r.value[2]);
    assert PyInt(ts[3]) == Ok(r.value[3]);
    var v := r.value;
    FourElements(v, x, y, dx, dy);
  }

  /** The sample line `p=0,4 v=3,-3`: x = 0, y = 4, dx = 3, dy = -3. */
  lemma ParseNumbersExample()
    ensures ParseNumbers("p=0,4 v=3,-3") == Ok([0, 4, 3, -3])
  {
    assert IntToString(-3) == "-3";
    assert "p=0,4 v=3,-3" == "p=" + IntToString(0) + "," + IntToString(4) + " v=" + IntToString(3) + "," + IntToString(-3);
    ParseNumbersFormat(0, 4, 3, -3);
  }
}
