// Hoof It (src/aoc/yr_2024/day_10/puzzle.py): a topographic map of digits;
// from a trailhead (a `0`) a hiking trail climbs by exactly one per step,
// moving up, down, left or right, and a trailhead's score is the number of
// distinct peaks (`9`s) its trails reach.  The map is a `Grid` of
// src/aoc/pyutils/grid.py read from a file; here it is the list of its rows.
module Day10 {
  import opened Common
  import GridRc

  type Map = seq<seq<char>>

  /** The rows read from a puzzle file: at least one, all as long as the first. */
  predicate IsRect(g: Map)
  {
    |g| > 0 && forall i :: 0 <= i < |g| ==> |g[i]| == |g[0]|
  }

  /** `in_grid(row, col)` with `rows = len(grid)` and `cols = len(grid[0])`. */
  predicate InGrid(g: Map, p: Point)
    requires |g| > 0
  {
    0 <= p.0 < |g| && 0 <= p.1 < |g[0]|
  }

  /** `get(row, col)`: the cell, IndexError outside the grid. */
  function Get(g: Map, p: Point): (r: Result<char>)
    requires IsRect(g)
    ensures r.Ok? <==> InGrid(g, p)
    ensures r.Err? ==> r.error == IndexError
  {
    if InGrid(g, p) then Ok(Cell(g, p)) else Err(IndexError)
  }

  /** The cell at an in-grid point. */
  function Cell(g: Map, p: Point): char
    requires IsRect(g) && InGrid(g, p)
  {
    g[p.0][p.1]
  }

  // ------------------------------------------------------------ trailheads

  /** The cells `(row, col)` with `col < n` of one row that hold `0`, left to right. */
  function RowZeros(g: Map, row: nat, n: nat): (r: seq<Point>)
    requires IsRect(g) && row < |g| && n <= |g[0]|
    ensures GridRc.StrictlyRowMajor(r)
    ensures forall q :: q in r <==> q.0 == row && 0 <= q.1 < n && g[row][q.1] == '0'
  {
    if n == 0 then []
    else
      var rest := RowZeros(g, row, n - 1);
      if g[row][n - 1] == '0' then
        AppendRowMajor(rest, (row, n - 1));
        rest + [(row, n - 1)]
      else rest
  }

  /** The cells holding `0` in the first `n` rows, in row-major order. */
  function ZerosBefore(g: Map, n: nat): (r: seq<Point>)
    requires IsRect(g) && n <= |g|
    ensures GridRc.StrictlyRowMajor(r)
    ensures forall q :: q in r <==> InGrid(g, q) && q.0 < n && Cell(g, q) == '0'
  {
    if n == 0 then []
    else
      var before, row := ZerosBefore(g, n - 1), RowZeros(g, n - 1, |g[0]|);
      ConcatRowMajor(before, row);
      before + row
  }

  /** Adding a point after every point of a row-major list keeps it row-major. */
  lemma AppendRowMajor(ps: seq<Point>, x: Point)
    requires GridRc.StrictlyRowMajor(ps)
    requires forall q :: q in ps ==> GridRc.RowMajorLess(q, x)
    ensures GridRc.StrictlyRowMajor(ps + [x])
  {
    var r := ps + [x];
    forall i, j | 0 <= i < j < |r| ensures GridRc.RowMajorLess(r[i], r[j]) {
      if j == |ps| { assert r[i] in ps; }
    }
  }

  /** Two row-major lists, every point of the first before every point of the second, join row-major. */
  lemma ConcatRowMajor(a: seq<Point>, b: seq<Point>)
    requires GridRc.StrictlyRowMajor(a) && GridRc.StrictlyRowMajor(b)
    requires forall x, y :: x in a && y in b ==> GridRc.RowMajorLess(x, y)
    ensures GridRc.StrictlyRowMajor(a + b)
  {
    var r := a + b;
    forall i, j | 0 <= i < j < |r| ensures GridRc.RowMajorLess(r[i], r[j]) {
      if i < |a| && j >= |a| {
        assert r[i] in a && r[j] in b;
      } else if i >= |a| {
        assert r[i] == b[i - |a|] && r[j] == b[j - |a|];
      }
    }
  }

  /** `find_trail_heads`: exactly the cells holding `0`, in row-major order. */
  function FindTrailHeads(g: Map): (r: seq<Point>)
    requires IsRect(g)
    ensures GridRc.StrictlyRowMajor(r)
    ensures forall q :: q in r <==> InGrid(g, q) && Cell(g, q) == '0'
  {
    ZerosBefore(g, |g|)
  }

  // ------------------------------------------------------------ one step up

  /**
   * `equals_ref(value, ref_val)`: `int(value) == ref_val`, and False instead of
   * the ValueError `int` raises on a cell that is not a digit.
   */
  function EqualsRef(value: char, refVal: int): (r: bool)
    ensures r <==> 0 <= refVal <= 9 && value == ('0' as int + refVal) as char
  {
    if IsDigit(value) then DigitValue(value) == refVal else false
  }

  /**
   * `positions_within_dist(row, col, distance=1)`: the in-grid cells next to
   * `p` up, left, right and down, in the row-major order of the grid scan.
   */
  function Adjacent(g: Map, p: Point): (r: seq<Point>)
    requires IsRect(g)
    ensures GridRc.StrictlyRowMajor(r)
    ensures forall q :: q in r <==>
      InGrid(g, q) && q != p && GridRc.ManhattanDistance(p.0, p.1, q.0, q.1) <= 1
  {
    NeighboursAtOne(p);
    KeepIf(Neighbours(p), q => InGrid(g, q))
  }

  /** Up, left, right and down of `p`, on the grid or not. */
  function Neighbours(p: Point): seq<Point>
  {
    [(p.0 - 1, p.1), (p.0, p.1 - 1), (p.0, p.1 + 1), (p.0 + 1, p.1)]
  }

  /** The four neighbours are the points at distance one, in row-major order. */
  lemma NeighboursAtOne(p: Point)
    ensures GridRc.StrictlyRowMajor(Neighbours(p))
    ensures forall q :: q in Neighbours(p) <==> q != p && GridRc.ManhattanDistance(p.0, p.1, q.0, q.1) <= 1
  {
  }

  /** The points of `ps` that `keep` accepts, in their order. */
  function KeepIf(ps: seq<Point>, keep: Point -> bool): (r: seq<Point>)
    ensures forall q :: q in r <==> q in ps && keep(q)
    ensures GridRc.StrictlyRowMajor(ps) ==> GridRc.StrictlyRowMajor(r)
  {
    if ps == [] then []
    else
      var init, last := ps[..|ps| - 1], ps[|ps| - 1];
      assert ps == init + [last];
      var rest := KeepIf(init, keep);
      if keep(last) then
        KeepLast(init, last, rest);
        rest + [last]
      else rest
  }

  /**
   * `KeepIf` is a filter in order: filtering two lists in turn is filtering
   * the first followed by filtering the second, and a single point stays
   * exactly when `keep` accepts it.
   */
  lemma {:induction false} KeepIfAppend(a: seq<Point>, b: seq<Point>, keep: Point -> bool)
    ensures KeepIf(a + b, keep) == KeepIf(a, keep) + KeepIf(b, keep)
    ensures |a| == 1 ==> KeepIf(a, keep) == (if keep(a[0]) then a else [])
    decreases |b|
  {
    if b != [] {
      var init := b[..|b| - 1];
      assert (a + b)[..|a + b| - 1] == a + init && (a + b)[|a + b| - 1] == b[|b| - 1];
      KeepIfAppend(a, init, keep);
    } else {
      assert a + b == a;
    }
    if |a| == 1 {
      assert a[..0] == [];
    }
  }

  /** The first point of a row-major list comes before every other point of it. */
  lemma FirstIsLeast(a: seq<Point>, x: Point)
    requires GridRc.StrictlyRowMajor(a) && x in a
    ensures a[0] == x || GridRc.RowMajorLess(a[0], x)
  {
    var i :| 0 <= i < |a| && a[i] == x;
    if i > 0 {
      assert GridRc.RowMajorLess(a[0], a[i]);
    }
  }

  /** Two row-major lists of the same points are the same list. */
  lemma {:induction false} RowMajorUnique(a: seq<Point>, b: seq<Point>)
    requires GridRc.StrictlyRowMajor(a) && GridRc.StrictlyRowMajor(b)
    requires forall q :: q in a <==> q in b
    ensures a == b
    decreases |a|
  {
    assert a != [] ==> a[0] in b;
    assert b != [] ==> b[0] in a;
    if a != [] && b != [] {
      FirstIsLeast(a, b[0]);
      FirstIsLeast(b, a[0]);
      assert a[0] == b[0];
      forall q ensures q in a[1..] <==> q in b[1..] {
        if q in a[1..] {
          var i :| 1 <= i < |a| && a[i] == q;
          assert GridRc.RowMajorLess(a[0], q);
          assert q in a;
          var j :| 0 <= j < |b| && b[j] == q;
          assert b[1..][j - 1] == q;
        }
        if q in b[1..] {
          var j :| 1 <= j < |b| && b[j] == q;
          assert GridRc.RowMajorLess(b[0], q);
          assert q in b;
          var i :| 0 <= i < |a| && a[i] == q;
          assert a[1..][i - 1] == q;
        }
      }
      RowMajorUnique(a[1..], b[1..]);
      assert a == [a[0]] + a[1..] && b == [b[0]] + b[1..];
    }
  }

  /**
   * The neighbours listed here are exactly what the grid's
   * `positions_within_dist(row, col, 1)` returns: any row-major list of the
   * same points is this list.
   */
  lemma AdjacentIsPositionsWithinOne(g: Map, p: Point, points: seq<Point>)
    requires IsRect(g)
    requires GridRc.StrictlyRowMajor(points)
    requires forall q :: q in points <==>
      InGrid(g, q) && q != p && GridRc.ManhattanDistance(p.0, p.1, q.0, q.1) <= 1
    ensures points == Adjacent(g, p)
  {
    RowMajorUnique(points, Adjacent(g, p));
  }

  /** A move on a trail: to a grid neighbour whose digit is one higher. */
  predicate Step(g: Map, m: Point, q: Point)
    requires IsRect(g)
  {
    InGrid(g, m) && InGrid(g, q) && GridRc.ManhattanDistance(m.0, m.1, q.0, q.1) == 1 &&
    IsDigit(Cell(g, m)) && IsDigit(Cell(g, q)) && DigitValue(Cell(g, q)) == DigitValue(Cell(g, m)) + 1
  }

  /** Some point of `ps` steps up to `q`. */
  ghost predicate OneUpOf(g: Map, ps: seq<Point>, q: Point)
    requires IsRect(g)
  {
    exists m :: m in ps && Step(g, m, q)
  }

  /** A sublist of the front of a row-major list, followed by its last point, is row-major. */
  lemma KeepLast(init: seq<Point>, last: Point, rest: seq<Point>)
    requires forall q :: q in rest ==> q in init
    requires GridRc.StrictlyRowMajor(init + [last]) ==> GridRc.StrictlyRowMajor(rest)
    ensures GridRc.StrictlyRowMajor(init + [last]) ==> GridRc.StrictlyRowMajor(rest + [last])
  {
    var ps := init + [last];
    if GridRc.StrictlyRowMajor(ps) {
      forall q | q in rest ensures GridRc.RowMajorLess(q, last) {
        var k :| 0 <= k < |init| && init[k] == q;
        assert ps[k] == q && ps[|init|] == last;
      }
      AppendRowMajor(rest, last);
    }
  }

  /**
   * `adjacent_p1_points(row, col)`: the neighbours holding the cell's digit
   * plus one.  `get` raises IndexError off the grid and `int` a ValueError on
   * a cell that is not a digit.
   */
  function AdjacentP1Points(g: Map, p: Point): (r: Result<seq<Point>>)
    requires IsRect(g)
    ensures r.Ok? <==> InGrid(g, p) && IsDigit(Cell(g, p))
    ensures r.Err? ==> r.error == if InGrid(g, p) then ValueError else IndexError
    ensures r.Ok? ==> GridRc.StrictlyRowMajor(r.value) && forall q :: q in r.value <==> Step(g, p, q)
  {
    var adj := Adjacent(g, p);
    match Get(g, p)
    case Err(e) => Err(e)
    case Ok(v) =>
      if !IsDigit(v) then Err(ValueError)
      else Ok(KeepIf(adj, q => InGrid(g, q) && EqualsRef(Cell(g, q), DigitValue(v) + 1)))
  }

  /** Every position is on the grid and holds a digit. */
  predicate AllDigitCells(g: Map, ps: seq<Point>)
    requires IsRect(g)
  {
    forall m :: m in ps ==> InGrid(g, m) && IsDigit(Cell(g, m))
  }

  lemma AllDigitCellsCons(g: Map, ps: seq<Point>)
    requires IsRect(g) && ps != []
    ensures AllDigitCells(g, ps) <==> InGrid(g, ps[0]) && IsDigit(Cell(g, ps[0])) && AllDigitCells(g, ps[1..])
  {
    assert ps == [ps[0]] + ps[1..];
  }

  /** The per-position lists of `adjacent_p1_points_list`, stopping at the first exception. */
  function AdjacentAll(g: Map, ps: seq<Point>): (r: Result<seq<seq<Point>>>)
    requires IsRect(g)
    ensures r.Ok? <==> AllDigitCells(g, ps)
    ensures r.Ok? ==> StepsOf(g, ps, r.value)
  {
    if ps == [] then Ok([])
    else
      AllDigitCellsCons(g, ps);
      match AdjacentP1Points(g, ps[0])
      case Err(e) => Err(e)
      case Ok(first) =>
        match AdjacentAll(g, ps[1..])
        case Err(e) => Err(e)
        case Ok(rest) =>
          ConsSteps(g, ps[0], first, ps[1..], rest);
          Ok([first] + rest)
  }

  /** `vs[i]` lists the one-up neighbours of `ps[i]`, position by position. */
  ghost predicate StepsOf(g: Map, ps: seq<Point>, vs: seq<seq<Point>>)
    requires IsRect(g)
  {
    |vs| == |ps| && forall i :: 0 <= i < |ps| ==> forall q :: q in vs[i] <==> Step(g, ps[i], q)
  }

  lemma ConsSteps(g: Map, m: Point, first: seq<Point>, ps: seq<Point>, rest: seq<seq<Point>>)
    requires IsRect(g) && (forall q :: q in first <==> Step(g, m, q)) && StepsOf(g, ps, rest)
    ensures StepsOf(g, [m] + ps, [first] + rest)
  {
    forall i | 0 < i < |ps| + 1 ensures ([first] + rest)[i] == rest[i - 1] && ([m] + ps)[i] == ps[i - 1] {
    }
  }

  /**
   * `adjacent_p1_points_list(positions)`: every one-up neighbour of every
   * position, each once (`list(set(...))`); `[]` for no positions.
   */
  function AdjacentP1PointsList(g: Map, ps: seq<Point>): (r: Result<seq<Point>>)
    requires IsRect(g)
    ensures r.Ok? <==> AllDigitCells(g, ps)
    ensures r.Ok? ==>
      Distinct(r.value) && forall q :: q in r.value <==> OneUpOf(g, ps, q)
  {
    if |ps| > 0 then
      match AdjacentAll(g, ps)
      case Err(e) => Err(e)
      case Ok(withDupes) =>
        var flattened := Flatten(withDupes);
        forall q ensures q in flattened <==> OneUpOf(g, ps, q) {
          FlattenMembership(withDupes, q);
          if OneUpOf(g, ps, q) {
            var m :| m in ps && Step(g, m, q);
            var i :| 0 <= i < |ps| && ps[i] == m;
            assert q in withDupes[i];
          }
        }
        Ok(Dedup(flattened))
    else Ok([])
  }

  /** `k` more rounds of `adjacent_p1_points_list`. */
  function Climb(g: Map, ps: seq<Point>, k: nat): Result<seq<Point>>
    requires IsRect(g)
    decreases k
  {
    if k == 0 then Ok(ps)
    else match AdjacentP1PointsList(g, ps)
      case Err(e) => Err(e)
      case Ok(next) => Climb(g, next, k - 1)
  }

  /** The rounds after the first step that take a trail from `1` to `9`. */
  const Rounds: nat := 8

  /**
   * `count_peaks_from_head(row, col)`: the one-up neighbours of the head, then
   * eight more rounds of `adjacent_p1_points_list`; the length of the last list.
   */
  function CountPeaksFromHead(g: Map, p: Point): Result<nat>
    requires IsRect(g)
  {
    match AdjacentP1Points(g, p)
    case Err(e) => Err(e)
    case Ok(ones) =>
      match Climb(g, ones, Rounds)
      case Err(e) => Err(e)
      case Ok(peaks) => Ok(|peaks|)
  }

  // ------------------------------------------------ reachability reference

  /** The cells a trail of exactly `k` steps from `p` can end on. */
  ghost function ReachSet(g: Map, p: Point, k: nat): set<Point>
    requires IsRect(g)
  {
    if k == 0 then {p}
    else
      set r, c | 0 <= r < |g| && 0 <= c < |g[0]| && ReachedFrom(g, ReachSet(g, p, k - 1), (r, c)) :: (r, c)
  }

  /** Some point of `s` steps up to `q`. */
  ghost predicate ReachedFrom(g: Map, s: set<Point>, q: Point)
    requires IsRect(g)
  {
    exists m :: m in s && Step(g, m, q)
  }

  lemma ReachSetStep(g: Map, p: Point, k: nat, q: Point)
    requires IsRect(g) && k > 0
    ensures q in ReachSet(g, p, k) <==> ReachedFrom(g, ReachSet(g, p, k - 1), q)
  {
  }

  /** Every cell reached after `k >= 1` steps is on the grid and holds the start's digit plus `k`. */
  lemma {:induction false} ReachSetHeights(g: Map, p: Point, k: nat, q: Point)
    requires IsRect(g) && k > 0 && q in ReachSet(g, p, k)
    ensures InGrid(g, q) && IsDigit(Cell(g, q))
    ensures InGrid(g, p) && IsDigit(Cell(g, p)) && DigitValue(Cell(g, q)) == DigitValue(Cell(g, p)) + k
  {
    ReachSetStep(g, p, k, q);
    var m :| m in ReachSet(g, p, k - 1) && Step(g, m, q);
    if k > 1 {
      ReachSetHeights(g, p, k - 1, m);
    }
  }

  /** The list of a point set without repeats. */
  ghost predicate Lists(ps: seq<Point>, s: set<Point>)
  {
    Distinct(ps) && forall q :: q in ps <==> q in s
  }

  /** One round from a list of the cells reached in `j >= 1` steps lists the cells reached in `j + 1`. */
  lemma NextReaches(g: Map, p: Point, ps: seq<Point>, j: nat)
    requires IsRect(g) && j > 0 && Lists(ps, ReachSet(g, p, j))
    ensures AdjacentP1PointsList(g, ps).Ok?
    ensures Lists(AdjacentP1PointsList(g, ps).value, ReachSet(g, p, j + 1))
  {
    forall m | m in ps ensures InGrid(g, m) && IsDigit(Cell(g, m)) {
      ReachSetHeights(g, p, j, m);
    }
    var next := AdjacentP1PointsList(g, ps).value;
    forall q ensures q in next <==> q in ReachSet(g, p, j + 1) {
      ReachSetStep(g, p, j + 1, q);
      if OneUpOf(g, ps, q) {
        var m :| m in ps && Step(g, m, q);
        assert m in ReachSet(g, p, j);
      }
      if ReachedFrom(g, ReachSet(g, p, j), q) {
        var m :| m in ReachSet(g, p, j) && Step(g, m, q);
        assert m in ps;
      }
    }
  }

  /** `k` more rounds from the cells reached in `j >= 1` steps list the cells reached in `j + k`. */
  lemma {:induction false} ClimbReaches(g: Map, p: Point, ps: seq<Point>, j: nat, k: nat, n: nat)
    requires IsRect(g) && j > 0 && n == j + k && Lists(ps, ReachSet(g, p, j))
    ensures Climb(g, ps, k).Ok? && Lists(Climb(g, ps, k).value, ReachSet(g, p, n))
    decreases k
  {
    if k > 0 {
      NextReaches(g, p, ps, j);
      ClimbStep(g, ps, k);
      ClimbReaches(g, p, AdjacentP1PointsList(g, ps).value, j + 1, k - 1, n);
    }
  }

  /** A round that does not raise hands its list on to the remaining rounds. */
  lemma ClimbStep(g: Map, ps: seq<Point>, k: nat)
    requires IsRect(g) && k > 0 && AdjacentP1PointsList(g, ps).Ok?
    ensures Climb(g, ps, k) == Climb(g, AdjacentP1PointsList(g, ps).value, k - 1)
  {
  }

  /**
   * A head's count is the number of distinct cells that nine successive
   * one-up steps reach; it raises exactly when the head is off the grid or
   * not a digit.
   */
  lemma CountPeaksIsReachable(g: Map, p: Point)
    requires IsRect(g)
    ensures CountPeaksFromHead(g, p).Ok? <==> InGrid(g, p) && IsDigit(Cell(g, p))
    ensures CountPeaksFromHead(g, p).Ok? ==> CountPeaksFromHead(g, p).value == |ReachSet(g, p, 9)|
  {
    if InGrid(g, p) && IsDigit(Cell(g, p)) {
      OnesReach(g, p);
      var ones := AdjacentP1Points(g, p).value;
      ClimbCount(g, p, ones, 1, Rounds, 9);
      assert CountPeaksFromHead(g, p) == Ok(|Climb(g, ones, Rounds).value|);
    }
  }

  /** `k` more rounds from the cells reached in `j >= 1` steps count the cells reached in `j + k`. */
  lemma ClimbCount(g: Map, p: Point, ps: seq<Point>, j: nat, k: nat, n: nat)
    requires IsRect(g) && j > 0 && n == j + k && Lists(ps, ReachSet(g, p, j))
    ensures Climb(g, ps, k).Ok? && |Climb(g, ps, k).value| == |ReachSet(g, p, n)|
  {
    ClimbReaches(g, p, ps, j, k, n);
    DistinctCard(Climb(g, ps, k).value, ReachSet(g, p, n));
  }

  /** The one-up neighbours of a digit cell list the cells reached in one step. */
  lemma OnesReach(g: Map, p: Point)
    requires IsRect(g) && InGrid(g, p) && IsDigit(Cell(g, p))
    ensures AdjacentP1Points(g, p).Ok? && Lists(AdjacentP1Points(g, p).value, ReachSet(g, p, 1))
  {
    var ones := AdjacentP1Points(g, p).value;
    forall q ensures q in ones <==> q in ReachSet(g, p, 1) {
      OneStepReach(g, p, q);
    }
    RowMajorDistinct(ones);
  }

  /** The cells reached in one step are the one-up neighbours. */
  lemma OneStepReach(g: Map, p: Point, q: Point)
    requires IsRect(g)
    ensures q in ReachSet(g, p, 1) <==> Step(g, p, q)
  {
    ReachSetStep(g, p, 1, q);
    assert ReachSet(g, p, 0) == {p};
  }

  /** A strictly row-major list has no repeats. */
  lemma RowMajorDistinct(ps: seq<Point>)
    requires GridRc.StrictlyRowMajor(ps)
    ensures Distinct(ps)
  {
    forall i, j | 0 <= i < j < |ps| ensures ps[i] != ps[j] {
      assert GridRc.RowMajorLess(ps[i], ps[j]);
    }
  }

  /** From a trailhead the cells nine steps up are peaks: they hold `9`. */
  lemma PeaksAreNines(g: Map, head: Point, q: Point)
    requires IsRect(g) && InGrid(g, head) && Cell(g, head) == '0' && q in ReachSet(g, head, 9)
    ensures Cell(g, q) == '9'
  {
    ReachSetHeights(g, head, 9, q);
  }

  // ----------------------------------------------------------------- part 1

  /** `count_peaks_from_head` of each head in turn: the values of the `peak_counts` dict. */
  function PeakCounts(g: Map, heads: seq<Point>): (r: seq<Result<nat>>)
    requires IsRect(g)
    ensures |r| == |heads|
  {
    seq(|heads|, i requires 0 <= i < |heads| => CountPeaksFromHead(g, heads[i]))
  }

  /** The values of a list of results, or the first exception among them. */
  function AllOk(rs: seq<Result<nat>>): (r: Result<seq<nat>>)
    ensures r.Ok? <==> forall i :: 0 <= i < |rs| ==> rs[i].Ok?
    ensures r.Err? ==> exists i :: 0 <= i < |rs| && rs[i] == Err(r.error)
  {
    if rs == [] then Ok([])
    else match rs[0]
      case Err(e) => Err(e)
      case Ok(n) =>
        match AllOk(rs[1..])
        case Err(e) => Err(e)
        case Ok(ns) => Ok([n] + ns)
  }

  /** When every result is a value, `AllOk` gives exactly those values. */
  lemma {:induction false} AllOkValues(rs: seq<Result<nat>>, vs: seq<nat>)
    requires |rs| == |vs| && forall i :: 0 <= i < |rs| ==> rs[i] == Ok(vs[i])
    ensures AllOk(rs) == Ok(vs)
  {
    if rs != [] {
      AllOkValues(rs[1..], vs[1..]);
      assert vs == [vs[0]] + vs[1..];
    }
  }

  /**
   * `part1`: the trailheads are distinct, so the dict of their counts keeps
   * one count per trailhead, and the answer is the sum of those counts.
   */
  function Part1(g: Map): (r: Result<int>)
    requires IsRect(g)
    ensures r == Ok(Sum(Scores(g, FindTrailHeads(g))))
  {
    PeakCountsAreScores(g);
    match AllOk(PeakCounts(g, FindTrailHeads(g)))
    case Err(e) => Err(e)
    case Ok(counts) => Ok(Sum(counts))
  }

  /** The reference score of each head: how many cells nine steps up reach. */
  ghost function Scores(g: Map, heads: seq<Point>): seq<nat>
    requires IsRect(g)
  {
    seq(|heads|, i requires 0 <= i < |heads| => |ReachSet(g, heads[i], 9)|)
  }

  /** No trailhead's count raises, and each is the trailhead's reference score. */
  lemma PeakCountsAreScores(g: Map)
    requires IsRect(g)
    ensures AllOk(PeakCounts(g, FindTrailHeads(g))) == Ok(Scores(g, FindTrailHeads(g)))
  {
    var heads := FindTrailHeads(g);
    var rs, vs := PeakCounts(g, heads), Scores(g, heads);
    forall i | 0 <= i < |heads| ensures rs[i] == Ok(vs[i]) {
      assert heads[i] in heads;
      CountPeaksIsReachable(g, heads[i]);
    }
    AllOkValues(rs, vs);
  }
}
