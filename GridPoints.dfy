// The point-addressed Grid of src/aoc/pyutils/grid_points.py: a rectangular
// list of rows whose cells `set` overwrites in place, plus Manhattan-distance
// queries and helpers on regions (lists of points).
module GridPoints {
  import opened Common

  /** Manhattan distance between two points. */
  function ManhattanDistance(p1: Point, p2: Point): (d: nat)
    ensures d == 0 <==> p1 == p2
  {
    Abs(p2.0 - p1.0) + Abs(p2.1 - p1.1)
  }

  lemma ManhattanSymmetric(p1: Point, p2: Point)
    ensures ManhattanDistance(p1, p2) == ManhattanDistance(p2, p1)
  {
  }

  lemma ManhattanTriangle(p1: Point, p2: Point, p3: Point)
    ensures ManhattanDistance(p1, p3) <= ManhattanDistance(p1, p2) + ManhattanDistance(p2, p3)
  {
  }

  /** Strict row-major order on points. */
  predicate RowMajorLess(a: Point, b: Point)
  {
    a.0 < b.0 || (a.0 == b.0 && a.1 < b.1)
  }

  predicate StrictlyRowMajor(ps: seq<Point>)
  {
    forall i, j :: 0 <= i < j < |ps| ==> RowMajorLess(ps[i], ps[j])
  }

  class Grid<T> {
    var rows: int
    var cols: int
    var grid: seq<seq<T>>

    /** Every one of the `rows` rows has `cols` cells. */
    ghost predicate Valid()
      reads this
    {
      0 <= rows && 0 <= cols && |grid| == rows &&
      forall r :: 0 <= r < rows ==> |grid[r]| == cols
    }

    /** A grid built from sizes holds `default_val` everywhere. */
    constructor (rows: nat, cols: nat, defaultVal: T)
      ensures Valid() && this.rows == rows && this.cols == cols
      ensures forall r, c :: 0 <= r < rows && 0 <= c < cols ==> grid[r][c] == defaultVal
    {
      this.rows := rows;
      this.cols := cols;
      grid := seq(rows, _ => seq(cols, _ => defaultVal));
    }

    /** A grid built from already-read rows takes its sizes from them. */
    constructor FromRows(lines: seq<seq<T>>)
      requires |lines| > 0 && forall r :: 0 <= r < |lines| ==> |lines[r]| == |lines[0]|
      ensures Valid() && rows == |lines| && cols == |lines[0]| && grid == lines
    {
      rows := |lines|;
      cols := |lines[0]|;
      grid := lines;
    }

    predicate InGrid(point: Point)
      reads this
    {
      0 <= point.0 < rows && 0 <= point.1 < cols
    }

    /** `get`: the cell at `point`, IndexError outside the grid. */
    function Get(point: Point): (r: Result<T>)
      reads this
      requires Valid()
      ensures r.Ok? <==> InGrid(point)
      ensures r.Err? ==> r.error == IndexError
      ensures r.Ok? ==> r.value == grid[point.0][point.1]
    {
      if !InGrid(point) then Err(IndexError) else Ok(grid[point.0][point.1])
    }

    /** `set`: writes one cell; IndexError (and no change) outside the grid. */
    method Set(point: Point, value: T) returns (r: Result<()>)
      requires Valid()
      modifies this
      ensures Valid() && rows == old(rows) && cols == old(cols)
      ensures r.Ok? <==> old(InGrid(point))
      ensures r.Err? ==> r.error == IndexError && grid == old(grid)
      ensures r.Ok? ==> Get(point) == Ok(value)
      ensures forall q :: InGrid(q) && q != point ==> grid[q.0][q.1] == old(grid)[q.0][q.1]
    {
      if !InGrid(point) {
        return Err(IndexError);
      }
      grid := grid[point.0 := grid[point.0][point.1 := value]];
      r := Ok(());
    }

    /**
     * `all_m_distances`: a new grid of the same shape whose every cell holds its
     * Manhattan distance from `start`.  The new grid is created with 0 in every
     * cell (the source's "." placeholder), and each cell is then overwritten.
     */
    method AllMDistances(start: Point) returns (m: Grid<int>)
      requires Valid()
      ensures fresh(m) && m.Valid() && m.rows == rows && m.cols == cols
      ensures forall r, c :: 0 <= r < rows && 0 <= c < cols ==> m.Get((r, c)) == Ok(ManhattanDistance(start, (r, c)) as int)
    {
      m := new Grid<int>(rows, cols, 0);
      var row := 0;
      while row < rows
        invariant 0 <= row <= rows
        invariant m.Valid() && m.rows == rows && m.cols == cols
        invariant forall r, c :: 0 <= r < row && 0 <= c < cols ==> m.grid[r][c] == ManhattanDistance(start, (r, c))
      {
        var col := 0;
        while col < cols
          invariant 0 <= col <= cols
          invariant m.Valid() && m.rows == rows && m.cols == cols
          invariant forall r, c :: 0 <= r < row && 0 <= c < cols ==> m.grid[r][c] == ManhattanDistance(start, (r, c))
          invariant forall c :: 0 <= c < col ==> m.grid[row][c] == ManhattanDistance(start, (row, c))
        {
          var dist := ManhattanDistance(start, (row, col));
          var _ := m.Set((row, col), dist);
          col := col + 1;
        }
        row := row + 1;
      }
    }

    /**
     * `positions_within_dist`: only the window of rows and columns within
     * `distance` of the start is scanned, yet the result is exactly the
     * in-grid points other than the start within `distance`, in row-major order.
     */
    method PositionsWithinDist(start: Point, distance: int) returns (points: seq<Point>)
      requires Valid()
      ensures StrictlyRowMajor(points)
      ensures forall q :: q in points <==> InGrid(q) && q != start && ManhattanDistance(start, q) <= distance
    {
      points := [];
      var rowMin := if 0 < start.0 - distance then start.0 - distance else 0;
      var rowMax := if start.0 + distance < rows - 1 then start.0 + distance else rows - 1;
      var colMin := if 0 < start.1 - distance then start.1 - distance else 0;
      var colMax := if start.1 + distance < cols - 1 then start.1 + distance else cols - 1;
      var row := rowMin;
      while row <= rowMax
        invariant rowMin <= row && (rowMin <= rowMax + 1 ==> row <= rowMax + 1)
        invariant StrictlyRowMajor(points)
        invariant forall q :: q in points ==> q.0 < row
        invariant forall q :: q in points <==> InGrid(q) && q != start && ManhattanDistance(start, q) <= distance && q.0 < row
      {
        var col := colMin;
        while col <= colMax
          invariant colMin <= col && (colMin <= colMax + 1 ==> col <= colMax + 1)
          invariant StrictlyRowMajor(points)
          invariant forall q :: q in points ==> RowMajorLess(q, (row, col))
          invariant forall q :: q in points <==>
            InGrid(q) && q != start && ManhattanDistance(start, q) <= distance && RowMajorLess(q, (row, col))
        {
          var dist := ManhattanDistance(start, (row, col));
          if dist <= distance && !(row == start.0 && col == start.1) {
            points := points + [(row, col)];
          }
          col := col + 1;
        }
        row := row + 1;
      }
    }
  }

  /**
   * `region_boundaries`: the corners (min_row, min_col) and (max_row, max_col)
   * of the box around a region; `max()` of an empty region raises ValueError.
   */
  function RegionBoundaries(region: seq<Point>): (r: Result<(Point, Point)>)
    ensures r.Ok? <==> |region| > 0
    ensures r.Err? ==> r.error == ValueError
    ensures r.Ok? ==> forall p :: p in region ==>
      r.value.0.0 <= p.0 <= r.value.1.0 && r.value.0.1 <= p.1 <= r.value.1.1
    ensures r.Ok? ==> (exists p :: p in region && p.0 == r.value.0.0) && (exists p :: p in region && p.0 == r.value.1.0)
    ensures r.Ok? ==> (exists p :: p in region && p.1 == r.value.0.1) && (exists p :: p in region && p.1 == r.value.1.1)
  {
    if region == [] then Err(ValueError)
    else Ok(((MinRow(region), MinCol(region)), (MaxRow(region), MaxCol(region))))
  }

  function MinRow(region: seq<Point>): (m: int)
    requires |region| > 0
    ensures forall p :: p in region ==> m <= p.0
    ensures exists p :: p in region && p.0 == m
  {
    if |region| == 1 then region[0].0
    else
      var m := MinRow(region[1..]);
      assert forall p :: p in region[1..] ==> p in region;
      if region[0].0 <= m then region[0].0 else m
  }

  function MaxRow(region: seq<Point>): (m: int)
    requires |region| > 0
    ensures forall p :: p in region ==> p.0 <= m
    ensures exists p :: p in region && p.0 == m
  {
    if |region| == 1 then region[0].0
    else
      var m := MaxRow(region[1..]);
      assert forall p :: p in region[1..] ==> p in region;
      if region[0].0 >= m then region[0].0 else m
  }

  function MinCol(region: seq<Point>): (m: int)
    requires |region| > 0
    ensures forall p :: p in region ==> m <= p.1
    ensures exists p :: p in region && p.1 == m
  {
    if |region| == 1 then region[0].1
    else
      var m := MinCol(region[1..]);
      assert forall p :: p in region[1..] ==> p in region;
      if region[0].1 <= m then region[0].1 else m
  }

  function MaxCol(region: seq<Point>): (m: int)
    requires |region| > 0
    ensures forall p :: p in region ==> p.1 <= m
    ensures exists p :: p in region && p.1 == m
  {
    if |region| == 1 then region[0].1
    else
      var m := MaxCol(region[1..]);
      assert forall p :: p in region[1..] ==> p in region;
      if region[0].1 >= m then region[0].1 else m
  }

  /** The sub-list of a region whose points satisfy `keep`, in the original order. */
  function Select(region: seq<Point>, keep: Point -> bool): (r: seq<Point>)
    ensures forall p :: p in r <==> p in region && keep(p)
    ensures |r| <= |region|
    ensures StrictlyRowMajor(region) ==> StrictlyRowMajor(r)
  {
    if region == [] then []
    else
      var rest := Select(region[1..], keep);
      SelectKeepsOrder(region, rest);
      (if keep(region[0]) then [region[0]] else []) + rest
  }

  /**
   * `Select` is a filter in order: selecting from two lists in turn is the
   * selection from one followed by the selection from the other, and a
   * single point stays exactly when `keep` accepts it.
   */
  lemma {:induction false} SelectAppend(a: seq<Point>, b: seq<Point>, keep: Point -> bool)
    ensures Select(a + b, keep) == Select(a, keep) + Select(b, keep)
    ensures |a| == 1 ==> Select(a, keep) == (if keep(a[0]) then a else [])
  {
    if a == [] {
      assert a + b == b;
    } else {
      SelectAppend(a[1..], b, keep);
      SelectAppendStep(a, b, keep);
      if |a| == 1 {
        SelectHead(a, keep);
        assert a[1..] == [];
      }
    }
  }

  /** The inductive step of `SelectAppend`: putting the head back on both sides. */
  lemma SelectAppendStep(a: seq<Point>, b: seq<Point>, keep: Point -> bool)
    requires a != [] && Select(a[1..] + b, keep) == Select(a[1..], keep) + Select(b, keep)
    ensures Select(a + b, keep) == Select(a, keep) + Select(b, keep)
  {
    var k := if keep(a[0]) then [a[0]] else [];
    DropAppend(a, b);
    SelectHead(a + b, keep);
    SelectHead(a, keep);
    AppendAssociates(k, Select(a[1..], keep), Select(b, keep));
  }

  /** One step of `Select`: the head, if kept, then the selection from the tail. */
  lemma SelectHead(region: seq<Point>, keep: Point -> bool)
    requires region != []
    ensures Select(region, keep) == (if keep(region[0]) then [region[0]] else []) + Select(region[1..], keep)
  {
  }

  /** A row-major list's head, put before a selection from its tail, keeps the order. */
  lemma SelectKeepsOrder(region: seq<Point>, rest: seq<Point>)
    requires region != [] && forall p :: p in rest ==> p in region[1..]
    requires StrictlyRowMajor(region) ==> StrictlyRowMajor(rest)
    ensures StrictlyRowMajor(region) ==> StrictlyRowMajor([region[0]] + rest)
  {
    if StrictlyRowMajor(region) {
      forall p | p in rest ensures RowMajorLess(region[0], p) {
        var k :| 1 <= k < |region| && region[k] == p;
      }
      var r := [region[0]] + rest;
      forall i, j | 0 <= i < j < |r| ensures RowMajorLess(r[i], r[j]) {
        if i > 0 {
          assert r[i] == rest[i - 1] && r[j] == rest[j - 1];
        } else {
          assert r[j] in rest;
        }
      }
    }
  }

  /** `find_top_row_points`: the region's points on its smallest row (never empty when it succeeds). */
  function FindTopRowPoints(region: seq<Point>): (r: Result<seq<Point>>)
    ensures r.Ok? <==> |region| > 0
    ensures r.Ok? ==> |r.value| > 0
    ensures r.Ok? ==> forall p :: p in r.value <==> p in region && forall q :: q in region ==> p.0 <= q.0
  {
    match RegionBoundaries(region)
    case Err(e) => Err(e)
    case Ok(box) => Ok(Select(region, (p: Point) => p.0 == box.0.0))
  }

  /** `find_bottom_row_points`: the region's points on its largest row. */
  function FindBottomRowPoints(region: seq<Point>): (r: Result<seq<Point>>)
    ensures r.Ok? <==> |region| > 0
    ensures r.Ok? ==> |r.value| > 0
    ensures r.Ok? ==> forall p :: p in r.value <==> p in region && forall q :: q in region ==> q.0 <= p.0
  {
    match RegionBoundaries(region)
    case Err(e) => Err(e)
    case Ok(box) => Ok(Select(region, (p: Point) => p.0 == box.1.0))
  }

  /** `find_left_col_points`: the region's points on its smallest column. */
  function FindLeftColPoints(region: seq<Point>): (r: Result<seq<Point>>)
    ensures r.Ok? <==> |region| > 0
    ensures r.Ok? ==> |r.value| > 0
    ensures r.Ok? ==> forall p :: p in r.value <==> p in region && forall q :: q in region ==> p.1 <= q.1
  {
    match RegionBoundaries(region)
    case Err(e) => Err(e)
    case Ok(box) => Ok(Select(region, (p: Point) => p.1 == box.0.1))
  }

  /** `find_right_col_points`: the region's points on its largest column. */
  function FindRightColPoints(region: seq<Point>): (r: Result<seq<Point>>)
    ensures r.Ok? <==> |region| > 0
    ensures r.Ok? ==> |r.value| > 0
    ensures r.Ok? ==> forall p :: p in r.value <==> p in region && forall q :: q in region ==> q.1 <= p.1
  {
    match RegionBoundaries(region)
    case Err(e) => Err(e)
    case Ok(box) => Ok(Select(region, (p: Point) => p.1 == box.1.1))
  }

  /** `point_above`: one row up, None on row 0 (and above). */
  function PointAbove(point: Point): (r: Option<Point>)
    ensures r.Some? <==> point.0 > 0
    ensures r.Some? ==> ManhattanDistance(point, r.value) == 1 && r.value.0 < point.0
  {
    if point.0 > 0 then Some((point.0 - 1, point.1)) else None
  }

  /** `point_left`: one column left, None on column 0 (and left of it). */
  function PointLeft(point: Point): (r: Option<Point>)
    ensures r.Some? <==> point.1 > 0
    ensures r.Some? ==> ManhattanDistance(point, r.value) == 1 && r.value.1 < point.1
  {
    if point.1 > 0 then Some((point.0, point.1 - 1)) else None
  }

  /**
   * `point_below` as written: the guard is `row < rows`, so from the last row it
   * still answers a point, one row past the edge.
   */
  function PointBelow(rows: int, point: Point): (r: Option<Point>)
    ensures r.Some? <==> point.0 < rows
    ensures r.Some? ==> ManhattanDistance(point, r.value) == 1 && r.value.0 > point.0
  {
    if point.0 < rows then Some((point.0 + 1, point.1)) else None
  }

  /** `point_right` as written: the guard is `col < cols`, with the same one-past-the-edge answer. */
  function PointRight(cols: int, point: Point): (r: Option<Point>)
    ensures r.Some? <==> point.1 < cols
    ensures r.Some? ==> ManhattanDistance(point, r.value) == 1 && r.value.1 > point.1
  {
    if point.1 < cols then Some((point.0, point.1 + 1)) else None
  }

  /** The docstrings promise a point "in the grid"; from the bottom row `point_below` breaks that. */
  lemma PointBelowLeavesGrid(rows: nat, cols: nat, c: int)
    requires rows > 0 && 0 <= c < cols
    ensures PointBelow(rows, (rows - 1, c)).Some?
    ensures !(0 <= PointBelow(rows, (rows - 1, c)).value.0 < rows)
  {
  }

  /** From the last column `point_right` answers a point outside the grid. */
  lemma PointRightLeavesGrid(rows: nat, cols: nat, r: int)
    requires cols > 0 && 0 <= r < rows
    ensures PointRight(cols, (r, cols - 1)).Some?
    ensures !(0 <= PointRight(cols, (r, cols - 1)).value.1 < cols)
  {
  }

  /** The neighbour below, only when it lies in a grid of `rows` rows (the evident intent). */
  function PointBelowInGrid(rows: int, point: Point): (r: Option<Point>)
    ensures r.Some? <==> point.0 < rows - 1
    ensures r.Some? ==> r.value == (point.0 + 1, point.1) && r.value.0 < rows
  {
    if point.0 < rows - 1 then Some((point.0 + 1, point.1)) else None
  }

  /** The neighbour to the right, only when it lies in a grid of `cols` columns. */
  function PointRightInGrid(cols: int, point: Point): (r: Option<Point>)
    ensures r.Some? <==> point.1 < cols - 1
    ensures r.Some? ==> r.value == (point.0, point.1 + 1) && r.value.1 < cols
  {
    if point.1 < cols - 1 then Some((point.0, point.1 + 1)) else None
  }

  /** The corrected neighbours keep an in-grid point in the grid, in all four directions. */
  lemma NeighboursStayInGrid(rows: int, cols: int, point: Point)
    requires 0 <= point.0 < rows && 0 <= point.1 < cols
    ensures PointAbove(point).Some? ==> 0 <= PointAbove(point).value.0 < rows
    ensures PointLeft(point).Some? ==> 0 <= PointLeft(point).value.1 < cols
    ensures PointBelowInGrid(rows, point).Some? ==> 0 <= PointBelowInGrid(rows, point).value.0 < rows
    ensures PointRightInGrid(cols, point).Some? ==> 0 <= PointRightInGrid(cols, point).value.1 < cols
  {
  }
}
