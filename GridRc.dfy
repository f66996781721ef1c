// The older Grid of src/aoc/pyutils/grid.py, addressed by separate row and
// column arguments; `positions_within_dist` here scans the whole grid.
module GridRc {
  import opened Common

  /** `manhattan_distance(r1, c1, r2, c2)`. */
  function ManhattanDistance(r1: int, c1: int, r2: int, c2: int): (d: nat)
    ensures d == 0 <==> r1 == r2 && c1 == c2
    ensures d >= Abs(r2 - r1) && d >= Abs(c2 - c1)
  {
    Abs(r2 - r1) + Abs(c2 - c1)
  }

  lemma ManhattanSymmetric(r1: int, c1: int, r2: int, c2: int)
    ensures ManhattanDistance(r1, c1, r2, c2) == ManhattanDistance(r2, c2, r1, c1)
  {
  }

  /** Strict row-major order on (row, col) pairs. */
  predicate RowMajorLess(a: Point, b: Point)
  {
    a.0 < b.0 || (a.0 == b.0 && a.1 < b.1)
  }

  predicate StrictlyRowMajor(ps: seq<Point>)
  {
    forall i, j :: 0 <= i < j < |ps| ==> RowMajorLess(ps[i], ps[j])
  }

  class Grid<T> {
    var rows: int
    var cols: int
    var grid: seq<seq<T>>

    ghost predicate Valid()
      reads this
    {
      0 <= rows && 0 <= cols && |grid| == rows &&
      forall r :: 0 <= r < rows ==> |grid[r]| == cols
    }

    /** Built from sizes: `rows` by `cols`, every cell `default_val`. */
    constructor (rows: nat, cols: nat, defaultVal: T)
      ensures Valid() && this.rows == rows && this.cols == cols
      ensures forall r, c :: 0 <= r < rows && 0 <= c < cols ==> grid[r][c] == defaultVal
    {
      this.rows := rows;
      this.cols := cols;
      grid := seq(rows, _ => seq(cols, _ => defaultVal));
    }

    predicate InGrid(row: int, col: int)
      reads this
    {
      0 <= row < rows && 0 <= col < cols
    }

    /** `get(row, col)`: the cell, IndexError outside the grid. */
    function Get(row: int, col: int): (r: Result<T>)
      reads this
      requires Valid()
      ensures r.Ok? <==> InGrid(row, col)
      ensures r.Err? ==> r.error == IndexError
      ensures r.Ok? ==> r.value == grid[row][col]
    {
      if !InGrid(row, col) then Err(IndexError) else Ok(grid[row][col])
    }

    /** `set(row, col, value)`: changes only the addressed cell; IndexError outside. */
    method Set(row: int, col: int, value: T) returns (r: Result<()>)
      requires Valid()
      modifies this
      ensures Valid() && rows == old(rows) && cols == old(cols)
      ensures r.Ok? <==> old(InGrid(row, col))
      ensures r.Err? ==> r.error == IndexError && grid == old(grid)
      ensures r.Ok? ==> Get(row, col) == Ok(value)
      ensures forall i, j :: InGrid(i, j) && (i, j) != (row, col) ==> grid[i][j] == old(grid)[i][j]
    {
      if !InGrid(row, col) {
        return Err(IndexError);
      }
      grid := grid[row := grid[row][col := value]];
      r := Ok(());
    }

    /** `all_m_distances`: a same-shaped grid holding every cell's distance from the start. */
    method AllMDistances(rowStart: int, colStart: int) returns (m: Grid<int>)
      requires Valid()
      ensures fresh(m) && m.Valid() && m.rows == rows && m.cols == cols
      ensures forall r, c :: 0 <= r < rows && 0 <= c < cols ==>
        m.Get(r, c) == Ok(ManhattanDistance(rowStart, colStart, r, c) as int)
    {
      m := new Grid<int>(rows, cols, 0);
      var row := 0;
      while row < rows
        invariant 0 <= row <= rows
        invariant m.Valid() && m.rows == rows && m.cols == cols
        invariant forall r, c :: 0 <= r < row && 0 <= c < cols ==> m.grid[r][c] == ManhattanDistance(rowStart, colStart, r, c)
      {
        var col := 0;
        while col < cols
          invariant 0 <= col <= cols
          invariant m.Valid() && m.rows == rows && m.cols == cols
          invariant forall r, c :: 0 <= r < row && 0 <= c < cols ==> m.grid[r][c] == ManhattanDistance(rowStart, colStart, r, c)
          invariant forall c :: 0 <= c < col ==> m.grid[row][c] == ManhattanDistance(rowStart, colStart, row, c)
        {
          var dist := ManhattanDistance(rowStart, colStart, row, col);
          var _ := m.Set(row, col, dist);
          col := col + 1;
        }
        row := row + 1;
      }
    }

    /** `positions_within_dist`: every in-grid point other than the start within `distance`, row-major. */
    method PositionsWithinDist(rowStart: int, colStart: int, distance: int) returns (points: seq<Point>)
      requires Valid()
      ensures StrictlyRowMajor(points)
      ensures forall q :: q in points <==>
        InGrid(q.0, q.1) && q != (rowStart, colStart) && ManhattanDistance(rowStart, colStart, q.0, q.1) <= distance
    {
      points := [];
      var row := 0;
      while row < rows
        invariant 0 <= row <= rows
        invariant StrictlyRowMajor(points)
        invariant forall q :: q in points ==> q.0 < row
        invariant forall q :: q in points <==>
          (InGrid(q.0, q.1) && q != (rowStart, colStart) &&
           ManhattanDistance(rowStart, colStart, q.0, q.1) <= distance && q.0 < row)
      {
        var col := 0;
        while col < cols
          invariant 0 <= col <= cols
          invariant StrictlyRowMajor(points)
          invariant forall q :: q in points ==> RowMajorLess(q, (row, col))
          invariant forall q :: q in points <==>
            (InGrid(q.0, q.1) && q != (rowStart, colStart) &&
             ManhattanDistance(rowStart, colStart, q.0, q.1) <= distance && RowMajorLess(q, (row, col)))
        {
          var dist := ManhattanDistance(rowStart, colStart, row, col);
          if dist <= distance && !(row == rowStart && col == colStart) {
            points := points + [(row, col)];
          }
          col := col + 1;
        }
        row := row + 1;
      }
    }
  }
}
