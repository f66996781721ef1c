// Warehouse Woes, part 1 (src/aoc/yr_2024/day_15/puzzle.py): a robot walks
// through a warehouse following a list of moves, pushing any run of boxes
// in front of it into the first free cell; walls stop it.
module Day15 {
  import opened Common

  type Cells = seq<seq<char>>

  const Block: char := 'O'
  const Wall: char := '#'
  const FreeSpace: char := '.'

  // ----- grid cells -----

  /** The bounds `find_next_open` tests: row against the row count, column against the first row. */
  predicate InGrid(g: Cells, p: Point)
  {
    0 <= p.0 < |g| && 0 <= p.1 < |g[0]|
  }

  /** `gval`. */
  function Cell(g: Cells, p: Point): char
    requires Rectangular(g) && InGrid(g, p)
  {
    g[p.0][p.1]
  }

  /** `update_point`: the grid with one cell overwritten. */
  function SetCell(g: Cells, p: Point, c: char): (r: Cells)
    requires Rectangular(g) && InGrid(g, p)
    ensures |r| == |g| && Rectangular(r) && |r[0]| == |g[0]|
    ensures Cell(r, p) == c
  {
    g[p.0 := g[p.0][p.1 := c]]
  }

  /** Overwriting one cell leaves every other cell as it was. */
  lemma SetCellOther(g: Cells, p: Point, c: char, q: Point)
    requires Rectangular(g) && InGrid(g, p) && InGrid(g, q) && q != p
    ensures Cell(SetCell(g, p, c), q) == Cell(g, q)
  {
  }

  /** What `swap` leaves: the two cells exchanged. */
  function Swapped(g: Cells, a: Point, b: Point): (r: Cells)
    requires Rectangular(g) && InGrid(g, a) && InGrid(g, b)
    ensures |r| == |g| && Rectangular(r) && |r[0]| == |g[0]|
    ensures Cell(r, a) == Cell(g, b) && Cell(r, b) == Cell(g, a)
  {
    SwapWrites(g, a, b);
    SetCell(SetCell(g, b, Cell(g, a)), a, Cell(g, b))
  }

  lemma SwapWrites(g: Cells, a: Point, b: Point)
    requires Rectangular(g) && InGrid(g, a) && InGrid(g, b)
    ensures Cell(SetCell(SetCell(g, b, Cell(g, a)), a, Cell(g, b)), b) == Cell(g, a)
  {
    if a != b {
      SetCellOther(SetCell(g, b, Cell(g, a)), a, Cell(g, b), b);
    }
  }

  /** Exchanging two cells leaves every other cell as it was. */
  lemma SwappedOther(g: Cells, a: Point, b: Point, q: Point)
    requires Rectangular(g) && InGrid(g, a) && InGrid(g, b) && InGrid(g, q) && q != a && q != b
    ensures Cell(Swapped(g, a, b), q) == Cell(g, q)
  {
    var g1 := SetCell(g, b, Cell(g, a));
    SetCellOther(g, b, Cell(g, a), q);
    SetCellOther(g1, a, Cell(g, b), q);
  }

  // ----- counting a character -----

  function CountRow(row: seq<char>, c: char): nat
  {
    if row == [] then 0
    else CountRow(row[..|row| - 1], c) + (if row[|row| - 1] == c then 1 else 0)
  }

  /** How many cells of the grid hold `c`. */
  function CountCells(g: Cells, c: char): nat
  {
    if g == [] then 0
    else CountCells(g[..|g| - 1], c) + CountRow(g[|g| - 1], c)
  }

  lemma {:induction false} CountRowUpdate(row: seq<char>, k: nat, x: char, c: char)
    requires k < |row|
    ensures CountRow(row[k := x], c) + (if row[k] == c then 1 else 0) == CountRow(row, c) + (if x == c then 1 else 0)
  {
    var n := |row| - 1;
    if k < n {
      assert row[k := x][..n] == row[..n][k := x];
      CountRowUpdate(row[..n], k, x, c);
    } else {
      assert row[k := x][..n] == row[..n];
    }
  }

  lemma {:induction false} CountCellsUpdate(g: Cells, r: nat, row: seq<char>, c: char)
    requires r < |g|
    ensures CountCells(g[r := row], c) + CountRow(g[r], c) == CountCells(g, c) + CountRow(row, c)
  {
    var n := |g| - 1;
    if r < n {
      assert g[r := row][..n] == g[..n][r := row];
      CountCellsUpdate(g[..n], r, row, c);
    } else {
      assert g[r := row][..n] == g[..n];
    }
  }

  /** Overwriting one cell moves at most one occurrence of `c`. */
  lemma CountSetCell(g: Cells, p: Point, x: char, c: char)
    requires Rectangular(g) && InGrid(g, p)
    ensures CountCells(SetCell(g, p, x), c) + (if Cell(g, p) == c then 1 else 0)
      == CountCells(g, c) + (if x == c then 1 else 0)
  {
    CountRowUpdate(g[p.0], p.1, x, c);
    CountCellsUpdate(g, p.0, g[p.0][p.1 := x], c);
  }

  /** Exchanging two cells keeps the number of every character. */
  lemma CountSwapped(g: Cells, a: Point, b: Point, c: char)
    requires Rectangular(g) && InGrid(g, a) && InGrid(g, b)
    ensures CountCells(Swapped(g, a, b), c) == CountCells(g, c)
  {
    var g1 := SetCell(g, b, Cell(g, a));
    CountSetCell(g, b, Cell(g, a), c);
    CountSetCell(g1, a, Cell(g, b), c);
  }

  // ----- moves -----

  predicate IsMoveChar(c: char)
  {
    c == '^' || c == '>' || c == 'v' || c == '<'
  }

  predicate IsUnit(d: Point)
  {
    d == (-1, 0) || d == (0, 1) || d == (1, 0) || d == (0, -1)
  }

  /** `move_incr`: the step each move character stands for. */
  function MoveIncr(c: char): (d: Point)
    requires IsMoveChar(c)
    ensures IsUnit(d)
  {
    if c == '^' then (-1, 0)
    else if c == '>' then (0, 1)
    else if c == 'v' then (1, 0)
    else (0, -1)
  }

  /** `validate_moves`: only `^ > v <` are accepted; anything else is ValueError. */
  function ValidateMoves(value: seq<char>): (r: Result<seq<char>>)
    ensures r.Ok? <==> forall i :: 0 <= i < |value| ==> IsMoveChar(value[i])
    ensures r.Err? ==> r.error == ValueError
    ensures r.Ok? ==> r.value == value
  {
    if forall c :: c in value ==> IsMoveChar(c) then Ok(value) else Err(ValueError)
  }

  /** `find_robot`: the first `@` in row-major order; IndexError when there is none. */
  function FindRobot(g: Cells): (r: Result<Point>)
    ensures r.Err? <==> forall row :: 0 <= row < |g| ==> '@' !in g[row]
    ensures r.Err? ==> r.error == IndexError
    ensures r.Ok? ==> var (row, col) := r.value;
      0 <= row < |g| && 0 <= col < |g[row]| && g[row][col] == '@' &&
      (forall r0 :: 0 <= r0 < row ==> '@' !in g[r0]) &&
      (forall c0 :: 0 <= c0 < col ==> g[row][c0] != '@')
  {
    FindRobotFrom(g, 0)
  }

  function FindRobotFrom(g: Cells, row: nat): (r: Result<Point>)
    ensures r.Err? <==> forall r0 :: row <= r0 < |g| ==> '@' !in g[r0]
    ensures r.Err? ==> r.error == IndexError
    ensures r.Ok? ==> var (rr, col) := r.value;
      row <= rr < |g| && 0 <= col < |g[rr]| && g[rr][col] == '@' &&
      (forall r0 :: row <= r0 < rr ==> '@' !in g[r0]) &&
      (forall c0 :: 0 <= c0 < col ==> g[rr][c0] != '@')
    decreases |g| - row
  {
    if row >= |g| then Err(IndexError)
    else match IndexOf(g[row], '@')
      case Ok(col) => Ok((row, col))
      case Err(_) => FindRobotFrom(g, row + 1)
  }

  // ----- looking along a move -----

  /** The point `k` steps from `p` in the unit direction `d`. */
  function Ahead(p: Point, d: Point, k: int): Point
    requires IsUnit(d)
  {
    if d == (-1, 0) then (p.0 - k, p.1)
    else if d == (1, 0) then (p.0 + k, p.1)
    else if d == (0, 1) then (p.0, p.1 + k)
    else (p.0, p.1 - k)
  }

  lemma AheadShift(p: Point, d: Point, j: int)
    requires IsUnit(d)
    ensures Ahead((p.0 + d.0, p.1 + d.1), d, j) == Ahead(p, d, j + 1)
  {
  }

  /** Steps left before the edge in direction `d`. */
  function StepsToEdge(g: Cells, p: Point, d: Point): nat
    requires InGrid(g, p) && IsUnit(d)
  {
    if d == (-1, 0) then p.0
    else if d == (1, 0) then |g| - 1 - p.0
    else if d == (0, 1) then |g[0]| - 1 - p.1
    else p.1
  }

  /** A cell the scan walks over: neither free nor a wall. */
  predicate Crossable(c: char)
  {
    c != FreeSpace && c != Wall
  }

  /**
   * What `find_next_open` answers: the first free cell past `p` in direction
   * `d`, or None when a wall or the edge comes first.
   */
  function OpenAhead(g: Cells, p: Point, d: Point): (r: Option<Point>)
    requires Rectangular(g) && InGrid(g, p) && IsUnit(d)
    ensures r.Some? ==> InGrid(g, r.value) && Cell(g, r.value) == FreeSpace
    decreases StepsToEdge(g, p, d)
  {
    var q := (p.0 + d.0, p.1 + d.1);
    if !InGrid(g, q) then None
    else if Cell(g, q) == FreeSpace then Some(q)
    else if Cell(g, q) == Wall then None
    else OpenAhead(g, q, d)
  }

  /**
   * The scan stops after `k` steps: every cell before is in the grid and
   * crossable, and the k-th is the free cell found, or a wall or off the grid
   * when nothing was found.
   */
  lemma {:induction false} OpenAheadStops(g: Cells, p: Point, d: Point) returns (k: int)
    requires Rectangular(g) && InGrid(g, p) && IsUnit(d)
    ensures k >= 1
    ensures forall j :: 1 <= j < k ==> InGrid(g, Ahead(p, d, j)) && Crossable(Cell(g, Ahead(p, d, j)))
    ensures OpenAhead(g, p, d).Some? ==>
      OpenAhead(g, p, d).value == Ahead(p, d, k) && InGrid(g, Ahead(p, d, k)) && Cell(g, Ahead(p, d, k)) == FreeSpace
    ensures OpenAhead(g, p, d).None? ==>
      !InGrid(g, Ahead(p, d, k)) || Cell(g, Ahead(p, d, k)) == Wall
    decreases StepsToEdge(g, p, d)
  {
    var q := (p.0 + d.0, p.1 + d.1);
    AheadShift(p, d, 0);
    assert Ahead(p, d, 1) == q;
    if !InGrid(g, q) || Cell(g, q) == FreeSpace || Cell(g, q) == Wall {
      k := 1;
    } else {
      var k1 := OpenAheadStops(g, q, d);
      k := k1 + 1;
      AheadShift(p, d, k1);
      forall j | 2 <= j < k
        ensures InGrid(g, Ahead(p, d, j)) && Crossable(Cell(g, Ahead(p, d, j)))
      {
        AheadShift(p, d, j - 1);
      }
    }
  }

  /** When the scan finds a free cell, the cell next to `p` is on the grid. */
  lemma OpenAheadAdjacent(g: Cells, p: Point, d: Point)
    requires Rectangular(g) && InGrid(g, p) && IsUnit(d) && OpenAhead(g, p, d).Some?
    ensures InGrid(g, (p.0 + d.0, p.1 + d.1))
    ensures (p.0 + d.0, p.1 + d.1) != p && OpenAhead(g, p, d).value != p
  {
    var k := OpenAheadStops(g, p, d);
    AheadShift(p, d, 0);
    if k >= 2 {
      assert InGrid(g, Ahead(p, d, 1));
    }
    AheadDistinct(p, d, 0, k);
    assert Ahead(p, d, 0) == p;
  }

  /** Different step counts reach different cells. */
  lemma AheadDistinct(p: Point, d: Point, i: int, j: int)
    requires IsUnit(d) && i != j
    ensures Ahead(p, d, i) != Ahead(p, d, j)
  {
  }

  /**
   * The grid after a push from `p` into the free cell `q`, `adj` being the
   * cell next to `p`: unless `q` is `adj`, the content of `adj` goes to `q`;
   * then the robot's cell content goes to `adj`.
   */
  function PushInto(g: Cells, p: Point, adj: Point, q: Point): (r: Cells)
    requires Rectangular(g) && InGrid(g, p) && InGrid(g, adj) && InGrid(g, q)
    ensures |r| == |g| && Rectangular(r) && |r[0]| == |g[0]|
  {
    var g1 := if q != adj then Swapped(g, adj, q) else g;
    Swapped(g1, p, adj)
  }

  /** A push moves the robot's cell content to `adj`, frees `p` and keeps every count. */
  lemma PushIntoCells(g: Cells, p: Point, adj: Point, q: Point)
    requires Rectangular(g) && InGrid(g, p) && InGrid(g, adj) && InGrid(g, q)
    requires p != adj && p != q && Cell(g, q) == FreeSpace
    ensures Cell(PushInto(g, p, adj, q), adj) == Cell(g, p)
    ensures Cell(PushInto(g, p, adj, q), p) == FreeSpace
    ensures q != adj ==> Cell(PushInto(g, p, adj, q), q) == Cell(g, adj)
    ensures forall c :: CountCells(PushInto(g, p, adj, q), c) == CountCells(g, c)
  {
    var g1 := if q != adj then Swapped(g, adj, q) else g;
    if q != adj {
      SwappedOther(g, adj, q, p);
      SwappedOther(g1, p, adj, q);
    }
    forall c
      ensures CountCells(PushInto(g, p, adj, q), c) == CountCells(g, c)
    {
      if q != adj {
        CountSwapped(g, adj, q, c);
      }
      CountSwapped(g1, p, adj, c);
    }
  }

  /** A push leaves every cell other than `p`, `adj` and `q` as it was. */
  lemma PushIntoOther(g: Cells, p: Point, adj: Point, q: Point, x: Point)
    requires Rectangular(g) && InGrid(g, p) && InGrid(g, adj) && InGrid(g, q) && InGrid(g, x)
    requires x != p && x != adj && x != q
    ensures Cell(PushInto(g, p, adj, q), x) == Cell(g, x)
  {
    var g1 := if q != adj then Swapped(g, adj, q) else g;
    if q != adj {
      SwappedOther(g, adj, q, x);
    }
    SwappedOther(g1, p, adj, x);
  }

  /**
   * Pushing moves a run of boxes one cell: the robot's cell content moves
   * one step, every box of the run moves one step on into the free cell, the
   * robot's old cell is free, and nothing else changes.
   */
  lemma PushShiftsRun(g: Cells, p: Point, d: Point, k: int)
    requires Rectangular(g) && InGrid(g, p) && IsUnit(d) && k >= 1
    requires OpenAhead(g, p, d) == Some(Ahead(p, d, k))
    requires forall j :: 1 <= j < k ==> InGrid(g, Ahead(p, d, j)) && Cell(g, Ahead(p, d, j)) == Block
    ensures InGrid(g, Ahead(p, d, 1)) && InGrid(g, Ahead(p, d, k))
    ensures var r := PushInto(g, p, Ahead(p, d, 1), Ahead(p, d, k));
      Cell(r, p) == FreeSpace && Cell(r, Ahead(p, d, 1)) == Cell(g, p) &&
      (forall j :: 2 <= j <= k ==> InGrid(g, Ahead(p, d, j)) && Cell(r, Ahead(p, d, j)) == Block) &&
      (forall x :: InGrid(g, x) && x != p && x != Ahead(p, d, 1) && x != Ahead(p, d, k) ==> Cell(r, x) == Cell(g, x))
  {
    OpenAheadAdjacent(g, p, d);
    AheadShift(p, d, 0);
    var adj, q := Ahead(p, d, 1), Ahead(p, d, k);
    PushIntoCells(g, p, adj, q);
    var r := PushInto(g, p, adj, q);
    forall j | 2 <= j <= k
      ensures InGrid(g, Ahead(p, d, j)) && Cell(r, Ahead(p, d, j)) == Block
    {
      if j < k {
        AheadDistinct(p, d, 0, j);
        AheadDistinct(p, d, 1, j);
        AheadDistinct(p, d, j, k);
        PushIntoOther(g, p, adj, q, Ahead(p, d, j));
      }
    }
    forall x | InGrid(g, x) && x != p && x != adj && x != q
      ensures Cell(r, x) == Cell(g, x)
    {
      PushIntoOther(g, p, adj, q, x);
    }
  }

  // ----- one move -----

  /** The robot's own cell holds `@` at the start and the next move character afterwards. */
  predicate RobotMark(c: char)
  {
    c == '@' || IsMoveChar(c)
  }

  datatype State = State(grid: Cells, robot: Point)

  predicate ValidState(s: State, moves: seq<char>)
  {
    Rectangular(s.grid) && InGrid(s.grid, s.robot) && RobotMark(Cell(s.grid, s.robot)) &&
    forall i :: 0 <= i < |moves| ==> IsMoveChar(moves[i])
  }

  /** After a move: the next move character, if any, is written into the robot's cell. */
  function WriteNext(s: State, moves: seq<char>, next: nat): State
    requires Rectangular(s.grid) && InGrid(s.grid, s.robot)
  {
    if next < |moves| then State(SetCell(s.grid, s.robot, moves[next]), s.robot) else s
  }

  /**
   * The push part of `move` on values: with no free cell ahead of the robot
   * toward `d` the state stays; otherwise the run of boxes up to that free
   * cell shifts one cell and the robot advances to the adjacent cell.
   */
  function Pushed(s: State, d: Point): (r: State)
    requires Rectangular(s.grid) && InGrid(s.grid, s.robot) && IsUnit(d)
    ensures |r.grid| == |s.grid| && Rectangular(r.grid) && |r.grid[0]| == |s.grid[0]| && InGrid(r.grid, r.robot)
  {
    match OpenAhead(s.grid, s.robot, d)
    case None => s
    case Some(q) =>
      OpenAheadAdjacent(s.grid, s.robot, d);
      var adj := (s.robot.0 + d.0, s.robot.1 + d.1);
      State(PushInto(s.grid, s.robot, adj, q), adj)
  }

  /** A push keeps the robot's mark under the robot and every count of cells. */
  lemma PushedKeeps(s: State, moves: seq<char>, d: Point)
    requires ValidState(s, moves) && IsUnit(d)
    ensures ValidState(Pushed(s, d), moves)
    ensures forall c :: CountCells(Pushed(s, d).grid, c) == CountCells(s.grid, c)
  {
    match OpenAhead(s.grid, s.robot, d) {
      case None =>
      case Some(q) =>
        OpenAheadAdjacent(s.grid, s.robot, d);
        var adj := (s.robot.0 + d.0, s.robot.1 + d.1);
        PushIntoCells(s.grid, s.robot, adj, q);
    }
  }

  lemma WriteNextKeeps(s: State, moves: seq<char>, next: nat)
    requires ValidState(s, moves)
    ensures ValidState(WriteNext(s, moves, next), moves)
    ensures CountCells(WriteNext(s, moves, next).grid, Block) == CountCells(s.grid, Block)
  {
    if next < |moves| {
      CountSetCell(s.grid, s.robot, moves[next], Block);
    }
  }

  /**
   * `move` on values: push toward `moves[index]`, then write the next move
   * character. A move keeps the state well formed and never changes the
   * number of boxes.
   */
  function MoveState(s: State, moves: seq<char>, index: nat): (r: State)
    requires ValidState(s, moves) && index < |moves|
    ensures ValidState(r, moves)
    ensures CountCells(r.grid, Block) == CountCells(s.grid, Block)
  {
    var d := MoveIncr(moves[index]);
    PushedKeeps(s, moves, d);
    WriteNextKeeps(Pushed(s, d), moves, index + 1);
    WriteNext(Pushed(s, d), moves, index + 1)
  }

  // ----- the boxes and their GPS coordinates -----

  /** Boxes among the first `n` cells of row `r`, left to right. */
  function RowBoxes(row: seq<char>, r: int, n: nat): seq<Point>
    requires n <= |row|
  {
    if n == 0 then []
    else RowBoxes(row, r, n - 1) + (if row[n - 1] == Block then [(r, n - 1)] else [])
  }

  /** Boxes in the first `n` rows, in row-major order. */
  function GridBoxes(g: Cells, n: nat): seq<Point>
    requires n <= |g|
  {
    if n == 0 then []
    else GridBoxes(g, n - 1) + RowBoxes(g[n - 1], n - 1, |g[n - 1]|)
  }

  lemma {:induction false} RowBoxesMembership(row: seq<char>, r: int, n: nat, p: Point)
    requires n <= |row|
    ensures p in RowBoxes(row, r, n) <==> p.0 == r && 0 <= p.1 < n && row[p.1] == Block
  {
    if n > 0 {
      RowBoxesMembership(row, r, n - 1, p);
    }
  }

  lemma {:induction false} GridBoxesMembership(g: Cells, n: nat, p: Point)
    requires n <= |g|
    ensures p in GridBoxes(g, n) <==> 0 <= p.0 < n && 0 <= p.1 < |g[p.0]| && g[p.0][p.1] == Block
  {
    if n > 0 {
      GridBoxesMembership(g, n - 1, p);
      RowBoxesMembership(g[n - 1], n - 1, |g[n - 1]|, p);
    }
  }

  lemma {:induction false} RowBoxesCount(row: seq<char>, r: int, n: nat)
    requires n <= |row|
    ensures |RowBoxes(row, r, n)| == CountRow(row[..n], Block)
  {
    if n > 0 {
      RowBoxesCount(row, r, n - 1);
      assert row[..n][..n - 1] == row[..n - 1];
    }
  }

  /** There is one entry per `O` cell. */
  lemma {:induction false} GridBoxesCount(g: Cells, n: nat)
    requires n <= |g|
    ensures |GridBoxes(g, n)| == CountCells(g[..n], Block)
  {
    if n > 0 {
      GridBoxesCount(g, n - 1);
      RowBoxesCount(g[n - 1], n - 1, |g[n - 1]|);
      assert g[..n][..n - 1] == g[..n - 1];
      assert g[n - 1][..|g[n - 1]|] == g[n - 1];
    }
  }

  /** `calc_gps`: 100 times the row plus the column; on a grid under 100 wide the row and column can be read back. */
  function CalcGps(p: Point): (g: int)
    ensures 0 <= p.1 < 100 ==> g / 100 == p.0 && g % 100 == p.1
  {
    100 * p.0 + p.1
  }

  /** The GPS coordinates of the points added up; points with non-negative coordinates give a non-negative sum. */
  function GpsSum(ps: seq<Point>): (total: int)
    ensures (forall i :: 0 <= i < |ps| ==> ps[i].0 >= 0 && ps[i].1 >= 0) ==> total >= 0
  {
    if ps == [] then 0 else GpsSum(ps[..|ps| - 1]) + CalcGps(ps[|ps| - 1])
  }

  // ----- the warehouse -----

  class Part1 {
    var grid: Cells
    var moves: seq<char>
    var robot: Point
    var currentMoveIndex: nat

    ghost predicate Valid()
      reads this
    {
      ValidState(State(grid, robot), moves) && currentMoveIndex <= |moves|
    }

    constructor (grid: Cells, moves: seq<char>, robot: Point)
      requires ValidState(State(grid, robot), moves)
      ensures Valid()
      ensures this.grid == grid && this.moves == moves && this.robot == robot && currentMoveIndex == 0
    {
      this.grid := grid;
      this.moves := moves;
      this.robot := robot;
      currentMoveIndex := 0;
    }

    /** The robot has made the moves from `start` up to the current index, starting in `s0`. */
    ghost predicate MovesMadeFrom(s0: State, start: nat)
      reads this
    {
      Valid() && ValidState(s0, moves) && start <= currentMoveIndex &&
      State(grid, robot) == RunMovesTo(s0, moves, start, currentMoveIndex)
    }

    /** `direction`: the move at the current index. */
    function Direction(): char
      reads this
      requires currentMoveIndex < |moves|
    {
      moves[currentMoveIndex]
    }

    /**
     * `find_next_open`: steps from the robot toward the current move until a
     * free cell (returned), a wall or the edge (None).
     */
    method FindNextOpen() returns (r: Option<Point>)
      requires Valid() && currentMoveIndex < |moves|
      ensures r == OpenAhead(grid, robot, MoveIncr(Direction()))
    {
      var d := MoveIncr(Direction());
      var (drow, dcol) := d;
      var (row, col) := robot;
      while 0 <= row < |grid| && 0 <= col < |grid[0]|
        invariant InGrid(grid, (row, col))
        invariant OpenAhead(grid, (row, col), d) == OpenAhead(grid, robot, d)
        decreases StepsToEdge(grid, (row, col), d)
      {
        var p := (row, col);
        row := row + drow;
        col := col + dcol;
        if row < 0 || row >= |grid| || col < 0 || col >= |grid[0]| {
          return None;
        }
        var cell := Cell(grid, (row, col));
        if cell == FreeSpace {
          return Some((row, col));
        }
        if cell == Wall {
          return None;
        }
        assert OpenAhead(grid, p, d) == OpenAhead(grid, (row, col), d);
      }
      assert false;
      return None;
    }

    /** `swap`: exchanges two cells; ValueError, changing nothing, unless the end cell is free. */
    method Swap(startPos: Point, endPos: Point) returns (r: Result<()>)
      requires Rectangular(grid) && InGrid(grid, startPos) && InGrid(grid, endPos)
      modifies this
      ensures r.Ok? <==> Cell(old(grid), endPos) == FreeSpace
      ensures r.Err? ==> r.error == ValueError && grid == old(grid)
      ensures r.Ok? ==> grid == Swapped(old(grid), startPos, endPos)
      ensures moves == old(moves) && robot == old(robot) && currentMoveIndex == old(currentMoveIndex)
    {
      var startVal := Cell(grid, startPos);
      var endVal := Cell(grid, endPos);
      if endVal != FreeSpace {
        return Err(ValueError);
      }
      grid := SetCell(grid, endPos, startVal);
      grid := SetCell(grid, startPos, endVal);
      return Ok(());
    }

    /**
     * The branch of `move` that found a free cell `q` ahead: the box run is
     * shifted unless `q` is adjacent, the robot swaps into the adjacent cell.
     */
    method PushTo(q: Point)
      requires Valid() && currentMoveIndex < |moves|
      requires OpenAhead(grid, robot, MoveIncr(Direction())) == Some(q)
      modifies this
      ensures Valid() && moves == old(moves) && currentMoveIndex == old(currentMoveIndex)
      ensures State(grid, robot) == Pushed(State(old(grid), old(robot)), MoveIncr(Direction()))
    {
      var d := MoveIncr(Direction());
      OpenAheadAdjacent(grid, robot, d);
      var nextAdj := (robot.0 + d.0, robot.1 + d.1);
      ghost var s := State(grid, robot);
      assert Pushed(s, d) == State(PushInto(grid, robot, nextAdj, q), nextAdj);
      PushedKeeps(s, moves, d);
      if q != nextAdj {
        var moved := Swap(nextAdj, q);
        assert moved.Ok?;
      }
      var stepped := Swap(robot, nextAdj);
      assert stepped.Ok?;
      assert grid == PushInto(s.grid, s.robot, nextAdj, q);
      robot := nextAdj;
    }

    /**
     * The end of `move`: the index advances and the next move character, if
     * any, is written into the robot's cell.
     */
    method AdvanceIndex()
      requires Valid() && currentMoveIndex < |moves|
      modifies this
      ensures moves == old(moves) && robot == old(robot) && currentMoveIndex == old(currentMoveIndex) + 1
      ensures State(grid, robot) == WriteNext(State(old(grid), robot), moves, currentMoveIndex)
    {
      currentMoveIndex := currentMoveIndex + 1;
      if currentMoveIndex < |moves| {
        grid := SetCell(grid, robot, Direction());
      }
    }

    /**
     * `move`: one move. IndexError when the moves are used up; otherwise the
     * new grid and robot are those of MoveState and the index advances.
     */
    method Move() returns (r: Result<()>)
      requires Valid()
      modifies this
      ensures Valid()
      ensures moves == old(moves)
      ensures r.Ok? <==> old(currentMoveIndex) < |moves|
      ensures r.Err? ==> r.error == IndexError && grid == old(grid) && robot == old(robot) && currentMoveIndex == old(currentMoveIndex)
      ensures r.Ok? ==> (currentMoveIndex == old(currentMoveIndex) + 1 &&
        State(grid, robot) == MoveState(State(old(grid), old(robot)), moves, old(currentMoveIndex)))
    {
      if currentMoveIndex >= |moves| {
        return Err(IndexError);
      }
      ghost var s := State(grid, robot);
      ghost var index := currentMoveIndex;
      var nextOpen := FindNextOpen();
      if nextOpen.Some? {
        PushTo(nextOpen.value);
      }
      AdvanceIndex();
      r := Ok(());
    }

    /** One pass of the `move_all` loop: `move`, keeping the record of the moves made. */
    method MoveTracked(ghost s0: State, ghost start: nat) returns (r: Result<()>)
      requires MovesMadeFrom(s0, start)
      modifies this
      ensures MovesMadeFrom(s0, start) && moves == old(moves)
      ensures r.Ok? <==> old(currentMoveIndex) < |moves|
      ensures r.Ok? ==> currentMoveIndex == old(currentMoveIndex) + 1
      ensures r.Err? ==> r.error == IndexError && currentMoveIndex == old(currentMoveIndex)
    {
      ghost var k := currentMoveIndex;
      r := Move();
      if r.Ok? {
        RunMovesToStep(s0, moves, start, k);
      }
    }

    /**
     * `move_all`: calls `move` once per move character. With no moves the
     * loop variable printed afterwards is unbound (NameError); starting from
     * a later index, the moves run out and `move` raises IndexError. In
     * every case the moves from the current index on have all been made.
     */
    method MoveAll() returns (r: Result<()>)
      requires Valid()
      modifies this
      ensures Valid()
      ensures moves == old(moves) && currentMoveIndex == |moves|
      ensures r.Ok? <==> |moves| > 0 && old(currentMoveIndex) == 0
      ensures r.Err? ==> r.error == (if |moves| == 0 then NameError else IndexError)
      ensures State(grid, robot) == RunMoves(State(old(grid), old(robot)), moves, old(currentMoveIndex))
      ensures CountCells(grid, Block) == CountCells(old(grid), Block)
    {
      var numMoves := |moves|;
      ghost var s0 := State(grid, robot);
      ghost var start := currentMoveIndex;
      for i := 0 to numMoves
        invariant MovesMadeFrom(s0, start) && moves == old(moves)
        invariant currentMoveIndex == start + i
      {
        var moved := MoveTracked(s0, start);
        if moved.Err? {
          assert start > 0 && currentMoveIndex == |moves|;
          return moved;
        }
      }
      if numMoves == 0 {
        return Err(NameError);
      }
      assert start == 0 && currentMoveIndex == |moves|;
      return Ok(());
    }

    /** `find_all_boxes`: the `O` cells in row-major order. */
    method FindAllBoxes() returns (boxes: seq<Point>)
      requires Valid()
      ensures boxes == GridBoxes(grid, |grid|)
    {
      boxes := [];
      for ridx := 0 to |grid|
        invariant boxes == GridBoxes(grid, ridx)
      {
        var row := grid[ridx];
        for cidx := 0 to |row|
          invariant boxes == GridBoxes(grid, ridx) + RowBoxes(row, ridx, cidx)
        {
          if row[cidx] == Block {
            boxes := boxes + [(ridx, cidx)];
          }
        }
      }
    }

    /** `total_gps`: the GPS coordinates of all boxes, summed. */
    method TotalGps() returns (total: int)
      requires Valid()
      ensures total == GpsSum(GridBoxes(grid, |grid|))
      ensures total >= 0
    {
      var boxes := FindAllBoxes();
      forall i | 0 <= i < |boxes|
        ensures boxes[i].0 >= 0 && boxes[i].1 >= 0
      {
        GridBoxesMembership(grid, |grid|, boxes[i]);
      }
      total := GpsSum(boxes);
    }

    /** `execute_1`: all moves, then the GPS total of the boxes. */
    method Execute1() returns (r: Result<int>)
      requires Valid()
      modifies this
      ensures Valid() && moves == old(moves)
      ensures r.Ok? <==> |moves| > 0 && old(currentMoveIndex) == 0
      ensures r.Err? ==> r.error == (if |moves| == 0 then NameError else IndexError)
      ensures State(grid, robot) == RunMoves(State(old(grid), old(robot)), moves, old(currentMoveIndex))
      ensures r.Ok? ==> r.value == GpsSum(GridBoxes(grid, |grid|))
      ensures r.Ok? ==> |GridBoxes(grid, |grid|)| == CountCells(old(grid), Block)
    {
      var moved := MoveAll();
      if moved.Err? {
        return Err(moved.error);
      }
      GridBoxesCount(grid, |grid|);
      assert grid[..|grid|] == grid;
      var total := TotalGps();
      return Ok(total);
    }
  }

  /** The moves `from` up to `to` applied in order. */
  function RunMovesTo(s: State, moves: seq<char>, from: nat, to: nat): (r: State)
    requires ValidState(s, moves) && from <= to <= |moves|
    ensures ValidState(r, moves)
    ensures CountCells(r.grid, Block) == CountCells(s.grid, Block)
  {
    if from == to then s
    else
      var before := RunMovesTo(s, moves, from, to - 1);
      MoveState(before, moves, to - 1)
  }

  /** One more move extends the run. */
  lemma RunMovesToStep(s: State, moves: seq<char>, from: nat, to: nat)
    requires ValidState(s, moves) && from <= to < |moves|
    ensures ValidState(RunMovesTo(s, moves, from, to), moves)
    ensures RunMovesTo(s, moves, from, to + 1) == MoveState(RunMovesTo(s, moves, from, to), moves, to)
  {
  }

  /** Every remaining move applied in order. */
  function RunMoves(s: State, moves: seq<char>, from: nat): (r: State)
    requires ValidState(s, moves) && from <= |moves|
    ensures ValidState(r, moves)
    ensures CountCells(r.grid, Block) == CountCells(s.grid, Block)
    ensures from == |moves| ==> r == s
  {
    RunMovesTo(s, moves, from, |moves|)
  }

  /**
   * `Part1(grid=..., moves=...)`: the moves are validated first (ValueError),
   * then the robot is the first `@` (IndexError when there is none).
   */
  method Create(grid: Cells, moves: seq<char>) returns (r: Result<Part1>)
    requires Rectangular(grid)
    ensures r.Err? <==> ValidateMoves(moves).Err? || FindRobot(grid).Err?
    ensures r.Err? ==> r.error == if ValidateMoves(moves).Err? then ValueError else IndexError
    ensures r.Ok? ==> (fresh(r.value) && r.value.Valid() && r.value.grid == grid && r.value.moves == moves &&
      r.value.robot == FindRobot(grid).value && r.value.currentMoveIndex == 0)
  {
    var validated := ValidateMoves(moves);
    if validated.Err? {
      return Err(validated.error);
    }
    var found := FindRobot(grid);
    if found.Err? {
      return Err(found.error);
    }
    var model := new Part1(grid, moves, found.value);
    return Ok(model);
  }
}
