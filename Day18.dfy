/**
 * Day 18 of 2024 (RAM Run): bytes fall onto a square grid at the listed
 * `x,y` positions; `dijkstra` counts the fewest steps from the top-left to
 * the bottom-right corner, -1 when there is no way, and `binary_search`
 * looks for the byte after which no way is left.
 */
module Day18 {
  import opened Common
  import GridPoints

  // ----- reading the input -----

  /** The fields `csv.reader` gives for a line without quotes: none for an empty line. */
  function CsvFields(line: string): seq<string>
  {
    if line == "" then [] else Split(line, ",")
  }

  /** One row: `(col, row) = map(int, row)`, kept as the point `(row, col)`; ValueError otherwise. */
  function ParseRow(line: string): (r: Result<Point>)
    ensures r.Err? ==> r.error == ValueError
    ensures r.Ok? ==> |CsvFields(line)| == 2
  {
    var fields := CsvFields(line);
    if |fields| != 2 then Err(ValueError)
    else
      match (PyInt(fields[0]), PyInt(fields[1]))
      case (Ok(col), Ok(row)) => Ok((row, col))
      case _ => Err(ValueError)
  }

  /** How the input writes a point: column, a comma, row. */
  function FormatPoint(p: Point): string
  {
    IntToString(p.1) + "," + IntToString(p.0)
  }

  /** Reading a written point gives it back: the swap undoes the input's (x, y) order. */
  lemma ParseRowRoundTrip(p: Point)
    ensures ParseRow(FormatPoint(p)) == Ok(p)
  {
    var a := IntToString(p.1);
    var b := IntToString(p.0);
    assert ',' !in a by {
      forall k | 0 <= k < |a| ensures a[k] != ',' { }
    }
    assert ',' !in b by {
      forall k | 0 <= k < |b| ensures b[k] != ',' { }
    }
    SplitOnce(a, ',', b);
    assert FormatPoint(p) == a + [','] + b;
    PyIntRoundTrip(p.1);
    PyIntRoundTrip(p.0);
  }

  /** Every row in turn; the first bad row's error. */
  function ParseRows(lines: seq<string>): (r: Result<seq<Point>>)
  {
    Traverse(ParseRow, lines)
  }

  /** The rows are read exactly when each one is, each point is its own row's, and a failure is a ValueError. */
  lemma ParseRowsEach(lines: seq<string>)
    ensures ParseRows(lines).Ok? <==> forall i :: 0 <= i < |lines| ==> ParseRow(lines[i]).Ok?
    ensures ParseRows(lines).Ok? ==>
              |ParseRows(lines).value| == |lines| &&
              forall i :: 0 <= i < |lines| ==> ParseRow(lines[i]) == Ok(ParseRows(lines).value[i])
    ensures ParseRows(lines).Err? ==> ParseRows(lines).error == ValueError
  {
    TraverseEach(ParseRow, lines);
  }

  /** Reading written points gives them back in order. */
  lemma ParseRowsRoundTrip(ps: seq<Point>)
    ensures ParseRows(seq(|ps|, i requires 0 <= i < |ps| => FormatPoint(ps[i]))) == Ok(ps)
  {
    var lines := seq(|ps|, i requires 0 <= i < |ps| => FormatPoint(ps[i]));
    forall i | 0 <= i < |lines|
      ensures ParseRow(lines[i]) == Ok(ps[i])
    {
      ParseRowRoundTrip(ps[i]);
    }
    ParseRowsEach(lines);
    var r := ParseRows(lines);
    assert r.Ok?;
    assert r.value == ps;
  }

  /** `read_csv_data`: the rows of the file, each `x,y` line as the point (y, x). */
  method ReadCsvData(lines: seq<string>) returns (r: Result<seq<Point>>)
    ensures r == ParseRows(lines)
  {
    r := Ok([]);
    var i := 0;
    while i < |lines| && r.Ok?
      invariant 0 <= i <= |lines|
      invariant r == Traverse(ParseRow, lines[..i])
    {
      TakeSnoc(lines, i);
      r := ReadRow(lines[..i], lines[i], r.value);
      i := i + 1;
    }
    TakeDrop(lines, i);
    if r.Err? {
      TraverseErrPrefix(ParseRow, lines[..i], lines[i..]);
    }
  }

  /** One pass of the loop of `read_csv_data`: the next row appended to those read so far. */
  method ReadRow(done: seq<string>, line: string, tuplesList: seq<Point>) returns (r: Result<seq<Point>>)
    requires Traverse(ParseRow, done) == Ok(tuplesList)
    ensures r == Traverse(ParseRow, done + [line])
  {
    TraverseSnoc(ParseRow, done, line);
    var p := ParseRow(line);
    if p.Err? {
      return Err(p.error);
    }
    return Ok(tuplesList + [p.value]);
  }

  // ----- the grid the bytes fall on -----

  /** The cells of `grid` with `#` written on every point of `ps` that lies on it. */
  function Dropped(grid: seq<seq<char>>, ps: seq<Point>): (r: seq<seq<char>>)
    ensures |r| == |grid| && forall row :: 0 <= row < |grid| ==> |r[row]| == |grid[row]|
  {
    seq(|grid|, row requires 0 <= row < |grid| =>
      seq(|grid[row]|, col requires 0 <= col < |grid[row]| => if (row, col) in ps then '#' else grid[row][col]))
  }

  /** A `dim` × `dim` grid of ".". */
  function Blank(dim: nat): (r: seq<seq<char>>)
    ensures |r| == dim && forall row :: 0 <= row < dim ==> |r[row]| == dim
  {
    seq(dim, _ => seq(dim, _ => '.'))
  }

  /** The grid after the bytes of `ps` have fallen on a blank one. */
  function Fallen(dim: nat, ps: seq<Point>): (r: seq<seq<char>>)
    ensures Rectangular(r) && |r| == dim && (dim > 0 ==> |r[0]| == dim)
  {
    Dropped(Blank(dim), ps)
  }

  /** Two grids of the same shape with the same cells are the same grid. */
  lemma SameCells(a: seq<seq<char>>, b: seq<seq<char>>)
    requires |a| == |b| && forall row :: 0 <= row < |a| ==> |a[row]| == |b[row]|
    requires forall row, col :: 0 <= row < |a| && 0 <= col < |a[row]| ==> a[row][col] == b[row][col]
    ensures a == b
  {
    forall row | 0 <= row < |a|
      ensures a[row] == b[row]
    {
    }
  }

  /** `PGrid(dim)`: a `dim` × `dim` grid of ".". */
  method NewPGrid(dim: nat) returns (g: GridPoints.Grid<char>)
    ensures fresh(g) && g.Valid() && g.rows == dim && g.cols == dim && g.grid == Blank(dim)
  {
    g := new GridPoints.Grid(dim, dim, '.');
    SameCells(g.grid, Blank(dim));
  }

  /** `PGrid.set`: `#` at `point`, IndexError off the grid. */
  method SetByte(g: GridPoints.Grid<char>, point: Point) returns (r: Result<()>)
    requires g.Valid()
    modifies g
    ensures g.Valid() && g.rows == old(g.rows) && g.cols == old(g.cols)
    ensures r.Ok? <==> old(g.InGrid(point))
    ensures r.Err? ==> r.error == IndexError && g.grid == old(g.grid)
    ensures r.Ok? ==> g.grid == Dropped(old(g.grid), [point])
  {
    ghost var before := g.grid;
    r := g.Set(point, '#');
    if r.Ok? {
      SameCells(g.grid, Dropped(before, [point]));
    }
  }

  /** How many times `range(n)` runs. */
  function Iterations(n: int): nat
  {
    if n < 0 then 0 else n
  }

  /** The points every one of the first `n` bytes falls on lie on the grid. */
  predicate AllOnGrid(rows: int, cols: int, moves: seq<Point>, n: int)
  {
    n <= |moves| && forall i :: 0 <= i < n ==> 0 <= moves[i].0 < rows && 0 <= moves[i].1 < cols
  }

  /** Dropping `ps` and then one more point is dropping `ps + [p]`. */
  lemma DroppedStep(grid: seq<seq<char>>, ps: seq<Point>, p: Point)
    ensures Dropped(Dropped(grid, ps), [p]) == Dropped(grid, ps + [p])
  {
    SameCells(Dropped(Dropped(grid, ps), [p]), Dropped(grid, ps + [p]));
  }

  /** The loop `for i in range(n): maze.set(moves[i])`: IndexError past the list or off the grid. */
  method DropBytes(g: GridPoints.Grid<char>, moves: seq<Point>, n: int) returns (r: Result<()>)
    requires g.Valid()
    modifies g
    ensures g.Valid() && g.rows == old(g.rows) && g.cols == old(g.cols)
    ensures r.Ok? <==> AllOnGrid(g.rows, g.cols, moves, n)
    ensures r.Err? ==> r.error == IndexError
    ensures r.Ok? ==> g.grid == Dropped(old(g.grid), moves[..Iterations(n)])
  {
    ghost var start := g.grid;
    assert Dropped(start, []) == start by {
      SameCells(Dropped(start, []), start);
    }
    for i := 0 to Iterations(n)
      invariant g.Valid() && g.rows == old(g.rows) && g.cols == old(g.cols)
      invariant i <= |moves| ==> AllOnGrid(g.rows, g.cols, moves, i)
      invariant i <= |moves| && g.grid == Dropped(start, moves[..i])
    {
      if i >= |moves| {
        return Err(IndexError);
      }
      ghost var before := g.grid;
      var s := SetByte(g, moves[i]);
      if s.Err? {
        return Err(IndexError);
      }
      DroppedStep(start, moves[..i], moves[i]);
      TakeSnoc(moves, i);
    }
    r := Ok(());
  }

  // ----- walks -----

  /** The four moves, in the order of `direc_incrs`: n, s, e, w, as (row, column) steps. */
  const Moves: seq<Point> := [(-1, 0), (1, 0), (0, 1), (0, -1)]

  /** The cell one step from `p`. */
  function Neighbour(p: Point, i: nat): Point
    requires i < |Moves|
  {
    (p.0 + Moves[i].0, p.1 + Moves[i].1)
  }

  /** Every adjacent point is one of the four steps away. */
  lemma AdjacentStep(p: Point, q: Point) returns (i: nat)
    requires Adjacent(p, q)
    ensures i < |Moves| && Neighbour(p, i) == q
  {
    if q.0 < p.0 { i := 0; }
    else if q.0 > p.0 { i := 1; }
    else if q.1 > p.1 { i := 2; }
    else { i := 3; }
  }

  /**
   * The cell test of `dijkstra`: `0 <= new_x < cols and 0 <= new_y < rows
   * and maze[new_x][new_y] == "."` for the point `(new_y, new_x)`. The grid
   * is read transposed, so on a grid that is not square the read can raise
   * IndexError.
   */
  function CellTest(maze: seq<seq<char>>, p: Point): (r: Result<bool>)
    requires Rectangular(maze) && |maze| > 0
    ensures r.Err? ==> r.error == IndexError && |maze| != |maze[0]|
  {
    if !(0 <= p.1 < |maze[0]| && 0 <= p.0 < |maze|) then Ok(false)
    else if p.1 >= |maze| || p.0 >= |maze[p.1]| then Err(IndexError)
    else Ok(maze[p.1][p.0] == '.')
  }

  /** A cell the search may enter. */
  predicate Open(maze: seq<seq<char>>, p: Point)
    requires Rectangular(maze) && |maze| > 0
  {
    CellTest(maze, p) == Ok(true)
  }

  /** The start: the top-left corner. */
  const Origin: Point := (0, 0)

  /** `end`: the bottom-right corner. */
  function Corner(maze: seq<seq<char>>): Point
    requires |maze| > 0
  {
    (|maze| - 1, |maze[0]| - 1)
  }

  /** A walk: from `start` to `end` by orthogonal steps, every cell after the first open. */
  predicate Walk(maze: seq<seq<char>>, start: Point, end: Point, path: seq<Point>)
    requires Rectangular(maze) && |maze| > 0
  {
    |path| > 0 && path[0] == start && path[|path| - 1] == end &&
    forall i :: 0 < i < |path| ==> Adjacent(path[i - 1], path[i]) && Open(maze, path[i])
  }

  /** Some walk leads from `start` to `end`. */
  ghost predicate Reachable(maze: seq<seq<char>>, start: Point, end: Point)
    requires Rectangular(maze) && |maze| > 0
  {
    exists path :: Walk(maze, start, end, path)
  }

  /** The same walk read backwards, as it is collected from the end. */
  predicate Trail(maze: seq<seq<char>>, end: Point, trail: seq<Point>)
    requires Rectangular(maze) && |maze| > 0
  {
    |trail| > 0 && trail[0] == end &&
    forall i :: 0 <= i < |trail| - 1 ==> Adjacent(trail[i + 1], trail[i]) && Open(maze, trail[i])
  }

  lemma TrailReversed(maze: seq<seq<char>>, start: Point, end: Point, trail: seq<Point>)
    requires Rectangular(maze) && |maze| > 0 && Trail(maze, end, trail) && trail[|trail| - 1] == start
    ensures Walk(maze, start, end, Reversed(trail))
  {
    var r := Reversed(trail);
    forall i | 0 < i < |r|
      ensures Adjacent(r[i - 1], r[i]) && Open(maze, r[i])
    {
      var j := |trail| - 1 - i;
      assert r[i] == trail[j] && r[i - 1] == trail[j + 1];
    }
  }

  /** Every step of a walk moves by one, so it has at least as many steps as the Manhattan distance. */
  lemma {:induction false} WalkAtLeastManhattan(maze: seq<seq<char>>, start: Point, end: Point, path: seq<Point>)
    requires Rectangular(maze) && |maze| > 0 && Walk(maze, start, end, path)
    ensures GridPoints.ManhattanDistance(start, end) <= |path| - 1
    decreases |path|
  {
    if |path| > 1 {
      var init := path[..|path| - 1];
      assert Walk(maze, start, init[|init| - 1], init);
      WalkAtLeastManhattan(maze, start, init[|init| - 1], init);
    }
  }

  /** A set of cells closed under stepping to open neighbours. */
  ghost predicate ClosedSet(maze: seq<seq<char>>, cells: set<Point>)
    requires Rectangular(maze) && |maze| > 0
  {
    forall p, q :: p in cells && Adjacent(p, q) && Open(maze, q) ==> q in cells
  }

  /** A walk that starts in a closed set stays in it. */
  lemma {:induction false} WalkStaysIn(maze: seq<seq<char>>, cells: set<Point>, start: Point, end: Point, path: seq<Point>)
    requires Rectangular(maze) && |maze| > 0 && ClosedSet(maze, cells) && start in cells
    requires Walk(maze, start, end, path)
    ensures end in cells
    decreases |path|
  {
    if |path| > 1 {
      var init := path[..|path| - 1];
      assert Walk(maze, start, init[|init| - 1], init);
      WalkStaysIn(maze, cells, start, init[|init| - 1], init);
      assert Adjacent(path[|path| - 2], end) && Open(maze, end);
    }
  }

  /** No walk leaves a closed set: a cell outside it cannot be reached from inside. */
  lemma NoWayOut(maze: seq<seq<char>>, cells: set<Point>, start: Point, end: Point)
    requires Rectangular(maze) && |maze| > 0 && ClosedSet(maze, cells) && start in cells && end !in cells
    ensures !Reachable(maze, start, end)
  {
    forall path | Walk(maze, start, end, path)
      ensures false
    {
      WalkStaysIn(maze, cells, start, end, path);
    }
  }

  // ----- the priority queue -----

  /** A queue item `(cost, (row, col))`. */
  datatype Entry = Entry(cost: nat, pos: Point)

  /** Python's tuple order on queue items: cost, then row, then column. */
  predicate EntryLe(a: Entry, b: Entry)
  {
    a.cost < b.cost || (a.cost == b.cost && (a.pos.0 < b.pos.0 || (a.pos.0 == b.pos.0 && a.pos.1 <= b.pos.1)))
  }

  /** The position of a least item. */
  function MinIndex(q: seq<Entry>): (i: nat)
    requires |q| > 0
    ensures i < |q| && forall j :: 0 <= j < |q| ==> EntryLe(q[i], q[j])
  {
    if |q| == 1 then 0
    else
      var i := MinIndex(q[..|q| - 1]);
      if EntryLe(q[i], q[|q| - 1]) then i else |q| - 1
  }

  /** `heappop`: a least item and the queue without it. */
  function Pop(q: seq<Entry>): (r: (Entry, seq<Entry>))
    requires |q| > 0
    ensures r.0 in q && forall e :: e in q ==> EntryLe(r.0, e)
    ensures multiset(r.1) + multiset{r.0} == multiset(q)
    ensures forall e :: e in r.1 ==> e in q
  {
    var i := MinIndex(q);
    assert q == q[..i] + [q[i]] + q[i + 1..];
    (q[i], q[..i] + q[i + 1..])
  }

  /** The cells that have an item in the queue. */
  function QueuedCells(q: seq<Entry>): set<Point>
  {
    set e | e in q :: e.pos
  }

  /** Every cell queued before a pop is still queued afterwards or is the popped one. */
  lemma QueuedAfterPop(q: seq<Entry>)
    requires |q| > 0
    ensures QueuedCells(q) <= QueuedCells(Pop(q).1) + {Pop(q).0.pos}
  {
    var (cur, rest) := Pop(q);
    forall p | p in QueuedCells(q)
      ensures p in QueuedCells(rest) || p == cur.pos
    {
      var e :| e in q && e.pos == p;
      if e != cur {
        assert e in multiset(q);
        assert e in multiset(rest);
      }
    }
  }

  // ----- the search -----

  /** The search's state: the queue and the `costs` and `parent` dicts. */
  datatype Search = Search(queue: seq<Entry>, costs: map<Point, nat>, parent: map<Point, Option<Point>>)

  /** A recorded parent: only the start has none; any other cell is open and was entered from an adjacent cheaper one. */
  predicate ParentOk(maze: seq<seq<char>>, s: Search, p: Point)
    requires Rectangular(maze) && |maze| > 0 && p in s.parent
  {
    match s.parent[p]
    case None => p == Origin
    case Some(q) => p in s.costs && q in s.costs && s.costs[q] < s.costs[p] && Adjacent(q, p) && Open(maze, p)
  }

  /** What the search keeps about its dicts and queue. */
  ghost predicate SearchInv(maze: seq<seq<char>>, s: Search)
    requires Rectangular(maze) && |maze| > 0
  {
    s.parent.Keys == s.costs.Keys && Origin in s.costs && s.costs[Origin] == 0 && s.parent[Origin] == None &&
    (forall p :: p in s.parent ==> ParentOk(maze, s, p)) &&
    (forall e :: e in s.queue ==> e.pos in s.costs && s.costs[e.pos] <= e.cost)
  }

  /** The invariant, with the popped item's cell recorded at no more than its cost. */
  ghost predicate Explorable(maze: seq<seq<char>>, cur: Entry, s: Search)
    requires Rectangular(maze) && |maze| > 0
  {
    SearchInv(maze, s) && cur.pos in s.costs && s.costs[cur.pos] <= cur.cost
  }

  /** One neighbour of the popped item, as the body of the inner loop treats it. */
  function Relax(maze: seq<seq<char>>, cur: Entry, s: Search, i: nat): (r: Result<Search>)
    requires Rectangular(maze) && |maze| > 0 && i < |Moves|
    ensures r.Err? ==> r.error == IndexError && |maze| != |maze[0]|
  {
    var np := Neighbour(cur.pos, i);
    match CellTest(maze, np)
    case Err(e) => Err(e)
    case Ok(open) =>
      if !open then Ok(s)
      else
        var newCost := cur.cost + 1;
        if np !in s.costs || newCost < s.costs[np] then
          Ok(Search(s.queue + [Entry(newCost, np)], s.costs[np := newCost], s.parent[np := Some(cur.pos)]))
        else Ok(s)
  }

  /** Recorded cells are kept, the queue only grows, and every newly recorded cell is queued. */
  ghost predicate Grows(s: Search, r: Search)
  {
    s.costs.Keys <= r.costs.Keys && QueuedCells(s.queue) <= QueuedCells(r.queue) &&
    forall p :: p in r.costs && p !in s.costs ==> p in QueuedCells(r.queue)
  }

  /** Relaxing either changes nothing or records the open neighbour at a lower cost and queues it. */
  lemma RelaxShape(maze: seq<seq<char>>, cur: Entry, s: Search, i: nat)
    requires Rectangular(maze) && |maze| > 0 && i < |Moves| && Relax(maze, cur, s, i).Ok?
    ensures var np := Neighbour(cur.pos, i);
      Relax(maze, cur, s, i).value == s ||
      (Open(maze, np) && (np !in s.costs || cur.cost + 1 < s.costs[np]) &&
       Relax(maze, cur, s, i).value == Search(s.queue + [Entry(cur.cost + 1, np)], s.costs[np := cur.cost + 1], s.parent[np := Some(cur.pos)]))
    ensures Open(maze, Neighbour(cur.pos, i)) ==> Neighbour(cur.pos, i) in Relax(maze, cur, s, i).value.costs
  {
  }

  /** Relaxing keeps the invariant. */
  lemma RelaxKeeps(maze: seq<seq<char>>, cur: Entry, s: Search, i: nat)
    requires Rectangular(maze) && |maze| > 0 && i < |Moves| && Explorable(maze, cur, s)
    requires Relax(maze, cur, s, i).Ok?
    ensures Explorable(maze, cur, Relax(maze, cur, s, i).value)
  {
    var np := Neighbour(cur.pos, i);
    RelaxShape(maze, cur, s, i);
    var r := Relax(maze, cur, s, i).value;
    if r != s {
      assert Adjacent(cur.pos, np);
      assert np != Origin;
      forall p | p in r.parent
        ensures ParentOk(maze, r, p)
      {
        if p != np {
          assert ParentOk(maze, s, p);
        }
      }
    }
  }

  /** Relaxing grows the state and records an open neighbour. */
  lemma RelaxGrows(maze: seq<seq<char>>, cur: Entry, s: Search, i: nat)
    requires Rectangular(maze) && |maze| > 0 && i < |Moves| && Relax(maze, cur, s, i).Ok?
    ensures Grows(s, Relax(maze, cur, s, i).value)
    ensures Open(maze, Neighbour(cur.pos, i)) ==> Neighbour(cur.pos, i) in Relax(maze, cur, s, i).value.costs
  {
    var np := Neighbour(cur.pos, i);
    RelaxShape(maze, cur, s, i);
    var r := Relax(maze, cur, s, i).value;
    if r != s {
      assert Entry(cur.cost + 1, np) in r.queue;
      forall e | e in QueuedCells(s.queue)
        ensures e in QueuedCells(r.queue)
      {
        var x :| x in s.queue && x.pos == e;
        assert x in r.queue;
      }
    }
  }

  /** The inner loop over the four directions, up to the `k`-th. */
  function ExploreUpTo(maze: seq<seq<char>>, cur: Entry, s: Search, k: nat): (r: Result<Search>)
    requires Rectangular(maze) && |maze| > 0 && k <= |Moves|
    ensures r.Err? ==> r.error == IndexError && |maze| != |maze[0]|
  {
    if k == 0 then Ok(s)
    else
      match ExploreUpTo(maze, cur, s, k - 1)
      case Err(e) => Err(e)
      case Ok(t) => Relax(maze, cur, t, k - 1)
  }

  lemma GrowsTrans(a: Search, b: Search, c: Search)
    requires Grows(a, b) && Grows(b, c)
    ensures Grows(a, c)
  {
  }

  /** The whole inner loop keeps the invariant. */
  lemma {:induction false} ExploreKeeps(maze: seq<seq<char>>, cur: Entry, s: Search, k: nat)
    requires Rectangular(maze) && |maze| > 0 && k <= |Moves| && Explorable(maze, cur, s)
    requires ExploreUpTo(maze, cur, s, k).Ok?
    ensures Explorable(maze, cur, ExploreUpTo(maze, cur, s, k).value)
  {
    if k > 0 {
      var t := ExploreUpTo(maze, cur, s, k - 1).value;
      ExploreKeeps(maze, cur, s, k - 1);
      RelaxKeeps(maze, cur, t, k - 1);
      assert ExploreUpTo(maze, cur, s, k) == Relax(maze, cur, t, k - 1);
    }
  }

  /** The whole inner loop grows the state and records every open neighbour. */
  lemma {:induction false} ExploreGrows(maze: seq<seq<char>>, cur: Entry, s: Search, k: nat)
    requires Rectangular(maze) && |maze| > 0 && k <= |Moves| && ExploreUpTo(maze, cur, s, k).Ok?
    ensures Grows(s, ExploreUpTo(maze, cur, s, k).value)
    ensures forall i :: 0 <= i < k && Open(maze, Neighbour(cur.pos, i)) ==>
      Neighbour(cur.pos, i) in ExploreUpTo(maze, cur, s, k).value.costs
  {
    if k > 0 {
      var t := ExploreUpTo(maze, cur, s, k - 1).value;
      ExploreGrows(maze, cur, s, k - 1);
      RelaxGrows(maze, cur, t, k - 1);
      assert ExploreUpTo(maze, cur, s, k) == Relax(maze, cur, t, k - 1);
      GrowsTrans(s, t, Relax(maze, cur, t, k - 1).value);
    }
  }

  /** The body of the inner loop for the `i`-th direction. */
  method RelaxStep(maze: seq<seq<char>>, cur: Entry, s: Search, i: nat) returns (r: Result<Search>)
    requires Rectangular(maze) && |maze| > 0 && i < |Moves|
    ensures r == Relax(maze, cur, s, i)
  {
    var rows, cols := |maze|, |maze[0]|;
    var (dy, dx) := Moves[i];
    var newY, newX := cur.pos.0 + dy, cur.pos.1 + dx;
    var newPoint := (newY, newX);
    if 0 <= newX < cols && 0 <= newY < rows {
      if newX >= |maze| || newY >= |maze[newX]| {
        return Err(IndexError);
      }
      if maze[newX][newY] == '.' {
        var newCost := cur.cost + 1;
        if newPoint !in s.costs || newCost < s.costs[newPoint] {
          return Ok(Search(s.queue + [Entry(newCost, newPoint)], s.costs[newPoint := newCost], s.parent[newPoint := Some(cur.pos)]));
        }
      }
    }
    return Ok(s);
  }

  /** The inner loop of `dijkstra`: every direction from the popped item. */
  method Explore(maze: seq<seq<char>>, cur: Entry, s: Search) returns (r: Result<Search>)
    requires Rectangular(maze) && |maze| > 0
    ensures r == ExploreUpTo(maze, cur, s, |Moves|)
  {
    r := Ok(s);
    for k := 0 to |Moves|
      invariant r == ExploreUpTo(maze, cur, s, k)
    {
      if r.Ok? {
        r := RelaxStep(maze, cur, r.value, k);
      }
    }
  }

  /** The cells met following `parent` from `p` back to the start. */
  ghost function Chain(maze: seq<seq<char>>, s: Search, p: Point): (c: seq<Point>)
    requires Rectangular(maze) && |maze| > 0 && SearchInv(maze, s) && p in s.parent
    ensures Trail(maze, p, c) && c[|c| - 1] == Origin && |c| <= s.costs[p] + 1
    decreases s.costs[p]
  {
    assert ParentOk(maze, s, p);
    match s.parent[p]
    case None => [p]
    case Some(q) =>
      var rest := Chain(maze, s, q);
      assert forall i :: 1 <= i < |rest| + 1 ==> ([p] + rest)[i] == rest[i - 1];
      [p] + rest
  }

  /**
   * What the loop of `dijkstra` keeps besides SearchInv: every recorded cell
   * is queued or expanded, expanded cells are recorded, every open neighbour
   * of an expanded cell is recorded, and the end has not been expanded.
   */
  ghost predicate Frontier(maze: seq<seq<char>>, s: Search, expanded: set<Point>)
    requires Rectangular(maze) && |maze| > 0
  {
    SearchInv(maze, s) &&
    (forall p :: p in s.costs ==> p in expanded || p in QueuedCells(s.queue)) &&
    expanded <= s.costs.Keys &&
    (forall p, q :: p in expanded && Adjacent(p, q) && Open(maze, q) ==> q in s.costs) &&
    Corner(maze) !in expanded
  }

  /** Popping a cell other than the end and exploring it keeps the frontier, with that cell expanded. */
  lemma AdvanceKeeps(maze: seq<seq<char>>, s: Search, expanded: set<Point>, cur: Entry, rest: seq<Entry>, t: Search)
    requires Rectangular(maze) && |maze| > 0 && Frontier(maze, s, expanded) && |s.queue| > 0
    requires cur == Pop(s.queue).0 && rest == Pop(s.queue).1 && cur.pos != Corner(maze)
    requires ExploreUpTo(maze, cur, s.(queue := rest), |Moves|) == Ok(t)
    ensures Frontier(maze, t, expanded + {cur.pos})
  {
    var u := s.(queue := rest);
    QueuedAfterPop(s.queue);
    assert Explorable(maze, cur, u);
    ExploreKeeps(maze, cur, u, |Moves|);
    ExploreGrows(maze, cur, u, |Moves|);
    forall p, q | p in expanded + {cur.pos} && Adjacent(p, q) && Open(maze, q)
      ensures q in t.costs
    {
      if p == cur.pos {
        var i := AdjacentStep(p, q);
      }
    }
  }

  /** With the queue empty, every recorded cell is expanded and the end cannot be reached. */
  lemma FinishUnreachable(maze: seq<seq<char>>, s: Search, expanded: set<Point>)
    requires Rectangular(maze) && |maze| > 0 && Frontier(maze, s, expanded) && s.queue == []
    ensures !Reachable(maze, Origin, Corner(maze))
  {
    assert s.costs.Keys <= expanded;
    assert ClosedSet(maze, expanded);
    NoWayOut(maze, expanded, Origin, Corner(maze));
  }

  /** A queued item's cell is reached by a walk no longer than its cost. */
  lemma WalkTo(maze: seq<seq<char>>, s: Search, cur: Entry) returns (path: seq<Point>)
    requires Rectangular(maze) && |maze| > 0 && SearchInv(maze, s) && cur in s.queue
    ensures Walk(maze, Origin, cur.pos, path) && |path| <= cur.cost + 1
  {
    var trail := Chain(maze, s, cur.pos);
    TrailReversed(maze, Origin, cur.pos, trail);
    path := Reversed(trail);
  }

  /** What `dijkstra` returns: the step count (-1 for no way), or no answer within the fuel. */
  datatype Outcome = Cost(n: int) | OutOfFuel

  /**
   * `dijkstra`: pops the least item until it is at the bottom-right corner
   * and returns its cost; -1 when the queue runs out. A count is returned
   * only when a walk of at most that many steps exists, and -1 only when no
   * walk exists. IndexError for an empty grid, and only for a grid that is
   * not square otherwise. `fuel` bounds the number of pops.
   */
  method Dijkstra(maze: seq<seq<char>>, fuel: nat) returns (r: Result<Outcome>, ghost path: seq<Point>)
    requires Rectangular(maze)
    ensures |maze| == 0 ==> r == Err(IndexError)
    ensures r.Err? ==> r.error == IndexError && (|maze| == 0 || |maze| != |maze[0]|)
    ensures r.Ok? && r.value.Cost? ==> r.value.n >= -1
    ensures r.Ok? && r.value.Cost? && r.value.n >= 0 ==>
      Walk(maze, Origin, Corner(maze), path) && |path| <= r.value.n + 1
    ensures r == Ok(Cost(-1)) ==> !Reachable(maze, Origin, Corner(maze))
    ensures |maze| == 1 && |maze[0]| == 1 && fuel > 0 ==> r == Ok(Cost(0))
  {
    path := [];
    if |maze| == 0 {
      return Err(IndexError), [];
    }
    var rows, cols := |maze|, |maze[0]|;
    var start := (0, 0);
    var end := (rows - 1, cols - 1);
    assert end == Corner(maze);
    var s := Search([Entry(0, start)], map[start := 0], map[start := None]);
    ghost var expanded: set<Point> := {};
    var steps := fuel;
    while |s.queue| > 0
      invariant Frontier(maze, s, expanded)
      invariant start == end ==> steps == fuel && s.queue == [Entry(0, start)]
      decreases steps
    {
      if steps == 0 {
        return Ok(OutOfFuel), [];
      }
      var popped := Pop(s.queue);
      var cur, rest := popped.0, popped.1;
      steps := steps - 1;
      if cur.pos == end {
        path := WalkTo(maze, s, cur);
        return Ok(Cost(cur.cost)), path;
      }
      var next := Explore(maze, cur, s.(queue := rest));
      if next.Err? {
        return Err(next.error), [];
      }
      AdvanceKeeps(maze, s, expanded, cur, rest, next.value);
      expanded := expanded + {cur.pos};
      s := next.value;
    }
    FinishUnreachable(maze, s, expanded);
    return Ok(Cost(-1)), [];
  }

  /** A count that is returned is at least the Manhattan distance between the corners. */
  lemma CountAtLeastManhattan(maze: seq<seq<char>>, n: int, path: seq<Point>)
    requires Rectangular(maze) && |maze| > 0 && Walk(maze, Origin, Corner(maze), path) && |path| <= n + 1
    ensures GridPoints.ManhattanDistance(Origin, Corner(maze)) <= n
  {
    WalkAtLeastManhattan(maze, Origin, Corner(maze), path);
  }

  // ----- part 1 -----

  /** After the first `k` bytes have fallen on a `dim` × `dim` grid, a walk still joins the corners. */
  ghost predicate Passable(dim: nat, moves: seq<Point>, k: nat)
    requires dim > 0 && k <= |moves|
  {
    Reachable(Fallen(dim, moves[..k]), Origin, (dim - 1, dim - 1))
  }

  /**
   * The steps `part1` and each probe of `binary_search` share: a fresh grid
   * of side `gridDim + 1`, the first `count` bytes dropped on it, and
   * `dijkstra` run on it. A count of 0 or more comes with a way and is at
   * least the distance between the corners; -1 means no way is left.
   * IndexError when a byte is missing or falls off the grid.
   */
  method Probe(gridDim: nat, moves: seq<Point>, count: int, fuel: nat) returns (r: Result<Outcome>)
    ensures r.Err? ==> r.error == IndexError && !AllOnGrid(gridDim + 1, gridDim + 1, moves, count)
    ensures r.Ok? ==> AllOnGrid(gridDim + 1, gridDim + 1, moves, count)
    ensures r.Ok? && r.value.Cost? ==> r.value.n >= -1
    ensures r.Ok? && r.value.Cost? && r.value.n >= 0 ==>
              2 * gridDim <= r.value.n && Passable(gridDim + 1, moves, Iterations(count))
    ensures r == Ok(Cost(-1)) ==> !Passable(gridDim + 1, moves, Iterations(count))
  {
    var dim := gridDim + 1;
    var maze := NewPGrid(dim);
    var dropped := DropBytes(maze, moves, count);
    if dropped.Err? {
      return Err(dropped.error);
    }
    assert maze.grid == Fallen(dim, moves[..Iterations(count)]);
    var cost, path := Dijkstra(maze.grid, fuel);
    if cost.Err? {
      assert false;
      return Err(IndexError);
    }
    if cost.value.Cost? && cost.value.n >= 0 {
      CountAtLeastManhattan(maze.grid, cost.value.n, path);
    }
    return cost;
  }

  /**
   * `part1`: drops the first `num_bytes` bytes on a grid of side
   * `max_grid_dim + 1` and returns `dijkstra`'s count. The count is at least
   * the distance between the corners and comes with a walk; -1 means no walk
   * is left. ValueError for a bad row, IndexError for too few rows or a byte
   * off the grid.
   */
  method Part1(lines: seq<string>, maxGridDim: nat, numBytes: int, fuel: nat) returns (r: Result<Outcome>)
    ensures ParseRows(lines).Err? ==> r == Err(ValueError)
    ensures r.Err? ==> r.error == ValueError || r.error == IndexError
    ensures r.Err? && r.error == IndexError ==>
              ParseRows(lines).Ok? && !AllOnGrid(maxGridDim + 1, maxGridDim + 1, ParseRows(lines).value, numBytes)
    ensures r.Ok? ==> ParseRows(lines).Ok? && AllOnGrid(maxGridDim + 1, maxGridDim + 1, ParseRows(lines).value, numBytes)
    ensures r.Ok? && r.value.Cost? ==> r.value.n >= -1
    ensures r.Ok? && r.value.Cost? && r.value.n >= 0 ==>
              2 * maxGridDim <= r.value.n && Passable(maxGridDim + 1, ParseRows(lines).value, Iterations(numBytes))
    ensures r == Ok(Cost(-1)) ==> !Passable(maxGridDim + 1, ParseRows(lines).value, Iterations(numBytes))
  {
    var moves := ReadCsvData(lines);
    if moves.Err? {
      ParseRowsEach(lines);
      return Err(moves.error);
    }
    r := Probe(maxGridDim, moves.value, numBytes, fuel);
  }

  /** A byte more never opens a cell: a walk left after `j` bytes was also there after `i <= j`. */
  lemma PassableMonotone(dim: nat, moves: seq<Point>, i: nat, j: nat)
    requires dim > 0 && i <= j <= |moves| && Passable(dim, moves, j)
    ensures Passable(dim, moves, i)
  {
    var after := Fallen(dim, moves[..j]);
    var before := Fallen(dim, moves[..i]);
    var path :| Walk(after, Origin, (dim - 1, dim - 1), path);
    forall p | Open(after, p)
      ensures Open(before, p)
    {
      assert (p.1, p.0) !in moves[..j];
      assert moves[..i] == moves[..j][..i];
    }
    assert Walk(before, Origin, (dim - 1, dim - 1), path);
  }

  /**
   * Once a way is left after `k` bytes and none after `k + 1`, byte `k` is
   * the one that closes the last way: the way is there for every count up to
   * `k` and gone for every count after it.
   */
  lemma BoundaryIsFirst(dim: nat, moves: seq<Point>, k: nat)
    requires dim > 0 && k < |moves| && Passable(dim, moves, k) && !Passable(dim, moves, k + 1)
    ensures forall j :: 0 <= j <= k ==> Passable(dim, moves, j)
    ensures forall j :: k < j <= |moves| ==> !Passable(dim, moves, j)
  {
    forall j | 0 <= j <= k
      ensures Passable(dim, moves, j)
    {
      PassableMonotone(dim, moves, j, k);
    }
    forall j | k < j <= |moves|
      ensures !Passable(dim, moves, j)
    {
      if Passable(dim, moves, j) {
        PassableMonotone(dim, moves, k + 1, j);
      }
    }
  }

  // ----- part 2 -----

  /** What `binary_search` finds: the byte it stops at, or no answer within the fuel. */
  datatype Found = Blocker(byte: Point) | GaveUp

  /** A byte that falls off a grid of side `gridDim + 1`. */
  predicate OffGrid(gridDim: nat, p: Point)
  {
    !(0 <= p.0 <= gridDim && 0 <= p.1 <= gridDim)
  }

  /**
   * `binary_search`: halves the range of byte counts, keeping `idx_start` a
   * count with a way left (or 0) and `idx_end` a count with none (or all the
   * bytes), and returns the byte at `idx_start` once the middle stops moving.
   * IndexError for an empty list or a byte off the grid.
   */
  method BinarySearch(gridDim: nat, moves: seq<Point>, fuel: nat) returns (r: Result<Found>, ghost lo: nat, ghost hi: nat)
    ensures r.Err? ==>
              r.error == IndexError &&
              (|moves| == 0 || exists i :: 0 <= i < |moves| && OffGrid(gridDim, moves[i]))
    ensures r.Ok? && r.value.Blocker? ==>
              lo < |moves| && r.value.byte == moves[lo] && lo <= hi <= lo + 1 && hi <= |moves| &&
              (lo == 0 || Passable(gridDim + 1, moves, lo)) && (hi == |moves| || !Passable(gridDim + 1, moves, hi))
  {
    var idxStart, idxEnd := 0, |moves|;
    var found := false;
    var idxHalf := (idxStart + idxEnd) / 2;
    while !found
      invariant 0 <= idxStart <= idxHalf <= idxEnd <= |moves|
      invariant |moves| > 0 ==> idxHalf < |moves|
      invariant !found ==> idxHalf == (idxStart + idxEnd) / 2
      invariant found ==> idxHalf == idxStart && idxEnd - idxStart <= 1
      invariant idxStart == 0 || Passable(gridDim + 1, moves, idxStart)
      invariant idxEnd == |moves| || !Passable(gridDim + 1, moves, idxEnd)
      decreases idxEnd - idxStart + (if found then 0 else 1)
    {
      var cost := Probe(gridDim, moves, idxHalf, fuel);
      if cost.Err? {
        return Err(cost.error), 0, 0;
      }
      if cost.value.OutOfFuel? {
        return Ok(GaveUp), 0, 0;
      }
      if cost.value.n < 0 {
        idxEnd := idxHalf;
      } else {
        idxStart := idxHalf;
      }
      var newIdxHalf := (idxStart + idxEnd) / 2;
      if idxHalf == newIdxHalf {
        found := true;
      } else {
        idxHalf := newIdxHalf;
      }
    }
    lo, hi := idxStart, idxEnd;
    if idxHalf >= |moves| {
      return Err(IndexError), lo, hi;
    }
    return Ok(Blocker(moves[idxHalf])), lo, hi;
  }

  /** Where the search stops, no way is left after one byte more (or every byte has fallen). */
  lemma StopPoint(dim: nat, moves: seq<Point>, lo: nat, hi: nat)
    requires dim > 0 && lo < |moves| && lo <= hi <= lo + 1 && hi <= |moves|
    requires (lo == 0 || Passable(dim, moves, lo)) && (hi == |moves| || !Passable(dim, moves, hi))
    ensures lo + 1 == |moves| || !Passable(dim, moves, lo + 1)
  {
    if hi == lo && Passable(dim, moves, lo + 1) {
      PassableMonotone(dim, moves, lo, lo + 1);
    }
  }

  /**
   * `part2`: the byte `binary_search` stops at, written back as `(x, y)`.
   * ValueError for a bad row; IndexError as `binary_search` raises it.
   */
  method Part2(lines: seq<string>, maxGridDim: nat, fuel: nat) returns (r: Result<Found>, ghost k: nat)
    ensures ParseRows(lines).Err? ==> r == Err(ValueError)
    ensures r.Err? ==> r.error == ValueError || r.error == IndexError
    ensures r.Ok? && r.value.Blocker? ==>
              ParseRows(lines).Ok? && k < |ParseRows(lines).value| &&
              r.value.byte == (ParseRows(lines).value[k].1, ParseRows(lines).value[k].0) &&
              (k == 0 || Passable(maxGridDim + 1, ParseRows(lines).value, k)) &&
              (k + 1 == |ParseRows(lines).value| || !Passable(maxGridDim + 1, ParseRows(lines).value, k + 1))
  {
    k := 0;
    var moves := ReadCsvData(lines);
    if moves.Err? {
      ParseRowsEach(lines);
      return Err(moves.error), 0;
    }
    var found, lo, hi := BinarySearch(maxGridDim, moves.value, fuel);
    if found.Err? {
      return Err(found.error), 0;
    }
    if found.value.GaveUp? {
      return Ok(GaveUp), 0;
    }
    var (row, col) := found.value.byte;
    StopPoint(maxGridDim + 1, moves.value, lo, hi);
    return Ok(Blocker((col, row))), lo;
  }
}

