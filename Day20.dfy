/**
 * The race-track maze of src/aoc/yr_2024/day_20/puzzle.py. The track is
 * numbered once by walking it from `S`; a cheat is a pair of cells, the
 * first and last of a stretch run through walls, and it is recorded with the
 * number of steps it saves. Part 1 allows two steps straight through one
 * wall cell, part 2 any jump of at most `distance` Manhattan steps.
 */
module Day20 {
  import opened Common
  import opened GridPoints

  /** `valid_points`: the characters of the race track. */
  predicate IsTrack(c: char)
  {
    c == '.' || c == 'E' || c == 'S'
  }

  /** The key of `cheats` and `cheats_md`: where a cheat starts and ends. */
  type Cheat = (Point, Point)

  /** `direc_incrs.values()`, in their order n, s, e, w. */
  const Directions: seq<Point> := [(-1, 0), (1, 0), (0, 1), (0, -1)]

  function Cell(g: Grid<char>, p: Point): char
    reads g
    requires g.Valid() && g.InGrid(p)
  {
    g.grid[p.0][p.1]
  }

  // ----- find_char -----

  /** The generator of `find_char` from cell (row, col) on, in row-major order. */
  function FindCharFrom(g: Grid<char>, ch: char, row: int, col: int): (r: Option<Point>)
    reads g
    requires g.Valid() && 0 <= row <= g.rows && 0 <= col <= g.cols
    ensures r.Some? ==> g.InGrid(r.value) && Cell(g, r.value) == ch && !RowMajorLess(r.value, (row, col))
    ensures forall p :: g.InGrid(p) && !RowMajorLess(p, (row, col)) && (r.None? || RowMajorLess(p, r.value)) ==>
                          Cell(g, p) != ch
    decreases g.rows - row, g.cols - col
  {
    if row == g.rows then None
    else if col == g.cols then FindCharFrom(g, ch, row + 1, 0)
    else if g.grid[row][col] == ch then Some((row, col))
    else FindCharFrom(g, ch, row, col + 1)
  }

  /** `find_char`: the first cell holding `ch` in row-major order, None when no cell does. */
  function FindChar(g: Grid<char>, ch: char): (r: Option<Point>)
    reads g
    requires g.Valid()
    ensures r.Some? ==> g.InGrid(r.value) && Cell(g, r.value) == ch
    ensures r.Some? ==> forall p :: g.InGrid(p) && RowMajorLess(p, r.value) ==> Cell(g, p) != ch
    ensures r.None? <==> forall p :: g.InGrid(p) ==> Cell(g, p) != ch
  {
    FindCharFrom(g, ch, 0, 0)
  }

  // ----- number_maze_steps -----

  /** A cell the walk may step onto: in the grid, on the track and not yet numbered. */
  predicate Open(g: Grid<char>, steps: map<Point, nat>, q: Point)
    reads g
    requires g.Valid()
  {
    g.InGrid(q) && IsTrack(Cell(g, q)) && q !in steps
  }

  /**
   * One pass of the `if`/`elif` chain: the first open neighbour above, right,
   * below or left, None when there is none. `point_above` and `point_left`
   * answer None on row 0 and column 0, and `in_grid(None)` raises TypeError.
   */
  function NextStep(g: Grid<char>, steps: map<Point, nat>, cur: Point): (r: Result<Option<Point>>)
    reads g
    requires g.Valid() && g.InGrid(cur)
    ensures r.Ok? && r.value.Some? ==> Open(g, steps, r.value.value) && ManhattanDistance(cur, r.value.value) == 1
    ensures r == Ok(None) ==> forall q :: ManhattanDistance(cur, q) == 1 ==> !Open(g, steps, q)
    ensures r.Err? ==> r.error == TypeError && (cur.0 == 0 || cur.1 == 0)
    ensures cur.0 == 0 ==> r == Err(TypeError)
    ensures cur.0 > 0 && cur.1 > 0 ==> r.Ok?
  {
    match PointAbove(cur)
    case None => Err(TypeError)
    case Some(up) =>
      if Open(g, steps, up) then Ok(Some(up))
      else
        var right := PointRight(g.cols, cur).value;
        if Open(g, steps, right) then Ok(Some(right))
        else
          var down := PointBelow(g.rows, cur).value;
          if Open(g, steps, down) then Ok(Some(down))
          else
            match PointLeft(cur)
            case None => Err(TypeError)
            case Some(left) => if Open(g, steps, left) then Ok(Some(left)) else Ok(None)
  }

  /**
   * `order` lists the numbered cells in the order they were numbered (the
   * insertion order of the `steps` dict): it starts at `start`, every cell
   * is a track cell numbered with its position, and each is one step from
   * the one before.
   */
  ghost predicate IsWalk(g: Grid<char>, start: Point, order: seq<Point>, steps: map<Point, nat>)
    reads g
    requires g.Valid()
  {
    (|order| > 0 ==> order[0] == start) &&
    (forall p :: p in steps <==> p in order) &&
    (forall i :: 0 <= i < |order| ==> order[i] in steps && steps[order[i]] == i) &&
    (forall i :: 0 <= i < |order| ==> g.InGrid(order[i]) && IsTrack(Cell(g, order[i]))) &&
    (forall i :: 0 < i < |order| ==> ManhattanDistance(order[i - 1], order[i]) == 1)
  }

  /** A walk never numbers a cell twice. */
  lemma WalkDistinct(g: Grid<char>, start: Point, order: seq<Point>, steps: map<Point, nat>)
    requires g.Valid() && IsWalk(g, start, order, steps)
    ensures Distinct(order)
  {
    forall i, j | 0 <= i < j < |order| ensures order[i] != order[j] {
      assert steps[order[i]] == i && steps[order[j]] == j;
    }
  }

  /** Cells numbered i and j of a walk are at most |j - i| steps apart. */
  lemma {:induction false} WalkDistance(g: Grid<char>, start: Point, order: seq<Point>, steps: map<Point, nat>, i: nat, j: nat)
    requires g.Valid() && IsWalk(g, start, order, steps)
    requires i <= j < |order|
    ensures ManhattanDistance(order[i], order[j]) <= j - i
    decreases j - i
  {
    if i < j {
      WalkDistance(g, start, order, steps, i, j - 1);
      ManhattanTriangle(order[i], order[j - 1], order[j]);
    }
  }

  /** The step counts of two cells of a walk differ by at least their distance. */
  lemma StepsAtLeastDistance(g: Grid<char>, start: Point, order: seq<Point>, steps: map<Point, nat>, p: Point, q: Point)
    requires g.Valid() && IsWalk(g, start, order, steps)
    requires p in steps && q in steps && steps[p] <= steps[q]
    ensures ManhattanDistance(p, q) <= steps[q] - steps[p]
  {
    var i, j := steps[p], steps[q];
    assert p in order && q in order;
    var i' :| 0 <= i' < |order| && order[i'] == p;
    var j' :| 0 <= j' < |order| && order[j'] == q;
    WalkDistance(g, start, order, steps, i, j);
  }

  /** No track cell lies on row 0 or column 0, where `point_above` or `point_left` answers None. */
  ghost predicate WalledTopLeft(m: seq<seq<char>>)
  {
    forall p :: InCells(m, p) && (p.0 == 0 || p.1 == 0) ==> !IsTrack(m[p.0][p.1])
  }

  /** Numbering `cur` next extends a walk. */
  lemma WalkExtend(g: Grid<char>, start: Point, order: seq<Point>, steps: map<Point, nat>, cur: Point)
    requires g.Valid() && IsWalk(g, start, order, steps)
    requires g.InGrid(cur) && IsTrack(Cell(g, cur)) && cur !in steps
    requires order == [] ==> cur == start
    requires order != [] ==> ManhattanDistance(order[|order| - 1], cur) == 1
    ensures IsWalk(g, start, order + [cur], steps[cur := |order|])
  {
    var order', steps' := order + [cur], steps[cur := |order|];
    forall i | 0 <= i < |order'| ensures order'[i] in steps' && steps'[order'[i]] == i {
      if i < |order| {
        assert order'[i] == order[i] && order[i] in steps;
      }
    }
  }

  /**
   * What `number_maze_steps` returns when it returns: a walk from `start`,
   * empty exactly when `start` is off the track, that ends where no open
   * neighbour is left.
   */
  ghost predicate Numbered(g: Grid<char>, start: Point, order: seq<Point>, steps: map<Point, nat>)
    reads g
    requires g.Valid() && g.InGrid(start)
  {
    IsWalk(g, start, order, steps) &&
    (order == [] <==> !IsTrack(Cell(g, start))) &&
    (order != [] ==> NextStep(g, steps, order[|order| - 1]) == Ok(None))
  }

  /**
   * `number_maze_steps`: walk from `start` while the current cell is on the
   * track, numbering it and moving to the first open neighbour; stop where
   * none is left. A missing start raises TypeError, one outside the grid
   * IndexError (from `get`).
   */
  method NumberMazeSteps(g: Grid<char>, start: Option<Point>) returns (r: Result<(seq<Point>, map<Point, nat>)>)
    requires g.Valid()
    ensures start.None? ==> r == Err(TypeError)
    ensures start.Some? && !g.InGrid(start.value) ==> r == Err(IndexError)
    ensures start.Some? && g.InGrid(start.value) ==> (r.Err? ==> r.error == TypeError && !WalledTopLeft(g.grid))
    ensures r.Ok? ==> start.Some? && g.InGrid(start.value) && Numbered(g, start.value, r.value.0, r.value.1)
  {
    if start.None? {
      return Err(TypeError);
    }
    if !g.InGrid(start.value) {
      return Err(IndexError);
    }
    r := WalkFrom(g, start.value);
  }

  /** The loop of `number_maze_steps`, from a start in the grid. */
  method WalkFrom(g: Grid<char>, start: Point) returns (r: Result<(seq<Point>, map<Point, nat>)>)
    requires g.Valid() && g.InGrid(start)
    ensures r.Err? ==> r.error == TypeError && !WalledTopLeft(g.grid)
    ensures r.Ok? ==> Numbered(g, start, r.value.0, r.value.1)
  {
    var cur := start;
    var order: seq<Point> := [];
    var steps: map<Point, nat> := map[];
    while IsTrack(g.grid[cur.0][cur.1])
      invariant Walking(g, start, cur, order, steps)
      decreases |AllCells(g.grid) - steps.Keys|
    {
      var next := NextStep(g, steps[cur := |order|], cur);
      if next.Err? {
        StuckOnBorder(g, start, cur, order, steps);
        return Err(next.error);
      }
      if next.value.None? {
        WalkEnds(g, start, cur, order, steps);
        return Ok((order + [cur], steps[cur := |order|]));
      }
      WalkStep(g, start, cur, order, steps, next.value.value);
      MoreCells(g, steps, cur, |order|);
      steps := steps[cur := |order|];
      order := order + [cur];
      cur := next.value.value;
    }
    WalkOffTrack(g, start, cur, order, steps);
    r := Ok((order, steps));
  }

  /** NextStep fails only on a track cell of row 0 or column 0. */
  lemma StuckOnBorder(g: Grid<char>, start: Point, cur: Point, order: seq<Point>, steps: map<Point, nat>)
    requires g.Valid() && Walking(g, start, cur, order, steps) && IsTrack(Cell(g, cur))
    requires NextStep(g, steps[cur := |order|], cur).Err?
    ensures !WalledTopLeft(g.grid)
  {
    assert InCells(g.grid, cur);
  }

  /** Numbering `cur` and moving on to its first open neighbour `q` keeps the invariant and leaves fewer cells. */
  lemma WalkStep(g: Grid<char>, start: Point, cur: Point, order: seq<Point>, steps: map<Point, nat>, q: Point)
    requires g.Valid() && Walking(g, start, cur, order, steps) && IsTrack(Cell(g, cur))
    requires NextStep(g, steps[cur := |order|], cur) == Ok(Some(q))
    ensures Walking(g, start, q, order + [cur], steps[cur := |order|])
  {
    WalkExtend(g, start, order, steps, cur);
    MoreCells(g, steps, cur, |order|);
  }

  /** Numbering one more cell keeps the numbered cells within the grid and leaves fewer to number. */
  lemma MoreCells(g: Grid<char>, steps: map<Point, nat>, cur: Point, n: nat)
    requires g.Valid() && steps.Keys <= AllCells(g.grid) && g.InGrid(cur) && cur !in steps
    ensures steps[cur := n].Keys <= AllCells(g.grid)
    ensures |AllCells(g.grid) - steps[cur := n].Keys| < |AllCells(g.grid) - steps.Keys|
  {
    KeysAfterUpdate(steps, cur, n);
    CellsGrow(g, steps.Keys, cur);
  }

  lemma KeysAfterUpdate<K, V>(m: map<K, V>, k: K, v: V)
    ensures m[k := v].Keys == m.Keys + {k}
  {
  }

  /** The walk stops at a numbered cell with no open neighbour. */
  lemma WalkEnds(g: Grid<char>, start: Point, cur: Point, order: seq<Point>, steps: map<Point, nat>)
    requires g.Valid() && g.InGrid(start) && Walking(g, start, cur, order, steps) && IsTrack(Cell(g, cur))
    requires NextStep(g, steps[cur := |order|], cur) == Ok(None)
    ensures Numbered(g, start, order + [cur], steps[cur := |order|])
  {
    WalkExtend(g, start, order, steps, cur);
  }

  /** A start off the track numbers nothing. */
  lemma WalkOffTrack(g: Grid<char>, start: Point, cur: Point, order: seq<Point>, steps: map<Point, nat>)
    requires g.Valid() && g.InGrid(start) && Walking(g, start, cur, order, steps) && !IsTrack(Cell(g, cur))
    ensures Numbered(g, start, order, steps)
  {
  }

  /** The loop invariant of `number_maze_steps`: `cur` is the next cell to number. */
  ghost predicate Walking(g: Grid<char>, start: Point, cur: Point, order: seq<Point>, steps: map<Point, nat>)
    reads g
    requires g.Valid()
  {
    g.InGrid(cur) && cur !in steps && IsWalk(g, start, order, steps) &&
    (order == [] ==> cur == start) &&
    (order != [] ==> ManhattanDistance(order[|order| - 1], cur) == 1 && IsTrack(Cell(g, cur))) &&
    steps.Keys <= AllCells(g.grid)
  }

  /** Numbering one more cell of the grid leaves fewer cells to number. */
  lemma CellsGrow(g: Grid<char>, keys: set<Point>, cur: Point)
    requires g.Valid() && keys <= AllCells(g.grid) && g.InGrid(cur) && cur !in keys
    ensures keys + {cur} <= AllCells(g.grid)
    ensures |AllCells(g.grid) - (keys + {cur})| < |AllCells(g.grid) - keys|
  {
    AllCellsMembership(g.grid);
    CardDrops(AllCells(g.grid), keys, cur);
  }

  // ----- cheats through one wall (part 1) -----

  /** Every cell a walk numbers is a track cell of the grid. */
  lemma WalkTrackCells(g: Grid<char>, start: Point, order: seq<Point>, steps: map<Point, nat>)
    requires g.Valid() && IsWalk(g, start, order, steps)
    ensures TrackCells(g.grid, steps) && Rectangular(g.grid)
  {
    forall p | p in steps ensures InCells(g.grid, p) && IsTrack(g.grid[p.0][p.1]) {
      var i :| 0 <= i < |order| && order[i] == p;
    }
  }

  /** The wall cell and the landing cell of a two-step cheat from `s` in direction `d`. */
  function CheatKey(s: Point, d: Point): Cheat
  {
    ((s.0 + d.0, s.1 + d.1), (s.0 + 2 * d.0, s.1 + 2 * d.1))
  }

  /** The track cell a two-step cheat leaves from, one step before its wall cell. */
  function CheatStart(k: Cheat): Point
  {
    (2 * k.0.0 - k.1.0, 2 * k.0.1 - k.1.1)
  }

  /** Every cell of the track is numbered and every numbered cell is a track cell of the grid. */
  ghost predicate TrackCells(m: seq<seq<char>>, track: map<Point, nat>)
  {
    forall p :: p in track ==> InCells(m, p) && IsTrack(m[p.0][p.1])
  }

  /**
   * A two-step cheat: its first cell is a wall one step from a numbered cell,
   * its second the next cell on in the same direction, numbered later.
   */
  predicate IsShortcut(m: seq<seq<char>>, track: map<Point, nat>, k: Cheat)
  {
    ManhattanDistance(k.0, k.1) == 1 && CheatStart(k) in track && k.1 in track &&
    InCells(m, k.0) && m[k.0.0][k.0.1] == '#' && track[k.1] > track[CheatStart(k)]
  }

  /** The steps a two-step cheat saves: the track's count between its ends, less the 2 it takes. */
  function Saving2(track: map<Point, nat>, k: Cheat): int
    requires CheatStart(k) in track && k.1 in track
  {
    track[k.1] as int - track[CheatStart(k)] - 2
  }

  /**
   * The cells of `check_2(s, d)` that make it raise: the landing cell is in
   * the grid and the wall cell is not (IndexError), or the test reaches a
   * track lookup that is missing (KeyError).
   */
  predicate Stray2(m: seq<seq<char>>, track: map<Point, nat>, s: Point, d: Point)
  {
    var k := CheatKey(s, d);
    InCells(m, k.1) &&
    (!InCells(m, k.0) || (m[k.0.0][k.0.1] == '#' && IsTrack(m[k.1.0][k.1.1]) && (k.1 !in track || s !in track)))
  }

  /** What `check_2(s, d)` does: the key it records, if any, or the error it raises. */
  function Check2Outcome(m: seq<seq<char>>, track: map<Point, nat>, s: Point, d: Point): (r: Result<Option<Cheat>>)
  {
    var (one, two) := CheatKey(s, d);
    if !InCells(m, two) then Ok(None)
    else if !InCells(m, one) then Err(IndexError)
    else if m[one.0][one.1] != '#' || !IsTrack(m[two.0][two.1]) then Ok(None)
    else if two !in track || s !in track then Err(KeyError)
    else if track[two] > track[s] then Ok(Some((one, two)))
    else Ok(None)
  }

  /**
   * `check_2` records exactly the two-step cheats from `s` in direction `d`,
   * and raises exactly in the stray cases; from a numbered cell only a track
   * cell missing from the numbering makes it raise.
   */
  lemma Check2Spec(m: seq<seq<char>>, track: map<Point, nat>, s: Point, d: Point)
    requires Rectangular(m) && TrackCells(m, track) && d in Directions
    ensures Check2Outcome(m, track, s, d).Err? <==> Stray2(m, track, s, d)
    ensures Check2Outcome(m, track, s, d).Ok? ==>
              Check2Outcome(m, track, s, d).value == (if IsShortcut(m, track, CheatKey(s, d)) then Some(CheatKey(s, d)) else None)
    ensures s in track && Stray2(m, track, s, d) ==> Check2Outcome(m, track, s, d) == Err(KeyError)
  {
    var (one, two) := CheatKey(s, d);
    assert CheatStart((one, two)) == s;
    if s in track && InCells(m, two) {
      assert InCells(m, one);
    }
  }

  /** The key of a two-step cheat is the key `check_2` builds from its start and direction. */
  lemma ShortcutDirection(m: seq<seq<char>>, track: map<Point, nat>, k: Cheat)
    requires IsShortcut(m, track, k)
    ensures DirIndex(k) < 4 && k == CheatKey(CheatStart(k), Directions[DirIndex(k)])
  {
  }

  /** A two-step cheat along a numbered walk never loses time. */
  lemma ShortcutSaves(g: Grid<char>, start: Point, order: seq<Point>, track: map<Point, nat>, k: Cheat)
    requires g.Valid() && IsWalk(g, start, order, track) && IsShortcut(g.grid, track, k)
    ensures Saving2(track, k) >= 0
  {
    StepsAtLeastDistance(g, start, order, track, CheatStart(k), k.1);
  }

  /** What `check_2(s, d)` adds when it succeeds: the two-step cheat it finds, with its saving. */
  function Found2(m: seq<seq<char>>, track: map<Point, nat>, s: Point, d: Point): (f: map<Cheat, int>)
  {
    var k := CheatKey(s, d);
    if IsShortcut(m, track, k) then map[k := Saving2(track, k)] else map[]
  }

  /** What the first `n` calls of `check_point_for_cheats(s)` add. */
  function FoundIn(m: seq<seq<char>>, track: map<Point, nat>, s: Point, n: nat): (f: map<Cheat, int>)
    requires n <= |Directions|
  {
    if n == 0 then map[] else FoundIn(m, track, s, n - 1) + Found2(m, track, s, Directions[n - 1])
  }

  /** What `check_point_for_cheats(s)` adds. */
  function FoundAt(m: seq<seq<char>>, track: map<Point, nat>, s: Point): (f: map<Cheat, int>)
  {
    FoundIn(m, track, s, |Directions|)
  }

  /** What `find_all_cheats` adds, visiting the cells `ps` in order. */
  function FoundAlong(m: seq<seq<char>>, track: map<Point, nat>, ps: seq<Point>): (f: map<Cheat, int>)
  {
    if ps == [] then map[] else FoundAlong(m, track, ps[..|ps| - 1]) + FoundAt(m, track, ps[|ps| - 1])
  }

  /** A `check_2` that succeeds has added its `Found2`. */
  lemma AddFound2(before: map<Cheat, int>, m: seq<seq<char>>, track: map<Point, nat>, s: Point, d: Point)
    ensures IsShortcut(m, track, CheatKey(s, d)) ==>
              before[CheatKey(s, d) := Saving2(track, CheatKey(s, d))] == before + Found2(m, track, s, d)
    ensures !IsShortcut(m, track, CheatKey(s, d)) ==> before == before + Found2(m, track, s, d)
  {
  }

  lemma MergeAssociates<K, V>(a: map<K, V>, b: map<K, V>, c: map<K, V>)
    ensures a + b + c == a + (b + c)
  {
  }

  /** The position in `Directions` of the direction a two-step cheat runs in; 4 for none. */
  function DirIndex(k: Cheat): (i: nat)
    ensures i <= 4
  {
    var d := (k.1.0 - k.0.0, k.1.1 - k.0.1);
    if d == Directions[0] then 0
    else if d == Directions[1] then 1
    else if d == Directions[2] then 2
    else if d == Directions[3] then 3
    else 4
  }

  /** `check_2(s, Directions[j])` can only find the two-step cheat from `s` in direction j. */
  lemma Found2Means(m: seq<seq<char>>, track: map<Point, nat>, s: Point, j: nat)
    requires j < |Directions|
    ensures forall k :: k in Found2(m, track, s, Directions[j]) <==>
                          IsShortcut(m, track, k) && CheatStart(k) == s && DirIndex(k) == j
    ensures forall k :: k in Found2(m, track, s, Directions[j]) ==> Found2(m, track, s, Directions[j])[k] == Saving2(track, k)
  {
    forall k | CheatStart(k) == s && DirIndex(k) == j ensures k == CheatKey(s, Directions[j]) {}
  }

  /** The first `n` directions find the two-step cheats from `s` running in one of them. */
  lemma {:induction false} FoundInMeans(m: seq<seq<char>>, track: map<Point, nat>, s: Point, n: nat)
    requires n <= |Directions|
    ensures forall k :: k in FoundIn(m, track, s, n) <==> IsShortcut(m, track, k) && CheatStart(k) == s && DirIndex(k) < n
    ensures forall k :: k in FoundIn(m, track, s, n) ==> IsShortcut(m, track, k) && FoundIn(m, track, s, n)[k] == Saving2(track, k)
  {
    if n > 0 {
      FoundInMeans(m, track, s, n - 1);
      Found2Means(m, track, s, n - 1);
    }
  }

  /** `check_point_for_cheats(s)` finds exactly the two-step cheats that start at `s`, with their savings. */
  lemma FoundAtMeans(m: seq<seq<char>>, track: map<Point, nat>, s: Point)
    ensures forall k :: k in FoundAt(m, track, s) <==> IsShortcut(m, track, k) && CheatStart(k) == s
    ensures forall k :: k in FoundAt(m, track, s) ==> IsShortcut(m, track, k) && FoundAt(m, track, s)[k] == Saving2(track, k)
  {
    FoundInMeans(m, track, s, |Directions|);
    forall k | IsShortcut(m, track, k) ensures DirIndex(k) < 4 {
      ShortcutDirection(m, track, k);
    }
  }

  /**
   * `find_all_cheats` over the cells `ps` finds exactly the two-step cheats
   * that start at one of them, each with its saving.
   */
  lemma {:induction false} FoundAlongMeans(m: seq<seq<char>>, track: map<Point, nat>, ps: seq<Point>)
    ensures forall k :: k in FoundAlong(m, track, ps) <==> IsShortcut(m, track, k) && CheatStart(k) in ps
    ensures forall k :: k in FoundAlong(m, track, ps) ==>
                          IsShortcut(m, track, k) && FoundAlong(m, track, ps)[k] == Saving2(track, k)
    decreases |ps|
  {
    if ps != [] {
      var init, last := ps[..|ps| - 1], ps[|ps| - 1];
      FoundAlongMeans(m, track, init);
      FoundAtMeans(m, track, last);
      assert ps == init + [last];
      forall k ensures CheatStart(k) in ps <==> CheatStart(k) in init || CheatStart(k) == last {
      }
    }
  }

  // ----- cheats within a Manhattan distance (part 2) -----

  /**
   * A cheat of at most `distance` steps: both ends are numbered, distinct and
   * within `distance` of each other, and the end comes more than their
   * distance later along the track.
   */
  predicate IsMdCheat(track: map<Point, nat>, k: Cheat, distance: int)
  {
    k.0 in track && k.1 in track && k.0 != k.1 && ManhattanDistance(k.0, k.1) <= distance &&
    track[k.1] > track[k.0] + ManhattanDistance(k.0, k.1)
  }

  /** The steps such a cheat saves. */
  function SavingMd(track: map<Point, nat>, k: Cheat): int
    requires k.0 in track && k.1 in track
  {
    track[k.1] as int - track[k.0] - ManhattanDistance(k.0, k.1)
  }

  /** A part-2 cheat always saves time. */
  lemma MdCheatSaves(track: map<Point, nat>, k: Cheat, distance: int)
    requires IsMdCheat(track, k, distance)
    ensures SavingMd(track, k) > 0
  {
  }

  /** A nearby track cell `check_man_dist(s, distance)` cannot look up: KeyError. */
  predicate StrayMd(m: seq<seq<char>>, track: map<Point, nat>, s: Point, q: Point, distance: int)
  {
    InCells(m, q) && q != s && ManhattanDistance(s, q) <= distance && IsTrack(m[q.0][q.1]) &&
    (q !in track || s !in track)
  }

  /**
   * `after` is `before` with the part-2 cheats from `starts` to `ends`
   * recorded, each with its saving.
   */
  ghost predicate MdRecorded(after: map<Cheat, int>, before: map<Cheat, int>, track: map<Point, nat>, distance: int,
                             starts: set<Point>, ends: set<Point>)
  {
    (forall k :: k in after <==> k in before || (k.0 in starts && k.1 in ends && IsMdCheat(track, k, distance))) &&
    (forall k :: k in after ==>
       after[k] == if k.0 in starts && k.1 in ends && IsMdCheat(track, k, distance) then SavingMd(track, k) else before[k])
  }

  /** Recording from one set of starts and then from another records from both. */
  lemma MdRecordedTrans(c0: map<Cheat, int>, c1: map<Cheat, int>, c2: map<Cheat, int>, track: map<Point, nat>,
                        distance: int, s1: set<Point>, s2: set<Point>, ends: set<Point>)
    requires MdRecorded(c1, c0, track, distance, s1, ends) && MdRecorded(c2, c1, track, distance, s2, ends)
    ensures MdRecorded(c2, c0, track, distance, s1 + s2, ends)
  {
  }

  /** Looking at one more end `q` from `s` records the cheat (s, q) when it is one. */
  lemma MdRecordStep(c0: map<Cheat, int>, c: map<Cheat, int>, c': map<Cheat, int>, track: map<Point, nat>,
                     distance: int, s: Point, ends: set<Point>, q: Point)
    requires MdRecorded(c, c0, track, distance, {s}, ends)
    requires c' == if IsMdCheat(track, (s, q), distance) then c[(s, q) := SavingMd(track, (s, q))] else c
    ensures MdRecorded(c', c0, track, distance, {s}, ends + {q})
  {
  }

  /** Only the ends that can close a cheat from the starts matter. */
  lemma MdRecordedEnds(c0: map<Cheat, int>, c: map<Cheat, int>, track: map<Point, nat>, distance: int,
                       s: Point, e1: set<Point>, e2: set<Point>)
    requires MdRecorded(c, c0, track, distance, {s}, e1)
    requires forall q :: IsMdCheat(track, (s, q), distance) ==> (q in e1 <==> q in e2)
    ensures MdRecorded(c, c0, track, distance, {s}, e2)
  {
    forall k: Cheat | k.0 == s && IsMdCheat(track, k, distance) ensures k.1 in e1 <==> k.1 in e2 {
      assert k == (s, k.1);
    }
  }

  // ----- Counter and the sums of part1 / part2 -----

  /** The keys of `d` carrying the value `v`. */
  function KeysWith<K>(d: map<K, int>, v: int): set<K>
  {
    set k | k in d && d[k] == v
  }

  /** `Counter(d.values())`: how many keys carry each value. */
  function Counter<K>(d: map<K, int>): (c: map<int, nat>)
    ensures c.Keys == d.Values
    ensures forall v :: v in c ==> c[v] == |KeysWith(d, v)|
  {
    map v | v in d.Values :: |KeysWith(d, v)|
  }

  ghost function PickKey(c: map<int, nat>): (v: int)
    requires c != map[]
    ensures v in c
  {
    var kv :| kv in c.Items; kv.0
  }

  /** The counts of the keys at least `t`, summed. */
  ghost function CountSum(c: map<int, nat>, t: int): nat
    decreases c.Keys
  {
    if c == map[] then 0
    else
      var v := PickKey(c);
      (if v >= t then c[v] else 0) + CountSum(c - {v}, t)
  }

  /** The sum does not depend on which key is taken out first. */
  lemma {:induction false} CountSumRemove(c: map<int, nat>, y: int, t: int)
    requires y in c
    ensures CountSum(c, t) == (if y >= t then c[y] else 0) + CountSum(c - {y}, t)
    decreases c.Keys
  {
    var x := PickKey(c);
    if x != y {
      var c' := c - {x};
      CountSumRemove(c', y, t);
      CountSumRemove(c - {y}, x, t);
      assert c' - {y} == c - {y} - {x};
    }
  }

  /** `sum(val for key, val in counts.items() if key >= t)`. */
  method SumAtLeast(counts: map<int, nat>, t: int) returns (total: nat)
    ensures total == CountSum(counts, t)
  {
    total := 0;
    var rest := counts;
    while rest != map[]
      invariant total + CountSum(rest, t) == CountSum(counts, t)
      decreases rest.Keys
    {
      var key :| key in rest;
      CountSumRemove(rest, key, t);
      if key >= t {
        total := total + rest[key];
      }
      rest := rest - {key};
    }
  }

  /** The keys whose value is at least `t`. */
  function AtLeast<K>(d: map<K, int>, t: int): set<K>
  {
    set k | k in d && d[k] >= t
  }

  /** `d` without the keys carrying `v`. */
  function Without<K>(d: map<K, int>, v: int): (d': map<K, int>)
    ensures d'.Keys == d.Keys - KeysWith(d, v)
  {
    map k | k in d && d[k] != v :: d[k]
  }

  /** Dropping the keys that carry `v` drops `v` from the counter and changes no other count. */
  lemma CounterWithout<K>(d: map<K, int>, v: int)
    ensures Counter(Without(d, v)) == Counter(d) - {v}
  {
    var d' := Without(d, v);
    forall w | w != v ensures KeysWith(d', w) == KeysWith(d, w) {}
    forall w | w in d.Values && w != v ensures w in d'.Values {
      var kw :| kw in d && d[kw] == w;
      assert kw in d' && d'[kw] == w;
    }
  }

  /** The keys at least `t` split into those carrying `v` and the rest. */
  lemma AtLeastWithout<K>(d: map<K, int>, v: int, t: int)
    ensures |AtLeast(d, t)| == |AtLeast(Without(d, v), t)| + (if v >= t then |KeysWith(d, v)| else 0)
  {
    var rest := AtLeast(Without(d, v), t);
    if v >= t {
      assert AtLeast(d, t) == rest + KeysWith(d, v);
      assert rest !! KeysWith(d, v);
    } else {
      assert AtLeast(d, t) == rest;
    }
  }

  /** Summing the counter over the values at least `t` counts the keys with such a value. */
  lemma {:induction false} CounterSum<K>(d: map<K, int>, t: int)
    ensures CountSum(Counter(d), t) == |AtLeast(d, t)|
    decreases d.Keys
  {
    if d != map[] {
      var kv :| kv in d.Items;
      var v := kv.1;
      assert kv.0 in KeysWith(d, v);
      CounterSum(Without(d, v), t);
      CounterWithout(d, v);
      CountSumRemove(Counter(d), v, t);
      AtLeastWithout(d, v, t);
    }
  }

  // ----- PGrid -----

  /**
   * The puzzle's grid with its numbered track. `order` is the numbering's
   * key order, the order `for point in self.track` visits. Only the two
   * cheat dictionaries change after construction.
   */
  class PGrid {
    const g: Grid<char>
    const start: Option<Point>
    const end: Option<Point>
    const track: map<Point, nat>
    const order: seq<Point>
    var cheats: map<Cheat, int>
    var cheatsMd: map<Cheat, int>

    ghost predicate Valid()
      reads this, g
    {
      g.Valid() && Rectangular(g.grid) && TrackCells(g.grid, track) && (forall p :: p in track <==> p in order)
    }

    constructor (g: Grid<char>, start: Option<Point>, end: Option<Point>, order: seq<Point>, track: map<Point, nat>)
      requires g.Valid() && TrackCells(g.grid, track) && (forall p :: p in track <==> p in order)
      ensures Valid()
      ensures this.g == g && this.start == start && this.end == end && this.order == order && this.track == track
      ensures cheats == map[] && cheatsMd == map[]
    {
      this.g := g;
      this.start := start;
      this.end := end;
      this.order := order;
      this.track := track;
      cheats := map[];
      cheatsMd := map[];
    }

    /** `check_2(s, d)`: record the outcome's cheat with its saving, or raise. */
    method Check2(s: Point, d: Point) returns (r: Result<()>)
      requires Valid()
      modifies this`cheats
      ensures Valid()
      ensures r.Err? <==> Check2Outcome(g.grid, track, s, d).Err?
      ensures r.Err? ==> r.error == Check2Outcome(g.grid, track, s, d).error && cheats == old(cheats)
      ensures r.Ok? ==> cheats == match Check2Outcome(g.grid, track, s, d).value
                                  case None => old(cheats)
                                  case Some(k) => old(cheats)[k := Saving2(track, k)]
    {
      var (one, two) := CheatKey(s, d);
      if !g.InGrid(two) {
        return Ok(());
      }
      if !g.InGrid(one) {
        return Err(IndexError);
      }
      if g.grid[one.0][one.1] != '#' || !IsTrack(g.grid[two.0][two.1]) {
        return Ok(());
      }
      if two !in track || s !in track {
        return Err(KeyError);
      }
      if track[two] > track[s] {
        assert CheatStart((one, two)) == s;
        cheats := cheats[(one, two) := track[two] as int - track[s] - 2];
      }
      r := Ok(());
    }

    /** `check_point_for_cheats(s)`: `check_2` in the four directions, n, s, e, w. */
    method CheckPointForCheats(s: Point) returns (r: Result<()>)
      requires Valid()
      modifies this`cheats
      ensures Valid()
      ensures r.Ok? <==> forall d :: d in Directions ==> !Stray2(g.grid, track, s, d)
      ensures r.Err? ==> s !in track || r.error == KeyError
      ensures r.Ok? ==> cheats == old(cheats) + FoundAt(g.grid, track, s)
    {
      var i := 0;
      while i < 4
        invariant 0 <= i <= 4 && Valid()
        invariant forall j :: 0 <= j < i ==> !Stray2(g.grid, track, s, Directions[j])
        invariant cheats == old(cheats) + FoundIn(g.grid, track, s, i)
      {
        var d := Directions[i];
        Check2Spec(g.grid, track, s, d);
        ghost var before := cheats;
        r := Check2(s, d);
        if r.Err? {
          return;
        }
        AddFound2(before, g.grid, track, s, d);
        MergeAssociates(old(cheats), FoundIn(g.grid, track, s, i), Found2(g.grid, track, s, d));
        i := i + 1;
      }
      r := Ok(());
    }

    /** `find_all_cheats`: `check_point_for_cheats` at every numbered cell, in numbering order. */
    method FindAllCheats() returns (r: Result<()>)
      requires Valid()
      modifies this`cheats
      ensures Valid()
      ensures r.Ok? <==> forall s, d :: s in track && d in Directions ==> !Stray2(g.grid, track, s, d)
      ensures r.Err? ==> r.error == KeyError
      ensures r.Ok? ==> cheats == old(cheats) + FoundAlong(g.grid, track, order)
    {
      var i := 0;
      while i < |order|
        invariant 0 <= i <= |order| && Valid()
        invariant forall s, d :: s in order[..i] && d in Directions ==> !Stray2(g.grid, track, s, d)
        invariant cheats == old(cheats) + FoundAlong(g.grid, track, order[..i])
      {
        assert order[i] in track;
        r := CheckPointForCheats(order[i]);
        if r.Err? {
          return;
        }
        assert order[..i + 1][..i] == order[..i];
        MergeAssociates(old(cheats), FoundAlong(g.grid, track, order[..i]), FoundAt(g.grid, track, order[i]));
        i := i + 1;
      }
      assert order[..i] == order;
      r := Ok(());
    }

    /**
     * `check_man_dist(s, distance)`: every in-grid point other than `s`
     * within `distance` is looked at, in row-major order; a track point
     * reached sooner this way than along the track is recorded with the
     * steps saved.
     */
    method CheckManDist(s: Point, distance: int) returns (r: Result<()>)
      requires Valid()
      modifies this`cheatsMd
      ensures Valid()
      ensures r.Ok? <==> forall q :: !StrayMd(g.grid, track, s, q, distance)
      ensures r.Err? ==> r.error == KeyError
      ensures r.Ok? ==> MdRecorded(cheatsMd, old(cheatsMd), track, distance, {s}, track.Keys)
    {
      var points := g.PositionsWithinDist(s, distance);
      var j := 0;
      while j < |points|
        invariant 0 <= j <= |points|
        invariant forall q :: q in points[..j] ==> !StrayMd(g.grid, track, s, q, distance)
        invariant MdRecorded(cheatsMd, old(cheatsMd), track, distance, {s}, Elems(points[..j]))
      {
        var q := points[j];
        assert points[..j + 1] == points[..j] + [q];
        ghost var before := cheatsMd;
        var md := ManhattanDistance(s, q);
        if IsTrack(g.grid[q.0][q.1]) {
          if q !in track || s !in track {
            assert StrayMd(g.grid, track, s, q, distance);
            return Err(KeyError);
          }
          if track[q] > track[s] + md {
            cheatsMd := cheatsMd[(s, q) := track[q] as int - track[s] - md];
          }
        }
        MdRecordStep(old(cheatsMd), before, cheatsMd, track, distance, s, Elems(points[..j]), q);
        j := j + 1;
      }
      assert points[..j] == points;
      MdRecordedEnds(old(cheatsMd), cheatsMd, track, distance, s, Elems(points), track.Keys);
      r := Ok(());
    }

    /** `find_all_mh_dist_cheats(distance)`: start afresh, then `check_man_dist` from every numbered cell. */
    method FindAllMhDistCheats(distance: int) returns (r: Result<()>)
      requires Valid()
      modifies this`cheatsMd
      ensures Valid()
      ensures r.Ok? <==> forall s, q :: s in track ==> !StrayMd(g.grid, track, s, q, distance)
      ensures r.Err? ==> r.error == KeyError
      ensures r.Ok? ==> forall k :: k in cheatsMd <==> IsMdCheat(track, k, distance)
      ensures r.Ok? ==> forall k :: k in cheatsMd ==> IsMdCheat(track, k, distance) && cheatsMd[k] == SavingMd(track, k)
    {
      cheatsMd := map[];
      var i := 0;
      while i < |order|
        invariant 0 <= i <= |order| && Valid()
        invariant forall s, q :: s in order[..i] ==> !StrayMd(g.grid, track, s, q, distance)
        invariant MdRecorded(cheatsMd, map[], track, distance, Elems(order[..i]), track.Keys)
      {
        ghost var before := cheatsMd;
        r := CheckManDist(order[i], distance);
        if r.Err? {
          return;
        }
        assert order[..i + 1] == order[..i] + [order[i]];
        MdRecordedTrans(map[], before, cheatsMd, track, distance, Elems(order[..i]), {order[i]}, track.Keys);
        i := i + 1;
      }
      assert order[..i] == order;
      r := Ok(());
    }

    /** `count_cheats_by_savings`: find the two-step cheats, then count them by saving. */
    method CountCheatsBySavings() returns (r: Result<map<int, nat>>)
      requires Valid()
      modifies this`cheats
      ensures Valid()
      ensures r.Ok? <==> forall s, d :: s in track && d in Directions ==> !Stray2(g.grid, track, s, d)
      ensures r.Err? ==> r.error == KeyError
      ensures r.Ok? ==> forall k :: k in cheats <==> k in old(cheats) || IsShortcut(g.grid, track, k)
      ensures r.Ok? ==> forall k :: k in cheats ==>
                          cheats[k] == if IsShortcut(g.grid, track, k) then Saving2(track, k) else old(cheats)[k]
      ensures r.Ok? ==> r.value == Counter(cheats)
    {
      var found := FindAllCheats();
      if found.Err? {
        return Err(found.error);
      }
      FoundAlongMeans(g.grid, track, order);
      r := Ok(Counter(cheats));
    }

    /** `count_mh_dist_cheats_by_savings(distance)`. */
    method CountMhDistCheatsBySavings(distance: int) returns (r: Result<map<int, nat>>)
      requires Valid()
      modifies this`cheatsMd
      ensures Valid()
      ensures r.Ok? <==> forall s, q :: s in track ==> !StrayMd(g.grid, track, s, q, distance)
      ensures r.Err? ==> r.error == KeyError
      ensures r.Ok? ==> forall k :: k in cheatsMd <==> IsMdCheat(track, k, distance)
      ensures r.Ok? ==> forall k :: k in cheatsMd ==> IsMdCheat(track, k, distance) && cheatsMd[k] == SavingMd(track, k)
      ensures r.Ok? ==> r.value == Counter(cheatsMd)
    {
      var found := FindAllMhDistCheats(distance);
      if found.Err? {
        return Err(found.error);
      }
      r := Ok(Counter(cheatsMd));
    }
  }

  /**
   * `PGrid(filename)` on the grid read from the file: locate `S` and `E`,
   * number the track from `S`, start with no cheats. Without an `S`, or
   * when the walk meets a track cell on row 0 or column 0, it raises
   * TypeError.
   */
  method Load(g: Grid<char>) returns (r: Result<PGrid>)
    requires g.Valid()
    ensures r.Err? ==> r.error == TypeError
    ensures FindChar(g, 'S').Some? && WalledTopLeft(g.grid) ==> r.Ok?
    ensures r.Ok? ==> fresh(r.value) && r.value.g == g && r.value.Valid()
    ensures r.Ok? ==> r.value.start == FindChar(g, 'S') && r.value.end == FindChar(g, 'E') && r.value.start.Some?
    ensures r.Ok? ==> Numbered(g, r.value.start.value, r.value.order, r.value.track) && |r.value.order| > 0
    ensures r.Ok? ==> r.value.cheats == map[] && r.value.cheatsMd == map[]
  {
    var start := FindChar(g, 'S');
    var end := FindChar(g, 'E');
    var walk := NumberMazeSteps(g, start);
    if walk.Err? {
      return Err(walk.error);
    }
    var (order, track) := walk.value;
    WalkTrackCells(g, start.value, order, track);
    var p := new PGrid(g, start, end, order, track);
    r := Ok(p);
  }

  /** `part1`: the number of two-step cheats that save at least 100 steps. */
  method Part1(g: Grid<char>) returns (r: Result<nat>, ghost maze: PGrid?)
    requires g.Valid()
    ensures FindChar(g, 'S').Some? && WalledTopLeft(g.grid) && r.Err? ==> r.error == KeyError
    ensures r.Ok? ==> maze != null && fresh(maze) && maze.g == g && maze.Valid()
    ensures r.Ok? ==> forall k :: k in maze.cheats <==> IsShortcut(g.grid, maze.track, k)
    ensures r.Ok? ==> forall k :: k in maze.cheats ==> IsShortcut(g.grid, maze.track, k) && maze.cheats[k] == Saving2(maze.track, k)
    ensures r.Ok? ==> r.value == |AtLeast(maze.cheats, 100)|
  {
    var load := Load(g);
    if load.Err? {
      return Err(load.error), null;
    }
    var p := load.value;
    maze := p;
    var counts := p.CountCheatsBySavings();
    if counts.Err? {
      return Err(counts.error), maze;
    }
    CounterSum(p.cheats, 100);
    var total := SumAtLeast(counts.value, 100);
    r := Ok(total);
  }

  /** `part2`: the number of cheats of at most `distance` steps that save at least 100 steps. */
  method Part2(g: Grid<char>, distance: int) returns (r: Result<nat>, ghost maze: PGrid?)
    requires g.Valid()
    ensures FindChar(g, 'S').Some? && WalledTopLeft(g.grid) && r.Err? ==> r.error == KeyError
    ensures r.Ok? ==> maze != null && fresh(maze) && maze.g == g && maze.Valid()
    ensures r.Ok? ==> forall k :: k in maze.cheatsMd <==> IsMdCheat(maze.track, k, distance)
    ensures r.Ok? ==> forall k :: k in maze.cheatsMd ==> IsMdCheat(maze.track, k, distance) && maze.cheatsMd[k] == SavingMd(maze.track, k)
    ensures r.Ok? ==> r.value == |AtLeast(maze.cheatsMd, 100)|
  {
    var load := Load(g);
    if load.Err? {
      return Err(load.error), null;
    }
    var p := load.value;
    maze := p;
    var counts := p.CountMhDistCheatsBySavings(distance);
    if counts.Err? {
      return Err(counts.error), maze;
    }
    CounterSum(p.cheatsMd, 100);
    var total := SumAtLeast(counts.value, 100);
    r := Ok(total);
  }
}
