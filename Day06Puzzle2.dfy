// Guard Gallivant, second version (src/aoc/yr_2024/day_06/puzzle_2.py): the
// walkers only look ahead, stops are kept per heading, and after every leg
// the cells of the leg are tried as places for a new obstacle by sending
// the guard off to its right and asking whether it stops where it stopped
// before.
module Day06Puzzle2 {
  import opened Common
  import PuzzleMap
  import opened Day06Puzzle

  /** `Position`: a mutable (row, column) pair. */
  class Position {
    var row: int
    var col: int

    constructor (row: int, col: int)
      ensures this.row == row && this.col == col
    {
      this.row := row;
      this.col := col;
    }

    /** The `pos` property. */
    function Pos(): Point
      reads this
    {
      (row, col)
    }

    /** `__add__` with a tuple: a new position, TypeError unless the tuple has two entries. */
    method Add(other: seq<int>) returns (r: Result<Position>)
      ensures r.Err? <==> |other| != 2
      ensures r.Err? ==> r.error == TypeError
      ensures r.Ok? ==> fresh(r.value) && r.value.Pos() == (row + other[0], col + other[1])
    {
      if |other| != 2 {
        return Err(TypeError);
      }
      var p := new Position(row + other[0], col + other[1]);
      return Ok(p);
    }

    /** `__add__` with another position. */
    method AddPosition(other: Position) returns (p: Position)
      ensures fresh(p) && p.Pos() == (row + other.row, col + other.col)
    {
      p := new Position(row + other.row, col + other.col);
    }

    /**
     * `__iadd__` with a tuple: moves this position in place.  The method
     * returns nothing, so `p += t` rebinds `p` to None: `bound` is that value.
     */
    method IAdd(other: seq<int>) returns (r: Result<Option<Position>>)
      modifies this
      ensures r.Err? <==> |other| != 2
      ensures r.Err? ==> r.error == TypeError && row == old(row) && col == old(col)
      ensures r.Ok? ==> r.value.None? && row == old(row) + other[0] && col == old(col) + other[1]
    {
      if |other| != 2 {
        return Err(TypeError);
      }
      row := row + other[0];
      col := col + other[1];
      return Ok(None);
    }

    /**
     * `lt`: compare the projections of the two positions on a direction
     * vector, so `other` is ahead exactly when the offset to it points
     * along the direction. `other` is typed as a pair of ints here, so the
     * TypeError `lt` raises for any other operand cannot arise.
     */
    function Lt(other: Point, direction: Point): (b: bool)
      reads this
      ensures b <==> Projection((other.0 - row, other.1 - col), direction) > 0
      ensures b ==> !(Projection(other, direction) < Projection(Pos(), direction))
    {
      Projection(Pos(), direction) < Projection(other, direction)
    }
  }

  function Projection(p: Point, v: Point): int
  {
    p.0 * v.0 + p.1 * v.1
  }

  /** The unit increment of a heading, as in `INCREMENTS`. */
  function Incr(d: char): (v: Point)
    requires IsHeading(d)
  {
    match d
    case '^' => (-1, 0)
    case '>' => (0, 1)
    case 'v' => (1, 0)
    case _ => (0, -1)
  }

  /** `Incr` is the `INCREMENTS` table. */
  lemma IncrIsIncrements(d: char)
    requires IsHeading(d)
    ensures Incr(d) == PuzzleMap.Increments[d]
  {
  }

  /** The projection on a heading's increment, written per heading. */
  function ProjectionOn(p: Point, d: char): int
  {
    match d
    case '^' => -p.0
    case '>' => p.1
    case 'v' => p.0
    case _ => -p.1
  }

  /** `ProjectionOn` is the dot product `lt` computes with the increment. */
  lemma ProjectionOnIsDotProduct(p: Point, d: char)
    requires IsHeading(d)
    ensures ProjectionOn(p, d) == Projection(p, Incr(d))
  {
  }

  /** `lt` along a heading is `ProjectionOn`. */
  lemma LtIsProjectionOn(pos: Position, other: Point, d: char)
    requires IsHeading(d)
    ensures pos.Lt(other, Incr(d)) <==> ProjectionOn(pos.Pos(), d) < ProjectionOn(other, d)
  {
    ProjectionOnIsDotProduct(pos.Pos(), d);
    ProjectionOnIsDotProduct(other, d);
  }

  /** Walking `k` cells ahead raises the projection on the heading by exactly `k`. */
  lemma ProjectionAlongHeading(p: Point, d: char, k: int)
    requires IsHeading(d)
    ensures ProjectionOn(Ahead(p, d, k), d) == ProjectionOn(p, d) + k
  {
  }

  /** So `lt` along a heading orders the cells of a line the way walking does. */
  lemma LtAlongHeading(p: Point, d: char, j: int, k: int)
    requires IsHeading(d)
    ensures ProjectionOn(Ahead(p, d, j), d) < ProjectionOn(Ahead(p, d, k), d) <==> j < k
  {
    ProjectionAlongHeading(p, d, j);
    ProjectionAlongHeading(p, d, k);
  }

  /**
   * The loop of the four `find_obstacle_*` methods: from `p`, move one cell at
   * a time while the next cell is on the map and not an obstacle.
   */
  method Slide(lab: seq<string>, p: Point, d: char) returns (q: Point)
    requires IsGrid(lab) && InMap(lab, p) && IsHeading(d)
    ensures q == Ahead(p, d, Reach(lab, p, d))
    ensures InMap(lab, q) && !CanStep(lab, q, d)
  {
    ReachIsFarthest(lab, p, d);
    q := p;
    ghost var walked := 0;
    while CanStep(lab, q, d)
      invariant InMap(lab, q) && q == Ahead(p, d, walked)
      invariant walked + Reach(lab, q, d) == Reach(lab, p, d)
      decreases Reach(lab, q, d)
    {
      AheadStep(p, d, walked);
      q := Ahead(q, d, 1);
      walked := walked + 1;
    }
  }

  /** Headings and their stop lists: every heading has a list, and no list repeats a stop. */
  ghost predicate StopsValid(stops: map<char, seq<Point>>)
  {
    (forall d :: IsHeading(d) ==> d in stops) &&
    (forall d :: d in stops ==> Distinct(stops[d]))
  }

  /** What the `part2` loop works on: the map, the guard, the stop lists and the proposed places. */
  datatype Tour = Tour(lab: seq<string>, pos: Point, dir: char, stops: map<char, seq<Point>>, found: seq<Point>)

  predicate TourOk(t: Tour)
  {
    IsGrid(t.lab) && InMap(t.lab, t.pos) && IsHeading(t.dir) && forall d :: IsHeading(d) ==> d in t.stops
  }

  predicate TourExiting(t: Tour)
    requires IsGrid(t.lab)
  {
    Exiting(|t.lab| - 1, |t.lab[0]| - 1, t.pos, t.dir)
  }

  /** The stop lists after `add_obstacle(end)` for heading `d`. */
  function Listed(stops: map<char, seq<Point>>, d: char, end: Point): (m: map<char, seq<Point>>)
    requires d in stops
    ensures m.Keys == stops.Keys && end in m[d]
  {
    stops[d := if end in stops[d] then stops[d] else stops[d] + [end]]
  }

  /** The places `find_all_loop_spots` proposes on the leg a guard that is not exiting walks next. */
  function LegSpots(t: Tour): seq<Point>
    requires TourOk(t)
  {
    var end := LegEnd(t.lab, t.pos, t.dir);
    LoopSpotsFrom(t.lab, Listed(t.stops, t.dir, end), t.dir, false, Ahead(t.pos, t.dir, 1), end)
  }

  /**
   * One pass of the `part2` loop body: find the stop, list it, propose the
   * leg's places, move to the stop and turn there (kept when exiting), which
   * marks the stop `+`.
   */
  function TourLeg(t: Tour): (u: Tour)
    requires TourOk(t)
    ensures TourOk(u) && |u.lab| == |t.lab| && |u.lab[0]| == |t.lab[0]|
  {
    var end := LegEnd(t.lab, t.pos, t.dir);
    Tour(MarkAt(t.lab, end, '+'), end,
      if Exiting(|t.lab| - 1, |t.lab[0]| - 1, end, t.dir) then t.dir else NextDir(t.dir),
      Listed(t.stops, t.dir, end), t.found + LegSpots(t))
  }

  /** A pass of the loop, or nothing once the guard is exiting. */
  function TourRound(t: Tour): (u: Tour)
    requires TourOk(t)
    ensures TourOk(u) && |u.lab| == |t.lab| && |u.lab[0]| == |t.lab[0]|
    ensures TourExiting(t) ==> u == t
  {
    if TourExiting(t) then t else TourLeg(t)
  }

  /** The state after `k` passes of the `part2` loop. */
  function Toured(t: Tour, k: nat): (u: Tour)
    requires TourOk(t)
    ensures TourOk(u) && |u.lab| == |t.lab| && |u.lab[0]| == |t.lab[0]|
  {
    if k == 0 then t else TourRound(Toured(t, k - 1))
  }

  /** Once the guard is exiting, further passes change nothing. */
  lemma TourStaysExiting(t: Tour, j: nat, k: nat)
    requires TourOk(t) && j <= k && TourExiting(Toured(t, j))
    ensures Toured(t, k) == Toured(t, j)
  {
    var i := j;
    while i < k
      invariant j <= i <= k && Toured(t, i) == Toured(t, j)
    {
      i := i + 1;
    }
  }

  /** Each pass appends the places proposed on its leg, so the proposals only grow. */
  lemma TourFoundGrows(t: Tour, k: nat)
    requires TourOk(t)
    ensures t.found <= Toured(t, k).found
  {
    var i := 0;
    while i < k
      invariant i <= k && t.found <= Toured(t, i).found
    {
      var s := Toured(t, i);
      assert Toured(t, i + 1) == TourRound(s);
      assert s.found <= TourRound(s).found;
      PrefixTrans(t.found, s.found, TourRound(s).found);
      i := i + 1;
    }
  }

  /**
   * Every place added after the start is one that `find_all_loop_spots`
   * proposed on a leg the guard walked (by `LoopSpotsAreRevisits`, one past a
   * tried cell from which the guard, turned right, stops where it already
   * stopped).
   */
  lemma TourFound(t: Tour, k: nat, o: Point)
    requires TourOk(t) && o in Toured(t, k).found && o !in t.found
    ensures exists j :: 0 <= j < k && !TourExiting(Toured(t, j)) && o in LegSpots(Toured(t, j))
  {
    var i := 0;
    while i < k && o !in Toured(t, i + 1).found
      invariant i <= k && o !in Toured(t, i).found
    {
      i := i + 1;
    }
    assert i < k;
    var s := Toured(t, i);
    assert Toured(t, i + 1) == TourRound(s);
    assert !TourExiting(s);
    assert TourLeg(s).found == s.found + LegSpots(s);
  }

  /** `TourLeg`, component by component. */
  lemma TourLegIs(t: Tour, lab: seq<string>, stop: Point, dir: char, stops: map<char, seq<Point>>, found: seq<Point>)
    requires TourOk(t) && stop == LegEnd(t.lab, t.pos, t.dir)
    requires lab == MarkAt(t.lab, stop, '+')
    requires dir == if Exiting(|t.lab| - 1, |t.lab[0]| - 1, stop, t.dir) then t.dir else NextDir(t.dir)
    requires stops == Listed(t.stops, t.dir, stop) && found == t.found + LegSpots(t)
    ensures Tour(lab, stop, dir, stops, found) == TourLeg(t)
  {
  }

  class Puzzle {
    var labmap: seq<string>
    var curPos: Point
    var curDir: char
    var maxRow: int
    var maxCol: int
    var stops: map<char, seq<Point>>
    var counter: nat
    var newObstacles: seq<Point>

    ghost predicate Valid()
      reads this`labmap, this`curPos, this`curDir, this`maxRow, this`maxCol, this`stops
    {
      IsGrid(labmap) && maxRow == |labmap| - 1 && maxCol == |labmap[0]| - 1 &&
      InMap(labmap, curPos) && IsHeading(curDir) && StopsValid(stops)
    }

    /** `__init__` after reading the rows: one empty stop list per heading. */
    constructor (lines: seq<string>)
      requires IsGrid(lines) && FindGuardFixed(lines).Ok?
      ensures Valid() && labmap == lines && curPos == FindGuardFixed(lines).value
      ensures curDir == lines[curPos.0][curPos.1]
      ensures forall d :: IsHeading(d) ==> stops[d] == []
      ensures counter == 0 && newObstacles == []
    {
      labmap := lines;
      var p := FindGuardFixed(lines).value;
      curPos := p;
      curDir := lines[p.0][p.1];
      maxRow, maxCol := |lines| - 1, |lines[0]| - 1;
      stops := map['^' := [], '>' := [], 'v' := [], '<' := []];
      counter := 0;
      newObstacles := [];
    }

    /** `exiting(pos, direction)`: a missing argument stands for the guard's own. */
    predicate IsExiting(pos: Option<Point>, direction: Option<char>)
      reads this`curPos, this`curDir, this`maxRow, this`maxCol
    {
      var p := if pos.Some? then pos.value else curPos;
      var d := if direction.Some? then direction.value else curDir;
      Exiting(maxRow, maxCol, p, d)
    }

    /** `turn`: turn right unless exiting, then mark the guard's cell `+`. */
    method Turn()
      requires Valid()
      modifies this`curDir, this`labmap
      ensures Valid()
      ensures curDir == if old(IsExiting(None, None)) then old(curDir) else NextDir(old(curDir))
      ensures labmap == MarkAt(old(labmap), curPos, '+')
      ensures curPos == old(curPos) && stops == old(stops) && newObstacles == old(newObstacles)
    {
      if !IsExiting(None, None) {
        curDir := NextDir(curDir);
      }
      labmap := MarkAt(labmap, curPos, '+');
    }

    /** `find_obstacle_up(pos)`: where the guard would stop going up from `pos` (default: its own cell). */
    method FindObstacleUp(pos: Option<Point>) returns (q: Point)
      requires Valid() && (pos.Some? ==> InMap(labmap, pos.value))
      ensures var p := if pos.Some? then pos.value else curPos;
        q == Ahead(p, '^', Reach(labmap, p, '^')) && InMap(labmap, q)
    {
      var p := if pos.Some? then pos.value else curPos;
      q := Slide(labmap, p, '^');
    }

    /** `find_obstacle_right(pos)`. */
    method FindObstacleRight(pos: Option<Point>) returns (q: Point)
      requires Valid() && (pos.Some? ==> InMap(labmap, pos.value))
      ensures var p := if pos.Some? then pos.value else curPos;
        q == Ahead(p, '>', Reach(labmap, p, '>')) && InMap(labmap, q)
    {
      var p := if pos.Some? then pos.value else curPos;
      q := Slide(labmap, p, '>');
    }

    /** `find_obstacle_down(pos)`. */
    method FindObstacleDown(pos: Option<Point>) returns (q: Point)
      requires Valid() && (pos.Some? ==> InMap(labmap, pos.value))
      ensures var p := if pos.Some? then pos.value else curPos;
        q == Ahead(p, 'v', Reach(labmap, p, 'v')) && InMap(labmap, q)
    {
      var p := if pos.Some? then pos.value else curPos;
      q := Slide(labmap, p, 'v');
    }

    /** `find_obstacle_left(pos)`. */
    method FindObstacleLeft(pos: Option<Point>) returns (q: Point)
      requires Valid() && (pos.Some? ==> InMap(labmap, pos.value))
      ensures var p := if pos.Some? then pos.value else curPos;
        q == Ahead(p, '<', Reach(labmap, p, '<')) && InMap(labmap, q)
    {
      var p := if pos.Some? then pos.value else curPos;
      q := Slide(labmap, p, '<');
    }

    /** `obstacle_exists`: the stop is already listed for the current heading. */
    predicate ObstacleExists(p: Point)
      reads this`curDir, this`stops
    {
      curDir in stops && p in stops[curDir]
    }

    /** `add_obstacle`: list the stop for the current heading unless it is there already. */
    method AddObstacle(p: Point)
      requires Valid()
      modifies this`stops
      ensures Valid()
      ensures p in stops[curDir]
      ensures stops == old(stops)[curDir := if p in old(stops)[curDir] then old(stops)[curDir] else old(stops)[curDir] + [p]]
      ensures labmap == old(labmap) && curPos == old(curPos) && curDir == old(curDir) && newObstacles == old(newObstacles)
    {
      if !ObstacleExists(p) {
        stops := stops[curDir := stops[curDir] + [p]];
      }
    }

    /**
     * `find_obstacle(pos, direction)`: the stop from `pos` (default: the
     * guard's cell) in `direction` (default: the guard's heading).  Whether
     * the guard itself is exiting decides both the early return and the
     * counter, whatever the arguments; an unknown heading raises ValueError.
     */
    method FindObstacle(pos: Option<Point>, direction: Option<char>) returns (r: Result<Point>)
      requires Valid() && (pos.Some? ==> InMap(labmap, pos.value))
      modifies this`counter
      ensures r == ObstacleFrom(labmap, curPos, curDir, pos, direction)
      ensures r.Ok? ==> InMap(labmap, r.value)
      ensures counter == old(counter) + (if r.Ok? && !IsExiting(None, None) then 1 else 0)
    {
      var d := if direction.Some? then direction.value else curDir;
      var p := if pos.Some? then pos.value else curPos;
      if IsExiting(None, None) {
        r := Ok(p);
      } else if d == '^' {
        var q := FindObstacleUp(Some(p));
        r := Ok(q);
      } else if d == '>' {
        var q := FindObstacleRight(Some(p));
        r := Ok(q);
      } else if d == 'v' {
        var q := FindObstacleDown(Some(p));
        r := Ok(q);
      } else if d == '<' {
        var q := FindObstacleLeft(Some(p));
        r := Ok(q);
      } else {
        return Err(ValueError);
      }
      if !IsExiting(None, None) {
        counter := counter + 1;
      }
    }

    /**
     * `find_all_loop_spots(start, end)`: test every cell strictly between the
     * two stops of a leg, walking from `start` while `lt` along the heading
     * says the cell comes before `end`; every test goes through
     * `find_obstacle` and counts once unless the guard is exiting.
     */
    method FindAllLoopSpots(start: Point, end: Point)
      requires Valid() && InMap(labmap, start) && InMap(labmap, end)
      modifies this`newObstacles, this`counter
      ensures newObstacles == old(newObstacles) + LoopSpotsFrom(labmap, stops, curDir, IsExiting(None, None), Ahead(start, curDir, 1), end)
      ensures counter == old(counter) + (if IsExiting(None, None) then 0 else Gap(start, end, curDir))
      ensures old(newObstacles) <= newObstacles
      ensures labmap == old(labmap) && curPos == old(curPos) && curDir == old(curDir) && stops == old(stops)
    {
      var spots, tried := ScanLeg(labmap, stops, curDir, IsExiting(None, None), start, end);
      newObstacles := newObstacles + spots;
      counter := counter + tried;
    }

    /** The state the `part2` loop works on. */
    ghost function State(): Tour
      reads this
    {
      Tour(labmap, curPos, curDir, stops, newObstacles)
    }

    /**
     * One pass of the `part2` loop body, from a guard that is not exiting:
     * `find_obstacle()`, `add_obstacle`, `find_all_loop_spots`, the move to
     * the stop and `turn`.  `find_obstacle` counts once and every tried cell
     * of the leg once more.
     */
    method Leg()
      requires Valid() && !IsExiting(None, None)
      modifies this
      ensures Valid()
      ensures State() == TourRound(old(State())) && old(newObstacles) <= newObstacles
      ensures counter == old(counter) + 1 + Gap(old(curPos), curPos, old(curDir))
    {
      ghost var before := State();
      var from := curPos;
      var end := FindObstacle(None, None);
      var stop := end.value;
      assert stop == LegEnd(before.lab, before.pos, before.dir);
      AddObstacle(stop);
      assert stops == Listed(before.stops, before.dir, stop);
      FindAllLoopSpots(from, stop);
      assert newObstacles == before.found + LegSpots(before);
      curPos := stop;
      ghost var exits := Exiting(|before.lab| - 1, |before.lab[0]| - 1, stop, before.dir);
      assert IsExiting(None, None) == exits;
      Turn();
      TourLegIs(before, labmap, stop, curDir, stops, newObstacles);
      assert !TourExiting(before);
    }

    /**
     * The `part2` loop: leg by leg, find the stop, list it, test the leg's
     * cells, move there and turn; the answer is the number of distinct
     * proposed obstacles.  The source loops without bound; `fuel` caps the
     * legs and the result is None when it runs out.  After the passes the
     * state is `Toured`'s, so `newObstacles` is the old list followed by each
     * walked leg's `LegSpots` (see `TourFound`).
     */
    method Part2(fuel: nat) returns (r: Option<nat>)
      requires Valid()
      modifies this
      ensures Valid()
      ensures State() == Toured(old(State()), fuel) && (r.Some? <==> IsExiting(None, None))
      ensures r.Some? ==> r.value == |Elems(newObstacles)|
      ensures old(newObstacles) <= newObstacles
    {
      ghost var start := State();
      ghost var legs: nat := 0;
      var rounds := fuel;
      while !IsExiting(None, None) && rounds > 0
        invariant Valid() && TourOk(start) && start == old(State())
        invariant legs + rounds == fuel && State() == Toured(start, legs)
        invariant old(newObstacles) <= newObstacles
        decreases rounds
      {
        ghost var before := newObstacles;
        Leg();
        PrefixTrans(old(newObstacles), before, newObstacles);
        legs, rounds := legs + 1, rounds - 1;
      }
      if IsExiting(None, None) {
        TourStaysExiting(start, legs, fuel);
      } else {
        assert legs == fuel;
      }
      assert State() == Toured(start, fuel);
      if !IsExiting(None, None) {
        return None;
      }
      return Some(|Elems(newObstacles)|);
    }
  }

  /** How many cells lie strictly between `start` and `end` along heading `d`. */
  function Gap(start: Point, end: Point, d: char): nat
  {
    var n := ProjectionOn(end, d) - ProjectionOn(start, d) - 1;
    if n < 0 then 0 else n
  }

  /**
   * The loop of `find_all_loop_spots` on the guard's map `lab`, stop lists
   * `stops` and heading `d`: from each cell strictly between `start` and
   * `end`, send the guard off to the right (or nowhere, when the guard is
   * exiting) and keep the cell after the tried one when that stop is listed
   * and not about to leave the map.  Also answers how many times
   * `find_obstacle` counted.
   */
  method ScanLeg(lab: seq<string>, stops: map<char, seq<Point>>, d: char, guardExiting: bool, start: Point, end: Point)
    returns (spots: seq<Point>, tried: nat)
    requires IsGrid(lab) && InMap(lab, start) && InMap(lab, end) && IsHeading(d)
    ensures spots == LoopSpotsFrom(lab, stops, d, guardExiting, Ahead(start, d, 1), end)
    ensures tried == if guardExiting then 0 else Gap(start, end, d)
  {
    var nextPos := Ahead(start, d, 1);
    var nd := NextDir(d);
    spots, tried := [], 0;
    ProjectionAlongHeading(start, d, 1);
    while ProjectionOn(nextPos, d) < ProjectionOn(end, d)
      invariant SameLine(start, nextPos, d)
      invariant ProjectionOn(start, d) < ProjectionOn(nextPos, d) <= ProjectionOn(start, d) + 1 + Gap(start, end, d)
      invariant spots + LoopSpotsFrom(lab, stops, d, guardExiting, nextPos, end) == LoopSpotsFrom(lab, stops, d, guardExiting, Ahead(start, d, 1), end)
      invariant tried == if guardExiting then 0 else ProjectionOn(nextPos, d) - ProjectionOn(start, d) - 1
      decreases ProjectionOn(end, d) - ProjectionOn(nextPos, d)
    {
      OnLegIsOnMap(lab, start, end, d, nextPos);
      var obstacle := nextPos;
      if !guardExiting {
        obstacle := Slide(lab, nextPos, nd);
        tried := tried + 1;
      }
      assert obstacle == StopFrom(lab, nextPos, nd, guardExiting);
      ghost var spot := SpotAt(lab, stops, d, guardExiting, nextPos);
      ghost var rest := LoopSpotsFrom(lab, stops, d, guardExiting, Ahead(nextPos, d, 1), end);
      assert LoopSpotsFrom(lab, stops, d, guardExiting, nextPos, end) == spot + rest;
      ghost var before := spots;
      if nd in stops && !Exiting(|lab| - 1, |lab[0]| - 1, obstacle, nd) && obstacle in stops[nd] {
        spots := spots + [Ahead(nextPos, d, 1)];
      }
      assert spots == before + spot;
      AppendAssociates(before, spot, rest);
      ProjectionAlongHeading(nextPos, d, 1);
      nextPos := Ahead(nextPos, d, 1);
    }
  }

  /** `q` lies on the line through `p` along heading `d`. */
  predicate SameLine(p: Point, q: Point, d: char)
  {
    if d == '^' || d == 'v' then p.1 == q.1 else p.0 == q.0
  }

  /** A cell of a leg no further along than its stop is on the map. */
  lemma OnLegIsOnMap(lab: seq<string>, start: Point, end: Point, d: char, p: Point)
    requires IsGrid(lab) && InMap(lab, start) && InMap(lab, end) && IsHeading(d)
    requires SameLine(start, p, d) && ProjectionOn(start, d) <= ProjectionOn(p, d) <= ProjectionOn(end, d)
    ensures InMap(lab, p)
  {
  }

  /** Where the tried cell `q` sends the guard heading `nd`; when the guard itself is exiting, `q` itself. */
  function StopFrom(lab: seq<string>, q: Point, nd: char, guardExiting: bool): Point
    requires IsGrid(lab) && InMap(lab, q) && IsHeading(nd)
  {
    if guardExiting then q else Ahead(q, nd, Reach(lab, q, nd))
  }

  /**
   * What `find_obstacle(pos, direction)` returns for a guard at `guard`
   * heading `guardDir`: the start itself when the guard is exiting, else the
   * stop from the start in the chosen heading; ValueError for a character that
   * is not a heading.
   */
  function ObstacleFrom(lab: seq<string>, guard: Point, guardDir: char, pos: Option<Point>, direction: Option<char>): Result<Point>
    requires IsGrid(lab) && InMap(lab, guard) && (pos.Some? ==> InMap(lab, pos.value))
  {
    var p := if pos.Some? then pos.value else guard;
    var d := if direction.Some? then direction.value else guardDir;
    if Exiting(|lab| - 1, |lab[0]| - 1, guard, guardDir) then Ok(p)
    else if !IsHeading(d) then Err(ValueError)
    else Ok(Ahead(p, d, Reach(lab, p, d)))
  }

  /** Sent off from a tried cell in a heading, `find_obstacle` answers `StopFrom`, on the map. */
  lemma ObstacleFromTestedCell(lab: seq<string>, guard: Point, guardDir: char, q: Point, nd: char)
    requires IsGrid(lab) && InMap(lab, guard) && InMap(lab, q) && IsHeading(nd)
    ensures ObstacleFrom(lab, guard, guardDir, Some(q), Some(nd)) ==
      Ok(StopFrom(lab, q, nd, Exiting(|lab| - 1, |lab[0]| - 1, guard, guardDir)))
    ensures InMap(lab, StopFrom(lab, q, nd, Exiting(|lab| - 1, |lab[0]| - 1, guard, guardDir)))
  {
    ReachIsFarthest(lab, q, nd);
    assert Ahead(q, nd, 0) == q;
  }

  /**
   * The place proposed for the tried cell `q` of a leg heading `d`: the cell
   * after `q`, when the guard turned right at `q` would stop, without being
   * about to leave the map, where it already stopped heading that way.
   */
  function SpotAt(lab: seq<string>, stops: map<char, seq<Point>>, d: char, guardExiting: bool, q: Point): (spot: seq<Point>)
  {
    if IsGrid(lab) && InMap(lab, q) && IsHeading(d) && NextDir(d) in stops then
      var nd := NextDir(d);
      var o := StopFrom(lab, q, nd, guardExiting);
      if !Exiting(|lab| - 1, |lab[0]| - 1, o, nd) && o in stops[nd] then [Ahead(q, d, 1)] else []
    else []
  }

  /**
   * The obstacle places proposed for the cells of a leg heading `d` from `p`
   * up to, and not including, `end`; as many places as cells at most.
   */
  function LoopSpotsFrom(lab: seq<string>, stops: map<char, seq<Point>>, d: char, guardExiting: bool, p: Point, end: Point): (spots: seq<Point>)
    ensures |spots| <= if ProjectionOn(p, d) < ProjectionOn(end, d) then ProjectionOn(end, d) - ProjectionOn(p, d) else 0
    decreases ProjectionOn(end, d) - ProjectionOn(p, d)
  {
    if IsHeading(d) && ProjectionOn(p, d) < ProjectionOn(end, d) then
      ProjectionAlongHeading(p, d, 1);
      SpotAt(lab, stops, d, guardExiting, p) + LoopSpotsFrom(lab, stops, d, guardExiting, Ahead(p, d, 1), end)
    else []
  }

  /**
   * Every proposed place lies one cell past a tried cell of the leg, and
   * from that tried cell the guard, turned right, stops where it already
   * stopped heading that way without being about to leave the map.
   */
  lemma {:induction false} LoopSpotsAreRevisits(lab: seq<string>, stops: map<char, seq<Point>>, d: char, guardExiting: bool, p: Point, end: Point, spot: Point)
    requires IsGrid(lab) && IsHeading(d)
    requires spot in LoopSpotsFrom(lab, stops, d, guardExiting, p, end)
    ensures NextDir(d) in stops
    ensures exists q :: (SameLine(p, q, d) && ProjectionOn(p, d) <= ProjectionOn(q, d) < ProjectionOn(end, d) &&
                         InMap(lab, q) && spot == Ahead(q, d, 1) &&
                         var o := StopFrom(lab, q, NextDir(d), guardExiting);
                         !Exiting(|lab| - 1, |lab[0]| - 1, o, NextDir(d)) && o in stops[NextDir(d)])
    decreases ProjectionOn(end, d) - ProjectionOn(p, d)
  {
    ProjectionAlongHeading(p, d, 1);
    var rest := LoopSpotsFrom(lab, stops, d, guardExiting, Ahead(p, d, 1), end);
    assert spot in SpotAt(lab, stops, d, guardExiting, p) + rest;
    if spot in rest {
      LoopSpotsAreRevisits(lab, stops, d, guardExiting, Ahead(p, d, 1), end, spot);
      var q :| SameLine(Ahead(p, d, 1), q, d) && ProjectionOn(Ahead(p, d, 1), d) <= ProjectionOn(q, d) < ProjectionOn(end, d) &&
        InMap(lab, q) && spot == Ahead(q, d, 1) &&
        (var o := StopFrom(lab, q, NextDir(d), guardExiting);
         !Exiting(|lab| - 1, |lab[0]| - 1, o, NextDir(d)) && o in stops[NextDir(d)]);
      assert SameLine(p, q, d);
    } else {
      assert SameLine(p, p, d);
    }
  }

  /** With no stops listed for the right-turn heading, no place is proposed. */
  lemma {:induction false} NoStopsNoSpots(lab: seq<string>, stops: map<char, seq<Point>>, d: char, guardExiting: bool, p: Point, end: Point)
    requires IsHeading(d) && NextDir(d) in stops && stops[NextDir(d)] == []
    ensures LoopSpotsFrom(lab, stops, d, guardExiting, p, end) == []
    decreases ProjectionOn(end, d) - ProjectionOn(p, d)
  {
    if ProjectionOn(p, d) < ProjectionOn(end, d) {
      ProjectionAlongHeading(p, d, 1);
      NoStopsNoSpots(lab, stops, d, guardExiting, Ahead(p, d, 1), end);
    }
  }
}
