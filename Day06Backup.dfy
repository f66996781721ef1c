/**
 * The backup rewrite of the day 6 guard walk: the map helpers are those of
 * the first version, but the `find_obstacle_*` walkers only report where the
 * guard would stop, the guard is never moved, and listing a stop twice is an
 * error.
 */
module Day06Backup {
  import opened Common
  import opened Day06Puzzle
  import Day06Puzzle2

  /** The stop lists: one per heading, as built by `__init__`. */
  ghost predicate StopsCover(stops: map<char, seq<Point>>)
  {
    forall d :: IsHeading(d) ==> d in stops
  }

  /**
   * `check_for_loop`: hands its (row, col) argument back unchanged.
   */
  function CheckForLoop(pos: Point): (r: Point)
    ensures r.0 == pos.0 && r.1 == pos.1
  {
    var (row, col) := pos;
    (row, col)
  }

  /**
   * `find_loop_pos(start, end)` for a guard heading `dir`: a position only
   * when heading up with the stop no lower than the start, and then the start
   * itself; every other heading answers None.
   */
  function FindLoopPos(dir: char, start: Point, end: Point): (r: Option<Point>)
    ensures r.Some? <==> dir == '^' && end.0 <= start.0
    ensures r.Some? ==> r.value == start
  {
    if dir == '^' && end.0 <= start.0 then Some(CheckForLoop(start)) else None
  }

  class Puzzle {
    var labmap: seq<string>
    var curPos: Point
    var curDir: char
    var minRow: int
    var minCol: int
    var maxRow: int
    var maxCol: int
    var stops: map<char, seq<Point>>
    var counter: nat
    var newObstacles: seq<Point>
    var steps: nat
    var allSteps: nat

    /** `steps` is set to 0 by `__init__` and never written again. */
    ghost predicate Valid()
      reads this`labmap, this`curPos, this`curDir, this`minRow, this`minCol, this`maxRow, this`maxCol,
        this`stops, this`steps
    {
      IsGrid(labmap) && minRow == 0 && minCol == 0 &&
      maxRow == |labmap| - 1 && maxCol == |labmap[0]| - 1 &&
      InMap(labmap, curPos) && IsHeading(curDir) && StopsCover(stops) && steps == 0
    }

    /**
     * `__init__` after reading the rows: the guard is found by the corrected
     * search of the first version and its heading read from the map; no guard
     * raises IndexError.
     */
    constructor (lines: seq<string>)
      requires IsGrid(lines) && FindGuardFixed(lines).Ok?
      ensures Valid() && labmap == lines && curPos == FindGuardFixed(lines).value
      ensures curDir == lines[curPos.0][curPos.1]
      ensures forall d :: IsHeading(d) ==> stops[d] == []
      ensures newObstacles == [] && counter == 0 && allSteps == 0
    {
      labmap := lines;
      var p := FindGuardFixed(lines).value;
      curPos := p;
      curDir := lines[p.0][p.1];
      minRow, minCol := 0, 0;
      maxRow, maxCol := |lines| - 1, |lines[0]| - 1;
      stops := map['^' := [], '>' := [], 'v' := [], '<' := []];
      counter := 0;
      newObstacles := [];
      steps, allSteps := 0, 0;
    }

    /** `exiting`: the guard stands on the edge it faces. */
    predicate IsExiting()
      reads this`maxRow, this`maxCol, this`curPos, this`curDir
    {
      Exiting(maxRow, maxCol, curPos, curDir)
    }

    /** `next_dir`: the heading after a right turn, leaving the guard as it is. */
    function NextDirection(): (n: char)
      reads this`curDir
      requires IsHeading(curDir)
      ensures IsHeading(n) && n != curDir
      ensures DirIndex(n) == (DirIndex(curDir) + 1) % 4
    {
      NextDir(curDir)
    }

    /**
     * `turn`: turn right unless exiting, whatever the direction argument says,
     * and mark the guard's cell `+`.
     */
    method Turn(direction: string)
      requires Valid()
      modifies this`curDir, this`labmap
      ensures Valid()
      ensures curDir == if old(IsExiting()) then old(curDir) else NextDir(old(curDir))
      ensures labmap == MarkAt(old(labmap), curPos, '+')
    {
      if !IsExiting() {
        curDir := NextDirection();
      }
      var (r, c) := curPos;
      labmap := labmap[r := ReplaceChar(labmap[r], c, '+').value];
    }

    /** `find_obstacle_up`: where the guard would stop heading up; nothing moves. */
    method FindObstacleUp() returns (q: Point)
      requires Valid()
      ensures q == Ahead(curPos, '^', Reach(labmap, curPos, '^')) && q.1 == curPos.1
      ensures InMap(labmap, q) && !CanStep(labmap, q, '^')
    {
      q := Day06Puzzle2.Slide(labmap, curPos, '^');
    }

    /** `find_obstacle_right`: where the guard would stop heading right. */
    method FindObstacleRight() returns (q: Point)
      requires Valid()
      ensures q == Ahead(curPos, '>', Reach(labmap, curPos, '>')) && q.0 == curPos.0
      ensures InMap(labmap, q) && !CanStep(labmap, q, '>')
    {
      q := Day06Puzzle2.Slide(labmap, curPos, '>');
    }

    /** `find_obstacle_down`: where the guard would stop heading down. */
    method FindObstacleDown() returns (q: Point)
      requires Valid()
      ensures q == Ahead(curPos, 'v', Reach(labmap, curPos, 'v')) && q.1 == curPos.1
      ensures InMap(labmap, q) && !CanStep(labmap, q, 'v')
    {
      q := Day06Puzzle2.Slide(labmap, curPos, 'v');
    }

    /** `find_obstacle_left`: where the guard would stop heading left. */
    method FindObstacleLeft() returns (q: Point)
      requires Valid()
      ensures q == Ahead(curPos, '<', Reach(labmap, curPos, '<')) && q.0 == curPos.0
      ensures InMap(labmap, q) && !CanStep(labmap, q, '<')
    {
      q := Day06Puzzle2.Slide(labmap, curPos, '<');
    }

    /**
     * `add_obstacle`: list a stop under the current heading; a stop already
     * listed there raises ValueError and changes nothing.
     */
    method AddObstacle(p: Point) returns (r: Result<()>)
      requires Valid()
      modifies this`stops
      ensures Valid()
      ensures r.Err? <==> p in old(stops)[curDir]
      ensures r.Err? ==> r.error == ValueError && stops == old(stops)
      ensures r.Ok? ==> stops == old(stops)[curDir := old(stops)[curDir] + [p]]
    {
      if p in stops[curDir] {
        return Err(ValueError);
      }
      stops := stops[curDir := stops[curDir] + [p]];
      return Ok(());
    }

    /**
     * `find_obstacle`: the guard's own cell when exiting, otherwise where it
     * would stop in its heading; the counter grows when not exiting.  The
     * guard is never moved.
     */
    method FindObstacle() returns (r: Result<Point>)
      requires Valid()
      modifies this`counter
      ensures r == Ok(if IsExiting() then curPos else Ahead(curPos, curDir, Reach(labmap, curPos, curDir)))
      ensures InMap(labmap, r.value)
      ensures counter == old(counter) + (if IsExiting() then 0 else 1)
    {
      if IsExiting() {
        r := Ok(curPos);
      } else if curDir == '^' {
        var q := FindObstacleUp();
        r := Ok(q);
      } else if curDir == '>' {
        var q := FindObstacleRight();
        r := Ok(q);
      } else if curDir == 'v' {
        var q := FindObstacleDown();
        r := Ok(q);
      } else if curDir == '<' {
        var q := FindObstacleLeft();
        r := Ok(q);
      } else {
        return Err(ValueError);
      }
      if !IsExiting() {
        counter := counter + 1;
      }
    }

    /**
     * `would_make_loop(pos)`: the first version's candidate rule, returning
     * the candidate it appends.  As `steps` stays 0, heading left never
     * proposes anything.
     */
    method WouldMakeLoop(pos: Point) returns (r: Option<Point>)
      requires Valid() && InMap(labmap, pos)
      modifies this`newObstacles
      ensures r == LoopCandidate(labmap, IsExiting(), curDir, steps, pos)
      ensures curDir == '<' ==> r.None?
      ensures newObstacles == old(newObstacles) + (if r.Some? then [r.value] else [])
    {
      r := LoopCandidate(labmap, IsExiting(), curDir, steps, pos);
      if r.Some? {
        newObstacles := newObstacles + [r.value];
      }
    }

    /**
     * The `part1` loop: find the obstacle until exiting, then count the
     * marked cells.  The guard is never moved, so the loop ends only when the
     * guard starts out exiting; `fuel` caps the rounds and None means it ran
     * out.
     */
    method Part1(fuel: nat) returns (r: Option<int>)
      requires Valid()
      modifies this`counter
      ensures r.Some? <==> IsExiting()
      ensures r.Some? ==> r.value == CountNonDots(labmap)
    {
      var rounds := fuel;
      while !IsExiting()
        decreases rounds
      {
        if rounds == 0 {
          return None;
        }
        var endPos := FindObstacle();
        rounds := rounds - 1;
      }
      return Some(CountNonDots(labmap));
    }

    /**
     * `part2`: when the guard starts out exiting, the loop body never runs and
     * the count of marked cells is answered with nothing proposed.  Otherwise
     * the first `find_obstacle` counts one round, and `find_loop_pos` is then
     * handed the guard's `Position` object, which its `row, col = start_pos`
     * cannot unpack: TypeError, before `would_make_loop` proposes anything.
     */
    method Part2() returns (r: Result<int>)
      requires Valid()
      modifies this`counter, this`newObstacles
      ensures r.Err? <==> !IsExiting()
      ensures r.Err? ==> r.error == TypeError && counter == old(counter) + 1
      ensures r.Ok? ==> r.value == CountNonDots(labmap) && counter == old(counter)
      ensures newObstacles == old(newObstacles)
    {
      if !IsExiting() {
        var endPos := FindObstacle();
        return Err(TypeError);
      }
      return Ok(CountNonDots(labmap));
    }
  }
}
