// Guard Gallivant, first version (src/aoc/yr_2024/day_06/puzzle.py): a guard
// walks the lab map until an obstacle, turns right, and marks its track with
// `|`, `-` and `+`; while walking it proposes obstacle positions that would
// close a loop.  The pure pieces here (character replacement, the guard
// search, the exit test, the walk length) are shared with the two rewrites.
module Day06Puzzle {
  import opened Common
  import PuzzleMap

  const Obstacle: char := '#'

  /** The characters `replace_char` treats as track markers: the headings and `-`, `|`, `+`. */
  const Markers: seq<char> := ['^', '>', 'v', '<', '-', '|', '+']

  /** One of `DIRECTIONS`. */
  predicate IsHeading(c: char)
  {
    c == '^' || c == '>' || c == 'v' || c == '<'
  }

  lemma HeadingsAreDirections(c: char)
    ensures IsHeading(c) <==> c in PuzzleMap.Directions
  {
  }

  /** The character `replace_char` writes when asked to put `ch` over `current`. */
  function MarkCell(current: char, ch: char): char
  {
    if ch !in Markers then ch
    else if IsHeading(current) then current
    else if current == '-' || current == '|' then '+'
    else ch
  }

  /**
   * `replace_char` as written: ValueError only for `n < 0` or `n > len(s)`.
   * At `n == len(s)` a non-marker is appended, and a marker reads `s[n]` and
   * raises IndexError.
   */
  function ReplaceChar(s: string, n: int, ch: char): (r: Result<string>)
    ensures r.Err? <==> n < 0 || n > |s| || (n == |s| && ch in Markers)
    ensures (n < 0 || n > |s|) ==> r == Err(ValueError)
    ensures r.Ok? && n < |s| ==>
      (|r.value| == |s| && r.value[n] == MarkCell(s[n], ch) &&
       forall k :: 0 <= k < |s| && k != n ==> r.value[k] == s[k])
    ensures r.Ok? && n == |s| ==> r.value == s + [ch]
  {
    if n < 0 || n > |s| then Err(ValueError)
    else if n == |s| then (if ch !in Markers then Ok(s + [ch]) else Err(IndexError))
    else Ok(s[..n] + [MarkCell(s[n], ch)] + s[n + 1..])
  }

  /** The evidently intended guard: every index outside the string is refused. */
  function ReplaceCharChecked(s: string, n: int, ch: char): (r: Result<string>)
    ensures r.Err? <==> n < 0 || n >= |s|
    ensures r.Err? ==> r.error == ValueError
    ensures r.Ok? ==>
      (|r.value| == |s| && r.value[n] == MarkCell(s[n], ch) &&
       forall k :: 0 <= k < |s| && k != n ==> r.value[k] == s[k])
  {
    if n < 0 || n >= |s| then Err(ValueError)
    else Ok(s[..n] + [MarkCell(s[n], ch)] + s[n + 1..])
  }

  /** One past the end, the guard as written lets the call through and the string grows. */
  lemma ReplaceCharOnePastEnd()
    ensures ReplaceChar("..", 2, 'O') == Ok("..O")
    ensures ReplaceChar("..", 2, '+') == Err(IndexError)
    ensures ReplaceCharChecked("..", 2, 'O') == Err(ValueError)
  {
    assert 'O' !in Markers && Markers[6] == '+';
    assert ".." + ['O'] == "..O";
  }

  /** Inside the string both versions agree. */
  lemma ReplaceCharAgreesInside(s: string, n: int, ch: char)
    requires 0 <= n < |s|
    ensures ReplaceChar(s, n, ch) == ReplaceCharChecked(s, n, ch)
  {
  }

  /** `guard_pos_in_row`: the index of the first heading, tried in the order ^ > v <, or None. */
  function GuardPosInRow(row: string): (r: Option<nat>)
    ensures r.None? <==> forall d :: d in PuzzleMap.Directions ==> d !in row
    ensures r.Some? ==> r.value < |row| && IsHeading(row[r.value])
  {
    if '^' in row then Some(IndexOf(row, '^').value)
    else if '>' in row then Some(IndexOf(row, '>').value)
    else if 'v' in row then Some(IndexOf(row, 'v').value)
    else if '<' in row then Some(IndexOf(row, '<').value)
    else None
  }

  /**
   * `find_guard` as written: the first row whose guard index is truthy.  An
   * index of 0 is falsy in Python, so a guard in column 0 is skipped, and with
   * no row left `[...][0]` raises IndexError.
   */
  function FindGuard(labmap: seq<string>): (r: Result<Point>)
    ensures r.Err? <==> forall i :: 0 <= i < |labmap| ==> GuardPosInRow(labmap[i]) in {None, Some(0)}
    ensures r.Err? ==> r.error == IndexError
    ensures r.Ok? ==> 0 <= r.value.0 < |labmap| && r.value.1 > 0 && GuardPosInRow(labmap[r.value.0]) == Some(r.value.1 as nat)
    ensures r.Ok? ==> forall i :: 0 <= i < r.value.0 ==> GuardPosInRow(labmap[i]) in {None, Some(0)}
  {
    if labmap == [] then Err(IndexError)
    else
      match GuardPosInRow(labmap[0])
      case Some(c) =>
        if c != 0 then Ok((0, c as int))
        else
          assert forall i :: 1 <= i < |labmap| ==> labmap[i] == labmap[1..][i - 1];
          ShiftRow(FindGuard(labmap[1..]))
      case None =>
        assert forall i :: 1 <= i < |labmap| ==> labmap[i] == labmap[1..][i - 1];
        ShiftRow(FindGuard(labmap[1..]))
  }

  function ShiftRow(r: Result<Point>): Result<Point>
  {
    match r
    case Ok(p) => Ok((p.0 + 1, p.1))
    case Err(e) => Err(e)
  }

  /** The corrected search: the first row holding a heading, whatever its column. */
  function FindGuardFixed(labmap: seq<string>): (r: Result<Point>)
    ensures r.Err? <==> forall i :: 0 <= i < |labmap| ==> GuardPosInRow(labmap[i]).None?
    ensures r.Err? ==> r.error == IndexError
    ensures r.Ok? ==>
      (0 <= r.value.0 < |labmap| && 0 <= r.value.1 < |labmap[r.value.0]| &&
       IsHeading(labmap[r.value.0][r.value.1]))
    ensures r.Ok? ==> forall i :: 0 <= i < r.value.0 ==> GuardPosInRow(labmap[i]).None?
  {
    if labmap == [] then Err(IndexError)
    else
      match GuardPosInRow(labmap[0])
      case Some(c) => Ok((0, c as int))
      case None =>
        var rest := FindGuardFixed(labmap[1..]);
        assert forall i :: 1 <= i < |labmap| ==> labmap[i] == labmap[1..][i - 1];
        ShiftRow(rest)
  }

  /** A guard in the first column is missed by the search as written and found by the corrected one. */
  lemma FindGuardMissesColumnZero()
    ensures FindGuard(["^."]) == Err(IndexError)
    ensures FindGuardFixed(["^."]) == Ok((0, 0))
  {
    assert GuardPosInRow("^.") == Some(0);
    assert GuardPosInRow([]) == None;
  }

  /** The lab map: non-empty rows of one width. */
  predicate IsGrid(lab: seq<string>)
  {
    |lab| > 0 && |lab[0]| > 0 && forall i :: 0 <= i < |lab| ==> |lab[i]| == |lab[0]|
  }

  predicate InMap(lab: seq<string>, p: Point)
    requires IsGrid(lab)
  {
    0 <= p.0 < |lab| && 0 <= p.1 < |lab[0]|
  }

  /** `exiting`: the guard faces the edge it stands on. */
  predicate Exiting(maxRow: int, maxCol: int, pos: Point, dir: char)
  {
    (dir == '^' && pos.0 == 0) || (dir == '>' && pos.1 == maxCol) ||
    (dir == 'v' && pos.0 == maxRow) || (dir == '<' && pos.1 == 0)
  }

  /** On the map, the guard is exiting exactly when its next step leaves the map. */
  lemma ExitingIffNextStepLeaves(lab: seq<string>, p: Point, d: char)
    requires IsGrid(lab) && InMap(lab, p) && IsHeading(d)
    ensures Exiting(|lab| - 1, |lab[0]| - 1, p, d) <==> !InMap(lab, Ahead(p, d, 1))
  {
  }

  /** The index of a heading in `DIRECTIONS`. */
  function DirIndex(d: char): (i: nat)
    requires IsHeading(d)
    ensures i < 4 && PuzzleMap.Directions[i] == d
  {
    if d == '^' then 0 else if d == '>' then 1 else if d == 'v' then 2 else 3
  }

  /** The heading after a right turn: `DIRECTIONS[(idx + 1) % 4]`. */
  function NextDir(d: char): (n: char)
    requires IsHeading(d)
    ensures IsHeading(n) && DirIndex(n) == (DirIndex(d) + 1) % 4 && n != d
  {
    PuzzleMap.Directions[(DirIndex(d) + 1) % 4]
  }

  /** Four right turns face the guard the way it started. */
  lemma FourTurnsIdentity(d: char)
    requires IsHeading(d)
    ensures NextDir(NextDir(NextDir(NextDir(d)))) == d
  {
  }

  /** The point `j` cells ahead of `p` facing `d`. */
  function Ahead(p: Point, d: char, j: int): Point
  {
    match d
    case '^' => (p.0 - j, p.1)
    case '>' => (p.0, p.1 + j)
    case 'v' => (p.0 + j, p.1)
    case _ => (p.0, p.1 - j)
  }

  /** Cells left before the edge in direction `d`. */
  function Room(lab: seq<string>, p: Point, d: char): int
    requires IsGrid(lab)
  {
    match d
    case '^' => p.0
    case '>' => |lab[0]| - 1 - p.1
    case 'v' => |lab| - 1 - p.0
    case _ => p.1
  }

  /** A cell the guard may enter: on the map and not an obstacle. */
  predicate Open(lab: seq<string>, q: Point)
    requires IsGrid(lab)
  {
    InMap(lab, q) && lab[q.0][q.1] != Obstacle
  }

  /** The walk condition of every `find_obstacle_*` loop. */
  predicate CanStep(lab: seq<string>, p: Point, d: char)
    requires IsGrid(lab)
  {
    Open(lab, Ahead(p, d, 1))
  }

  /** Taking one more step is the same as looking one cell further ahead. */
  lemma AheadStep(p: Point, d: char, j: int)
    ensures Ahead(Ahead(p, d, j), d, 1) == Ahead(p, d, j + 1)
    ensures Ahead(Ahead(p, d, 1), d, j) == Ahead(p, d, j + 1)
  {
  }

  /** How many cells the guard walks before an obstacle or the edge stops it. */
  function Reach(lab: seq<string>, p: Point, d: char): nat
    requires IsGrid(lab) && InMap(lab, p) && IsHeading(d)
    decreases Room(lab, p, d)
  {
    if CanStep(lab, p, d) then 1 + Reach(lab, Ahead(p, d, 1), d) else 0
  }

  /** Every cell up to the reach is open, and the cell after it is an obstacle or off the map. */
  lemma {:induction false} ReachIsFarthest(lab: seq<string>, p: Point, d: char)
    requires IsGrid(lab) && InMap(lab, p) && IsHeading(d)
    ensures forall j :: 1 <= j <= Reach(lab, p, d) ==> Open(lab, Ahead(p, d, j))
    ensures !CanStep(lab, Ahead(p, d, Reach(lab, p, d)), d)
    decreases Room(lab, p, d)
  {
    if CanStep(lab, p, d) {
      var q := Ahead(p, d, 1);
      ReachIsFarthest(lab, q, d);
      forall j | 2 <= j <= Reach(lab, p, d) ensures Open(lab, Ahead(p, d, j)) {
        AheadStep(p, d, j - 1);
        assert Open(lab, Ahead(q, d, j - 1));
      }
      AheadStep(p, d, Reach(lab, q, d));
    } else {
      assert Ahead(p, d, 0) == p;
    }
  }

  /** The map with the cell `q`, if it is on the map, marked as `replace_char` does. */
  function MarkAt(lab: seq<string>, q: Point, mark: char): (m: seq<string>)
    requires IsGrid(lab)
    ensures IsGrid(m) && |m| == |lab| && |m[0]| == |lab[0]|
  {
    if InMap(lab, q) then lab[q.0 := ReplaceChar(lab[q.0], q.1, mark).value] else lab
  }

  /** Marking changes the one cell, as `replace_char` does, and no other. */
  lemma MarkAtCell(lab: seq<string>, q: Point, mark: char, cell: Point)
    requires IsGrid(lab) && InMap(lab, cell)
    ensures MarkAt(lab, q, mark)[cell.0][cell.1] ==
      if cell == q then MarkCell(lab[cell.0][cell.1], mark) else lab[cell.0][cell.1]
  {
  }

  /** The map after marking the first `n` cells ahead of `p` with `mark`. */
  function Marked(lab: seq<string>, p: Point, d: char, n: nat, mark: char): (m: seq<string>)
    requires IsGrid(lab)
    ensures IsGrid(m) && |m| == |lab| && |m[0]| == |lab[0]|
  {
    if n == 0 then lab else MarkAt(Marked(lab, p, d, n - 1, mark), Ahead(p, d, n), mark)
  }

  /** Marking changes exactly the cells walked over, each as `replace_char` does. */
  lemma {:induction false} MarkedCells(lab: seq<string>, p: Point, d: char, n: nat, mark: char, cell: Point)
    requires IsGrid(lab) && InMap(lab, cell)
    ensures Marked(lab, p, d, n, mark)[cell.0][cell.1] ==
      if WalkedOver(p, d, n, cell) then MarkCell(lab[cell.0][cell.1], mark)
      else lab[cell.0][cell.1]
  {
    if n > 0 {
      MarkedCells(lab, p, d, n - 1, mark, cell);
      MarkAtCell(Marked(lab, p, d, n - 1, mark), Ahead(p, d, n), mark, cell);
      WalkedOverStep(p, d, n, cell);
    }
  }

  /** `cell` is one of the first `n` cells ahead of `p`. */
  ghost predicate WalkedOver(p: Point, d: char, n: nat, cell: Point)
  {
    exists j :: 1 <= j <= n && Ahead(p, d, j) == cell
  }

  /** One more step walks over one more cell, a new one. */
  lemma WalkedOverStep(p: Point, d: char, n: nat, cell: Point)
    requires n > 0
    ensures WalkedOver(p, d, n, cell) <==> WalkedOver(p, d, n - 1, cell) || Ahead(p, d, n) == cell
    ensures Ahead(p, d, n) == cell ==> !WalkedOver(p, d, n - 1, cell)
  {
    if WalkedOver(p, d, n, cell) {
      var j :| 1 <= j <= n && Ahead(p, d, j) == cell;
      if j < n {
        assert WalkedOver(p, d, n - 1, cell);
      }
    }
    if WalkedOver(p, d, n - 1, cell) {
      var j :| 1 <= j <= n - 1 && Ahead(p, d, j) == cell;
      assert Ahead(p, d, j) != Ahead(p, d, n);
    }
    if Ahead(p, d, n) == cell {
      assert WalkedOver(p, d, n, cell) by { assert 1 <= n <= n && Ahead(p, d, n) == cell; }
    }
  }

  /** The characters a walked-over cell may hold next to a loop candidate, per heading. */
  const HorizontalTrack: seq<char> := ['+', '-', '^', '>', 'v', '<']
  const VerticalTrack: seq<char> := ['+', '|', '^', '>', 'v', '<']
  const Blocked: seq<char> := ['#', '+', '-', '|', '^', '>', 'v', '<']

  /**
   * `would_make_loop`'s choice: the cell ahead when the cell to the guard's
   * right is already on a track and the cell ahead is untouched; None when
   * exiting or when no rule applies.
   */
  function LoopCandidate(lab: seq<string>, exiting: bool, dir: char, steps: int, pos: Point): (r: Option<Point>)
    requires IsGrid(lab) && InMap(lab, pos)
    ensures exiting ==> r.None?
    ensures r.Some? ==>
      (IsHeading(dir) && r.value == Ahead(pos, dir, 1) && InMap(lab, r.value) &&
       lab[r.value.0][r.value.1] !in Blocked)
  {
    var (row, col) := pos;
    var maxRow, maxCol := |lab| - 1, |lab[0]| - 1;
    if exiting then None
    else if dir == '^' && row > 0 && col < maxCol - 1 && lab[row][col + 1] in HorizontalTrack &&
      lab[row - 1][col] !in Blocked then Some((row - 1, col))
    else if dir == 'v' && row < maxRow && col > 1 && lab[row][col - 1] in HorizontalTrack &&
      lab[row + 1][col] !in Blocked then Some((row + 1, col))
    else if dir == '>' && col < maxCol && row < maxRow - 1 && lab[row + 1][col] in VerticalTrack &&
      lab[row][col + 1] !in Blocked then Some((row, col + 1))
    else if dir == '<' && steps > 0 && col > 0 && row > 1 && lab[row - 1][col] in VerticalTrack &&
      lab[row][col - 1] !in Blocked then Some((row, col - 1))
    else None
  }

  /**
   * The obstacles `would_make_loop` proposes along the first `n` cells of a
   * walk from `p`, the `j`-th cell seeing `steps + j - 1` steps taken.
   */
  function Proposals(lab: seq<string>, exiting: bool, d: char, steps: int, p: Point, n: nat): (ps: seq<Point>)
    requires IsGrid(lab)
    ensures |ps| <= n
  {
    if n == 0 then []
    else
      var q := Ahead(p, d, n);
      var c := if InMap(lab, q) then LoopCandidate(lab, exiting, d, steps + n - 1, q) else None;
      Proposals(lab, exiting, d, steps, p, n - 1) + (if c.Some? then [c.value] else [])
  }

  /**
   * Nothing is proposed while exiting, and every proposal is an untouched
   * cell on the map, one step ahead of a cell the guard walked.
   */
  lemma {:induction false} ProposalsAreFreeCells(lab: seq<string>, exiting: bool, d: char, steps: int, p: Point, n: nat)
    requires IsGrid(lab)
    ensures exiting ==> Proposals(lab, exiting, d, steps, p, n) == []
    ensures forall o :: o in Proposals(lab, exiting, d, steps, p, n) ==>
      InMap(lab, o) && lab[o.0][o.1] !in Blocked &&
      exists j :: 1 <= j <= n && o == Ahead(Ahead(p, d, j), d, 1)
  {
    if n > 0 {
      ProposalsAreFreeCells(lab, exiting, d, steps, p, n - 1);
    }
  }

  /** The cells that are neither `.` nor `#`. */
  function NonDots(line: string): (n: nat)
    ensures n <= |line|
  {
    if line == [] then 0
    else NonDots(line[..|line| - 1]) + (if line[|line| - 1] != '.' && line[|line| - 1] != Obstacle then 1 else 0)
  }

  /** `str.count` of a single character. */
  function CountChar(s: string, ch: char): (n: nat)
    ensures n == multiset(s)[ch]
  {
    if s == [] then 0
    else
      assert s == s[..|s| - 1] + [s[|s| - 1]];
      CountChar(s[..|s| - 1], ch) + (if s[|s| - 1] == ch then 1 else 0)
  }

  /** `len(line) - line.count(".") - line.count("#")` counts the other cells. */
  lemma {:induction false} CountFormulaIsNonDots(line: string)
    ensures |line| - CountChar(line, '.') - CountChar(line, Obstacle) == NonDots(line)
  {
    if line != [] {
      CountFormulaIsNonDots(line[..|line| - 1]);
    }
  }

  /** `count_non_dots`: the summed per-line formula. */
  function CountNonDots(lab: seq<string>): (n: int)
    ensures n >= 0
  {
    if lab == [] then 0
    else
      var line := lab[|lab| - 1];
      CountFormulaIsNonDots(line);
      CountNonDots(lab[..|lab| - 1]) + (|line| - CountChar(line, '.') - CountChar(line, Obstacle))
  }

  /**
   * The loop of every `find_obstacle_*` method: step while the next cell is
   * open, marking each new cell on a copy of the map and offering it to
   * `would_make_loop`, which looks at the unmarked map and the steps taken
   * before this one.
   */
  method WalkTrack(lab: seq<string>, start: Point, d: char, exiting: bool, taken: int, mark: char)
    returns (p: Point, startingMap: seq<string>, proposed: seq<Point>, walked: nat)
    requires IsGrid(lab) && InMap(lab, start) && IsHeading(d)
    ensures walked == Reach(lab, start, d) && p == Ahead(start, d, walked) && InMap(lab, p)
    ensures startingMap == Marked(lab, start, d, walked, mark)
    ensures proposed == Proposals(lab, exiting, d, taken, start, walked)
  {
    p := start;
    startingMap := lab;
    proposed := [];
    walked := 0;
    while CanStep(lab, p, d)
      invariant InMap(lab, p) && p == Ahead(start, d, walked)
      invariant walked + Reach(lab, p, d) == Reach(lab, start, d)
      invariant startingMap == Marked(lab, start, d, walked, mark)
      invariant proposed == Proposals(lab, exiting, d, taken, start, walked)
      decreases Reach(lab, p, d)
    {
      WalkTrackStep(lab, start, d, exiting, taken, mark, p, walked);
      var q := Ahead(p, d, 1);
      var c := LoopCandidate(lab, exiting, d, taken + walked, q);
      p, startingMap := q, MarkAt(startingMap, q, mark);
      proposed := proposed + (if c.Some? then [c.value] else []);
      walked := walked + 1;
    }
  }

  /** One pass of `WalkTrack`'s loop: one cell further, marked and offered. */
  lemma WalkTrackStep(lab: seq<string>, start: Point, d: char, exiting: bool, taken: int, mark: char, p: Point, walked: nat)
    requires IsGrid(lab) && InMap(lab, start) && IsHeading(d)
    requires InMap(lab, p) && p == Ahead(start, d, walked) && walked + Reach(lab, p, d) == Reach(lab, start, d)
    requires CanStep(lab, p, d)
    ensures var q := Ahead(p, d, 1);
      InMap(lab, q) && q == Ahead(start, d, walked + 1) &&
      walked + 1 + Reach(lab, q, d) == Reach(lab, start, d) && Reach(lab, q, d) < Reach(lab, p, d)
    ensures Marked(lab, start, d, walked + 1, mark) == MarkAt(Marked(lab, start, d, walked, mark), Ahead(p, d, 1), mark)
    ensures var c := LoopCandidate(lab, exiting, d, taken + walked, Ahead(p, d, 1));
      Proposals(lab, exiting, d, taken, start, walked + 1) ==
      Proposals(lab, exiting, d, taken, start, walked) + (if c.Some? then [c.value] else [])
  {
    AheadStep(start, d, walked);
  }

  /** The mark a `find_obstacle_*` method leaves on its track: `|` going up or down, `-` going left or right. */
  function TrackMark(d: char): (m: char)
    ensures m == '|' || m == '-'
  {
    if d == '^' || d == 'v' then '|' else '-'
  }

  /** The guard as `part1` sees it: the lab map, where the guard stands and where it faces. */
  datatype Guard = Guard(lab: seq<string>, pos: Point, dir: char)

  predicate GuardOk(g: Guard)
  {
    IsGrid(g.lab) && InMap(g.lab, g.pos) && IsHeading(g.dir)
  }

  predicate GuardExiting(g: Guard)
    requires IsGrid(g.lab)
  {
    Exiting(|g.lab| - 1, |g.lab[0]| - 1, g.pos, g.dir)
  }

  /** Where a walk stops: a cell on the map from which the next step is blocked. */
  function LegEnd(lab: seq<string>, p: Point, d: char): (q: Point)
    requires IsGrid(lab) && InMap(lab, p) && IsHeading(d)
    ensures InMap(lab, q) && !CanStep(lab, q, d)
  {
    ReachEnd(lab, p, d);
    Ahead(p, d, Reach(lab, p, d))
  }

  /** The cell the reach ends on is on the map and blocked ahead. */
  lemma ReachEnd(lab: seq<string>, p: Point, d: char)
    requires IsGrid(lab) && InMap(lab, p) && IsHeading(d)
    ensures var q := Ahead(p, d, Reach(lab, p, d)); InMap(lab, q) && !CanStep(lab, q, d)
  {
    ReachIsFarthest(lab, p, d);
    var n := Reach(lab, p, d);
    if n == 0 {
      assert Ahead(p, d, 0) == p;
    } else {
      assert Open(lab, Ahead(p, d, n));
    }
  }

  /**
   * One `find_obstacle` call that succeeds from a guard that is not exiting:
   * walk to the stop marking the track, mark the stop `+`, and turn right
   * there unless the guard now faces the edge.
   */
  function Step(g: Guard): (s: Guard)
    requires GuardOk(g)
    ensures GuardOk(s) && |s.lab| == |g.lab| && |s.lab[0]| == |g.lab[0]|
  {
    var q := LegEnd(g.lab, g.pos, g.dir);
    var walked := Marked(g.lab, g.pos, g.dir, Reach(g.lab, g.pos, g.dir), TrackMark(g.dir));
    Guard(MarkAt(walked, q, '+'), q,
      if Exiting(|g.lab| - 1, |g.lab[0]| - 1, q, g.dir) then g.dir else NextDir(g.dir))
  }

  /** One round of the `part1` loop: a `find_obstacle` call unless the guard is already exiting. */
  function Round(g: Guard): (s: Guard)
    requires GuardOk(g)
    ensures GuardOk(s) && |s.lab| == |g.lab| && |s.lab[0]| == |g.lab[0]|
    ensures GuardExiting(g) ==> s == g
  {
    if GuardExiting(g) then g else Step(g)
  }

  /** The guard after `k` rounds of the `part1` loop. */
  function Patrol(g: Guard, k: nat): (s: Guard)
    requires GuardOk(g)
    ensures GuardOk(s) && |s.lab| == |g.lab| && |s.lab[0]| == |g.lab[0]|
  {
    if k == 0 then g else Round(Patrol(g, k - 1))
  }

  /** Once the guard is exiting, further rounds change nothing. */
  lemma PatrolStaysExiting(g: Guard, j: nat, k: nat)
    requires GuardOk(g) && j <= k && GuardExiting(Patrol(g, j))
    ensures Patrol(g, k) == Patrol(g, j)
  {
    var i := j;
    while i < k
      invariant j <= i <= k && Patrol(g, i) == Patrol(g, j)
    {
      i := i + 1;
    }
  }

  /** A cell `count_non_dots` counts: neither `.` nor `#`. */
  predicate Counted(c: char)
  {
    c != '.' && c != Obstacle
  }

  /** The cells the guard walks over in the first `k` rounds. */
  ghost predicate PatrolVisited(g: Guard, k: nat, cell: Point)
    requires GuardOk(g)
  {
    k > 0 &&
    (PatrolVisited(g, k - 1, cell) ||
     var s := Patrol(g, k - 1);
     !GuardExiting(s) && WalkedOver(s.pos, s.dir, Reach(s.lab, s.pos, s.dir), cell))
  }

  /** Every track mark, written over any cell, leaves a counted cell. */
  lemma MarkCellCounted(current: char, mark: char)
    requires mark == '|' || mark == '-' || mark == '+'
    ensures Counted(MarkCell(current, mark))
  {
  }

  /**
   * One round: a cell is counted afterwards exactly when it was counted
   * before or the guard walked over it, and the guard's new cell is counted.
   */
  lemma StepCounts(g: Guard, cell: Point)
    requires GuardOk(g) && InMap(g.lab, cell) && Counted(g.lab[g.pos.0][g.pos.1])
    ensures var s := Step(g);
      (Counted(s.lab[cell.0][cell.1]) <==>
        Counted(g.lab[cell.0][cell.1]) || WalkedOver(g.pos, g.dir, Reach(g.lab, g.pos, g.dir), cell)) &&
      Counted(s.lab[s.pos.0][s.pos.1])
  {
    var n := Reach(g.lab, g.pos, g.dir);
    var mark := TrackMark(g.dir);
    var walked := Marked(g.lab, g.pos, g.dir, n, mark);
    var q := LegEnd(g.lab, g.pos, g.dir);
    MarkAtCell(walked, q, '+', cell);
    MarkAtCell(walked, q, '+', q);
    MarkCellCounted(walked[q.0][q.1], '+');
    MarkedCells(g.lab, g.pos, g.dir, n, mark, cell);
    MarkCellCounted(g.lab[cell.0][cell.1], mark);
    if cell == q {
      if n == 0 {
        assert q == g.pos;
      } else {
        assert WalkedOver(g.pos, g.dir, n, cell) by { assert Ahead(g.pos, g.dir, n) == cell; }
      }
    }
  }

  /**
   * What `count_non_dots` counts after `part1`: a cell is neither `.` nor `#`
   * exactly when it already was or the guard walked over it.  On a puzzle
   * input, where only the guard's own cell starts out counted, the answer is
   * the number of distinct cells the guard occupies.
   */
  lemma PatrolCounts(g: Guard, k: nat, cell: Point)
    requires GuardOk(g) && InMap(g.lab, cell) && Counted(g.lab[g.pos.0][g.pos.1])
    ensures var s := Patrol(g, k);
      (Counted(s.lab[cell.0][cell.1]) <==> Counted(g.lab[cell.0][cell.1]) || PatrolVisited(g, k, cell)) &&
      Counted(s.lab[s.pos.0][s.pos.1])
  {
    var i := 0;
    while i < k
      invariant i <= k
      invariant var s := Patrol(g, i);
        (Counted(s.lab[cell.0][cell.1]) <==> Counted(g.lab[cell.0][cell.1]) || PatrolVisited(g, i, cell)) &&
        Counted(s.lab[s.pos.0][s.pos.1])
    {
      var s := Patrol(g, i);
      assert Patrol(g, i + 1) == Round(s);
      assert PatrolVisited(g, i + 1, cell) <==>
        PatrolVisited(g, i, cell) || (!GuardExiting(s) && WalkedOver(s.pos, s.dir, Reach(s.lab, s.pos, s.dir), cell));
      if !GuardExiting(s) {
        StepCounts(s, cell);
      }
      i := i + 1;
    }
  }

  class Puzzle {
    var labmap: seq<string>
    var curPos: Point
    var curDir: char
    var minRow: int
    var minCol: int
    var maxRow: int
    var maxCol: int
    var stopsUp: seq<Point>
    var stopsRight: seq<Point>
    var stopsDown: seq<Point>
    var stopsLeft: seq<Point>
    var counter: nat
    var newObstacles: seq<Point>
    var steps: nat
    var allSteps: nat

    ghost predicate Valid()
      reads this
    {
      IsGrid(labmap) && minRow == 0 && minCol == 0 &&
      maxRow == |labmap| - 1 && maxCol == |labmap[0]| - 1 &&
      InMap(labmap, curPos) && IsHeading(curDir)
    }

    /**
     * `__init__` after reading the rows: the guard is found by the corrected
     * search (`FindGuardFixed`, so a guard in column 0 is found too) and its
     * heading read from the map; no guard found raises IndexError.
     */
    constructor (lines: seq<string>)
      requires IsGrid(lines) && FindGuardFixed(lines).Ok?
      ensures Valid() && labmap == lines && curPos == FindGuardFixed(lines).value
      ensures curDir == lines[curPos.0][curPos.1]
      ensures stopsUp == [] && stopsRight == [] && stopsDown == [] && stopsLeft == []
      ensures newObstacles == [] && counter == 0 && steps == 0 && allSteps == 0
    {
      labmap := lines;
      var p := FindGuardFixed(lines).value;
      curPos := p;
      curDir := lines[p.0][p.1];
      minRow, minCol := 0, 0;
      maxRow, maxCol := |lines| - 1, |lines[0]| - 1;
      stopsUp, stopsRight, stopsDown, stopsLeft := [], [], [], [];
      counter := 0;
      newObstacles := [];
      steps, allSteps := 0, 0;
    }

    predicate IsExiting()
      reads this
    {
      Exiting(maxRow, maxCol, curPos, curDir)
    }

    /**
     * `turn`: turn right and reset `steps`, or keep the heading when exiting;
     * any other direction argument raises ValueError before anything changes.
     * The guard's cell is then marked `+`.
     */
    method Turn(direction: string) returns (r: Result<()>)
      requires Valid()
      modifies this
      ensures Valid()
      ensures r.Err? <==> !old(IsExiting()) && direction != "right"
      ensures r.Err? ==> r.error == ValueError && labmap == old(labmap) && curDir == old(curDir) && steps == old(steps)
      ensures r.Ok? ==> curDir == (if old(IsExiting()) then old(curDir) else NextDir(old(curDir)))
      ensures r.Ok? ==> steps == (if old(IsExiting()) then old(steps) else 0)
      ensures r.Ok? ==> labmap == MarkAt(old(labmap), old(curPos), '+')
      ensures curPos == old(curPos) && allSteps == old(allSteps) && counter == old(counter)
      ensures newObstacles == old(newObstacles)
      ensures stopsUp == old(stopsUp) && stopsRight == old(stopsRight) && stopsDown == old(stopsDown) && stopsLeft == old(stopsLeft)
    {
      var idx := DirIndex(curDir);
      var newIdx: nat;
      if IsExiting() {
        newIdx := idx;
      } else if direction == "right" {
        newIdx := (idx + 1) % 4;
        steps := 0;
      } else {
        return Err(ValueError);
      }
      curDir := PuzzleMap.Directions[newIdx];
      labmap := MarkAt(labmap, curPos, '+');
      return Ok(());
    }

    /**
     * The part of the four `find_obstacle_*` methods that sets the guard going:
     * walk the track, then install the marked copy of the map, the new
     * position, the proposals and the step counts.
     */
    method Walk(mark: char)
      requires Valid()
      modifies this`labmap, this`curPos, this`newObstacles, this`steps, this`allSteps
      ensures Valid()
      ensures var n := Reach(old(labmap), old(curPos), old(curDir));
        curPos == Ahead(old(curPos), old(curDir), n) &&
        steps == old(steps) + n && allSteps == old(allSteps) + n &&
        labmap == Marked(old(labmap), old(curPos), old(curDir), n, mark) &&
        newObstacles == old(newObstacles) +
          Proposals(old(labmap), old(IsExiting()), old(curDir), old(steps), old(curPos), n)
    {
      var exiting := IsExiting();
      var p, startingMap, proposed, walked := WalkTrack(labmap, curPos, curDir, exiting, steps, mark);
      assert InMap(startingMap, p);
      labmap, curPos, newObstacles, steps, allSteps :=
        startingMap, p, newObstacles + proposed, steps + walked, allSteps + walked;
    }

    /** The guard as the `part1` loop sees it. */
    ghost function State(): Guard
      reads this
    {
      Guard(labmap, curPos, curDir)
    }

    /**
     * `find_obstacle_up`: walk up marking `|`.  A stop already in `stops_up`
     * raises ValueError after the walk is installed and before the turn;
     * otherwise it is appended there, the guard turns at it and it is returned.
     */
    method FindObstacleUp() returns (r: Result<Point>)
      requires Valid() && curDir == '^'
      modifies this
      ensures Valid()
      ensures var n := Reach(old(labmap), old(curPos), old(curDir));
        curPos == LegEnd(old(labmap), old(curPos), old(curDir)) && allSteps == old(allSteps) + n &&
        newObstacles == old(newObstacles) + Proposals(old(labmap), old(IsExiting()), old(curDir), old(steps), old(curPos), n) &&
        (r.Err? ==>
          curDir == old(curDir) && steps == old(steps) + n &&
          labmap == Marked(old(labmap), old(curPos), old(curDir), n, TrackMark(old(curDir)))) &&
        (r.Ok? ==> State() == Step(old(State())) && steps == (if curDir == old(curDir) then old(steps) + n else 0))
      ensures r.Err? <==> curPos in old(stopsUp)
      ensures r.Err? ==> r.error == ValueError && stopsUp == old(stopsUp)
      ensures r.Ok? ==> r.value == curPos && stopsUp == old(stopsUp) + [curPos]
      ensures stopsRight == old(stopsRight) && stopsDown == old(stopsDown) && stopsLeft == old(stopsLeft)
      ensures counter == old(counter)
    {
      ghost var g := State();
      Walk('|');
      if curPos in stopsUp {
        return Err(ValueError);
      }
      stopsUp := stopsUp + [curPos];
      ghost var walked := labmap;
      assert walked == Marked(g.lab, g.pos, g.dir, Reach(g.lab, g.pos, g.dir), TrackMark(g.dir));
      var _ := Turn("right");
      assert State() == Step(g);
      return Ok(curPos);
    }

    /**
     * `find_obstacle_right`: walk right marking `-`; the stop is checked
     * against `stops_right` but recorded in `stops_up`.
     */
    method FindObstacleRight() returns (r: Result<Point>)
      requires Valid() && curDir == '>'
      modifies this
      ensures Valid()
      ensures var n := Reach(old(labmap), old(curPos), old(curDir));
        curPos == LegEnd(old(labmap), old(curPos), old(curDir)) && allSteps == old(allSteps) + n &&
        newObstacles == old(newObstacles) + Proposals(old(labmap), old(IsExiting()), old(curDir), old(steps), old(curPos), n) &&
        (r.Err? ==>
          curDir == old(curDir) && steps == old(steps) + n &&
          labmap == Marked(old(labmap), old(curPos), old(curDir), n, TrackMark(old(curDir)))) &&
        (r.Ok? ==> State() == Step(old(State())) && steps == (if curDir == old(curDir) then old(steps) + n else 0))
      ensures r.Err? <==> curPos in old(stopsRight)
      ensures r.Err? ==> r.error == ValueError && stopsUp == old(stopsUp)
      ensures r.Ok? ==> r.value == curPos && stopsUp == old(stopsUp) + [curPos]
      ensures stopsRight == old(stopsRight) && stopsDown == old(stopsDown) && stopsLeft == old(stopsLeft)
      ensures counter == old(counter)
    {
      ghost var g := State();
      Walk('-');
      if curPos in stopsRight {
        return Err(ValueError);
      }
      stopsUp := stopsUp + [curPos];
      ghost var walked := labmap;
      assert walked == Marked(g.lab, g.pos, g.dir, Reach(g.lab, g.pos, g.dir), TrackMark(g.dir));
      var _ := Turn("right");
      assert State() == Step(g);
      return Ok(curPos);
    }

    /** `find_obstacle_down`: walk down marking `|`; checked against `stops_down`, recorded in `stops_up`. */
    method FindObstacleDown() returns (r: Result<Point>)
      requires Valid() && curDir == 'v'
      modifies this
      ensures Valid()
      ensures var n := Reach(old(labmap), old(curPos), old(curDir));
        curPos == LegEnd(old(labmap), old(curPos), old(curDir)) && allSteps == old(allSteps) + n &&
        newObstacles == old(newObstacles) + Proposals(old(labmap), old(IsExiting()), old(curDir), old(steps), old(curPos), n) &&
        (r.Err? ==>
          curDir == old(curDir) && steps == old(steps) + n &&
          labmap == Marked(old(labmap), old(curPos), old(curDir), n, TrackMark(old(curDir)))) &&
        (r.Ok? ==> State() == Step(old(State())) && steps == (if curDir == old(curDir) then old(steps) + n else 0))
      ensures r.Err? <==> curPos in old(stopsDown)
      ensures r.Err? ==> r.error == ValueError && stopsUp == old(stopsUp)
      ensures r.Ok? ==> r.value == curPos && stopsUp == old(stopsUp) + [curPos]
      ensures stopsRight == old(stopsRight) && stopsDown == old(stopsDown) && stopsLeft == old(stopsLeft)
      ensures counter == old(counter)
    {
      ghost var g := State();
      Walk('|');
      if curPos in stopsDown {
        return Err(ValueError);
      }
      stopsUp := stopsUp + [curPos];
      ghost var walked := labmap;
      assert walked == Marked(g.lab, g.pos, g.dir, Reach(g.lab, g.pos, g.dir), TrackMark(g.dir));
      var _ := Turn("right");
      assert State() == Step(g);
      return Ok(curPos);
    }

    /** `find_obstacle_left`: walk left marking `-`; checked against `stops_left`, recorded in `stops_up`. */
    method FindObstacleLeft() returns (r: Result<Point>)
      requires Valid() && curDir == '<'
      modifies this
      ensures Valid()
      ensures var n := Reach(old(labmap), old(curPos), old(curDir));
        curPos == LegEnd(old(labmap), old(curPos), old(curDir)) && allSteps == old(allSteps) + n &&
        newObstacles == old(newObstacles) + Proposals(old(labmap), old(IsExiting()), old(curDir), old(steps), old(curPos), n) &&
        (r.Err? ==>
          curDir == old(curDir) && steps == old(steps) + n &&
          labmap == Marked(old(labmap), old(curPos), old(curDir), n, TrackMark(old(curDir)))) &&
        (r.Ok? ==> State() == Step(old(State())) && steps == (if curDir == old(curDir) then old(steps) + n else 0))
      ensures r.Err? <==> curPos in old(stopsLeft)
      ensures r.Err? ==> r.error == ValueError && stopsUp == old(stopsUp)
      ensures r.Ok? ==> r.value == curPos && stopsUp == old(stopsUp) + [curPos]
      ensures stopsRight == old(stopsRight) && stopsDown == old(stopsDown) && stopsLeft == old(stopsLeft)
      ensures counter == old(counter)
    {
      ghost var g := State();
      Walk('-');
      if curPos in stopsLeft {
        return Err(ValueError);
      }
      stopsUp := stopsUp + [curPos];
      ghost var walked := labmap;
      assert walked == Marked(g.lab, g.pos, g.dir, Reach(g.lab, g.pos, g.dir), TrackMark(g.dir));
      var _ := Turn("right");
      assert State() == Step(g);
      return Ok(curPos);
    }

    /**
     * The walking half of `find_obstacle`: the `find_obstacle_*` method of
     * the current heading.
     */
    method Leg() returns (r: Result<Point>)
      requires Valid() && !IsExiting()
      modifies this
      ensures Valid()
      ensures var n := Reach(old(labmap), old(curPos), old(curDir));
        curPos == LegEnd(old(labmap), old(curPos), old(curDir)) && allSteps == old(allSteps) + n &&
        newObstacles == old(newObstacles) + Proposals(old(labmap), false, old(curDir), old(steps), old(curPos), n) &&
        (r.Err? ==>
          r.error == ValueError && curDir == old(curDir) && steps == old(steps) + n &&
          labmap == Marked(old(labmap), old(curPos), old(curDir), n, TrackMark(old(curDir)))) &&
        (r.Ok? ==>
          r.value == curPos && State() == Step(old(State())) && stopsUp == old(stopsUp) + [curPos] &&
          steps == (if curDir == old(curDir) then old(steps) + n else 0))
      ensures counter == old(counter)
      ensures stopsRight == old(stopsRight) && stopsDown == old(stopsDown) && stopsLeft == old(stopsLeft)
    {
      if curDir == '^' {
        r := FindObstacleUp();
      } else if curDir == '>' {
        r := FindObstacleRight();
      } else if curDir == 'v' {
        r := FindObstacleDown();
      } else {
        r := FindObstacleLeft();
      }
    }

    /**
     * `find_obstacle`: stay put when exiting, otherwise walk in the current
     * heading (`Leg`); `counter` counts the calls after which the guard is
     * not exiting.
     */
    method FindObstacle() returns (r: Result<Point>)
      requires Valid()
      modifies this
      ensures Valid()
      ensures old(IsExiting()) ==>
        r == Ok(old(curPos)) && State() == old(State()) && steps == old(steps) && allSteps == old(allSteps) &&
        newObstacles == old(newObstacles) && stopsUp == old(stopsUp)
      ensures !old(IsExiting()) ==> var n := Reach(old(labmap), old(curPos), old(curDir));
        curPos == LegEnd(old(labmap), old(curPos), old(curDir)) && allSteps == old(allSteps) + n &&
        newObstacles == old(newObstacles) + Proposals(old(labmap), false, old(curDir), old(steps), old(curPos), n) &&
        (r.Err? ==>
          r.error == ValueError && curDir == old(curDir) && steps == old(steps) + n &&
          labmap == Marked(old(labmap), old(curPos), old(curDir), n, TrackMark(old(curDir)))) &&
        (r.Ok? ==>
          r.value == curPos && State() == Step(old(State())) && stopsUp == old(stopsUp) + [curPos] &&
          steps == (if curDir == old(curDir) then old(steps) + n else 0))
      ensures r.Ok? ==> State() == Round(old(State()))
      ensures r.Ok? ==> counter == old(counter) + (if IsExiting() then 0 else 1)
      ensures stopsRight == old(stopsRight) && stopsDown == old(stopsDown) && stopsLeft == old(stopsLeft)
    {
      if IsExiting() {
        return Ok(curPos);
      }
      r := Leg();
      if r.Ok? && !IsExiting() {
        counter := counter + 1;
      }
    }

    /**
     * The `part1` loop: find obstacles until the guard is exiting, then count
     * the cells that are neither `.` nor `#`.  The source loops without bound;
     * `fuel` caps the rounds and the result is None when it runs out.  After
     * the rounds the guard is where `Patrol` puts it, so `PatrolCounts` says
     * which cells the answer counts.
     */
    method Part1(fuel: nat) returns (r: Result<Option<int>>)
      requires Valid()
      modifies this
      ensures Valid()
      ensures r.Err? ==> r.error == ValueError
      ensures r.Ok? ==> State() == Patrol(old(State()), fuel) && (r.value.Some? <==> IsExiting())
      ensures r.Ok? && r.value.Some? ==> r.value.value == CountNonDots(labmap)
      ensures stopsRight == old(stopsRight) && stopsDown == old(stopsDown) && stopsLeft == old(stopsLeft)
    {
      ghost var start := State();
      ghost var stops := (stopsRight, stopsDown, stopsLeft);
      ghost var legs: nat := 0;
      var rounds := fuel;
      while !IsExiting() && rounds > 0
        invariant Valid() && GuardOk(start) && start == old(State())
        invariant legs + rounds == fuel && State() == Patrol(start, legs)
        invariant stops == (stopsRight, stopsDown, stopsLeft)
        decreases rounds
      {
        ghost var before := State();
        var step := FindObstacle();
        if step.Err? {
          return Err(step.error);
        }
        assert State() == Round(before);
        legs, rounds := legs + 1, rounds - 1;
      }
      if !IsExiting() {
        assert legs == fuel;
        return Ok(None);
      }
      PatrolStaysExiting(start, legs, fuel);
      assert State() == Patrol(start, fuel);
      return Ok(Some(CountNonDots(labmap)));
    }
  }
}
