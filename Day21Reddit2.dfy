/**
 * src/aoc/yr_2024/day_21/reddit_2.py: day 21 as a cost search. `cost2`
 * prices one press on an arrow keypad by a Dijkstra search over the robot
 * above it, each of whose presses is priced by `cost2` one level up and
 * remembered in the table `DP`; `solve1` runs the same search on the
 * numeric keypad until the door code is typed.
 */
module Day21Reddit2 {
  import opened Common
  import opened Day14
  import opened Day21

  // ----- ints -----

  /** `[int(x) for x in re.findall(r"-?\d+", s)]`: the signed integers in `s`, in order. */
  function Ints(s: string): (r: seq<int>)
    ensures |r| == |FindInts(s)|
    ensures forall i :: 0 <= i < |r| ==> PyInt(FindInts(s)[i]) == Ok(r[i])
  {
    var ts := FindInts(s);
    seq(|ts|, i requires 0 <= i < |ts| => assert ts[i] in ts; TokenValue(ts[i]))
  }

  /** The text of one integer holds just that integer. */
  lemma IntsOfNumber(n: int)
    ensures Ints(IntToString(n)) == [n]
  {
    TakeNumber(n, []);
    assert IntToString(n) + [] == IntToString(n);
    PyIntRoundTrip(n);
  }

  lemma ExampleNumbers()
    ensures IntToString(2) == "2" && IntToString(5) == "5" && IntToString(-6) == "-6"
    ensures IntToString(-34) == "-34"
  {
    assert ToDecimal(34) == ToDecimal(3) + ['4'];
  }

  lemma ExampleText(a: string, b: string, c: string, d: string)
    requires a == "2" && b == "-34" && c == "5" && d == "-6"
    ensures "xy" + (a + ("b" + (b + ("y" + (c + (d + "z")))))) == "xy2b-34y5-6z"
  {
  }

  /** The tokens of `-34y5-6z`. */
  lemma ExampleTailTokens()
    ensures FindInts(IntToString(-34) + ("y" + (IntToString(5) + (IntToString(-6) + "z"))))
      == [IntToString(-34), IntToString(5), IntToString(-6)]
  {
    var s34, s5, s6 := IntToString(-34), IntToString(5), IntToString(-6);
    var t6 := s6 + "z";
    var t5 := s5 + t6;
    SkipText("z", []);
    assert "z" + [] == "z";
    TakeNumber(-6, "z");
    var f6 := FindInts(t6);
    assert f6 == [s6];
    TakeNumber(5, t6);
    var f5 := FindInts(t5);
    assert f5 == [s5] + f6;
    NumberThenText(-34, "y", t5);
  }

  /** `xy2b` before the rest adds the token `2`. */
  lemma ExampleHeadTokens(rest: string)
    ensures FindInts("xy" + (IntToString(2) + ("b" + rest))) == [IntToString(2)] + FindInts(rest)
  {
    NumberThenText(2, "b", rest);
    SkipText("xy", IntToString(2) + ("b" + rest));
  }

  /** The tokens of the docstring's example. */
  lemma IntsExampleTokens(s: string)
    requires s == "xy2b-34y5-6z"
    ensures FindInts(s) == [IntToString(2), IntToString(-34), IntToString(5), IntToString(-6)]
  {
    var s2, s34, s5, s6 := IntToString(2), IntToString(-34), IntToString(5), IntToString(-6);
    var t34 := s34 + ("y" + (s5 + (s6 + "z")));
    var t2 := s2 + ("b" + t34);
    ExampleTailTokens();
    ExampleHeadTokens(t34);
    ExampleNumbers();
    ExampleText(s2, s34, s5, s6);
  }

  /** The values of the docstring's example. */
  lemma IntsExampleValues(s: string)
    requires s == "xy2b-34y5-6z"
    ensures Ints(s) == [2, -34, 5, -6]
  {
    var r := Ints(s);
    IntsExampleTokens(s);
    var ts := FindInts(s);
    PyIntRoundTrip(2);
    PyIntRoundTrip(-34);
    PyIntRoundTrip(5);
    PyIntRoundTrip(-6);
    assert PyInt(ts[0]) == Ok(r[0]) && PyInt(ts[1]) == Ok(r[1]);
    assert PyInt(ts[2]) == Ok(r[2]) && PyInt(ts[3]) == Ok(r[3]);
    FourElements(r, 2, -34, 5, -6);
  }

  /** The example of the docstring: `ints('xy2b-34y5-6z') == [2, -34, 5, -6]`. */
  lemma IntsExample()
    ensures Ints("xy2b-34y5-6z") == [2, -34, 5, -6]
  {
    IntsExampleValues("xy2b-34y5-6z");
  }

  /** The only token of a door code is its digits. */
  lemma CodeTokens(digits: string)
    requires |digits| > 0 && AllDigits(digits)
    ensures FindInts(digits + "A") == [digits]
  {
    var s := digits + "A";
    assert s[..|digits|] == digits && s[|digits|..] == "A";
    assert IsDigit(s[0]);
    DigitRunOf(s, 0, digits);
    SkipChar('A', []);
    assert ['A'] + [] == "A";
  }

  /** A door code's number: `ints("029A")[0]` is 29. */
  lemma IntsOfCode(digits: string)
    requires |digits| > 0 && AllDigits(digits)
    ensures Ints(digits + "A") == [DecimalValue(digits) as int]
  {
    CodeTokens(digits);
    PyIntOfDigits(digits);
    var r := Ints(digits + "A");
    assert |r| == 1 && PyInt(digits) == Ok(r[0]);
  }

  /**
   * One line of the final sum: `solve1(line, pads) * ints(line)[0]`, an
   * IndexError for a line without a number.
   */
  function LineComplexity(line: string, cost: int): (r: Result<int>)
    ensures r.Err? <==> FindInts(line) == []
    ensures r.Err? ==> r.error == IndexError
  {
    var ns := Ints(line);
    if ns == [] then Err(IndexError) else Ok(cost * ns[0])
  }

  /** For a door code the complexity is the cost times the code's number. */
  lemma LineComplexityOfCode(digits: string, cost: int)
    requires |digits| > 0 && AllDigits(digits)
    ensures LineComplexity(digits + "A", cost) == Ok(cost * DecimalValue(digits))
  {
    IntsOfCode(digits);
  }

  // ----- the keypads as rows -----

  /** `pad1`: the numeric keypad, row by row; " " is the gap. */
  const Pad1: seq<string> := ["789", "456", "123", " 0A"]

  /** `pad2`: the arrow keypad. */
  const Pad2: seq<string> := [" ^A", "<v>"]

  /** `get_pad1` / `get_pad2`: the key at `p`, None off the rows or on the gap. */
  function GetPad(pad: seq<string>, p: Point): (r: Option<char>)
    ensures r.Some? <==> 0 <= p.0 < |pad| && 0 <= p.1 < |pad[p.0]| && pad[p.0][p.1] != ' '
    ensures r.Some? ==> r.value == pad[p.0][p.1]
  {
    var (row, col) := p;
    if !(0 <= row < |pad| && 0 <= col < |pad[row]|) then None
    else if pad[row][col] == ' ' then None
    else Some(pad[row][col])
  }

  /** The rows of `pad1` place the keys where the numeric keypad does. */
  lemma Pad1IsNumericKeypad(p: Point, k: char)
    ensures GetPad(Pad1, p) == Some(k) <==> k in NumericKeypad && NumericKeypad[k] == p
  {
    if 0 <= p.0 < 4 && 0 <= p.1 < 3 {
      assert Pad1[0] == "789" && Pad1[1] == "456" && Pad1[2] == "123" && Pad1[3] == " 0A";
    }
  }

  /** The rows of `pad2` place the keys where the arrow keypad does. */
  lemma Pad2IsArrowKeypad(p: Point, k: char)
    ensures GetPad(Pad2, p) == Some(k) <==> k in ArrowKeypad && ArrowKeypad[k] == p
  {
    if 0 <= p.0 < 2 && 0 <= p.1 < 3 {
      assert Pad2[0] == " ^A" && Pad2[1] == "<v>";
    }
  }

  /** The keys of `pad2`: its cells are exactly the places of the arrow keypad. */
  lemma Pad2Cells(p: Point)
    ensures GetPad(Pad2, p).Some? <==> p in ArrowKeypad.Values
    ensures GetPad(Pad2, p).Some? ==> GetPad(Pad2, p).value in ArrowKeypad && ArrowKeypad[GetPad(Pad2, p).value] == p
  {
    if GetPad(Pad2, p).Some? {
      Pad2IsArrowKeypad(p, GetPad(Pad2, p).value);
    }
    if p in ArrowKeypad.Values {
      var k :| k in ArrowKeypad && ArrowKeypad[k] == p;
      Pad2IsArrowKeypad(p, k);
    }
  }

  /**
   * `apply_pad1` / `apply_pad2`: "A" stays and outputs the key under the
   * robot (None off the keypad), an arrow moves one cell with no output,
   * and any other move falls off the end of the function (None).
   */
  function ApplyPad(pad: seq<string>, p: Point, move: char): (r: Option<(Point, Option<char>)>)
    ensures r.None? <==> move !in ArrowKeypad
    ensures move == 'A' ==> r == Some((p, GetPad(pad, p)))
    ensures IsMove(move) ==> r == Some((Step(p, move), None))
  {
    if move == 'A' then Some((p, GetPad(pad, p)))
    else if move == '<' then Some(((p.0, p.1 - 1), None))
    else if move == '^' then Some(((p.0 - 1, p.1), None))
    else if move == '>' then Some(((p.0, p.1 + 1), None))
    else if move == 'v' then Some(((p.0 + 1, p.1), None))
    else None
  }

  // ----- the heap -----

  /**
   * A heap entry `[d, position, previous move, output, path]`. The path is
   * never extended (`new_path = path`) and stays "", so it is left out.
   */
  datatype State = State(d: int, pos: Point, prev: char, out: string)

  /** Python's `<=` on strings: character by character, a prefix first. */
  predicate StrLe(a: string, b: string)
    decreases |a|
  {
    a == [] || (b != [] && (a[0] < b[0] || (a[0] == b[0] && StrLe(a[1..], b[1..]))))
  }

  lemma {:induction false} StrLeTotal(a: string, b: string)
    ensures StrLe(a, b) || StrLe(b, a)
    decreases |a|
  {
    if a != [] && b != [] && a[0] == b[0] {
      StrLeTotal(a[1..], b[1..]);
    }
  }

  lemma {:induction false} StrLeRefl(a: string)
    ensures StrLe(a, a)
    decreases |a|
  {
    if a != [] {
      StrLeRefl(a[1..]);
    }
  }

  lemma {:induction false} StrLeTrans(a: string, b: string, c: string)
    requires StrLe(a, b) && StrLe(b, c)
    ensures StrLe(a, c)
    decreases |a|
  {
    if a != [] && a[0] == b[0] && b[0] == c[0] {
      StrLeTrans(a[1..], b[1..], c[1..]);
    }
  }

  /** Python's `<=` on the heap entries: by cost, then row, column, previous move and output. */
  predicate StateLe(a: State, b: State)
  {
    a.d < b.d || (a.d == b.d &&
      (a.pos.0 < b.pos.0 || (a.pos.0 == b.pos.0 &&
      (a.pos.1 < b.pos.1 || (a.pos.1 == b.pos.1 &&
      (a.prev < b.prev || (a.prev == b.prev && StrLe(a.out, b.out))))))))
  }

  lemma StateLeTotal(a: State, b: State)
    ensures StateLe(a, b) || StateLe(b, a)
  {
    StrLeTotal(a.out, b.out);
  }

  lemma StateLeTrans(a: State, b: State, c: State)
    requires StateLe(a, b) && StateLe(b, c)
    ensures StateLe(a, c)
  {
    if a.d == b.d == c.d && a.pos == b.pos == c.pos && a.prev == b.prev == c.prev {
      StrLeTrans(a.out, b.out, c.out);
    }
  }

  /** The entry `heappop` takes: one no entry is smaller than. */
  function HeapMin(q: seq<State>): (i: nat)
    requires q != []
    ensures i < |q| && forall j :: 0 <= j < |q| ==> StateLe(q[i], q[j])
    decreases |q|
  {
    StrLeRefl(q[0].out);
    if |q| == 1 then 0
    else
      var k := 1 + HeapMin(q[1..]);
      assert forall j :: 1 <= j < |q| ==> q[j] == q[1..][j - 1];
      StateLeTotal(q[0], q[k]);
      if StateLe(q[0], q[k]) then
        assert forall j :: 0 <= j < |q| ==> StateLe(q[0], q[j]) by {
          forall j | 1 <= j < |q| ensures StateLe(q[0], q[j]) {
            StateLeTrans(q[0], q[k], q[j]);
          }
        }
        0
      else k
  }

  /** The queue without entry `i`. */
  function Without<T>(q: seq<T>, i: nat): (r: seq<T>)
    requires i < |q|
    ensures |r| == |q| - 1
    ensures forall j :: 0 <= j < |r| ==> r[j] == if j < i then q[j] else q[j + 1]
  {
    q[..i] + q[i + 1..]
  }

  // ----- what a press costs -----

  /** The moves in the order both searches try them: `"^<v>A"`. */
  const Presses: string := "^<v>A"

  /** The moves are the keys of the arrow keypad. */
  lemma PressesAreArrowKeys(m: char)
    ensures m in Presses <==> m in ArrowKeypad
  {
  }

  /** The move before move `i` of `moves`: every robot starts on "A". */
  function PrevMove(moves: string, i: nat): char
    requires i <= |moves|
  {
    if i == 0 then 'A' else moves[i - 1]
  }

  /** Where `apply_pad` leaves entry `e` after move `m`, and its output so far. */
  function After(pad: seq<string>, e: State, m: char): (Point, string)
    requires m in ArrowKeypad
  {
    var (q, o) := ApplyPad(pad, e.pos, m).value;
    (q, if o.Some? then e.out + [o.value] else e.out)
  }

  /**
   * A robot on `pad` that starts at `start` and carries out `moves` with
   * `apply_pad`, each move made from a key (the searches drop an entry off
   * the keys before moving on from it): its output and where it ends up;
   * None once a move is made from off the keys or is no move.
   */
  ghost function RunMoves(pad: seq<string>, start: Point, moves: string): Option<(string, Point)>
    decreases |moves|
  {
    if moves == [] then Some(("", start))
    else
      match RunMoves(pad, start, moves[..|moves| - 1])
      case None => None
      case Some((out, p)) =>
        var m := moves[|moves| - 1];
        if GetPad(pad, p).None? || m !in ArrowKeypad then None
        else
          var (q, o) := ApplyPad(pad, p, m).value;
          Some((if o.Some? then out + [o.value] else out, q))
  }

  /**
   * What `cost2(ch, prev, level)` stands for: `d` presses of the operator
   * above `level` arrow keypads make the robot at the bottom press `ch` on
   * its arrow keypad, starting from key `prev`, the robots in between all
   * starting on "A". With no keypad in between the operator presses `ch`
   * once.
   */
  ghost predicate PressCost(ch: char, prev: char, level: nat, d: int)
    decreases level, 1
  {
    if level == 0 then d == 1
    else exists moves: string, costs: seq<int> :: PressesAt(ch, prev, level, moves, costs, d)
  }

  /**
   * `moves` take the robot from `prev` to `ch` over the arrow keypad and
   * press it, outputting nothing else; `costs` price each move one level
   * up, and `d` is their sum.
   */
  ghost predicate PressesAt(ch: char, prev: char, level: nat, moves: string, costs: seq<int>, d: int)
    decreases level, 0
  {
    level >= 1 && prev in ArrowKeypad && PricedAt(moves, costs, level - 1) && d == Sum(costs) &&
    RunMoves(Pad2, ArrowKeypad[prev], moves).Some? && RunMoves(Pad2, ArrowKeypad[prev], moves).value.0 == [ch]
  }

  /** `costs[i]` is a price of move `i` of `moves`, from the move before it, at `level`. */
  ghost predicate MovePriced(moves: string, costs: seq<int>, level: nat, i: int)
    decreases level, 2
  {
    0 <= i < |moves| && i < |costs| && PressCost(moves[i], PrevMove(moves, i), level, costs[i])
  }

  /** Every move of `moves` is priced by `costs` at `level`. */
  ghost predicate PricedAt(moves: string, costs: seq<int>, level: nat)
    decreases level, 3
  {
    |costs| == |moves| && forall i :: 0 <= i < |moves| ==> MovePriced(moves, costs, level, i)
  }

  /**
   * Heap entry `e` of a search on `pad` from `start` is the end of `moves`,
   * priced by `costs` at `level`: its cost is their sum, its previous move
   * the last of them, and its place and output where they lead.
   */
  ghost predicate Reached(pad: seq<string>, start: Point, level: nat, e: State, moves: string, costs: seq<int>)
  {
    PricedAt(moves, costs, level) && e.d == Sum(costs) && e.prev == PrevMove(moves, |moves|) &&
    RunMoves(pad, start, moves) == Some((e.out, e.pos))
  }

  /** The first heap entry: nothing pressed yet. */
  lemma ReachedStart(pad: seq<string>, start: Point, level: nat)
    ensures Reached(pad, start, level, State(0, start, 'A', ""), "", [])
  {
  }

  /** Pushing the entry after move `m`, priced `c`, extends the moves by `m`. */
  lemma ReachedStep(pad: seq<string>, start: Point, level: nat, e: State, moves: string, costs: seq<int>, m: char, c: int)
    requires Reached(pad, start, level, e, moves, costs)
    requires GetPad(pad, e.pos).Some? && m in ArrowKeypad && PressCost(m, e.prev, level, c)
    ensures var (q, out) := After(pad, e, m);
      Reached(pad, start, level, State(e.d + c, q, m, out), moves + [m], costs + [c])
  {
    PricedSnoc(moves, costs, level, m, c);
    RunSnoc(pad, start, moves, m);
    assert (costs + [c])[..|costs|] == costs;
  }

  lemma PricedSnoc(moves: string, costs: seq<int>, level: nat, m: char, c: int)
    requires PricedAt(moves, costs, level) && PressCost(m, PrevMove(moves, |moves|), level, c)
    ensures PricedAt(moves + [m], costs + [c], level)
  {
    var moves', costs' := moves + [m], costs + [c];
    forall i | 0 <= i < |moves'|
      ensures MovePriced(moves', costs', level, i)
    {
      if i < |moves| {
        assert MovePriced(moves, costs, level, i);
        assert moves'[i] == moves[i] && costs'[i] == costs[i] && PrevMove(moves', i) == PrevMove(moves, i);
      }
    }
  }

  lemma RunSnoc(pad: seq<string>, start: Point, moves: string, m: char)
    ensures RunMoves(pad, start, moves + [m]) ==
      match RunMoves(pad, start, moves)
      case None => None
      case Some((out, p)) =>
        if GetPad(pad, p).None? || m !in ArrowKeypad then None
        else var (q, o) := ApplyPad(pad, p, m).value; Some((if o.Some? then out + [o.value] else out, q))
  {
    assert (moves + [m])[..|moves|] == moves;
  }

  /** Each move outputs at most one key. */
  lemma {:induction false} RunOutputBound(pad: seq<string>, start: Point, moves: string)
    requires RunMoves(pad, start, moves).Some?
    ensures |RunMoves(pad, start, moves).value.0| <= |moves|
    decreases |moves|
  {
    if moves != [] {
      RunOutputBound(pad, start, moves[..|moves| - 1]);
    }
  }

  /** Costs of at least one each add up to at least their number. */
  lemma {:induction false} SumAtLeastCount(costs: seq<int>)
    requires forall i :: 0 <= i < |costs| ==> costs[i] >= 1
    ensures Sum(costs) >= |costs|
    decreases |costs|
  {
    if costs != [] {
      SumAtLeastCount(costs[..|costs| - 1]);
    }
  }

  /** Every press costs the operator at least one press. */
  lemma {:induction false} PressCostPositive(ch: char, prev: char, level: nat, d: int)
    requires PressCost(ch, prev, level, d)
    ensures d >= 1
    decreases level
  {
    if level > 0 {
      var moves, costs :| PressesAt(ch, prev, level, moves, costs, d);
      assert PricedAt(moves, costs, level - 1);
      forall i | 0 <= i < |costs| ensures costs[i] >= 1 {
        assert MovePriced(moves, costs, level - 1, i);
        PressCostPositive(moves[i], PrevMove(moves, i), level - 1, costs[i]);
      }
      SumAtLeastCount(costs);
      RunOutputBound(Pad2, ArrowKeypad[prev], moves);
    }
  }

  /**
   * `moves`, priced by `costs` at `level`, make the robot at the numeric
   * keypad, starting on "A", type `code`, for `d` presses in all.
   */
  ghost predicate TypesCode(code: string, level: nat, moves: string, costs: seq<int>, d: int)
  {
    PricedAt(moves, costs, level) && d == Sum(costs) &&
    RunMoves(Pad1, (3, 2), moves).Some? && RunMoves(Pad1, (3, 2), moves).value.0 == code
  }

  /** Typing a code costs at least one press per key. */
  lemma TypesCodeCost(code: string, level: nat, moves: string, costs: seq<int>, d: int)
    requires TypesCode(code, level, moves, costs, d)
    ensures d >= |code|
  {
    forall i | 0 <= i < |costs| ensures costs[i] >= 1 {
      assert MovePriced(moves, costs, level, i);
      PressCostPositive(moves[i], PrevMove(moves, i), level, costs[i]);
    }
    SumAtLeastCount(costs);
    RunOutputBound(Pad1, (3, 2), moves);
  }

  // ----- cost2 and solve1 -----

  /** The (place, previous move) pairs of `cost2`'s `SEEN`: every key of the arrow keypad with every move. */
  ghost function SeenKeys(): set<(Point, char)>
  {
    set k, m | k in ArrowKeypad && m in ArrowKeypad :: (ArrowKeypad[k], m)
  }

  /** The termination measure of the searches' recursion: `pads` and below. */
  function Depth(pads: int): nat
  {
    if pads < 0 then 0 else pads + 1
  }

  /** An entry's output: nothing yet, or the key it stands on. */
  ghost predicate OutShape(e: State)
  {
    e.out == [] || (GetPad(Pad2, e.pos).Some? && e.out == [GetPad(Pad2, e.pos).value])
  }

  /** The places of the keys of `SEEN`. */
  ghost function SeenCells(seen: map<(Point, char), int>): set<Point>
  {
    set k | k in seen :: k.0
  }

  lemma SeenCellsAdd(seen: map<(Point, char), int>, k: (Point, char), d: int)
    ensures SeenCells(seen[k := d]) == SeenCells(seen) + {k.0}
  {
  }

  /** Place `c` is in `SEEN`, or a queued entry on it has output nothing yet. */
  ghost predicate Covered(q: seq<State>, seen: map<(Point, char), int>, c: Point)
  {
    c in SeenCells(seen) || (exists i :: 0 <= i < |q| && q[i].pos == c && q[i].out == [])
  }

  /** Some queued entry has output `ch`. */
  ghost predicate Outputs(q: seq<State>, ch: char)
  {
    exists i :: 0 <= i < |q| && q[i].out == [ch]
  }

  /** If `c` is in `SEEN`, the key one move `m` away, if any, is covered. */
  ghost predicate SpreadsAt(q: seq<State>, seen: map<(Point, char), int>, c: Point, m: char)
  {
    c in SeenCells(seen) && IsMove(m) && GetPad(Pad2, Step(c, m)).Some? ==> Covered(q, seen, Step(c, m))
  }

  /** Every key next to a place in `SEEN` is covered. */
  ghost predicate Spreads(q: seq<State>, seen: map<(Point, char), int>)
  {
    forall c, m :: SpreadsAt(q, seen, c, m)
  }

  /**
   * The search has not lost its way to `ch`: the start is covered, so is
   * every key next to a seen one, and a seen place holding `ch` has its
   * "A" press queued.
   */
  ghost predicate Closed(q: seq<State>, seen: map<(Point, char), int>, ch: char, start: Point)
  {
    ch in ArrowKeypad && Covered(q, seen, start) && Spreads(q, seen) &&
    (ArrowKeypad[ch] in SeenCells(seen) ==> Outputs(q, ch))
  }

  /** Entry `i` of a search on `pad` is reached by its witness `w[i]`. */
  ghost predicate EntryReached(pad: seq<string>, q: seq<State>, w: seq<(string, seq<int>)>, i: int, start: Point, level: nat)
  {
    0 <= i < |q| && i < |w| && Reached(pad, start, level, q[i], w[i].0, w[i].1)
  }

  lemma EntryReachedSnoc(pad: seq<string>, q: seq<State>, w: seq<(string, seq<int>)>, e: State, we: (string, seq<int>),
                         start: Point, level: nat)
    requires |w| == |q| && forall j :: 0 <= j < |q| ==> EntryReached(pad, q, w, j, start, level)
    requires Reached(pad, start, level, e, we.0, we.1)
    ensures forall j :: 0 <= j < |q| + 1 ==> EntryReached(pad, q + [e], w + [we], j, start, level)
  {
    forall j | 0 <= j < |q| + 1 ensures EntryReached(pad, q + [e], w + [we], j, start, level) {
      if j < |q| {
        assert EntryReached(pad, q, w, j, start, level);
        assert (q + [e])[j] == q[j] && (w + [we])[j] == w[j];
      }
    }
  }

  /** The queued entries, each reached by its witness and no cheaper than `last`. */
  ghost predicate Entries(q: seq<State>, w: seq<(string, seq<int>)>, last: int, start: Point, level: nat)
  {
    |w| == |q| &&
    (forall i :: 0 <= i < |q| ==> EntryReached(Pad2, q, w, i, start, level)) &&
    (forall i :: 0 <= i < |q| ==> EntryOk(q, i, last))
  }

  /** Entry `i` follows a move, costs no less than `last`, and has output at most its key. */
  ghost predicate EntryOk(q: seq<State>, i: int, last: int)
  {
    0 <= i < |q| && q[i].prev in ArrowKeypad && q[i].d >= last && OutShape(q[i])
  }

  /** A key of `SEEN` is one of its possible keys, reached no later than `last`. */
  ghost predicate SeenOk(seen: map<(Point, char), int>, k: (Point, char), last: int)
  {
    k in seen ==> k in SeenKeys() && seen[k] <= last
  }

  /** The state of `cost2`'s search loop, `last` being the cost of the entry popped last. */
  ghost predicate Search2(q: seq<State>, w: seq<(string, seq<int>)>, seen: map<(Point, char), int>, last: int,
                          start: Point, level: nat, ch: char)
  {
    Entries(q, w, last, start, level) &&
    (forall k :: SeenOk(seen, k, last)) &&
    GetPad(Pad2, start).Some? && Closed(q, seen, ch, start)
  }

  /** An entry the loop pops and drops: off the keys, past its output, or seen. */
  ghost predicate Dropped(e: State, seen: map<(Point, char), int>)
  {
    GetPad(Pad2, e.pos).None? || e.out != [] || (e.pos, e.prev) in seen
  }

  lemma Search2Start(start: Point, level: nat, ch: char)
    requires GetPad(Pad2, start).Some? && ch in ArrowKeypad
    ensures Search2([State(0, start, 'A', "")], [("", [])], map[], 0, start, level, ch)
  {
    ReachedStart(Pad2, start, level);
    var q := [State(0, start, 'A', "")];
    assert q[0].pos == start && q[0].out == [];
    assert EntryReached(Pad2, q, [("", [])], 0, start, level) && EntryOk(q, 0, 0);
  }

  lemma CoveredAfterPop(q: seq<State>, seen: map<(Point, char), int>, i: nat, c: Point)
    requires i < |q| && Covered(q, seen, c) && Dropped(q[i], seen) && GetPad(Pad2, c).Some?
    ensures Covered(Without(q, i), seen, c)
  {
    if c !in SeenCells(seen) {
      var j :| 0 <= j < |q| && q[j].pos == c && q[j].out == [];
      if (q[i].pos, q[i].prev) in seen {
        assert q[i].pos in SeenCells(seen);
      }
      assert j != i;
      var r := Without(q, i);
      if j < i {
        assert r[j] == q[j];
      } else {
        assert r[j - 1] == q[j];
      }
    }
  }

  lemma OutputsAfterPop(q: seq<State>, i: nat, ch: char)
    requires i < |q| && Outputs(q, ch) && q[i].out != [ch]
    ensures Outputs(Without(q, i), ch)
  {
    var j :| 0 <= j < |q| && q[j].out == [ch];
    var r := Without(q, i);
    if j < i {
      assert r[j] == q[j];
    } else {
      assert r[j - 1] == q[j];
    }
  }

  lemma ClosedDrop(q: seq<State>, seen: map<(Point, char), int>, ch: char, start: Point, i: nat)
    requires Closed(q, seen, ch, start) && GetPad(Pad2, start).Some?
    requires i < |q| && Dropped(q[i], seen) && q[i].out != [ch]
    ensures Closed(Without(q, i), seen, ch, start)
  {
    var q' := Without(q, i);
    forall c, m ensures SpreadsAt(q', seen, c, m) {
      if c in SeenCells(seen) && IsMove(m) && GetPad(Pad2, Step(c, m)).Some? {
        assert SpreadsAt(q, seen, c, m);
        CoveredAfterPop(q, seen, i, Step(c, m));
      }
    }
    CoveredAfterPop(q, seen, i, start);
    if ArrowKeypad[ch] in SeenCells(seen) {
      OutputsAfterPop(q, i, ch);
    }
  }

  lemma EntriesDrop(q: seq<State>, w: seq<(string, seq<int>)>, last: int, start: Point, level: nat, i: nat)
    requires Entries(q, w, last, start, level) && i < |q|
    requires forall j :: 0 <= j < |q| ==> StateLe(q[i], q[j])
    ensures Entries(Without(q, i), Without(w, i), q[i].d, start, level)
    ensures q[i].d >= last
  {
    var q', w' := Without(q, i), Without(w, i);
    assert EntryOk(q, i, last);
    forall j | 0 <= j < |q'| ensures EntryReached(Pad2, q', w', j, start, level) && EntryOk(q', j, q[i].d) {
      var jj := if j < i then j else j + 1;
      assert EntryReached(Pad2, q, w, jj, start, level) && EntryOk(q, jj, last);
      assert q'[j] == q[jj] && w'[j] == w[jj] && StateLe(q[i], q[jj]);
    }
  }

  /** An entry that has output `ch` prices pressing it one level down. */
  lemma FoundPrice(q: seq<State>, w: seq<(string, seq<int>)>, i: int, ch: char, prev: char, level: nat)
    requires prev in ArrowKeypad && EntryReached(Pad2, q, w, i, ArrowKeypad[prev], level) && q[i].out == [ch]
    ensures PressCost(ch, prev, level + 1, q[i].d) && q[i].d >= 1
  {
    assert PressesAt(ch, prev, level + 1, w[i].0, w[i].1, q[i].d);
    PressCostPositive(ch, prev, level + 1, q[i].d);
  }

  /** Dropping the popped entry keeps the loop state. */
  lemma Search2Drop(q: seq<State>, w: seq<(string, seq<int>)>, seen: map<(Point, char), int>, last: int,
                    start: Point, level: nat, ch: char, i: nat)
    requires Search2(q, w, seen, last, start, level, ch) && i < |q|
    requires forall j :: 0 <= j < |q| ==> StateLe(q[i], q[j])
    requires q[i].out != [ch] && Dropped(q[i], seen)
    ensures Search2(Without(q, i), Without(w, i), seen, q[i].d, start, level, ch)
  {
    EntriesDrop(q, w, last, start, level, i);
    ClosedDrop(q, seen, ch, start, i);
    forall k ensures SeenOk(seen, k, q[i].d) {
      assert SeenOk(seen, k, last);
    }
  }

  lemma WithoutAppend<T>(q: seq<T>, extra: seq<T>, i: nat)
    requires i < |q|
    ensures Without(q + extra, i) == Without(q, i) + extra
  {
  }

  /** The place of each arrow move in "^<v>A". */
  function MoveIndex(m: char): (j: nat)
    requires IsMove(m)
    ensures j < 4 && Presses[j] == m
  {
    if m == '^' then 0 else if m == '<' then 1 else if m == 'v' then 2 else 3
  }

  lemma CoveredGrow(q: seq<State>, seen: map<(Point, char), int>, extra: seq<State>, seen': map<(Point, char), int>, c: Point)
    requires Covered(q, seen, c) && SeenCells(seen) <= SeenCells(seen')
    ensures Covered(q + extra, seen', c)
  {
    if c !in SeenCells(seen) {
      var j :| 0 <= j < |q| && q[j].pos == c && q[j].out == [];
      assert (q + extra)[j] == q[j];
    }
  }

  lemma OutputsGrow(q: seq<State>, extra: seq<State>, ch: char)
    requires Outputs(q, ch)
    ensures Outputs(q + extra, ch)
  {
    var j :| 0 <= j < |q| && q[j].out == [ch];
    assert (q + extra)[j] == q[j];
  }

  /** What `Expand` pushes from an entry `e` on a key that has output nothing yet. */
  ghost predicate PushedFrom(e: State, pushed: seq<State>)
  {
    |pushed| == |Presses| &&
    forall j :: 0 <= j < |Presses| ==>
      pushed[j].d > e.d && pushed[j].prev == Presses[j] && (pushed[j].pos, pushed[j].out) == After(Pad2, e, Presses[j])
  }

  lemma ClosedExpand(q: seq<State>, seen: map<(Point, char), int>, ch: char, start: Point, e: State, pushed: seq<State>)
    requires Closed(q, seen, ch, start)
    requires GetPad(Pad2, e.pos).Some? && e.out == [] && PushedFrom(e, pushed)
    ensures Closed(q + pushed, seen[(e.pos, e.prev) := e.d], ch, start)
  {
    var q', seen' := q + pushed, seen[(e.pos, e.prev) := e.d];
    SeenCellsAdd(seen, (e.pos, e.prev), e.d);
    CoveredGrow(q, seen, pushed, seen', start);
    forall c, m ensures SpreadsAt(q', seen', c, m) {
      if c in SeenCells(seen') && IsMove(m) && GetPad(Pad2, Step(c, m)).Some? {
        if c in SeenCells(seen) {
          assert SpreadsAt(q, seen, c, m);
          CoveredGrow(q, seen, pushed, seen', Step(c, m));
        } else {
          var j := MoveIndex(m);
          assert q'[|q| + j] == pushed[j];
        }
      }
    }
    if ArrowKeypad[ch] in SeenCells(seen') {
      if ArrowKeypad[ch] in SeenCells(seen) {
        OutputsGrow(q, pushed, ch);
      } else {
        Pad2IsArrowKeypad(e.pos, ch);
        assert Presses[4] == 'A' && q'[|q| + 4] == pushed[4];
      }
    }
  }

  lemma EntriesExpand(q: seq<State>, w: seq<(string, seq<int>)>, start: Point, level: nat, e: State,
                      pushed: seq<State>, ws: seq<(string, seq<int>)>)
    requires Entries(q, w, e.d, start, level)
    requires GetPad(Pad2, e.pos).Some? && e.out == [] && PushedFrom(e, pushed) && |ws| == |pushed|
    requires forall j :: 0 <= j < |pushed| ==> EntryReached(Pad2, pushed, ws, j, start, level)
    ensures Entries(q + pushed, w + ws, e.d, start, level)
  {
    var q', w' := q + pushed, w + ws;
    forall j | 0 <= j < |q'|
      ensures EntryReached(Pad2, q', w', j, start, level)
      ensures EntryOk(q', j, e.d)
    {
      if j < |q| {
        assert EntryReached(Pad2, q, w, j, start, level) && EntryOk(q, j, e.d);
        assert q'[j] == q[j] && w'[j] == w[j];
      } else {
        var jj := j - |q|;
        assert EntryReached(Pad2, pushed, ws, jj, start, level);
        assert q'[j] == pushed[jj] && w'[j] == ws[jj];
        assert Presses[jj] in ArrowKeypad;
      }
    }
  }

  /**
   * Popping an unseen entry on a key that has output nothing yet, marking
   * it seen and pushing its moves keeps the loop state.
   */
  lemma Search2Expand(q: seq<State>, w: seq<(string, seq<int>)>, seen: map<(Point, char), int>, last: int,
                      start: Point, level: nat, ch: char, i: nat, pushed: seq<State>, ws: seq<(string, seq<int>)>)
    requires Search2(q, w, seen, last, start, level, ch) && i < |q|
    requires forall j :: 0 <= j < |q| ==> StateLe(q[i], q[j])
    requires GetPad(Pad2, q[i].pos).Some? && q[i].out == [] && (q[i].pos, q[i].prev) !in seen
    requires PushedFrom(q[i], pushed) && |ws| == |pushed|
    requires forall j :: 0 <= j < |pushed| ==> EntryReached(Pad2, pushed, ws, j, start, level)
    ensures Search2(Without(q, i) + pushed, Without(w, i) + ws, seen[(q[i].pos, q[i].prev) := q[i].d], q[i].d, start, level, ch)
    ensures (q[i].pos, q[i].prev) in SeenKeys()
  {
    var e := q[i];
    var seen' := seen[(e.pos, e.prev) := e.d];
    EntriesDrop(q, w, last, start, level, i);
    EntriesExpand(Without(q, i), Without(w, i), start, level, e, pushed, ws);
    ClosedExpand(q, seen, ch, start, e, pushed);
    assert (q + pushed)[i] == e;
    ClosedDrop(q + pushed, seen', ch, start, i);
    WithoutAppend(q, pushed, i);
    Pad2Cells(e.pos);
    var k := GetPad(Pad2, e.pos).value;
    assert EntryOk(q, i, last) && (ArrowKeypad[k], e.prev) in SeenKeys();
    forall k' ensures SeenOk(seen', k', e.d) {
      assert SeenOk(seen, k', last);
    }
  }

  /** The five places of `pad2` that hold a key. */
  predicate ArrowCell(c: Point)
  {
    c == (0, 1) || c == (0, 2) || c == (1, 0) || c == (1, 1) || c == (1, 2)
  }

  lemma ArrowCells(c: Point)
    ensures GetPad(Pad2, c).Some? <==> ArrowCell(c)
  {
    Pad2Cells(c);
  }

  /** The keys of the arrow keypad hang together: a set closed under moves that holds one holds all. */
  lemma ArrowPadConnected(cells: set<Point>, start: Point)
    requires ArrowCell(start) && start in cells
    requires forall c, m {:trigger Step(c, m)} :: c in cells && IsMove(m) && ArrowCell(Step(c, m)) ==> Step(c, m) in cells
    ensures forall c :: ArrowCell(c) ==> c in cells
  {
    assert IsMove('^') && IsMove('<') && IsMove('v') && IsMove('>');
    if start == (0, 2) {
      assert Step((0, 2), '<') == (0, 1);
      assert (0, 1) in cells;
    }
    if start == (0, 1) || start == (0, 2) {
      assert Step((0, 1), 'v') == (1, 1);
    } else if start == (1, 0) {
      assert Step((1, 0), '>') == (1, 1);
    } else if start == (1, 2) {
      assert Step((1, 2), '<') == (1, 1);
    }
    assert (1, 1) in cells;
    assert Step((1, 1), '^') == (0, 1);
    assert Step((1, 1), '<') == (1, 0);
    assert Step((1, 1), '>') == (1, 2);
    assert (0, 1) in cells;
    assert Step((0, 1), '>') == (0, 2);
  }

  /** With nothing queued, the places in `SEEN` spread from the start to every key. */
  lemma SeenReachesAll(seen: map<(Point, char), int>, start: Point, c: Point)
    requires Covered([], seen, start) && Spreads([], seen) && GetPad(Pad2, start).Some? && GetPad(Pad2, c).Some?
    ensures c in SeenCells(seen)
  {
    var cells := SeenCells(seen);
    forall c', m | c' in cells && IsMove(m) && ArrowCell(Step(c', m)) ensures Step(c', m) in cells {
      ArrowCells(Step(c', m));
      assert SpreadsAt([], seen, c', m);
    }
    ArrowCells(start);
    ArrowCells(c);
    ArrowPadConnected(cells, start);
  }

  /** The loop never runs dry: a covered start reaches the place of `ch`, whose press is queued. */
  lemma Search2NeverEmpty(q: seq<State>, seen: map<(Point, char), int>, ch: char, start: Point)
    requires Closed(q, seen, ch, start) && GetPad(Pad2, start).Some?
    ensures q != []
  {
    if q == [] {
      Pad2IsArrowKeypad(ArrowKeypad[ch], ch);
      SeenReachesAll(seen, start, ArrowKeypad[ch]);
      assert false;
    }
  }

  /**
   * How a call of `solve1` ends: returning the cost (None when the heap
   * runs dry), raising an exception, or still searching after the given
   * number of pops.
   */
  datatype Outcome = Return(value: Option<int>) | Raise(error: PyError) | Unfinished

  /** The heap of `solve1` on the numeric keypad, each entry reached by its witness from "A". */
  ghost predicate Entries1(q: seq<State>, w: seq<(string, seq<int>)>, pads: int)
  {
    |w| == |q| && (forall i :: 0 <= i < |q| ==> q[i].prev in ArrowKeypad) &&
    (pads >= 0 ==> forall i :: 0 <= i < |q| ==> EntryReached(Pad1, q, w, i, (3, 2), pads))
  }

  lemma Entries1Start(pads: int)
    ensures Entries1([State(0, (3, 2), 'A', "")], [("", [])], pads)
  {
    if pads >= 0 {
      ReachedStart(Pad1, (3, 2), pads);
      assert EntryReached(Pad1, [State(0, (3, 2), 'A', "")], [("", [])], 0, (3, 2), pads);
    }
  }

  lemma Entries1Pop(q: seq<State>, w: seq<(string, seq<int>)>, pads: int, i: nat)
    requires Entries1(q, w, pads) && i < |q|
    ensures Entries1(Without(q, i), Without(w, i), pads)
    ensures q[i].prev in ArrowKeypad
    ensures pads >= 0 ==> Reached(Pad1, (3, 2), pads, q[i], w[i].0, w[i].1)
  {
    var q', w' := Without(q, i), Without(w, i);
    if pads >= 0 {
      assert EntryReached(Pad1, q, w, i, (3, 2), pads);
      forall j | 0 <= j < |q'| ensures EntryReached(Pad1, q', w', j, (3, 2), pads) {
        var jj := if j < i then j else j + 1;
        assert EntryReached(Pad1, q, w, jj, (3, 2), pads);
        assert q'[j] == q[jj] && w'[j] == w[jj];
      }
    }
  }

  lemma Entries1Push(q: seq<State>, w: seq<(string, seq<int>)>, pads: nat, pushed: seq<State>, ws: seq<(string, seq<int>)>)
    requires Entries1(q, w, pads) && |ws| == |pushed| == |Presses|
    requires forall j :: 0 <= j < |Presses| ==> pushed[j].prev == Presses[j] && EntryReached(Pad1, pushed, ws, j, (3, 2), pads)
    ensures Entries1(q + pushed, w + ws, pads)
  {
    var q', w' := q + pushed, w + ws;
    forall j | 0 <= j < |q'| ensures q'[j].prev in ArrowKeypad && EntryReached(Pad1, q', w', j, (3, 2), pads) {
      if j < |q| {
        assert EntryReached(Pad1, q, w, j, (3, 2), pads);
        assert q'[j] == q[j] && w'[j] == w[j];
      } else {
        var jj := j - |q|;
        assert EntryReached(Pad1, pushed, ws, jj, (3, 2), pads) && Presses[jj] in ArrowKeypad;
        assert q'[j] == pushed[jj] && w'[j] == ws[jj];
      }
    }
  }

  /** An entry of `solve1` that has typed `code` prices typing it. */
  lemma TypedPrice(code: string, pads: nat, e: State, moves: string, costs: seq<int>)
    requires Reached(Pad1, (3, 2), pads, e, moves, costs) && e.out == code
    ensures TypesCode(code, pads, moves, costs, e.d) && e.d >= |code|
  {
    TypesCodeCost(code, pads, moves, costs, e.d);
  }

  /** `DP` and the two searches that read and fill it. */
  class CostTable {
    /** `DP`: `cost2`'s results by (ch, previous move, pads). */
    var dp: map<(char, char, int), int>

    /** Every remembered cost is a price of its press. */
    ghost predicate Valid()
      reads this
    {
      forall k :: k in dp ==> k.0 in ArrowKeypad && k.1 in ArrowKeypad && k.2 >= 1 && PressCost(k.0, k.1, k.2, dp[k])
    }

    /** `DP = {}`. */
    constructor()
      ensures dp == map[] && Valid()
    {
      dp := map[];
    }

    /**
     * `cost2(ch, prev_move, pads)`: a remembered cost, 1 with no keypad
     * in between, an AssertionError for a move or keypad count out of
     * range, and otherwise the cost at which a cheapest-first search over
     * the robot above first outputs `ch`, remembered in `DP`.
     */
    method Cost2(ch: char, prevMove: char, pads: int) returns (r: Result<int>)
      requires Valid()
      modifies this
      decreases Depth(pads), 3
      ensures Valid()
      ensures forall k :: k in old(dp) ==> k in dp && dp[k] == old(dp)[k]
      ensures (ch, prevMove, pads) in old(dp) ==> r == Ok(old(dp)[(ch, prevMove, pads)])
      ensures r.Err? <==> pads != 0 && (ch !in ArrowKeypad || prevMove !in ArrowKeypad || pads < 1)
      ensures r.Err? ==> r.error == AssertionError
      ensures r.Ok? ==> pads >= 0 && r.value >= 1 && PressCost(ch, prevMove, pads, r.value)
      ensures r.Ok? && pads != 0 ==> (ch, prevMove, pads) in dp && dp[(ch, prevMove, pads)] == r.value
    {
      var key := (ch, prevMove, pads);
      if key in dp {
        PressCostPositive(ch, prevMove, pads, dp[key]);
        return Ok(dp[key]);
      }
      if pads == 0 {
        return Ok(1);
      }
      PressesAreArrowKeys(ch);
      PressesAreArrowKeys(prevMove);
      if ch !in Presses || prevMove !in Presses || pads < 1 {
        return Err(AssertionError);
      }
      var d := Cheapest(ch, prevMove, pads);
      dp := dp[key := d];
      return Ok(d);
    }

    /**
     * The `while Q:` loop of `cost2`, from the key of `prev_move`: it
     * always ends by outputting `ch`, so the `assert False` after it is
     * never reached.
     */
    method Cheapest(ch: char, prevMove: char, pads: int) returns (d: int)
      requires Valid() && ch in ArrowKeypad && prevMove in ArrowKeypad && pads >= 1
      modifies this
      decreases Depth(pads), 2
      ensures Valid()
      ensures forall k :: k in old(dp) ==> k in dp && dp[k] == old(dp)[k]
      ensures d >= 1 && PressCost(ch, prevMove, pads, d)
    {
      var start := ArrowKeypad[prevMove];
      Pad2Cells(start);
      var q := [State(0, start, 'A', "")];
      ghost var w: seq<(string, seq<int>)> := [("", [])];
      var seen: map<(Point, char), int> := map[];
      ghost var last := 0;
      Search2Start(start, pads - 1, ch);
      while q != []
        invariant Valid()
        invariant forall k :: k in old(dp) ==> k in dp && dp[k] == old(dp)[k]
        invariant Search2(q, w, seen, last, start, pads - 1, ch)
        decreases SeenKeys() - seen.Keys, |q|
      {
        var found;
        found, q, w, seen, last := Visit(ch, prevMove, pads, q, w, seen, last);
        if found.Some? {
          return found.value;
        }
      }
      Search2NeverEmpty(q, seen, ch, start);
      assert false;
      return 0;
    }

    /**
     * One pass of `cost2`'s loop: pop the cheapest entry; drop it when it
     * is off the keys, has output something other than `ch`, or its place
     * and previous move are in `SEEN`; stop with its cost when it has output
     * `ch`; otherwise mark it seen and push its five moves.
     */
    method Visit(ch: char, prevMove: char, pads: int, q: seq<State>, ghost w: seq<(string, seq<int>)>,
                 seen: map<(Point, char), int>, ghost last: int)
      returns (found: Option<int>, q': seq<State>, ghost w': seq<(string, seq<int>)>,
               seen': map<(Point, char), int>, ghost last': int)
      requires Valid() && prevMove in ArrowKeypad && pads >= 1 && q != []
      requires Search2(q, w, seen, last, ArrowKeypad[prevMove], pads - 1, ch)
      modifies this
      decreases Depth(pads), 1
      ensures Valid()
      ensures forall k :: k in old(dp) ==> k in dp && dp[k] == old(dp)[k]
      ensures found.Some? ==> found.value >= 1 && PressCost(ch, prevMove, pads, found.value)
      ensures found.None? ==> Search2(q', w', seen', last', ArrowKeypad[prevMove], pads - 1, ch)
      ensures found.None? ==> SeenKeys() - seen'.Keys < SeenKeys() - seen.Keys || (seen' == seen && |q'| < |q|)
    {
      var start := ArrowKeypad[prevMove];
      var i := HeapMin(q);
      var e := q[i];
      ghost var we := w[i];
      assert EntryReached(Pad2, q, w, i, start, pads - 1) && EntryOk(q, i, last);
      if GetPad(Pad2, e.pos).None? {
        assert OutShape(e);
        Search2Drop(q, w, seen, last, start, pads - 1, ch, i);
        return None, Without(q, i), Without(w, i), seen, e.d;
      }
      if e.out == [ch] {
        FoundPrice(q, w, i, ch, prevMove, pads - 1);
        return Some(e.d), q, w, seen, last;
      } else if |e.out| > 0 {
        Search2Drop(q, w, seen, last, start, pads - 1, ch, i);
        return None, Without(q, i), Without(w, i), seen, e.d;
      }
      var seenKey := (e.pos, e.prev);
      if seenKey in seen {
        assert SeenOk(seen, seenKey, last);
        assert e.d >= seen[seenKey];
        Search2Drop(q, w, seen, last, start, pads - 1, ch, i);
        return None, Without(q, i), Without(w, i), seen, e.d;
      }
      var pushed, ws := Expand(Pad2, start, pads - 1, e, we.0, we.1);
      Search2Expand(q, w, seen, last, start, pads - 1, ch, i, pushed.value, ws);
      assert seenKey in SeenKeys() - seen.Keys;
      return None, Without(q, i) + pushed.value, Without(w, i) + ws, seen[seenKey := e.d], e.d;
    }

    /**
     * The `for move in ...` loop of both searches: from entry `e`, which is
     * on a key, one new entry per move in the order "^<v>A", each dearer by
     * `cost2(move, e.prev, level)`; the AssertionError of `cost2` for a
     * negative `level`.
     */
    method Expand(pad: seq<string>, ghost start: Point, level: int, e: State, ghost moves: string, ghost costs: seq<int>)
      returns (r: Result<seq<State>>, ghost ws: seq<(string, seq<int>)>)
      requires Valid()
      requires e.prev in ArrowKeypad && GetPad(pad, e.pos).Some?
      requires level >= 0 ==> Reached(pad, start, level, e, moves, costs)
      modifies this
      decreases Depth(level) + 1, 0
      ensures Valid()
      ensures forall k :: k in old(dp) ==> k in dp && dp[k] == old(dp)[k]
      ensures r.Err? <==> level < 0
      ensures r.Err? ==> r.error == AssertionError
      ensures r.Ok? ==> |r.value| == |ws| == |Presses| && forall j :: 0 <= j < |Presses| ==>
        r.value[j].d > e.d && r.value[j].prev == Presses[j] &&
        (r.value[j].pos, r.value[j].out) == After(pad, e, Presses[j]) &&
        EntryReached(pad, r.value, ws, j, start, level)
    {
      var pushed: seq<State> := [];
      ws := [];
      for j := 0 to |Presses|
        invariant Valid()
        invariant forall k :: k in old(dp) ==> k in dp && dp[k] == old(dp)[k]
        invariant j > 0 ==> level >= 0
        invariant |pushed| == |ws| == j && forall jj :: 0 <= jj < j ==>
          pushed[jj].d > e.d && pushed[jj].prev == Presses[jj] &&
          (pushed[jj].pos, pushed[jj].out) == After(pad, e, Presses[jj]) &&
          EntryReached(pad, pushed, ws, jj, start, level)
      {
        var move := Presses[j];
        var (newPos, newOut) := After(pad, e, move);
        var cost := Cost2(move, e.prev, level);
        if cost.Err? {
          return Err(cost.error), [];
        }
        ReachedStep(pad, start, level, e, moves, costs, move, cost.value);
        EntryReachedSnoc(pad, pushed, ws, State(e.d + cost.value, newPos, move, newOut), (moves + [move], costs + [cost.value]), start, level);
        pushed := pushed + [State(e.d + cost.value, newPos, move, newOut)];
        ws := ws + [(moves + [move], costs + [cost.value])];
      }
      return Ok(pushed), ws;
    }

    /**
     * `solve1(code, pads)`: a cheapest-first search over the robot at the
     * numeric keypad, starting on "A", for the first entry that has typed
     * `code`, pricing each move by `cost2(move, prev, pads)`. Entries whose
     * output is not a prefix of `code`, or that are off the keys, are
     * dropped; `fuel` bounds the number of pops.
     */
    method Solve1(code: string, pads: int, fuel: nat) returns (r: Outcome)
      requires Valid()
      modifies this
      ensures Valid()
      ensures forall k :: k in old(dp) ==> k in dp && dp[k] == old(dp)[k]
      ensures r.Return? && r.value.Some? ==> r.value.value >= |code|
      ensures r.Return? && r.value.Some? && pads >= 0 ==> exists moves, costs :: TypesCode(code, pads, moves, costs, r.value.value)
      ensures r.Return? && r.value.Some? && pads < 0 ==> code == "" && r.value.value == 0
      ensures r.Raise? ==> pads < 0 && r.error == AssertionError
      ensures fuel > 0 && code == "" ==> r == Return(Some(0))
      ensures fuel > 0 && code != "" && pads < 0 ==> r == Raise(AssertionError)
    {
      var q := [State(0, (3, 2), 'A', "")];
      ghost var w: seq<(string, seq<int>)> := [("", [])];
      Entries1Start(pads);
      var steps := 0;
      while steps < fuel
        invariant steps <= fuel
        invariant Valid()
        invariant forall k :: k in old(dp) ==> k in dp && dp[k] == old(dp)[k]
        invariant Entries1(q, w, pads)
        invariant (pads < 0 || code == "") ==> steps == 0
        invariant steps == 0 ==> q == [State(0, (3, 2), 'A', "")]
        decreases fuel - steps
      {
        if q == [] {
          return Return(None);
        }
        var i := HeapMin(q);
        var e := q[i];
        ghost var we := w[i];
        Entries1Pop(q, w, pads, i);
        q, w := Without(q, i), Without(w, i);
        steps := steps + 1;
        if e.out == code {
          if pads >= 0 {
            TypedPrice(code, pads, e, we.0, we.1);
          }
          return Return(Some(e.d));
        }
        if !(e.out <= code) {
          continue;
        }
        if GetPad(Pad1, e.pos).None? {
          continue;
        }
        var pushed, ws := Expand(Pad1, (3, 2), pads, e, we.0, we.1);
        if pushed.Err? {
          return Raise(pushed.error);
        }
        Entries1Push(q, w, pads, pushed.value, ws);
        q, w := q + pushed.value, w + ws;
      }
      return Unfinished;
    }
  }
}
