/**
 * src/aoc/yr_2024/day_21/bad_code.py: a first, greedy answer to day 21.
 * `dpoint` moves straight to the target key, vertically first when the
 * target is in column 0 and horizontally first otherwise, and
 * `process_doorcode` stacks three layers of it. The layers do type the code
 * (and never steer a robot over a gap); they are just not always the
 * shortest, which is why the file is marked as not working.
 */
module Day21BadCode {
  import opened Common
  import opened Day21

  // ----- dpoint -----

  /** `c * n`. */
  function Repeat(c: char, n: nat): (r: string)
    ensures |r| == n && forall i :: 0 <= i < n ==> r[i] == c
  {
    seq(n, _ => c)
  }

  /**
   * The arrows of `dpoint`, before its final "A". Where the source's
   * `x_char` or `y_char` is "" the count is 0 as well, so that leg is empty
   * either way.
   */
  function MovesBetween(from: Point, to: Point): string
  {
    var dRow, dCol := to.0 - from.0, to.1 - from.1;
    var x := if dCol < 0 then '<' else '>';
    var y := if dRow < 0 then '^' else 'v';
    if to.1 == 0 then Repeat(y, Abs(dRow)) + Repeat(x, Abs(dCol))
    else Repeat(x, Abs(dCol)) + Repeat(y, Abs(dRow))
  }

  /** `dpoint(start, end, keypad)`: the arrows to the end key and one "A"; KeyError for an unknown key. */
  function DPoint(startKey: char, endKey: char, pad: map<char, Point>): (r: Result<string>)
    ensures r.Err? <==> startKey !in pad || endKey !in pad
    ensures r.Err? ==> r.error == KeyError
  {
    if startKey !in pad || endKey !in pad then Err(KeyError)
    else Ok(MovesBetween(pad[startKey], pad[endKey]) + "A")
  }

  predicate IsVertical(m: char) { m == '^' || m == 'v' }

  predicate IsHorizontal(m: char) { m == '<' || m == '>' }

  /** The characters of `c * n`: `n` times `c`. */
  lemma {:induction false} RepeatCount(c: char, n: nat)
    ensures multiset(Repeat(c, n)) == multiset{}[c := n]
    decreases n
  {
    if n > 0 {
      RepeatCount(c, n - 1);
      assert Repeat(c, n) == Repeat(c, n - 1) + [c];
    }
  }

  /**
   * The arrows hold `|Δrow|` vertical ones, all pointing towards the end
   * row, and `|Δcol|` horizontal ones towards the end column, and nothing
   * else.
   */
  lemma MovesCounts(from: Point, to: Point)
    ensures var m := MovesBetween(from, to);
      |m| == Abs(to.0 - from.0) + Abs(to.1 - from.1) &&
      multiset(m)['A'] == 0 &&
      multiset(m)[if to.0 < from.0 then '^' else 'v'] == Abs(to.0 - from.0) &&
      multiset(m)[if to.1 < from.1 then '<' else '>'] == Abs(to.1 - from.1)
  {
    var dRow, dCol := to.0 - from.0, to.1 - from.1;
    var x := if dCol < 0 then '<' else '>';
    var y := if dRow < 0 then '^' else 'v';
    var xs, ys := Repeat(x, Abs(dCol)), Repeat(y, Abs(dRow));
    TwoRepeats(x, Abs(dCol), y, Abs(dRow));
    if to.1 == 0 {
      assert MovesBetween(from, to) == ys + xs;
    } else {
      assert MovesBetween(from, to) == xs + ys;
    }
  }

  /** Two runs of different arrows, in either order: their counts, and no "A". */
  lemma TwoRepeats(x: char, nx: nat, y: char, ny: nat)
    requires x != y && x != 'A' && y != 'A'
    ensures var m := Repeat(x, nx) + Repeat(y, ny);
      multiset(Repeat(y, ny) + Repeat(x, nx)) == multiset(m) &&
      multiset(m)['A'] == 0 && multiset(m)[x] == nx && multiset(m)[y] == ny
  {
    RepeatCount(x, nx);
    RepeatCount(y, ny);
    assert multiset(Repeat(x, nx) + Repeat(y, ny)) == multiset(Repeat(x, nx)) + multiset(Repeat(y, ny));
    assert multiset(Repeat(y, ny) + Repeat(x, nx)) == multiset(Repeat(y, ny)) + multiset(Repeat(x, nx));
  }

  /** The arrows of `dpoint` are arrows only. */
  lemma MovesArrows(from: Point, to: Point)
    ensures var m := MovesBetween(from, to);
      forall i :: 0 <= i < |m| ==> IsVertical(m[i]) || IsHorizontal(m[i])
  {
  }

  /**
   * The result of `dpoint` is `|Δrow|` vertical and `|Δcol|` horizontal
   * arrows towards the end key, then its only "A".
   */
  lemma DPointCounts(startKey: char, endKey: char, pad: map<char, Point>)
    requires startKey in pad && endKey in pad
    ensures var r := DPoint(startKey, endKey, pad).value;
      var (from, to) := (pad[startKey], pad[endKey]);
      |r| == Abs(to.0 - from.0) + Abs(to.1 - from.1) + 1 &&
      r[|r| - 1] == 'A' &&
      multiset(r)['A'] == 1 &&
      multiset(r)[if to.0 < from.0 then '^' else 'v'] == Abs(to.0 - from.0) &&
      multiset(r)[if to.1 < from.1 then '<' else '>'] == Abs(to.1 - from.1) &&
      forall i :: 0 <= i < |r| - 1 ==> IsVertical(r[i]) || IsHorizontal(r[i])
  {
    var m := MovesBetween(pad[startKey], pad[endKey]);
    MovesCounts(pad[startKey], pad[endKey]);
    MovesArrows(pad[startKey], pad[endKey]);
    assert multiset(m + "A") == multiset(m) + multiset{'A'};
  }

  /**
   * The order of the arrows: vertical ones never follow a horizontal one
   * when the end key is in column 0, and horizontal ones never follow a
   * vertical one otherwise.
   */
  lemma DPointOrder(from: Point, to: Point)
    ensures var m := MovesBetween(from, to);
      (to.1 == 0 ==> forall i, j :: 0 <= i < j < |m| && IsHorizontal(m[i]) ==> !IsVertical(m[j])) &&
      (to.1 != 0 ==> forall i, j :: 0 <= i < j < |m| && IsVertical(m[i]) ==> !IsHorizontal(m[j]))
  {
  }

  /** From a key to itself `dpoint` presses only "A". */
  lemma DPointSameKey(k: char, pad: map<char, Point>)
    requires k in pad
    ensures DPoint(k, k, pad) == Ok("A")
  {
    assert MovesBetween(pad[k], pad[k]) == [];
    assert DPoint(k, k, pad).value == [] + "A" == "A";
  }

  // ----- a robot typing presses -----

  /** The key at `p`, for a keypad whose keys have places of their own. */
  ghost function KeyAt(pad: map<char, Point>, p: Point): (k: char)
    requires p in pad.Values
    ensures k in pad && pad[k] == p
  {
    var k :| k in pad && pad[k] == p; k
  }

  /** No two keys share a place. */
  ghost predicate Injective(pad: map<char, Point>)
  {
    forall k1, k2 :: k1 in pad && k2 in pad && pad[k1] == pad[k2] ==> k1 == k2
  }

  /**
   * A robot at `pos` on `pad` carrying out `presses`: an arrow moves it one
   * key (None when it would leave the keys, as over a gap), "A" types the
   * key under it. The result is the typed keys and where the robot stops.
   */
  ghost function Run(pad: map<char, Point>, pos: Point, presses: string): (r: Option<(string, Point)>)
    requires pos in pad.Values
    ensures r.Some? ==> r.value.1 in pad.Values
    decreases |presses|
  {
    if presses == [] then Some(("", pos))
    else if presses[0] == 'A' then
      match Run(pad, pos, presses[1..])
      case None => None
      case Some((typed, last)) => Some(([KeyAt(pad, pos)] + typed, last))
    else if IsMove(presses[0]) && Step(pos, presses[0]) in pad.Values then
      Run(pad, Step(pos, presses[0]), presses[1..])
    else None
  }

  /** Carrying out two runs of presses one after the other. */
  lemma {:induction false} RunAppend(pad: map<char, Point>, pos: Point, a: string, b: string)
    requires pos in pad.Values
    requires Run(pad, pos, a).Some? && Run(pad, Run(pad, pos, a).value.1, b).Some?
    ensures Run(pad, pos, a + b) ==
      Some((Run(pad, pos, a).value.0 + Run(pad, Run(pad, pos, a).value.1, b).value.0, Run(pad, Run(pad, pos, a).value.1, b).value.1))
    decreases |a|
  {
    if a != [] {
      assert (a + b)[0] == a[0] && (a + b)[1..] == a[1..] + b;
      if a[0] == 'A' {
        RunAppend(pad, pos, a[1..], b);
        var rest := Run(pad, pos, a[1..]).value;
        assert Run(pad, pos, a).value == ([KeyAt(pad, pos)] + rest.0, rest.1);
        var tail := Run(pad, rest.1, b).value;
        assert [KeyAt(pad, pos)] + (rest.0 + tail.0) == ([KeyAt(pad, pos)] + rest.0) + tail.0;
      } else {
        RunAppend(pad, Step(pos, a[0]), a[1..], b);
      }
    } else {
      assert a + b == b;
      assert Run(pad, pos, a) == Some(("", pos));
      assert "" + Run(pad, pos, b).value.0 == Run(pad, pos, b).value.0;
    }
  }

  /** Pressing "A" on a key types that key. */
  lemma RunPress(pad: map<char, Point>, k: char)
    requires Injective(pad) && k in pad
    ensures Run(pad, pad[k], "A") == Some(([k], pad[k]))
  {
    assert "A"[1..] == "";
    assert Run(pad, pad[k], "") == Some(("", pad[k]));
    assert KeyAt(pad, pad[k]) == k;
    assert [k] + "" == [k];
  }

  /** `k` steps in the direction of move `m`. */
  function Shift(p: Point, m: char, k: nat): Point
    decreases k
  {
    if k == 0 then p else Shift(Step(p, m), m, k - 1)
  }

  /** A straight run of one arrow over keys only: nothing typed, the robot `n` keys further on. */
  lemma {:induction false} RunLine(pad: map<char, Point>, pos: Point, m: char, n: nat)
    requires pos in pad.Values && IsMove(m)
    requires forall k :: 1 <= k <= n ==> Shift(pos, m, k) in pad.Values
    ensures Run(pad, pos, Repeat(m, n)) == Some(("", Shift(pos, m, n)))
    decreases n
  {
    if n > 0 {
      var next := Step(pos, m);
      assert Shift(pos, m, 1) == next;
      forall k | 1 <= k <= n - 1 ensures Shift(next, m, k) in pad.Values {
        assert Shift(pos, m, k + 1) == Shift(next, m, k);
      }
      RunLine(pad, next, m, n - 1);
      assert Repeat(m, n)[1..] == Repeat(m, n - 1);
    }
  }

  /** `k` steps in a direction, counted out. */
  lemma {:induction false} ShiftClosed(p: Point, m: char, k: nat)
    ensures Shift(p, m, k) == (p.0 + k * Delta(m).0, p.1 + k * Delta(m).1)
    decreases k
  {
    if k > 0 {
      ShiftClosed(Step(p, m), m, k - 1);
    }
  }

  /**
   * The keys of a keypad laid out as a grid of `rows` rows and three
   * columns, with a gap in column 0 of its first or last row.
   */
  ghost predicate GapPad(keys: set<Point>, rows: int, gap: int)
  {
    (gap == 0 || gap == rows - 1) && 0 <= gap < rows &&
    forall p :: p in keys <==> 0 <= p.0 < rows && 0 <= p.1 < 3 && p != (gap, 0)
  }

  lemma NumericShape()
    ensures GapPad(NumericKeypad.Values, 4, 3)
  {
    forall p: Point | 0 <= p.0 < 4 && 0 <= p.1 < 3 && p != (3, 0) ensures p in NumericKeypad.Values {
      assert NumericKeypad[NumericKeyAt(p)] == p;
    }
  }

  lemma ArrowShape()
    ensures GapPad(ArrowKeypad.Values, 2, 0)
  {
    forall p: Point | 0 <= p.0 < 2 && 0 <= p.1 < 3 && p != (0, 0) ensures p in ArrowKeypad.Values {
      assert ArrowKeypad[ArrowKeyAt(p)] == p;
    }
  }

  /** The key of the numeric keypad at a place, read off its rows. */
  function NumericKeyAt(p: Point): char
  {
    if p == (3, 1) then '0' else if p == (3, 2) then 'A'
    else if p == (2, 0) then '1' else if p == (2, 1) then '2' else if p == (2, 2) then '3'
    else if p == (1, 0) then '4' else if p == (1, 1) then '5' else if p == (1, 2) then '6'
    else if p == (0, 0) then '7' else if p == (0, 1) then '8' else '9'
  }

  /** The key of the arrow keypad at a place, read off its rows. */
  function ArrowKeyAt(p: Point): char
  {
    if p == (0, 1) then '^' else if p == (0, 2) then 'A'
    else if p == (1, 0) then '<' else if p == (1, 1) then 'v' else '>'
  }

  /** Both keypads give every key a place of its own. */
  lemma KeypadsInjective()
    ensures Injective(NumericKeypad) && Injective(ArrowKeypad)
  {
    assert forall k :: k in NumericKeypad ==> NumericKeyAt(NumericKeypad[k]) == k;
    assert forall k :: k in ArrowKeypad ==> ArrowKeyAt(ArrowKeypad[k]) == k;
  }

  /** A vertical leg from `from` to `to` in one column passes keys only. */
  lemma VerticalLeg(keys: set<Point>, rows: int, gap: int, from: Point, to: Point, m: char, n: nat)
    requires GapPad(keys, rows, gap) && from in keys && to in keys && from.1 == to.1
    requires n == Abs(to.0 - from.0) && m == (if to.0 < from.0 then '^' else 'v')
    ensures forall k :: 1 <= k <= n ==> Shift(from, m, k) in keys
    ensures Shift(from, m, n) == to
  {
    assert Delta(m) == if to.0 < from.0 then (-1, 0) else (1, 0);
    forall k | 1 <= k <= n ensures Shift(from, m, k) in keys {
      ShiftClosed(from, m, k);
    }
    ShiftClosed(from, m, n);
  }

  /** A horizontal leg from `from` to `to` in one row passes keys only. */
  lemma HorizontalLeg(keys: set<Point>, rows: int, gap: int, from: Point, to: Point, m: char, n: nat)
    requires GapPad(keys, rows, gap) && from in keys && to in keys && from.0 == to.0
    requires n == Abs(to.1 - from.1) && m == (if to.1 < from.1 then '<' else '>')
    ensures forall k :: 1 <= k <= n ==> Shift(from, m, k) in keys
    ensures Shift(from, m, n) == to
  {
    assert Delta(m) == if to.1 < from.1 then (0, -1) else (0, 1);
    forall k | 1 <= k <= n ensures Shift(from, m, k) in keys {
      ShiftClosed(from, m, k);
    }
    ShiftClosed(from, m, n);
  }

  /** One straight leg of `dpoint`: the robot walks it over keys and types nothing. */
  lemma Leg(pad: map<char, Point>, rows: int, gap: int, from: Point, to: Point, m: char, n: nat)
    requires GapPad(pad.Values, rows, gap) && from in pad.Values && to in pad.Values
    requires (from.1 == to.1 && n == Abs(to.0 - from.0) && m == (if to.0 < from.0 then '^' else 'v')) ||
             (from.0 == to.0 && n == Abs(to.1 - from.1) && m == (if to.1 < from.1 then '<' else '>'))
    ensures Run(pad, from, Repeat(m, n)) == Some(("", to))
  {
    if from.1 == to.1 && n == Abs(to.0 - from.0) && m == (if to.0 < from.0 then '^' else 'v') {
      VerticalLeg(pad.Values, rows, gap, from, to, m, n);
    } else {
      HorizontalLeg(pad.Values, rows, gap, from, to, m, n);
    }
    RunLine(pad, from, m, n);
  }

  /**
   * On either keypad the arrows of `dpoint` lead from the start key to the
   * end key without passing the gap, and its "A" types the end key.
   */
  lemma DPointTypes(pad: map<char, Point>, rows: int, gap: int, startKey: char, endKey: char)
    requires GapPad(pad.Values, rows, gap) && Injective(pad)
    requires startKey in pad && endKey in pad
    ensures Run(pad, pad[startKey], DPoint(startKey, endKey, pad).value) == Some(([endKey], pad[endKey]))
  {
    var (from, to) := (pad[startKey], pad[endKey]);
    var dRow, dCol := to.0 - from.0, to.1 - from.1;
    var x := if dCol < 0 then '<' else '>';
    var y := if dRow < 0 then '^' else 'v';
    var xs, ys := Repeat(x, Abs(dCol)), Repeat(y, Abs(dRow));
    RunPress(pad, endKey);
    if to.1 == 0 {
      var corner := (to.0, from.1);
      assert corner in pad.Values;
      Leg(pad, rows, gap, from, corner, y, Abs(dRow));
      assert Run(pad, from, ys) == Some(("", corner));
      Leg(pad, rows, gap, corner, to, x, Abs(dCol));
      assert Run(pad, corner, xs) == Some(("", to));
      RunAppend(pad, from, ys, xs);
      assert Run(pad, from, ys).value.1 == corner;
      assert Run(pad, from, ys + xs).value.0 == "" + "" == "";
      assert Run(pad, from, ys + xs) == Some(("", to));
      RunAppend(pad, from, ys + xs, "A");
      assert Run(pad, from, ys + xs + "A").value.0 == "" + [endKey] == [endKey];
      assert MovesBetween(from, to) == ys + xs;
    } else {
      var corner := (from.0, to.1);
      assert corner in pad.Values;
      Leg(pad, rows, gap, from, corner, x, Abs(dCol));
      assert Run(pad, from, xs) == Some(("", corner));
      Leg(pad, rows, gap, corner, to, y, Abs(dRow));
      assert Run(pad, corner, ys) == Some(("", to));
      RunAppend(pad, from, xs, ys);
      assert Run(pad, from, xs).value.1 == corner;
      assert Run(pad, from, xs + ys).value.0 == "" + "" == "";
      assert Run(pad, from, xs + ys) == Some(("", to));
      RunAppend(pad, from, xs + ys, "A");
      assert Run(pad, from, xs + ys + "A").value.0 == "" + [endKey] == [endKey];
      assert MovesBetween(from, to) == xs + ys;
    }
  }

  // ----- process_doorcode -----

  /**
   * `"".join(dpoint(start, end, keypad) for start, end in zip(prev + code, code))`:
   * the presses for `code` when the robot starts on key `prev`.
   */
  function PressesFrom(prev: char, code: string, pad: map<char, Point>): (r: Result<string>)
    ensures r.Err? ==> r.error == KeyError
    decreases |code|
  {
    if code == [] then Ok("")
    else
      match DPoint(prev, code[0], pad)
      case Err(e) => Err(e)
      case Ok(first) =>
        match PressesFrom(code[0], code[1..], pad)
        case Err(e) => Err(e)
        case Ok(rest) => Ok(first + rest)
  }

  /** A layer of `process_doorcode`: the robot starts on "A". */
  function Presses(code: string, pad: map<char, Point>): (r: Result<string>)
    ensures r.Err? ==> r.error == KeyError
  {
    PressesFrom('A', code, pad)
  }

  /** The presses succeed exactly when every key is on the keypad. */
  lemma {:induction false} PressesFromOk(prev: char, code: string, pad: map<char, Point>)
    requires prev in pad
    ensures PressesFrom(prev, code, pad).Ok? <==> AllKeys(code, pad)
    decreases |code|
  {
    if code != [] {
      assert forall i :: 0 <= i < |code| - 1 ==> code[1..][i] == code[i + 1];
      if code[0] in pad {
        PressesFromOk(code[0], code[1..], pad);
      }
    }
  }

  /** The presses hold one "A" per key. */
  lemma {:induction false} PressesFromCountA(prev: char, code: string, pad: map<char, Point>)
    requires PressesFrom(prev, code, pad).Ok?
    ensures multiset(PressesFrom(prev, code, pad).value)['A'] == |code|
    decreases |code|
  {
    if code != [] {
      PressesFromCountA(code[0], code[1..], pad);
      DPointCounts(prev, code[0], pad);
      var first := DPoint(prev, code[0], pad).value;
      var rest := PressesFrom(code[0], code[1..], pad).value;
      assert PressesFrom(prev, code, pad).value == first + rest;
      assert multiset(first + rest) == multiset(first) + multiset(rest);
    }
  }

  /** The presses are keys of the arrow keypad only. */
  lemma {:induction false} PressesFromArrows(prev: char, code: string, pad: map<char, Point>)
    requires PressesFrom(prev, code, pad).Ok?
    ensures AllKeys(PressesFrom(prev, code, pad).value, ArrowKeypad)
    decreases |code|
  {
    if code != [] {
      PressesFromArrows(code[0], code[1..], pad);
      DPointCounts(prev, code[0], pad);
      var first := DPoint(prev, code[0], pad).value;
      var rest := PressesFrom(code[0], code[1..], pad).value;
      ArrowKeys(first);
      assert PressesFrom(prev, code, pad).value == first + rest;
      AllKeysAppend(first, rest, ArrowKeypad);
    }
  }

  lemma AllKeysAppend(a: string, b: string, pad: map<char, Point>)
    requires AllKeys(a, pad) && AllKeys(b, pad)
    ensures AllKeys(a + b, pad)
  {
    assert forall i :: |a| <= i < |a + b| ==> (a + b)[i] == b[i - |a|];
  }

  /** Arrows and a final "A" are keys of the arrow keypad. */
  lemma ArrowKeys(first: string)
    requires |first| > 0 && first[|first| - 1] == 'A'
    requires forall i :: 0 <= i < |first| - 1 ==> IsVertical(first[i]) || IsHorizontal(first[i])
    ensures AllKeys(first, ArrowKeypad)
  {
  }

  /** A robot on "A" that carries out the presses types the code back. */
  lemma {:induction false} PressesFromTypes(pad: map<char, Point>, rows: int, gap: int, prev: char, code: string)
    requires GapPad(pad.Values, rows, gap) && Injective(pad)
    requires prev in pad && PressesFrom(prev, code, pad).Ok?
    ensures Run(pad, pad[prev], PressesFrom(prev, code, pad).value).Some?
    ensures Run(pad, pad[prev], PressesFrom(prev, code, pad).value).value.0 == code
    decreases |code|
  {
    if code != [] {
      var first := DPoint(prev, code[0], pad).value;
      PressesFromTypes(pad, rows, gap, code[0], code[1..]);
      DPointTypes(pad, rows, gap, prev, code[0]);
      RunAppend(pad, pad[prev], first, PressesFrom(code[0], code[1..], pad).value);
      assert [code[0]] + code[1..] == code;
    }
  }

  /**
   * `process_doorcode(code)`: the presses on the numeric keypad, then the
   * presses that type those on an arrow keypad, then the presses that type
   * those.
   */
  function ProcessDoorcode(code: string): (r: Result<(string, string, string)>)
    ensures r.Err? ==> r.error == KeyError
  {
    match Presses(code, NumericKeypad)
    case Err(e) => Err(e)
    case Ok(robot1) =>
      match Presses(robot1, ArrowKeypad)
      case Err(e) => Err(e)
      case Ok(robot2) =>
        match Presses(robot2, ArrowKeypad)
        case Err(e) => Err(e)
        case Ok(mine) => Ok((robot1, robot2, mine))
  }

  /**
   * `process_doorcode` fails only on a key off the numeric keypad. Each
   * layer holds one "A" per key of the layer before it, and a robot
   * starting on "A" that carries out a layer types the layer before it.
   */
  lemma ProcessDoorcodeSpec(code: string)
    ensures ProcessDoorcode(code).Ok? <==> AllKeys(code, NumericKeypad)
    ensures ProcessDoorcode(code).Ok? ==>
      var (robot1, robot2, mine) := ProcessDoorcode(code).value;
      multiset(robot1)['A'] == |code| && multiset(robot2)['A'] == |robot1| && multiset(mine)['A'] == |robot2| &&
      Run(NumericKeypad, NumericKeypad['A'], robot1).Some? && Run(NumericKeypad, NumericKeypad['A'], robot1).value.0 == code &&
      Run(ArrowKeypad, ArrowKeypad['A'], robot2).Some? && Run(ArrowKeypad, ArrowKeypad['A'], robot2).value.0 == robot1 &&
      Run(ArrowKeypad, ArrowKeypad['A'], mine).Some? && Run(ArrowKeypad, ArrowKeypad['A'], mine).value.0 == robot2
  {
    NumericShape();
    ArrowShape();
    KeypadsInjective();
    PressesFromOk('A', code, NumericKeypad);
    if AllKeys(code, NumericKeypad) {
      var robot1 := Presses(code, NumericKeypad).value;
      PressesFromCountA('A', code, NumericKeypad);
      PressesFromArrows('A', code, NumericKeypad);
      PressesFromOk('A', robot1, ArrowKeypad);
      var robot2 := Presses(robot1, ArrowKeypad).value;
      PressesFromCountA('A', robot1, ArrowKeypad);
      PressesFromArrows('A', robot1, ArrowKeypad);
      PressesFromOk('A', robot2, ArrowKeypad);
      var mine := Presses(robot2, ArrowKeypad).value;
      PressesFromCountA('A', robot2, ArrowKeypad);
      PressesFromArrows('A', robot2, ArrowKeypad);
      PressesFromTypes(NumericKeypad, 4, 3, 'A', code);
      PressesFromTypes(ArrowKeypad, 2, 0, 'A', robot1);
      PressesFromTypes(ArrowKeypad, 2, 0, 'A', robot2);
    }
  }
}
