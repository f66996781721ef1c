/**
 * src/aoc/yr_2024/day_21/puzzle.py: a chain of robots types a door code.
 * Each robot stands at a keypad and is steered by the arrow keypad of the
 * next one. The file searches every shortest move string between two keys
 * (a breadth-first search that never enters the gap), joins one move
 * string per key press into a whole layer of presses, and keeps only the
 * shortest layers.
 */
module Day21 {
  import opened Common

  // ----- keypads and moves -----

  /** `numeric_keypad`: each key at (row, column); the gap at (3, 0) is no key. */
  const NumericKeypad: map<char, Point> :=
    map['0' := (3, 1), 'A' := (3, 2), '1' := (2, 0), '2' := (2, 1), '3' := (2, 2),
        '4' := (1, 0), '5' := (1, 1), '6' := (1, 2), '7' := (0, 0), '8' := (0, 1), '9' := (0, 2)]

  /** `arrow_keypad`: the gap at (0, 0) is no key. */
  const ArrowKeypad: map<char, Point> :=
    map['^' := (0, 1), 'A' := (0, 2), '<' := (1, 0), 'v' := (1, 1), '>' := (1, 2)]

  /** `numeric_keypad if keypad_name == "numeric" else arrow_keypad`. */
  function KeypadNamed(name: string): (pad: map<char, Point>)
    ensures name == "numeric" ==> pad == NumericKeypad
    ensures name != "numeric" ==> pad == ArrowKeypad
  {
    if name == "numeric" then NumericKeypad else ArrowKeypad
  }

  /** The names the code passes: "arrows" in `recursive_bfs_process` picks the arrow keypad too. */
  lemma KeypadNames()
    ensures KeypadNamed("numeric") == NumericKeypad
    ensures KeypadNamed("arrow") == ArrowKeypad
    ensures KeypadNamed("arrows") == ArrowKeypad
  {
    assert "arrow"[0] != "numeric"[0];
    assert "arrows"[0] != "numeric"[0];
  }

  /** Neither gap is the place of a key. */
  lemma GapsAreNoKeys()
    ensures (3, 0) !in NumericKeypad.Values
    ensures (0, 0) !in ArrowKeypad.Values
  {
  }

  /** The four moves of the `directions` dict, in its order. */
  const Moves: string := "^>v<"

  predicate IsMove(m: char)
  {
    m in Moves
  }

  /** The row and column change of a move. */
  function Delta(m: char): Point
  {
    if m == '^' then (-1, 0)
    else if m == '>' then (0, 1)
    else if m == 'v' then (1, 0)
    else if m == '<' then (0, -1)
    else (0, 0)
  }

  function Step(p: Point, m: char): Point
  {
    (p.0 + Delta(m).0, p.1 + Delta(m).1)
  }

  /** Where the moves of `path` lead from `p`. */
  function Walk(p: Point, path: string): Point
    decreases |path|
  {
    if path == [] then p else Step(Walk(p, path[..|path| - 1]), path[|path| - 1])
  }

  /** `p` and every place on the way along `path` lie in `bounds`. */
  ghost predicate StaysOn(bounds: set<Point>, p: Point, path: string)
    decreases |path|
  {
    p in bounds && (path == [] || (StaysOn(bounds, p, path[..|path| - 1]) && Walk(p, path) in bounds))
  }

  /** `path` is made of moves and walks from `from` to `to` over the keys in `bounds` only. */
  ghost predicate IsPadPath(bounds: set<Point>, from: Point, to: Point, path: string)
  {
    (forall i :: 0 <= i < |path| ==> IsMove(path[i])) && Walk(from, path) == to && StaysOn(bounds, from, path)
  }

  /** One more move onto a key extends a path over the keys. */
  lemma PathExtend(bounds: set<Point>, from: Point, path: string, m: char)
    requires IsPadPath(bounds, from, Walk(from, path), path)
    requires IsMove(m) && Step(Walk(from, path), m) in bounds
    ensures IsPadPath(bounds, from, Step(Walk(from, path), m), path + [m])
  {
    assert (path + [m])[..|path|] == path;
  }

  /** A path of moves changes the place by at most its length in Manhattan distance. */
  lemma {:induction false} WalkDistance(from: Point, path: string)
    requires forall i :: 0 <= i < |path| ==> IsMove(path[i])
    ensures Abs(Walk(from, path).0 - from.0) + Abs(Walk(from, path).1 - from.1) <= |path|
    decreases |path|
  {
    if path != [] {
      var init := path[..|path| - 1];
      assert forall i :: 0 <= i < |init| ==> init[i] == path[i];
      WalkDistance(from, init);
    }
  }

  /** No path between two keys is shorter than their Manhattan distance. */
  lemma PadPathLength(bounds: set<Point>, from: Point, to: Point, path: string)
    requires IsPadPath(bounds, from, to, path)
    ensures |path| >= Abs(to.0 - from.0) + Abs(to.1 - from.1)
  {
    WalkDistance(from, path);
  }

  // ----- bfs_shortest_paths -----

  /** `min_length`, where `float("inf")` is None. */
  function Longer(n: nat, minLength: Option<nat>): bool
  {
    minLength.Some? && n > minLength.value
  }

  /** Every queued `(place, path)` is a path over the keys from the start to that place. */
  ghost predicate QueueWalks(bounds: set<Point>, start: Point, queue: seq<(Point, string)>)
  {
    forall e :: e in queue ==> IsPadPath(bounds, start, e.0, e.1)
  }

  /** The paths found so far all reach the end over the keys and all have length `min_length`. */
  ghost predicate Shortest(bounds: set<Point>, start: Point, end: Point, found: seq<string>, minLength: Option<nat>)
  {
    (found != [] ==> minLength.Some?) &&
    forall p :: p in found ==> IsPadPath(bounds, start, end, p) && |p| == minLength.value
  }

  /**
   * `bfs_shortest_paths(start_str, end_str, keypad_name)`: a breadth-first
   * search from the start key that keeps every path reaching the end key at
   * the first length it is reached with. An unknown key is KeyError. At most
   * `fuel` entries are taken from the queue.
   */
  method BfsShortestPaths(startKey: char, endKey: char, keypadName: string, fuel: nat)
    returns (r: Result<seq<string>>)
    ensures r.Err? <==> startKey !in KeypadNamed(keypadName) || endKey !in KeypadNamed(keypadName)
    ensures r.Err? ==> r.error == KeyError
    ensures r.Ok? ==> var pad := KeypadNamed(keypadName);
      forall p :: p in r.value ==> IsPadPath(pad.Values, pad[startKey], pad[endKey], p)
    ensures r.Ok? ==> forall p, q :: p in r.value && q in r.value ==> |p| == |q|
    ensures r.Ok? && startKey == endKey && fuel > 0 ==> r.value == [""]
  {
    var pad := KeypadNamed(keypadName);
    if startKey !in pad || endKey !in pad {
      return Err(KeyError);
    }
    var start, end := pad[startKey], pad[endKey];
    var bounds := pad.Values;
    var queue: seq<(Point, string)> := [(start, "")];
    var visited: map<Point, nat> := map[];
    var shortestPaths: seq<string> := [];
    var minLength: Option<nat> := None;
    var left := fuel;
    assert IsPadPath(bounds, start, start, "");
    while queue != [] && left > 0
      invariant QueueWalks(bounds, start, queue)
      invariant Shortest(bounds, start, end, shortestPaths, minLength)
      invariant start == end ==>
        (queue == [(start, "")] && shortestPaths == [] && minLength == None && left == fuel) ||
        (queue == [] && shortestPaths == [""])
      decreases left
    {
      var current, path := queue[0].0, queue[0].1;
      assert queue[0] in queue;
      queue := queue[1..];
      left := left - 1;
      if Longer(|path|, minLength) {
        continue;
      }
      if current == end {
        if minLength.None? || |path| < minLength.value {
          minLength := Some(|path|);
          shortestPaths := [path];
        } else if |path| == minLength.value {
          shortestPaths := shortestPaths + [path];
        }
        continue;
      }
      queue, visited := Expand(bounds, start, current, path, queue, visited);
    }
    return Ok(shortestPaths);
  }

  /** The `for move, (drow, dcol) in directions.items()` loop of one queue entry. */
  method Expand(bounds: set<Point>, start: Point, current: Point, path: string,
                queue: seq<(Point, string)>, visited: map<Point, nat>)
    returns (queue': seq<(Point, string)>, visited': map<Point, nat>)
    requires IsPadPath(bounds, start, current, path)
    requires QueueWalks(bounds, start, queue)
    ensures QueueWalks(bounds, start, queue')
    ensures queue <= queue'
  {
    queue', visited' := queue, visited;
    for i := 0 to |Moves|
      invariant QueueWalks(bounds, start, queue')
      invariant queue <= queue'
    {
      var move := Moves[i];
      var nextPos := Step(current, move);
      if nextPos in bounds {
        var nextPath := path + [move];
        var distance := |nextPath|;
        if nextPos !in visited' || distance <= visited'[nextPos] {
          visited' := visited'[nextPos := distance];
          PathExtend(bounds, start, path, move);
          queue' := queue' + [(nextPos, nextPath)];
        }
      }
    }
  }

  // ----- stringify_paths -----

  /** `itertools.product(*lists)`: the first list varies slowest. */
  function Product(lists: seq<seq<string>>): seq<seq<string>>
    decreases |lists|
  {
    if lists == [] then [[]] else Prepend(lists[0], Product(lists[1..]))
  }

  /** Each of `xs` in turn put in front of every one of `rest`. */
  function Prepend(xs: seq<string>, rest: seq<seq<string>>): (r: seq<seq<string>>)
    ensures |r| == |xs| * |rest|
    ensures forall c :: c in r <==> |c| > 0 && c[0] in xs && c[1..] in rest
  {
    if xs == [] then []
    else
      var first := seq(|rest|, j requires 0 <= j < |rest| => [xs[0]] + rest[j]);
      assert forall c :: c in first <==> |c| > 0 && c[0] == xs[0] && c[1..] in rest by {
        forall c | |c| > 0 && c[0] == xs[0] && c[1..] in rest ensures c in first {
          var j :| 0 <= j < |rest| && rest[j] == c[1..];
          assert first[j] == c;
        }
      }
      var more := Prepend(xs[1..], rest);
      assert |xs| * |rest| == |rest| + (|xs| - 1) * |rest|;
      first + more
  }

  /** One entry of each list, in order. */
  ghost predicate IsChoice(c: seq<string>, lists: seq<seq<string>>)
  {
    |c| == |lists| && forall i :: 0 <= i < |c| ==> c[i] in lists[i]
  }

  /** The product holds exactly the choices of one entry from each list. */
  lemma {:induction false} ProductChoices(lists: seq<seq<string>>, c: seq<string>)
    ensures c in Product(lists) <==> IsChoice(c, lists)
    decreases |lists|
  {
    if lists == [] {
    } else if |c| > 0 {
      ProductChoices(lists[1..], c[1..]);
      if IsChoice(c, lists) {
        assert IsChoice(c[1..], lists[1..]);
      }
      if c[0] in lists[0] && IsChoice(c[1..], lists[1..]) {
        assert forall i :: 1 <= i < |c| ==> c[i] == c[1..][i - 1];
      }
    }
  }

  /** `"A".join(pieces)`, which is "" for no pieces. */
  function JoinA(pieces: seq<string>): string
  {
    if pieces == [] then "" else Join(pieces, "A")
  }

  /** `stringify_paths`: `"A".join(choice) + "A"` for each choice of the product. */
  function StringifyPaths(lists: seq<seq<string>>): (r: seq<string>)
    ensures |r| == |Product(lists)|
  {
    var choices := Product(lists);
    seq(|choices|, i requires 0 <= i < |choices| => JoinA(choices[i]) + "A")
  }

  /** A layer of presses: one path per key joined by "A", and a final "A". */
  lemma StringifyMeans(lists: seq<seq<string>>, s: string)
    ensures s in StringifyPaths(lists) <==> exists c :: IsChoice(c, lists) && s == JoinA(c) + "A"
  {
    var choices := Product(lists);
    if s in StringifyPaths(lists) {
      var i :| 0 <= i < |choices| && StringifyPaths(lists)[i] == s;
      ProductChoices(lists, choices[i]);
    }
    if exists c :: IsChoice(c, lists) && s == JoinA(c) + "A" {
      var c :| IsChoice(c, lists) && s == JoinA(c) + "A";
      ProductChoices(lists, c);
      var i :| 0 <= i < |choices| && choices[i] == c;
      assert StringifyPaths(lists)[i] == s;
    }
  }

  // ----- keep_min_len_strings -----

  /** `min(len(s) for s in strings)`. */
  function MinLen(strings: seq<string>): (n: nat)
    requires strings != []
    ensures forall s :: s in strings ==> n <= |s|
    ensures exists s :: s in strings && |s| == n
  {
    if |strings| == 1 then |strings[0]|
    else
      var rest := MinLen(strings[1..]);
      assert forall s :: s in strings[1..] ==> s in strings;
      if |strings[0]| <= rest then |strings[0]| else rest
  }

  /** `[s for s in strings if len(s) == n]`. */
  function KeepLen(strings: seq<string>, n: nat): (r: seq<string>)
    ensures forall s :: s in r ==> |s| == n
  {
    if strings == [] then []
    else (if |strings[0]| == n then [strings[0]] else []) + KeepLen(strings[1..], n)
  }

  /** A length filter keeps every string of that length as often as it occurs, and nothing else. */
  lemma {:induction false} KeepLenCounts(strings: seq<string>, n: nat, s: string)
    ensures multiset(KeepLen(strings, n))[s] == if |s| == n then multiset(strings)[s] else 0
  {
    if strings != [] {
      KeepLenCounts(strings[1..], n, s);
      assert strings == [strings[0]] + strings[1..];
    }
  }

  /** `s` is one of `strings` and none of them is shorter. */
  ghost predicate IsShortestIn(s: string, strings: seq<string>)
  {
    s in strings && forall t :: t in strings ==> |s| <= |t|
  }

  /** Filtering a list without repeats leaves a list without repeats. */
  lemma {:induction false} KeepLenDistinct(strings: seq<string>, n: nat)
    requires Distinct(strings)
    ensures Distinct(KeepLen(strings, n))
    ensures forall s :: s in KeepLen(strings, n) ==> s in strings
  {
    if strings != [] {
      var rest := strings[1..];
      assert Distinct(rest) by {
        forall i, j | 0 <= i < j < |rest| ensures rest[i] != rest[j] {
          assert rest[i] == strings[i + 1] && rest[j] == strings[j + 1];
        }
      }
      KeepLenDistinct(rest, n);
      assert strings[0] !in rest by {
        forall i | 0 <= i < |rest| ensures rest[i] != strings[0] {
          assert rest[i] == strings[i + 1];
        }
      }
    }
  }

  /** `keep_min_len_strings`: `min` of no lengths is ValueError. */
  function KeepMinLenStrings(strings: seq<string>): (r: Result<seq<string>>)
    ensures r.Err? <==> strings == []
    ensures r.Err? ==> r.error == ValueError
  {
    if strings == [] then Err(ValueError) else Ok(KeepLen(strings, MinLen(strings)))
  }

  /**
   * The kept strings are exactly the shortest ones, each as often as it
   * occurs; there is at least one, and none of the input is shorter.
   */
  lemma KeepMinLenMeans(strings: seq<string>)
    requires strings != []
    ensures var r := KeepMinLenStrings(strings).value;
      r != [] &&
      (forall s :: s in r <==> IsShortestIn(s, strings)) &&
      (forall s :: s in r ==> multiset(r)[s] == multiset(strings)[s])
  {
    var n := MinLen(strings);
    var r := KeepLen(strings, n);
    var w :| w in strings && |w| == n;
    KeepLenCounts(strings, n, w);
    forall s ensures s in r <==> IsShortestIn(s, strings) {
      KeepLenCounts(strings, n, s);
    }
    forall s | s in r ensures multiset(r)[s] == multiset(strings)[s] {
      KeepLenCounts(strings, n, s);
    }
  }

  // ----- flatten_remove_dupes -----

  /**
   * `list({item for sublist in nested_list for item in sublist})`: every
   * distinct item once. A Python set has no order of its own; any order may
   * come out.
   */
  method FlattenRemoveDupes<T(==)>(nested: seq<seq<T>>) returns (r: seq<T>)
    ensures Distinct(r)
    ensures forall x :: x in r <==> exists i :: 0 <= i < |nested| && x in nested[i]
    ensures forall x :: x in r ==> multiset(r)[x] == 1
  {
    var items := Elems(Flatten(nested));
    r := [];
    while items != {}
      invariant Distinct(r)
      invariant forall x :: x in r ==> x !in items
      invariant forall x :: x in r || x in items <==> x in Flatten(nested)
      decreases |items|
    {
      var x :| x in items;
      r := r + [x];
      items := items - {x};
    }
    forall x ensures x in r <==> exists i :: 0 <= i < |nested| && x in nested[i] {
      FlattenMembership(nested, x);
    }
    forall x | x in r ensures multiset(r)[x] == 1 {
      DistinctCountsAtMostOne(r, x);
    }
  }

  // ----- filter_shortest_paths -----

  /** One inner list of `filter_shortest_paths`: its shortest paths with "A" added; [] for []. */
  function ShortestWithA(paths: seq<string>): seq<string>
  {
    if paths == [] then [] else Suffixed(KeepLen(paths, MinLen(paths)))
  }

  /** The entries are the shortest paths, each followed by "A". */
  lemma ShortestWithAMeans(paths: seq<string>, s: string)
    ensures s in ShortestWithA(paths) <==> exists p :: IsShortestIn(p, paths) && s == p + "A"
    ensures paths != [] ==> ShortestWithA(paths) == Suffixed(KeepMinLenStrings(paths).value)
  {
    if paths != [] {
      KeepMinLenMeans(paths);
      var kept := KeepMinLenStrings(paths).value;
      if exists p :: IsShortestIn(p, paths) && s == p + "A" {
        var p :| IsShortestIn(p, paths) && s == p + "A";
        var i :| 0 <= i < |kept| && kept[i] == p;
        assert ShortestWithA(paths)[i] == s;
      }
    }
  }

  /** `filter_shortest_paths`: the loop over the inner lists. */
  method FilterShortestPaths(buttons: seq<seq<string>>) returns (filtered: seq<seq<string>>)
    ensures FilteredAs(filtered, buttons)
  {
    filtered := [];
    for k := 0 to |buttons|
      invariant FilteredAs(filtered, buttons[..k])
    {
      var paths := buttons[k];
      var shortest: seq<string>;
      if paths == [] {
        shortest := [];
      } else {
        var minLength := MinLen(paths);
        shortest := Suffixed(KeepLen(paths, minLength));
      }
      assert shortest == ShortestWithA(buttons[k]);
      FilteredSnoc(filtered, buttons, k, shortest);
      filtered := filtered + [shortest];
    }
    assert buttons[..|buttons|] == buttons;
  }

  /** Entry by entry, `filtered` holds what `filter_shortest_paths` makes of `buttons`. */
  ghost predicate FilteredAs(filtered: seq<seq<string>>, buttons: seq<seq<string>>)
  {
    |filtered| == |buttons| && forall i :: 0 <= i < |buttons| ==> filtered[i] == ShortestWithA(buttons[i])
  }

  lemma FilteredSnoc(filtered: seq<seq<string>>, buttons: seq<seq<string>>, k: nat, shortest: seq<string>)
    requires k < |buttons| && FilteredAs(filtered, buttons[..k])
    requires shortest == ShortestWithA(buttons[k])
    ensures FilteredAs(filtered + [shortest], buttons[..k + 1])
  {
    assert buttons[..k + 1] == buttons[..k] + [buttons[k]];
  }

  /** `[path + "A" for path in ...]`. */
  function Suffixed(paths: seq<string>): (r: seq<string>)
    ensures |r| == |paths| && forall i :: 0 <= i < |paths| ==> r[i] == paths[i] + "A"
  {
    seq(|paths|, i requires 0 <= i < |paths| => paths[i] + "A")
  }

  // ----- complexity_2 -----

  /** `s.rstrip(c)`: every trailing `c` removed. */
  function RStrip(s: string, c: char): (r: string)
    ensures |r| <= |s| && r == s[..|r|]
    ensures r == [] || r[|r| - 1] != c
    ensures forall i :: |r| <= i < |s| ==> s[i] == c
  {
    if s != [] && s[|s| - 1] == c then RStrip(s[..|s| - 1], c) else s
  }

  /** `complexity_2(code, path_len)`: `int(code.rstrip("A")) * path_len`. */
  function Complexity2(code: string, pathLen: int): (r: Result<int>)
    ensures r.Err? ==> r.error == ValueError
  {
    match PyInt(RStrip(code, 'A'))
    case Err(e) => Err(e)
    case Ok(n) => Ok(n * pathLen)
  }

  /** For a door code of digits and a final "A": the number the digits spell, times the length. */
  lemma Complexity2OfCode(digits: string, pathLen: int)
    requires |digits| > 0 && AllDigits(digits)
    ensures Complexity2(digits + "A", pathLen) == Ok(DecimalValue(digits) * pathLen)
  {
    StripOneA(digits);
    PyIntOfDigits(digits);
  }

  lemma StripOneA(digits: string)
    requires |digits| > 0 && AllDigits(digits)
    ensures RStrip(digits + "A", 'A') == digits
  {
    var code := digits + "A";
    assert code[..|code| - 1] == digits;
    assert IsDigit(digits[|digits| - 1]);
  }

  /** `int()` of a run of digits is the number they spell. */
  lemma PyIntOfDigits(digits: string)
    requires |digits| > 0 && AllDigits(digits)
    ensures PyInt(digits) == Ok(DecimalValue(digits) as int)
  {
    assert IsDigit(digits[|digits| - 1]) && IsDigit(digits[0]);
  }

  /** A code with nothing before its trailing A's is ValueError. */
  lemma Complexity2OnlyA(pathLen: int)
    ensures Complexity2("AA", pathLen) == Err(ValueError)
  {
    assert RStrip("AA", 'A') == RStrip("A", 'A') == "";
  }

  // ----- bfs_process_code_str and recursive_bfs_process -----

  /** The key a press starts from: "A" for the first, then the key pressed before. */
  function FromKey(code: string, i: nat): char
    requires i < |code|
  {
    if i == 0 then 'A' else code[i - 1]
  }

  /** Every key of `code` is on the keypad. */
  predicate AllKeys(code: string, pad: map<char, Point>)
  {
    forall i :: 0 <= i < |code| ==> code[i] in pad
  }

  /** For each press of `code`, paths over `pad` from the key before it to the key pressed. */
  ghost predicate PressPaths(code: string, pad: map<char, Point>, buttons: seq<seq<string>>)
  {
    AllKeys(code, pad) && 'A' in pad && |buttons| == |code| &&
    forall j, p :: 0 <= j < |code| && p in buttons[j] ==> IsPadPath(pad.Values, pad[FromKey(code, j)], pad[code[j]], p)
  }

  /** Paths for the first `|buttons|` presses of `code`, of one length per press. */
  ghost predicate PathsSoFar(code: string, pad: map<char, Point>, buttons: seq<seq<string>>)
  {
    |buttons| <= |code| && 'A' in pad && AllKeys(code[..|buttons|], pad) &&
    (forall j, p :: 0 <= j < |buttons| && p in buttons[j] ==>
      FromKey(code, j) in pad && code[j] in pad && IsPadPath(pad.Values, pad[FromKey(code, j)], pad[code[j]], p)) &&
    forall j, p, q :: 0 <= j < |buttons| && p in buttons[j] && q in buttons[j] ==> |p| == |q|
  }

  lemma PathsSoFarSnoc(code: string, pad: map<char, Point>, buttons: seq<seq<string>>, paths: seq<string>)
    requires PathsSoFar(code, pad, buttons) && |buttons| < |code|
    requires FromKey(code, |buttons|) in pad && code[|buttons|] in pad
    requires forall p :: p in paths ==> IsPadPath(pad.Values, pad[FromKey(code, |buttons|)], pad[code[|buttons|]], p)
    requires forall p, q :: p in paths && q in paths ==> |p| == |q|
    ensures PathsSoFar(code, pad, buttons + [paths])
  {
    var i := |buttons|;
    assert forall j :: 0 <= j < i ==> code[..i + 1][j] == code[..i][j];
  }

  lemma PathsSoFarDone(code: string, pad: map<char, Point>, buttons: seq<seq<string>>)
    requires PathsSoFar(code, pad, buttons) && |buttons| == |code|
    ensures PressPaths(code, pad, buttons)
    ensures forall j, p, q :: 0 <= j < |code| && p in buttons[j] && q in buttons[j] ==> |p| == |q|
  {
    assert code[..|code|] == code;
  }

  /** A key that `bfs_shortest_paths` cannot find means a key of `code` off the keypad. */
  lemma PathsSoFarStuck(code: string, pad: map<char, Point>, buttons: seq<seq<string>>)
    requires PathsSoFar(code, pad, buttons) && |buttons| < |code|
    requires FromKey(code, |buttons|) !in pad || code[|buttons|] !in pad
    ensures !AllKeys(code, pad)
  {
    var i := |buttons|;
    assert i > 0 ==> code[i - 1] == code[..i][i - 1];
  }

  /**
   * `[bfs_shortest_paths(start, end, keypad_name) for start, end in zip("A" + code, code)]`:
   * the shortest paths for each press, KeyError at the first key not on the keypad.
   */
  method KeyPaths(code: string, keypadName: string, fuel: nat) returns (r: Result<seq<seq<string>>>)
    ensures r.Err? <==> !AllKeys(code, KeypadNamed(keypadName))
    ensures r.Err? ==> r.error == KeyError
    ensures r.Ok? ==> PressPaths(code, KeypadNamed(keypadName), r.value)
    ensures r.Ok? ==> forall j, p, q :: 0 <= j < |code| && p in r.value[j] && q in r.value[j] ==> |p| == |q|
  {
    var pad := KeypadNamed(keypadName);
    var buttons: seq<seq<string>> := [];
    for i := 0 to |code|
      invariant |buttons| == i
      invariant PathsSoFar(code, pad, buttons)
    {
      var paths := BfsShortestPaths(FromKey(code, i), code[i], keypadName, fuel);
      if paths.Err? {
        PathsSoFarStuck(code, pad, buttons);
        return Err(paths.error);
      }
      PathsSoFarSnoc(code, pad, buttons, paths.value);
      buttons := buttons + [paths.value];
    }
    PathsSoFarDone(code, pad, buttons);
    return Ok(buttons);
  }

  /**
   * `bfs_process_code_str(code, keypad_name)`: for each key press, from
   * the key before it (starting at "A"), the shortest paths with "A"
   * appended, as `filter_shortest_paths` leaves them.
   */
  method BfsProcessCodeStr(code: string, keypadName: string, fuel: nat) returns (r: Result<seq<seq<string>>>)
    ensures r.Err? <==> !AllKeys(code, KeypadNamed(keypadName))
    ensures r.Err? ==> r.error == KeyError
    ensures r.Ok? ==> |r.value| == |code|
    ensures r.Ok? ==> var pad := KeypadNamed(keypadName);
      forall i, s :: 0 <= i < |code| && s in r.value[i] ==>
        exists p :: IsPadPath(pad.Values, pad[FromKey(code, i)], pad[code[i]], p) && s == p + "A"
  {
    var pad := KeypadNamed(keypadName);
    var keyPaths := KeyPaths(code, keypadName, fuel);
    if keyPaths.Err? {
      return Err(keyPaths.error);
    }
    var buttons := keyPaths.value;
    var filtered := FilterShortestPaths(buttons);
    forall i, s | 0 <= i < |code| && s in filtered[i]
      ensures exists p :: IsPadPath(pad.Values, pad[FromKey(code, i)], pad[code[i]], p) && s == p + "A"
    {
      ShortestWithAMeans(buttons[i], s);
      var p :| IsShortestIn(p, buttons[i]) && s == p + "A";
    }
    return Ok(filtered);
  }

  /** The nested lists `recursive_bfs_process` returns: codes at the bottom, one level per iteration. */
  datatype Layers = Codes(codes: seq<string>) | Nested(items: seq<Layers>)

  /** `sub` lists moves over the named keypad for press `j` of `code`: a path from the key before it, then "A". */
  ghost predicate PressMoves(sub: seq<string>, code: string, j: nat, keypadName: string)
    requires j < |code|
  {
    var pad := KeypadNamed(keypadName);
    AllKeys(code, pad) &&
    forall s :: s in sub ==> exists p :: IsPadPath(pad.Values, pad[FromKey(code, j)], pad[code[j]], p) && s == p + "A"
  }

  /**
   * What `recursive_bfs_process` builds: with no iterations left, the codes
   * themselves; otherwise one item per press of the last code, each item
   * the layers built one iteration lower, on the arrow keypad, from a list
   * of moves for that press.
   */
  ghost predicate LayersOf(l: Layers, codes: seq<string>, keypadName: string, n: nat)
    decreases n, 0
  {
    if n == 0 then l == Codes(codes)
    else
      codes != [] && l.Nested? && |l.items| == |codes[|codes| - 1]| &&
      forall j :: 0 <= j < |l.items| ==> PressLayers(l.items[j], codes[|codes| - 1], j, keypadName, n - 1)
  }

  /** Item `j` of a layer: the layers below, built from some moves for press `j` of `code`. */
  ghost predicate PressLayers(item: Layers, code: string, j: nat, keypadName: string, n: nat)
    decreases n, 1
  {
    j < |code| && exists sub :: PressMoves(sub, code, j, keypadName) && LayersOf(item, sub, "arrows", n)
  }

  /**
   * `recursive_bfs_process(codes, keypad_name, num_iterations)`. With no
   * iterations left the codes come back as they are. Otherwise each code is
   * processed, but `paths` is rebuilt for every code, so only the last one's
   * result is returned, and an empty `codes` leaves `paths` unbound
   * (UnboundLocalError, a NameError).
   */
  method RecursiveBfsProcess(codes: seq<string>, keypadName: string, n: nat, fuel: nat) returns (r: Result<Layers>)
    ensures n == 0 ==> r == Ok(Codes(codes))
    ensures n > 0 && codes == [] ==> r == Err(NameError)
    ensures n > 0 && r.Ok? ==> r.value.Nested? && |r.value.items| == |codes[|codes| - 1]|
    ensures r.Err? ==> r.error in {NameError, KeyError}
    ensures r.Ok? ==> LayersOf(r.value, codes, keypadName, n)
    decreases n
  {
    if n == 0 {
      return Ok(Codes(codes));
    }
    var paths: seq<Layers> := [];
    for k := 0 to |codes|
      invariant k > 0 ==> |paths| == |codes[k - 1]|
      invariant k > 0 ==> forall j :: 0 <= j < |paths| ==> PressLayers(paths[j], codes[k - 1], j, keypadName, n - 1)
    {
      var raw := BfsProcessCodeStr(codes[k], keypadName, fuel);
      if raw.Err? {
        return Err(raw.error);
      }
      paths := [];
      for j := 0 to |raw.value|
        invariant |paths| == j
        invariant forall i :: 0 <= i < j ==> PressLayers(paths[i], codes[k], i, keypadName, n - 1)
      {
        var sub := RecursiveBfsProcess(raw.value[j], "arrows", n - 1, fuel);
        if sub.Err? {
          return Err(sub.error);
        }
        assert PressMoves(raw.value[j], codes[k], j, keypadName);
        paths := paths + [sub.value];
      }
    }
    if codes == [] {
      return Err(NameError);
    }
    return Ok(Nested(paths));
  }
}
