/**
 * src/aoc/yr_2024/day_21/scratch.py: an earlier draft of the day 21
 * search. Its keypads, `bfs_shortest_paths`, `stringify_paths`,
 * `keep_min_len_strings`, `flatten_remove_dupes` and `complexity_2` are the
 * same code as in src/aoc/yr_2024/day_21/puzzle.py and are modelled once,
 * in Day21. This module adds `proc_doorcode_1`, which lets one more robot
 * type every layer of presses it is given, and the counting facts the
 * draft relies on.
 */
module Day21Scratch {
  import opened Common
  import opened Day21

  // ----- stringify_paths: how many layers -----

  /** The product of the list sizes. */
  function ProductSize(lists: seq<seq<string>>): nat
    decreases |lists|
  {
    if lists == [] then 1 else |lists[0]| * ProductSize(lists[1..])
  }

  /** `stringify_paths` makes one layer for each way of choosing one path per press. */
  lemma {:induction false} StringifyCount(lists: seq<seq<string>>)
    ensures |StringifyPaths(lists)| == ProductSize(lists)
    decreases |lists|
  {
    if lists != [] {
      StringifyCount(lists[1..]);
    }
  }

  // ----- proc_doorcode_1 -----

  /**
   * `s` makes a robot at the arrow keypad press the keys of `code`: for
   * each key a path over the keys from the key before it, every path
   * followed by "A".
   */
  ghost predicate TypesOnArrows(s: string, code: string)
  {
    AllKeys(code, ArrowKeypad) &&
    exists c :: |c| == |code| &&
      (forall i :: 0 <= i < |code| ==> IsPadPath(ArrowKeypad.Values, ArrowKeypad[FromKey(code, i)], ArrowKeypad[code[i]], c[i])) &&
      s == JoinA(c) + "A"
  }

  /** Every layer `stringify_paths` builds from the paths of each press types the code. */
  lemma StringifyTypes(code: string, buttons: seq<seq<string>>, t: string)
    requires PressPaths(code, ArrowKeypad, buttons)
    requires t in StringifyPaths(buttons)
    ensures TypesOnArrows(t, code)
  {
    StringifyMeans(buttons, t);
    var c :| IsChoice(c, buttons) && t == JoinA(c) + "A";
    assert forall i :: 0 <= i < |code| ==> c[i] in buttons[i];
  }

  /**
   * One code of `proc_doorcode_1`: its presses' shortest paths on the arrow
   * keypad, stringified into whole layers.
   */
  method Layers(code: string, fuel: nat) returns (r: Result<seq<string>>)
    ensures r.Err? <==> !AllKeys(code, ArrowKeypad)
    ensures r.Err? ==> r.error == KeyError
    ensures r.Ok? ==> forall t :: t in r.value ==> TypesOnArrows(t, code)
  {
    KeypadNames();
    var buttons := KeyPaths(code, "arrow", fuel);
    if buttons.Err? {
      return Err(buttons.error);
    }
    forall t | t in StringifyPaths(buttons.value) ensures TypesOnArrows(t, code) {
      StringifyTypes(code, buttons.value, t);
    }
    return Ok(StringifyPaths(buttons.value));
  }

  /** Each code so far is on the arrow keypad and each of its layers types it. */
  ghost predicate AllTyped(codes: seq<string>, layers: seq<seq<string>>)
  {
    |layers| == |codes| &&
    forall k :: 0 <= k < |codes| ==> AllKeys(codes[k], ArrowKeypad) && forall t :: t in layers[k] ==> TypesOnArrows(t, codes[k])
  }

  lemma AllTypedSnoc(prevPaths: seq<string>, j: nat, layers: seq<seq<string>>, next: seq<string>)
    requires j < |prevPaths| && AllTyped(prevPaths[..j], layers)
    requires AllKeys(prevPaths[j], ArrowKeypad) && forall t :: t in next ==> TypesOnArrows(t, prevPaths[j])
    ensures AllTyped(prevPaths[..j + 1], layers + [next])
  {
    assert prevPaths[..j + 1] == prevPaths[..j] + [prevPaths[j]];
  }

  /**
   * `proc_doorcode_1(prev_robot_paths)`: every layer that types one of the
   * given codes on the arrow keypad (`candidates`, without repeats), of
   * which only the shortest are kept. A key off the arrow keypad is KeyError;
   * no candidate at all (no codes given) is ValueError from `min`.
   */
  method ProcDoorcode1(prevPaths: seq<string>, fuel: nat) returns (r: Result<seq<string>>, ghost candidates: seq<string>)
    ensures r.Err? ==> r.error in {KeyError, ValueError}
    ensures r.Err? && r.error == KeyError <==> exists j :: 0 <= j < |prevPaths| && !AllKeys(prevPaths[j], ArrowKeypad)
    ensures r.Err? && r.error == ValueError <==> r != Err(KeyError) && candidates == []
    ensures prevPaths == [] ==> r == Err(ValueError)
    ensures forall t :: t in candidates ==> exists j :: 0 <= j < |prevPaths| && TypesOnArrows(t, prevPaths[j])
    ensures r.Ok? ==> Distinct(r.value) && forall s :: s in r.value <==> IsShortestIn(s, candidates)
  {
    var nextRobotPaths: seq<seq<string>> := [];
    for j := 0 to |prevPaths|
      invariant AllTyped(prevPaths[..j], nextRobotPaths)
    {
      var layers := Layers(prevPaths[j], fuel);
      if layers.Err? {
        return Err(KeyError), [];
      }
      AllTypedSnoc(prevPaths, j, nextRobotPaths, layers.value);
      nextRobotPaths := nextRobotPaths + [layers.value];
    }
    assert prevPaths[..|prevPaths|] == prevPaths;
    var flattened := FlattenRemoveDupes(nextRobotPaths);
    candidates := flattened;
    r := KeepMinLenStrings(flattened);
    if r.Ok? {
      KeepMinLenMeans(flattened);
      KeepLenDistinct(flattened, MinLen(flattened));
    }
  }

  // ----- complexity_2 -----

  /** `n` copies of "A". */
  function As(n: nat): (s: string)
    ensures |s| == n && forall i :: 0 <= i < n ==> s[i] == 'A'
  {
    seq(n, _ => 'A')
  }

  /** `rstrip("A")` removes every trailing "A" and nothing of the digits. */
  lemma {:induction false} StripAs(digits: string, n: nat)
    requires |digits| > 0 && AllDigits(digits)
    ensures RStrip(digits + As(n), 'A') == digits
    decreases n
  {
    var code := digits + As(n);
    if n == 0 {
      assert code == digits;
      assert IsDigit(digits[|digits| - 1]);
    } else {
      assert code[..|code| - 1] == digits + As(n - 1);
      StripAs(digits, n - 1);
    }
  }

  /** The complexity of digits followed by any number of A's: the number times the length. */
  lemma Complexity2TrailingAs(digits: string, n: nat, pathLen: int)
    requires |digits| > 0 && AllDigits(digits)
    ensures Complexity2(digits + As(n), pathLen) == Ok(DecimalValue(digits) * pathLen)
  {
    StripAs(digits, n);
    PyIntOfDigits(digits);
  }
}
