// The map base class of src/aoc/pyutils/puzzle_map.py: a list of text rows with
// its bounds, the guard's direction table, and single-character replacement.
module PuzzleMap {
  import opened Common

  /** The four headings, clockwise from north. */
  const Directions: seq<char> := ['^', '>', 'v', '<']
  const Obstacle: char := '#'

  /** `INCREMENTS`: the (row, col) step of each heading. */
  const Increments: map<char, Point> := map['^' := (-1, 0), '>' := (0, 1), 'v' := (1, 0), '<' := (0, -1)]

  /** Every heading has a unit step, the steps are distinct, and each heading's step is the previous one turned clockwise. */
  lemma IncrementsAreClockwiseUnitSteps()
    ensures forall d :: d in Directions <==> d in Increments
    ensures forall d :: d in Increments ==> Abs(Increments[d].0) + Abs(Increments[d].1) == 1
    ensures forall i, j :: 0 <= i < j < 4 ==> Increments[Directions[i]] != Increments[Directions[j]]
    ensures forall i :: 0 <= i < 4 ==>
      Increments[Directions[(i + 1) % 4]] == (Increments[Directions[i]].1, -Increments[Directions[i]].0)
  {
    assert Increments.Keys == {'^', '>', 'v', '<'};
    assert Directions[0] == '^' && Directions[1] == '>' && Directions[2] == 'v' && Directions[3] == '<';
    var steps := seq(4, i requires 0 <= i < 4 => Increments[Directions[i]]);
    assert steps == [(-1, 0), (0, 1), (1, 0), (0, -1)];
    forall i | 0 <= i < 4
      ensures Increments[Directions[(i + 1) % 4]] == (Increments[Directions[i]].1, -Increments[Directions[i]].0)
    {
      assert Increments[Directions[i]] == steps[i];
      assert Increments[Directions[(i + 1) % 4]] == steps[(i + 1) % 4];
    }
    forall i, j | 0 <= i < j < 4
      ensures Increments[Directions[i]] != Increments[Directions[j]]
    {
      assert Increments[Directions[i]] == steps[i] && Increments[Directions[j]] == steps[j];
    }
  }

  class PuzzleMap {
    var labmap: seq<string>
    var minRow: int
    var minCol: int
    var maxRow: int
    var maxCol: int

    /** The bounds are the first and last index of the rows and of the first row. */
    ghost predicate Valid()
      reads this
    {
      |labmap| > 0 && minRow == 0 && minCol == 0 && maxRow == |labmap| - 1 && maxCol == |labmap[0]| - 1
    }

    /** Built from the rows already read from the file (reading is not modelled). */
    constructor (lines: seq<string>)
      requires |lines| > 0
      ensures Valid() && labmap == lines
      ensures maxRow + 1 == |lines| && maxCol + 1 == |lines[0]|
    {
      labmap := lines;
      minRow := 0;
      minCol := 0;
      maxRow := |lines| - 1;
      maxCol := |lines[0]| - 1;
    }
  }

  /**
   * `replace_char`: the string with index `n` replaced by `ch`; ValueError when
   * `n` is not an index of `s`.
   */
  function ReplaceChar(s: string, n: int, ch: string): (r: Result<string>)
    ensures r.Ok? <==> 0 <= n < |s|
    ensures r.Err? ==> r.error == ValueError
    ensures r.Ok? ==> |r.value| == |s| - 1 + |ch|
    ensures r.Ok? ==> r.value[..n] == s[..n] && r.value[n..n + |ch|] == ch && r.value[n + |ch|..] == s[n + 1..]
  {
    if n < 0 || n >= |s| then Err(ValueError) else Ok(s[..n] + ch + s[n + 1..])
  }

  /** With a single character, the length is kept and only index `n` changes. */
  lemma ReplaceOneChar(s: string, n: int, c: char)
    requires 0 <= n < |s|
    ensures ReplaceChar(s, n, [c]).Ok?
    ensures |ReplaceChar(s, n, [c]).value| == |s|
    ensures ReplaceChar(s, n, [c]).value[n] == c
    ensures forall i :: 0 <= i < |s| && i != n ==> ReplaceChar(s, n, [c]).value[i] == s[i]
  {
    var r := ReplaceChar(s, n, [c]).value;
    assert r == s[..n] + [c] + s[n + 1..];
  }
}
