// Ceres Search (src/aoc/2024/day_04/puzzle.py): count XMAS in every row,
// column and diagonal of a letter grid, and count the X-shaped pairs of MAS.
module Day04 {
  import opened Common

  /** `s[i:i+len(pat)] == pat`. */
  predicate OccursAt(s: string, pat: string, i: int)
  {
    0 <= i && i + |pat| <= |s| && s[i..i + |pat|] == pat
  }

  /** ASCII upper-casing, as `str.upper` does for the puzzle's letters. */
  function Upper(s: string): (u: string)
    ensures |u| == |s|
    ensures forall i :: 0 <= i < |s| ==> (if 'a' <= s[i] <= 'z' then u[i] as int == s[i] as int - 32 else u[i] == s[i])
  {
    seq(|s|, i requires 0 <= i < |s| => if 'a' <= s[i] <= 'z' then (s[i] as int - 32) as char else s[i])
  }

  /** `str.count` from index `i`: occurrences counted left to right without overlap. */
  function CountFrom(s: string, pat: string, i: nat): nat
    requires |pat| > 0 && i <= |s|
    decreases |s| - i
  {
    if i + |pat| > |s| then 0
    else if OccursAt(s, pat, i) then 1 + CountFrom(s, pat, i + |pat|)
    else CountFrom(s, pat, i + 1)
  }

  /** The number of indices at or after `i` where `pat` occurs, overlapping ones included. */
  function OccurrencesFrom(s: string, pat: string, i: nat): nat
    requires i <= |s|
    decreases |s| - i
  {
    if i == |s| then (if OccursAt(s, pat, i) then 1 else 0)
    else (if OccursAt(s, pat, i) then 1 else 0) + OccurrencesFrom(s, pat, i + 1)
  }

  /** No proper suffix of `pat` is also a prefix of it, so two occurrences never overlap. */
  predicate NoSelfOverlap(pat: string)
  {
    forall k :: 0 < k < |pat| ==> pat[k..] != pat[..|pat| - k]
  }

  lemma XmasHasNoSelfOverlap()
    ensures NoSelfOverlap("XMAS") && NoSelfOverlap("SAMX")
  {
    var p, q := "XMAS", "SAMX";
    assert p[1..] != p[..3] && p[2..] != p[..2] && p[3..] != p[..1] by {
      assert p[1..][0] != p[..3][0] && p[2..][0] != p[..2][0] && p[3..][0] != p[..1][0];
    }
    assert q[1..] != q[..3] && q[2..] != q[..2] && q[3..] != q[..1] by {
      assert q[1..][0] != q[..3][0] && q[2..][0] != q[..2][0] && q[3..][0] != q[..1][0];
    }
  }

  /** Two occurrences `k` apart share a suffix of `pat` that is also its prefix. */
  lemma OverlapSharesBorder(s: string, pat: string, i: nat, k: nat)
    requires OccursAt(s, pat, i) && 0 < k < |pat|
    ensures OccursAt(s, pat, i + k) ==> pat[k..] == pat[..|pat| - k]
  {
    if OccursAt(s, pat, i + k) {
      var shared := s[i + k..i + |pat|];
      assert shared == pat[k..];
      assert shared == pat[..|pat| - k];
    }
  }

  /** With no occurrence strictly between `i` and `j`, counting from `i + 1` and from `j` agree. */
  lemma {:induction false} SkipGap(s: string, pat: string, i: nat, j: nat)
    requires i < j <= |s| && forall k :: i < k < j ==> !OccursAt(s, pat, k)
    ensures OccurrencesFrom(s, pat, i + 1) == OccurrencesFrom(s, pat, j)
    decreases j - i
  {
    if i + 1 < j {
      SkipGap(s, pat, i + 1, j);
    }
  }

  /** For a pattern that cannot overlap itself, `str.count` counts every occurrence. */
  lemma {:induction false} CountIsOccurrences(s: string, pat: string, i: nat)
    requires |pat| > 0 && NoSelfOverlap(pat) && i <= |s|
    ensures CountFrom(s, pat, i) == OccurrencesFrom(s, pat, i)
    decreases |s| - i
  {
    if i + |pat| > |s| {
      NoneNearEnd(s, pat, i);
    } else if OccursAt(s, pat, i) {
      CountIsOccurrences(s, pat, i + |pat|);
      forall k | i < k < i + |pat| ensures !OccursAt(s, pat, k) {
        OverlapSharesBorder(s, pat, i, k - i);
      }
      SkipGap(s, pat, i, i + |pat|);
    } else {
      CountIsOccurrences(s, pat, i + 1);
    }
  }

  lemma {:induction false} NoneNearEnd(s: string, pat: string, i: nat)
    requires |pat| > 0 && i <= |s| < i + |pat|
    ensures OccurrencesFrom(s, pat, i) == 0
    decreases |s| - i
  {
    if i < |s| { NoneNearEnd(s, pat, i + 1); }
  }

  /**
   * `count_xmas`: XMAS forwards plus XMAS backwards in the upper-cased line;
   * every position where XMAS or SAMX starts is counted once.
   */
  function CountXmas(s: string): (n: nat)
    ensures n == OccurrencesFrom(Upper(s), "XMAS", 0) + OccurrencesFrom(Upper(s), "SAMX", 0)
  {
    var u := Upper(s);
    XmasHasNoSelfOverlap();
    CountIsOccurrences(u, "XMAS", 0);
    CountIsOccurrences(u, "SAMX", 0);
    CountFrom(u, "XMAS", 0) + CountFrom(u, "SAMX", 0)
  }

  function MinLength(lines: seq<string>): nat
    requires |lines| > 0
  {
    if |lines| == 1 then |lines[0]|
    else var m := MinLength(lines[1..]); if |lines[0]| < m then |lines[0]| else m
  }

  lemma {:induction false} MinLengthIsMin(lines: seq<string>)
    requires |lines| > 0
    ensures forall i :: 0 <= i < |lines| ==> MinLength(lines) <= |lines[i]|
    ensures exists i :: 0 <= i < |lines| && MinLength(lines) == |lines[i]|
  {
    if |lines| > 1 {
      MinLengthIsMin(lines[1..]);
      var j :| 0 <= j < |lines[1..]| && MinLength(lines[1..]) == |lines[1..][j]|;
      assert forall i :: 1 <= i < |lines| ==> lines[i] == lines[1..][i - 1];
    }
  }

  /** `transpose_lines`: column j of the lines, cut at the shortest line (`zip(*lines)`). */
  function TransposeLines(lines: seq<string>): (t: seq<string>)
    ensures |lines| == 0 ==> t == []
    ensures |lines| > 0 ==> |t| == MinLength(lines)
    ensures forall j :: 0 <= j < |t| ==> |t[j]| == |lines|
    ensures |lines| > 0 ==> forall j, i :: 0 <= j < |t| && 0 <= i < |lines| ==> j < |lines[i]| && t[j][i] == lines[i][j]
  {
    if |lines| == 0 then []
    else
      MinLengthIsMin(lines);
      seq(MinLength(lines), j requires 0 <= j < MinLength(lines) =>
        seq(|lines|, i requires 0 <= i < |lines| => lines[i][j]))
  }

  /** Transposing a non-empty rectangle twice gives it back. */
  lemma TransposeTwice(lines: seq<string>)
    requires |lines| > 0 && |lines[0]| > 0 && forall i :: 0 <= i < |lines| ==> |lines[i]| == |lines[0]|
    ensures TransposeLines(TransposeLines(lines)) == lines
  {
    MinLengthIsMin(lines);
    var t := TransposeLines(lines);
    MinLengthIsMin(t);
    var tt := TransposeLines(t);
    assert |tt| == |lines|;
    forall i | 0 <= i < |lines| ensures tt[i] == lines[i] {
      assert |tt[i]| == |t| == |lines[i]|;
    }
  }

  /** The first column that a diagonal through `y` reaches inside a grid of `height` rows. */
  function FirstCol(y: int, height: int): int
  {
    if y - height + 1 > 0 then y - height + 1 else 0
  }

  /** The number of cells on the diagonal x + row == y. */
  function DiagLen(y: int, height: int, width: int): int
  {
    var last := if y < width - 1 then y else width - 1;
    if last - FirstCol(y, height) + 1 > 0 then last - FirstCol(y, height) + 1 else 0
  }

  predicate Rectangular(lines: seq<string>)
  {
    |lines| > 0 && forall i :: 0 <= i < |lines| ==> |lines[i]| == |lines[0]|
  }

  /** The south-west to north-east diagonal through row `y` of column 0: cells (y - x, x). */
  function SwNe(lines: seq<string>, y: nat): (d: string)
    requires Rectangular(lines)
  {
    var h, w := |lines|, |lines[0]|;
    seq(DiagLen(y, h, w), k requires 0 <= k < DiagLen(y, h, w) => lines[y - (FirstCol(y, h) + k)][FirstCol(y, h) + k])
  }

  /** The mirrored diagonal: cells (y - x, width - 1 - x). */
  function NwSe(lines: seq<string>, y: nat): (d: string)
    requires Rectangular(lines)
  {
    var h, w := |lines|, |lines[0]|;
    seq(DiagLen(y, h, w), k requires 0 <= k < DiagLen(y, h, w) => lines[y - (FirstCol(y, h) + k)][w - 1 - (FirstCol(y, h) + k)])
  }

  /** Each grid cell (r, c) lies on exactly the diagonal r + c, at position c - FirstCol(r + c). */
  lemma CellOnItsDiagonal(lines: seq<string>, r: nat, c: nat)
    requires Rectangular(lines) && r < |lines| && c < |lines[0]|
    ensures 0 <= c - FirstCol(r + c, |lines|) < |SwNe(lines, r + c)|
    ensures SwNe(lines, r + c)[c - FirstCol(r + c, |lines|)] == lines[r][c]
    ensures NwSe(lines, r + c)[c - FirstCol(r + c, |lines|)] == lines[r][|lines[0]| - 1 - c]
  {
  }

  /**
   * `create_diagonal_lines`: for y = 0 .. 2*height-1 the two diagonals through
   * (y, 0), walking x up while x < width and the row y - x is non-negative and
   * skipping rows past the bottom.  An empty list of lines raises IndexError.
   */
  method CreateDiagonalLines(lines: seq<string>) returns (r: Result<(seq<string>, seq<string>)>)
    requires |lines| > 0 ==> Rectangular(lines)
    ensures r.Err? <==> |lines| == 0
    ensures r.Err? ==> r.error == IndexError
    ensures r.Ok? ==> |r.value.0| == 2 * |lines| && |r.value.1| == 2 * |lines|
    ensures r.Ok? ==> forall y :: 0 <= y < 2 * |lines| ==> r.value.0[y] == SwNe(lines, y) && r.value.1[y] == NwSe(lines, y)
  {
    if |lines| == 0 {
      return Err(IndexError);
    }
    var height := |lines|;
    var swNe: seq<string> := [];
    var nwSe: seq<string> := [];
    var y := 0;
    while y < height * 2
      invariant 0 <= y <= height * 2
      invariant |swNe| == y && |nwSe| == y
      invariant forall j :: 0 <= j < y ==> swNe[j] == SwNe(lines, j) && nwSe[j] == NwSe(lines, j)
    {
      var line, lineRev := DiagonalsFrom(lines, y);
      swNe := swNe + [line];
      nwSe := nwSe + [lineRev];
      y := y + 1;
    }
    return Ok((swNe, nwSe));
  }

  /** The inner loop of `create_diagonal_lines`: the two diagonals that start in row `y`. */
  method DiagonalsFrom(lines: seq<string>, y: nat) returns (line: string, lineRev: string)
    requires |lines| > 0 && Rectangular(lines) && y < 2 * |lines|
    ensures line == SwNe(lines, y) && lineRev == NwSe(lines, y)
  {
    var width, height := |lines[0]|, |lines|;
    var yy, x, xRev := y, 0, width - 1;
    line, lineRev := [], [];
    while x < width && yy >= 0
      invariant 0 <= x <= width && x <= y + 1 && yy == y - x && xRev == width - 1 - x
      invariant x <= FirstCol(y, height) ==> line == [] && lineRev == []
      invariant x > FirstCol(y, height) ==> |line| == x - FirstCol(y, height) && |lineRev| == |line|
      invariant forall k :: 0 <= k < |line| ==> line[k] == lines[y - (FirstCol(y, height) + k)][FirstCol(y, height) + k]
      invariant forall k :: 0 <= k < |lineRev| ==> lineRev[k] == lines[y - (FirstCol(y, height) + k)][width - 1 - (FirstCol(y, height) + k)]
    {
      if yy < height {
        line := line + [lines[yy][x]];
        lineRev := lineRev + [lines[yy][xRev]];
      }
      x, xRev, yy := x + 1, xRev - 1, yy - 1;
    }
    assert |line| == DiagLen(y, height, width);
  }

  /** The two diagonal families of `create_diagonal_lines`, as values. */
  function DiagonalLines(lines: seq<string>): (d: (seq<string>, seq<string>))
    requires Rectangular(lines)
    ensures |d.0| == 2 * |lines| && |d.1| == 2 * |lines|
    ensures forall y :: 0 <= y < 2 * |lines| ==> d.0[y] == SwNe(lines, y) && d.1[y] == NwSe(lines, y)
  {
    (seq(2 * |lines|, y requires 0 <= y < 2 * |lines| => SwNe(lines, y)),
     seq(2 * |lines|, y requires 0 <= y < 2 * |lines| => NwSe(lines, y)))
  }

  function SumCounts(ls: seq<string>): nat
  {
    if ls == [] then 0 else SumCounts(ls[..|ls| - 1]) + CountXmas(ls[|ls| - 1])
  }

  /** Every start of XMAS or SAMX, overlapping or not, over a list of lines. */
  function SumOccurrences(ls: seq<string>): nat
  {
    if ls == [] then 0
    else SumOccurrences(ls[..|ls| - 1]) + OccurrencesFrom(Upper(ls[|ls| - 1]), "XMAS", 0) + OccurrencesFrom(Upper(ls[|ls| - 1]), "SAMX", 0)
  }

  /** Summing `count_xmas` over lines misses no occurrence. */
  lemma {:induction false} SumCountsIsOccurrences(ls: seq<string>)
    ensures SumCounts(ls) == SumOccurrences(ls)
  {
    if ls != [] {
      SumCountsIsOccurrences(ls[..|ls| - 1]);
    }
  }

  /**
   * `part1`: XMAS counted along rows, columns and the diagonals
   * `create_diagonal_lines` builds; every occurrence on those lines, read
   * either way, is counted once.
   */
  function Part1(lines: seq<string>): (n: nat)
    requires Rectangular(lines)
    ensures n == SumOccurrences(lines) + SumOccurrences(TransposeLines(lines)) +
      SumOccurrences(DiagonalLines(lines).0) + SumOccurrences(DiagonalLines(lines).1)
  {
    var d := DiagonalLines(lines);
    SumCountsIsOccurrences(lines);
    SumCountsIsOccurrences(TransposeLines(lines));
    SumCountsIsOccurrences(d.0);
    SumCountsIsOccurrences(d.1);
    SumCounts(lines) + SumCounts(TransposeLines(lines)) + SumCounts(d.0) + SumCounts(d.1)
  }

  /**
   * The diagonals `create_diagonal_lines` evidently means: one per value of
   * r + c, so `height + width - 1` of each family.
   */
  function AllDiagonalLines(lines: seq<string>): (d: (seq<string>, seq<string>))
    requires Rectangular(lines)
    ensures |d.0| == |lines| + |lines[0]| - 1 && |d.1| == |d.0|
    ensures forall y :: 0 <= y < |d.0| ==> d.0[y] == SwNe(lines, y) && d.1[y] == NwSe(lines, y)
  {
    var n := |lines| + |lines[0]| - 1;
    (seq(n, y requires 0 <= y < n => SwNe(lines, y)), seq(n, y requires 0 <= y < n => NwSe(lines, y)))
  }

  /** Every cell of the grid is read by one diagonal of each family of `AllDiagonalLines`. */
  lemma AllDiagonalsCoverEveryCell(lines: seq<string>, r: nat, c: nat)
    requires Rectangular(lines) && r < |lines| && c < |lines[0]|
    ensures var d := AllDiagonalLines(lines);
      var k := c - FirstCol(r + c, |lines|);
      var c' := |lines[0]| - 1 - c;
      var m := c' - FirstCol(r + c', |lines|);
      r + c < |d.0| && 0 <= k < |d.0[r + c]| && d.0[r + c][k] == lines[r][c] &&
      r + c' < |d.1| && 0 <= m < |d.1[r + c']| && d.1[r + c'][m] == lines[r][c]
  {
    var d := AllDiagonalLines(lines);
    var c' := |lines[0]| - 1 - c;
    CellOnItsDiagonal(lines, r, c);
    CellOnItsDiagonal(lines, r, c');
    assert d.0[r + c] == SwNe(lines, r + c);
    assert d.1[r + c'] == NwSe(lines, r + c');
    assert |lines[0]| - 1 - c' == c;
  }

  /** `find_matches`: the tuples of the first list that also occur in the second, in order. */
  function FindMatches(tups1: seq<Point>, tups2: seq<Point>): (r: seq<Point>)
    ensures forall p :: p in r <==> p in tups1 && p in tups2
    ensures |r| <= |tups1|
  {
    if tups1 == [] then []
    else if tups1[0] in tups2 then [tups1[0]] + FindMatches(tups1[1..], tups2)
    else FindMatches(tups1[1..], tups2)
  }

  /**
   * `FindMatches` is a filter in order: matching two lists in turn is
   * matching the first followed by matching the second, and a single tuple
   * stays exactly when the second list holds it.
   */
  lemma {:induction false} FindMatchesAppend(a: seq<Point>, b: seq<Point>, tups2: seq<Point>)
    ensures FindMatches(a + b, tups2) == FindMatches(a, tups2) + FindMatches(b, tups2)
    ensures |a| == 1 ==> FindMatches(a, tups2) == (if a[0] in tups2 then a else [])
  {
    if a != [] {
      assert (a + b)[1..] == a[1..] + b;
      FindMatchesAppend(a[1..], b, tups2);
    } else {
      assert a + b == b;
    }
  }

  /** Specification of `find_all_indices`: every index from `i` where `pat` occurs, overlaps included. */
  function AllIndicesFrom(line: string, pat: string, i: nat): (r: seq<nat>)
    requires i <= |line| + 1
    ensures forall k :: k in r <==> i <= k && OccursAt(line, pat, k)
    ensures forall a, b :: 0 <= a < b < |r| ==> r[a] < r[b]
    ensures forall a :: 0 <= a < |r| ==> i <= r[a]
    decreases |line| + 1 - i
  {
    if i == |line| + 1 then []
    else if OccursAt(line, pat, i) then [i] + AllIndicesFrom(line, pat, i + 1)
    else AllIndicesFrom(line, pat, i + 1)
  }

  /** `str.find(pat, start)`: the first occurrence at or after `start`, or -1. */
  function Find(line: string, pat: string, start: nat): (r: int)
    requires start <= |line| + 1
    ensures r == -1 || (start <= r && OccursAt(line, pat, r))
    ensures r == -1 ==> forall k :: start <= k ==> !OccursAt(line, pat, k)
    ensures r != -1 ==> forall k :: start <= k < r ==> !OccursAt(line, pat, k)
    decreases |line| + 1 - start
  {
    if start == |line| + 1 then -1
    else if OccursAt(line, pat, start) then start
    else Find(line, pat, start + 1)
  }

  /** `find_all_indices`: repeated `find` from one past the previous hit. */
  method FindAllIndices(line: string, pat: string) returns (indices: seq<nat>)
    ensures indices == AllIndicesFrom(line, pat, 0)
  {
    indices := [];
    var start := 0;
    while true
      invariant 0 <= start <= |line| + 1
      invariant indices + AllIndicesFrom(line, pat, start) == AllIndicesFrom(line, pat, 0)
      decreases |line| + 1 - start
    {
      var index := Find(line, pat, start);
      if index == -1 {
        NoOccurrenceNoIndices(line, pat, start);
        break;
      }
      SkipToFound(line, pat, start, index);
      MoveFound(indices, index, AllIndicesFrom(line, pat, start), AllIndicesFrom(line, pat, index + 1),
        AllIndicesFrom(line, pat, 0));
      indices := indices + [index];
      start := index + 1;
    }
  }

  /** Moving the next hit from the indices still to find onto those found keeps the whole list. */
  lemma MoveFound(found: seq<nat>, index: nat, rest: seq<nat>, tail: seq<nat>, whole: seq<nat>)
    requires found + rest == whole && rest == [index] + tail
    ensures (found + [index]) + tail == whole
  {
    assert (found + [index]) + tail == found + ([index] + tail);
  }

  lemma {:induction false} NoOccurrenceNoIndices(line: string, pat: string, start: nat)
    requires start <= |line| + 1 && forall k :: start <= k ==> !OccursAt(line, pat, k)
    ensures AllIndicesFrom(line, pat, start) == []
    decreases |line| + 1 - start
  {
    if start < |line| + 1 {
      NoOccurrenceNoIndices(line, pat, start + 1);
    }
  }

  lemma {:induction false} SkipToFound(line: string, pat: string, start: nat, index: nat)
    requires start <= index <= |line| && OccursAt(line, pat, index)
    requires forall k :: start <= k < index ==> !OccursAt(line, pat, k)
    ensures AllIndicesFrom(line, pat, start) == [index] + AllIndicesFrom(line, pat, index + 1)
    decreases index - start
  {
    if start < index {
      SkipToFound(line, pat, start + 1, index);
    }
  }

  /**
   * `diag_match`: both diagonals through the centre read M-S or S-M.  Callers
   * pass interior points only, so all four neighbours exist.
   */
  predicate DiagMatch(lines: seq<string>, idx: Point)
    requires Rectangular(lines)
    requires 0 < idx.0 < |lines| - 1 && 0 < idx.1 < |lines[0]| - 1
  {
    var (y, x) := idx;
    var nw, ne := lines[y - 1][x - 1], lines[y - 1][x + 1];
    var sw, se := lines[y + 1][x - 1], lines[y + 1][x + 1];
    ([nw, se] == "MS" || [nw, se] == "SM") && ([ne, sw] == "MS" || [ne, sw] == "SM")
  }

  /** With an A in the centre, a diagonal match is exactly an X of two MAS words, each read either way. */
  lemma DiagMatchIsCrossedMas(lines: seq<string>, idx: Point)
    requires Rectangular(lines) && 0 < idx.0 < |lines| - 1 && 0 < idx.1 < |lines[0]| - 1
    requires lines[idx.0][idx.1] == 'A'
    ensures DiagMatch(lines, idx) <==>
      var (y, x) := idx;
      var d1 := [lines[y - 1][x - 1], lines[y][x], lines[y + 1][x + 1]];
      var d2 := [lines[y - 1][x + 1], lines[y][x], lines[y + 1][x - 1]];
      (d1 == "MAS" || d1 == "SAM") && (d2 == "MAS" || d2 == "SAM")
  {
  }

  /** A one-letter pattern occurs exactly where that letter is. */
  lemma OccursAtLetter(line: string, c: char, x: int)
    ensures OccursAt(line, [c], x) <==> 0 <= x < |line| && line[x] == c
  {
    if 0 <= x < |line| {
      assert line[x..x + 1] == [line[x]];
    }
  }

  /** The 'A' positions of each row, as `(y, x)` pairs, row by row. */
  function IndicesOfA(lines: seq<string>): (r: seq<seq<Point>>)
    ensures |r| == |lines|
    ensures forall y, p :: 0 <= y < |lines| && p in r[y] ==> p.0 == y && OccursAt(lines[y], "A", p.1)
    ensures forall y :: 0 <= y < |lines| ==> Distinct(r[y])
  {
    seq(|lines|, y requires 0 <= y < |lines| =>
      var xs := AllIndicesFrom(lines[y], "A", 0);
      seq(|xs|, k requires 0 <= k < |xs| => (y, xs[k] as int)))
  }

  /** Every 'A' of row y is listed in row y. */
  lemma IndicesOfAComplete(lines: seq<string>, y: int, x: int)
    requires 0 <= y < |lines| && 0 <= x < |lines[y]| && lines[y][x] == 'A'
    ensures (y, x) in IndicesOfA(lines)[y]
  {
    OccursAtLetter(lines[y], 'A', x);
    var xs := AllIndicesFrom(lines[y], "A", 0);
    assert x in xs;
    var k :| 0 <= k < |xs| && xs[k] == x;
    assert IndicesOfA(lines)[y][k] == (y, x);
  }

  /** The candidate centres of `part2`: sorted 'A' positions strictly inside the border. */
  function Part2Candidates(lines: seq<string>): (r: seq<Point>)
    requires Rectangular(lines)
    ensures LexSorted(r)
    ensures forall p :: p in r <==>
      0 < p.0 < |lines| - 1 && 0 < p.1 < |lines[0]| - 1 && lines[p.0][p.1] == 'A'
    ensures Distinct(r)
  {
    var nested := IndicesOfA(lines);
    var sorted := SortPoints(Flatten(nested));
    FlattenRowsDistinct(nested);
    DistinctPermutation(sorted, Flatten(nested));
    var r := FilterInterior(sorted, |lines| - 1, |lines[0]| - 1);
    forall p ensures p in r <==> 0 < p.0 < |lines| - 1 && 0 < p.1 < |lines[0]| - 1 && lines[p.0][p.1] == 'A' {
      CandidateMember(lines, nested, sorted, r, p);
    }
    r
  }

  /** Rows without repeats whose points carry their row number flatten to a list without repeats. */
  lemma {:induction false} FlattenRowsDistinct(nested: seq<seq<Point>>)
    requires forall y, p :: 0 <= y < |nested| && p in nested[y] ==> p.0 == y
    requires forall y :: 0 <= y < |nested| ==> Distinct(nested[y])
    ensures Distinct(Flatten(nested))
  {
    if nested != [] {
      var init, last := nested[..|nested| - 1], nested[|nested| - 1];
      FlattenRowsDistinct(init);
      var f := Flatten(init);
      forall p | p in f ensures p.0 < |init| {
        FlattenMembership(init, p);
      }
      assert forall k :: 0 <= k < |last| ==> last[k] in last;
      assert forall k :: 0 <= k < |f| ==> f[k] in f;
    }
  }

  lemma CandidateMember(lines: seq<string>, nested: seq<seq<Point>>, sorted: seq<Point>, r: seq<Point>, p: Point)
    requires Rectangular(lines) && nested == IndicesOfA(lines)
    requires multiset(sorted) == multiset(Flatten(nested))
    requires forall q :: q in r <==> q in sorted && 0 < q.0 < |lines| - 1 && 0 < q.1 < |lines[0]| - 1
    ensures p in r <==> 0 < p.0 < |lines| - 1 && 0 < p.1 < |lines[0]| - 1 && lines[p.0][p.1] == 'A'
  {
    FlattenMembership(nested, p);
    assert p in sorted <==> p in multiset(sorted);
    assert p in Flatten(nested) <==> p in multiset(Flatten(nested));
    if 0 < p.0 < |lines| - 1 && 0 < p.1 < |lines[0]| - 1 && lines[p.0][p.1] == 'A' {
      IndicesOfAComplete(lines, p.0, p.1);
    }
    if p in r {
      var y :| 0 <= y < |nested| && p in nested[y];
      OccursAtLetter(lines[p.0], 'A', p.1);
    }
  }

  function FilterInterior(ps: seq<Point>, maxY: int, maxX: int): (r: seq<Point>)
    requires LexSorted(ps)
    ensures LexSorted(r)
    ensures forall p :: p in r <==> p in ps && 0 < p.0 < maxY && 0 < p.1 < maxX
    ensures Distinct(ps) ==> Distinct(r)
  {
    if ps == [] then []
    else
      var rest := FilterInterior(ps[1..], maxY, maxX);
      if 0 < ps[0].0 < maxY && 0 < ps[0].1 < maxX then [ps[0]] + rest else rest
  }

  /** `part1` with the diagonals it evidently means. */
  function Part1Corrected(lines: seq<string>): (n: nat)
    requires Rectangular(lines)
    ensures n == SumOccurrences(lines) + SumOccurrences(TransposeLines(lines)) +
      SumOccurrences(AllDiagonalLines(lines).0) + SumOccurrences(AllDiagonalLines(lines).1)
  {
    var d := AllDiagonalLines(lines);
    SumCountsIsOccurrences(lines);
    SumCountsIsOccurrences(TransposeLines(lines));
    SumCountsIsOccurrences(d.0);
    SumCountsIsOccurrences(d.1);
    SumCounts(lines) + SumCounts(TransposeLines(lines)) + SumCounts(d.0) + SumCounts(d.1)
  }

  lemma {:induction false} SumOccurrencesAppend(a: seq<string>, b: seq<string>)
    ensures SumOccurrences(a + b) == SumOccurrences(a) + SumOccurrences(b)
    decreases |b|
  {
    if b != [] {
      assert (a + b)[..|a + b| - 1] == a + b[..|b| - 1];
      SumOccurrencesAppend(a, b[..|b| - 1]);
    } else {
      assert a + b == a;
    }
  }

  /** Where the grid is wider than tall, the corrected count adds the diagonals from `2 * height` on. */
  lemma Part1CorrectedExtends(lines: seq<string>)
    requires Rectangular(lines) && |lines[0]| > |lines|
    ensures var e := AllDiagonalLines(lines);
      Part1Corrected(lines) == Part1(lines) + SumOccurrences(e.0[2 * |lines|..]) + SumOccurrences(e.1[2 * |lines|..])
  {
    var d, e := DiagonalLines(lines), AllDiagonalLines(lines);
    var n := 2 * |lines|;
    assert e.0 == d.0 + e.0[n..];
    assert e.1 == d.1 + e.1[n..];
    SumOccurrencesAppend(d.0, e.0[n..]);
    SumOccurrencesAppend(d.1, e.1[n..]);
  }

  /** A list of lines starting with XMAS holds at least one occurrence. */
  lemma LeadingXmas(ls: seq<string>)
    requires |ls| > 0 && ls[0] == "XMAS"
    ensures SumOccurrences(ls) >= 1
  {
    var x := ls[0];
    assert ls == [x] + ls[1..];
    SumOccurrencesAppend([x], ls[1..]);
    assert Upper(x) == x;
    assert OccursAt(x, "XMAS", 0);
    assert [x][..0] == [];
  }

  /** The four-by-nine example grid and its diagonal r + c == 8. */
  lemma FarDiagonal(g: seq<string>)
    requires g == ["........S", ".......A.", "......M..", ".....X..."]
    ensures Rectangular(g) && |g| == 4 && |g[0]| == 9
    ensures SwNe(g, 8) == "XMAS"
  {
    var x := SwNe(g, 8);
    assert |x| == 4;
    assert x[0] == g[3][5] && x[1] == g[2][6] && x[2] == g[1][7] && x[3] == g[0][8];
  }

  /**
   * A grid four rows high and nine wide with XMAS on the anti-diagonal
   * r + c == 8: `part1` builds only the diagonals below 8, so it counts
   * fewer occurrences than the corrected count.
   */
  lemma FarXmasMissed(g: seq<string>)
    requires g == ["........S", ".......A.", "......M..", ".....X..."]
    ensures Rectangular(g) && |DiagonalLines(g).0| == 8
    ensures Part1(g) < Part1Corrected(g)
  {
    FarDiagonal(g);
    Part1CorrectedExtends(g);
    var e := AllDiagonalLines(g);
    assert e.0[8..][0] == SwNe(g, 8);
    LeadingXmas(e.0[8..]);
  }

  /** The centres of an X of two MAS words: an 'A' off the border whose diagonals match. */
  function XCentres(lines: seq<string>): set<Point>
    requires Rectangular(lines)
  {
    set r, c | 0 < r < |lines| - 1 && 0 < c < |lines[0]| - 1 && lines[r][c] == 'A' && DiagMatch(lines, (r, c)) :: (r, c)
  }

  /** `part2`: the number of X-MAS centres in the grid, each counted once. */
  function Part2(lines: seq<string>): (n: nat)
    requires Rectangular(lines)
    ensures n == |XCentres(lines)|
  {
    var cands := Part2Candidates(lines);
    CountMatchesCard(lines, cands);
    assert (set p | p in cands && DiagMatch(lines, p)) == XCentres(lines);
    CountMatches(lines, cands)
  }

  /** Over candidates without repeats, `sum(results)` is the number of centres that match. */
  lemma {:induction false} CountMatchesCard(lines: seq<string>, cands: seq<Point>)
    requires Rectangular(lines) && Distinct(cands)
    requires forall p :: p in cands ==> 0 < p.0 < |lines| - 1 && 0 < p.1 < |lines[0]| - 1
    ensures CountMatches(lines, cands) == |set p | p in cands && DiagMatch(lines, p)|
  {
    if cands != [] {
      var rest := cands[1..];
      assert forall k :: 0 <= k < |rest| ==> rest[k] == cands[k + 1];
      CountMatchesCard(lines, rest);
      var all := set p | p in cands && DiagMatch(lines, p);
      var tail := set p | p in rest && DiagMatch(lines, p);
      assert cands[0] !in rest;
      if DiagMatch(lines, cands[0]) {
        assert all == tail + {cands[0]};
      } else {
        assert all == tail;
      }
    }
  }

  function CountMatches(lines: seq<string>, cands: seq<Point>): (n: nat)
    requires Rectangular(lines)
    requires forall p :: p in cands ==> 0 < p.0 < |lines| - 1 && 0 < p.1 < |lines[0]| - 1
    ensures n <= |cands|
  {
    if cands == [] then 0
    else CountMatches(lines, cands[1..]) + (if DiagMatch(lines, cands[0]) then 1 else 0)
  }
}
