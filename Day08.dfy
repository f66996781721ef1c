/**
 * Day 8: antennas of one frequency pair up, and each pair projects two
 * antinodes, one beyond each antenna; count the distinct antinodes on the map.
 * The map is a list of rows; its bounds run from 0 to the last row and the
 * last column of the first row.
 */
module Day08 {
  import opened Common
  import Position

  /** `replace_char`: write `ch` at index `n`; an index outside the string raises ValueError. */
  function ReplaceChar(s: string, n: int, ch: char): (r: Result<string>)
    ensures r.Err? <==> n < 0 || n >= |s|
    ensures r.Err? ==> r.error == ValueError
    ensures r.Ok? ==> |r.value| == |s| && r.value[n] == ch
    ensures r.Ok? ==> forall i :: 0 <= i < |s| && i != n ==> r.value[i] == s[i]
  {
    if n < 0 || n >= |s| then Err(ValueError) else Ok(s[..n] + [ch] + s[n + 1..])
  }

  predicate OnGrid(grid: seq<string>, p: Point)
  {
    0 <= p.0 < |grid| && 0 <= p.1 < |grid[p.0]|
  }

  /** Strict row-major order of cells. */
  predicate Before(a: Point, b: Point)
  {
    a.0 < b.0 || (a.0 == b.0 && a.1 < b.1)
  }

  /** One row's cells as (char, (row, col)), left to right. */
  function RowElements(line: string, row: int): seq<(char, Point)>
  {
    seq(|line|, c requires 0 <= c < |line| => (line[c], (row, c)))
  }

  /** The `elements` list: every cell with its coordinates, row by row. */
  function Elements(grid: seq<string>): seq<(char, Point)>
  {
    if grid == [] then [] else Elements(grid[..|grid| - 1]) + RowElements(grid[|grid| - 1], |grid| - 1)
  }

  /** Every cell of the map is listed once, with its own character, in row-major order. */
  lemma {:induction false} ElementsAreCells(grid: seq<string>)
    ensures forall e :: e in Elements(grid) <==> OnGrid(grid, e.1) && e.0 == grid[e.1.0][e.1.1]
    ensures forall i, j :: 0 <= i < j < |Elements(grid)| ==> Before(Elements(grid)[i].1, Elements(grid)[j].1)
  {
    if grid != [] {
      var n := |grid| - 1;
      var init, row := grid[..n], RowElements(grid[n], n);
      ElementsAreCells(init);
      var es := Elements(grid);
      assert es == Elements(init) + row;
      forall e | e in es
        ensures OnGrid(grid, e.1) && e.0 == grid[e.1.0][e.1.1]
      {
        if e in Elements(init) {
          assert init[e.1.0] == grid[e.1.0];
        } else {
          var c :| 0 <= c < |row| && row[c] == e;
        }
      }
      forall e: (char, Point) | OnGrid(grid, e.1) && e.0 == grid[e.1.0][e.1.1]
        ensures e in es
      {
        if e.1.0 < n {
          assert init[e.1.0] == grid[e.1.0];
          assert OnGrid(init, e.1);
        } else {
          assert row[e.1.1] == e;
        }
      }
      forall i, j | 0 <= i < j < |es|
        ensures Before(es[i].1, es[j].1)
      {
        var m := |Elements(init)|;
        if j < m {
          assert es[i] == Elements(init)[i] && es[j] == Elements(init)[j];
        } else if i < m {
          assert es[i] in Elements(init);
          assert es[j] == row[j - m];
        } else {
          assert es[i] == row[i - m] && es[j] == row[j - m];
        }
      }
    }
  }

  /** The coordinates listed with character `ch`, in list order. */
  function CoordsOf(es: seq<(char, Point)>, ch: char): seq<Point>
  {
    if es == [] then []
    else CoordsOf(es[..|es| - 1], ch) + (if es[|es| - 1].0 == ch then [es[|es| - 1].1] else [])
  }

  /** A coordinate is listed with `ch` exactly when the pair occurs, and list order is kept. */
  lemma {:induction false} CoordsOfSound(es: seq<(char, Point)>, ch: char)
    requires forall i, j :: 0 <= i < j < |es| ==> Before(es[i].1, es[j].1)
    ensures forall p :: p in CoordsOf(es, ch) <==> (ch, p) in es
    ensures forall i, j :: 0 <= i < j < |CoordsOf(es, ch)| ==> Before(CoordsOf(es, ch)[i], CoordsOf(es, ch)[j])
  {
    if es != [] {
      var init, last := es[..|es| - 1], es[|es| - 1];
      assert es == init + [last];
      CoordsOfSound(init, ch);
      var cs := CoordsOf(es, ch);
      assert forall p :: p in CoordsOf(init, ch) ==> Before(p, last.1) by {
        forall p | p in CoordsOf(init, ch) ensures Before(p, last.1) {
          var k :| 0 <= k < |init| && init[k] == (ch, p);
        }
      }
    }
  }

  /** The dictionary the grouping loop builds from the first elements. */
  function Group(es: seq<(char, Point)>, ignores: seq<char>): map<char, seq<Point>>
  {
    if es == [] then map[]
    else
      var g := Group(es[..|es| - 1], ignores);
      var (ch, p) := es[|es| - 1];
      if ch in ignores then g else g[ch := (if ch in g then g[ch] else []) + [p]]
  }

  /** The grouping keeps, per character not ignored, exactly its listed coordinates. */
  lemma {:induction false} GroupIsCoordsOf(es: seq<(char, Point)>, ignores: seq<char>)
    ensures forall ch :: ch in Group(es, ignores) <==> ch !in ignores && CoordsOf(es, ch) != []
    ensures forall ch :: ch in Group(es, ignores) ==> Group(es, ignores)[ch] == CoordsOf(es, ch)
  {
    if es != [] {
      GroupIsCoordsOf(es[..|es| - 1], ignores);
    }
  }

  /**
   * `get_coords_with_counter(grid, ignores)`: the loop over `elements`
   * appending each coordinate under its character, skipping the ignored ones.
   */
  method GetCoordsWithCounter(grid: seq<string>, ignores: seq<char>) returns (grouped: map<char, seq<Point>>)
    ensures grouped == Group(Elements(grid), ignores)
  {
    var elements := Elements(grid);
    grouped := map[];
    for i := 0 to |elements|
      invariant grouped == Group(elements[..i], ignores)
    {
      var (ch, coord) := elements[i];
      assert elements[..i + 1][..i] == elements[..i];
      if ch !in ignores {
        var existing := if ch in grouped then grouped[ch] else [];
        grouped := grouped[ch := existing + [coord]];
      }
    }
    assert elements[..|elements|] == elements;
  }

  /**
   * What the grouping holds: a key for each character on the map that is
   * not ignored, and under it every cell with that character, once each, in
   * row-major order.
   */
  lemma CoordsWithCounterExact(grid: seq<string>, ignores: seq<char>, ch: char)
    ensures var g := Group(Elements(grid), ignores);
      ch in g <==> ch !in ignores && exists p :: OnGrid(grid, p) && grid[p.0][p.1] == ch
    ensures var g := Group(Elements(grid), ignores);
      ch in g ==> (forall p :: p in g[ch] <==> OnGrid(grid, p) && grid[p.0][p.1] == ch) &&
                  (forall i, j :: 0 <= i < j < |g[ch]| ==> Before(g[ch][i], g[ch][j]))
  {
    var es := Elements(grid);
    ElementsAreCells(grid);
    CoordsOfSound(es, ch);
    GroupIsCoordsOf(es, ignores);
    if exists p :: OnGrid(grid, p) && grid[p.0][p.1] == ch {
      var p :| OnGrid(grid, p) && grid[p.0][p.1] == ch;
      assert (ch, p) in es;
      assert p in CoordsOf(es, ch);
    }
    if CoordsOf(es, ch) != [] {
      var p := CoordsOf(es, ch)[0];
      assert (ch, p) in es;
    }
  }

  /** `get_n_combinations(items, 2)`: every pair i < j, in `itertools.combinations` order. */
  function Pairs<T>(items: seq<T>): seq<(T, T)>
    decreases |items|
  {
    if |items| < 2 then []
    else seq(|items| - 1, k requires 0 <= k < |items| - 1 => (items[0], items[k + 1])) + Pairs(items[1..])
  }

  /** There are n(n-1)/2 pairs. */
  lemma {:induction false} PairsCount<T>(items: seq<T>)
    ensures 2 * |Pairs(items)| == |items| * (|items| - 1)
    ensures |Pairs(items)| == |items| * (|items| - 1) / 2
    decreases |items|
  {
    if |items| >= 2 {
      PairsCount(items[1..]);
      assert |Pairs(items)| == (|items| - 1) + |Pairs(items[1..])|;
      PairsCountStep(|items|, |Pairs(items[1..])|);
    }
  }

  lemma PairsCountStep(n: int, m: int)
    requires 2 * m == (n - 1) * (n - 2)
    ensures 2 * ((n - 1) + m) == n * (n - 1)
    ensures (n - 1) + m == n * (n - 1) / 2
  {
    assert (n - 1) * (n - 2) + 2 * (n - 1) == (n - 1) * n;
  }

  /** The pairs are exactly the (items[i], items[j]) with i < j. */
  lemma {:induction false} PairsMembership<T>(items: seq<T>, a: T, b: T)
    ensures (a, b) in Pairs(items) <==> exists i, j :: 0 <= i < j < |items| && items[i] == a && items[j] == b
    decreases |items|
  {
    if |items| >= 2 {
      var tail := items[1..];
      var front := seq(|items| - 1, k requires 0 <= k < |items| - 1 => (items[0], items[k + 1]));
      PairsMembership(tail, a, b);
      if (a, b) in front {
        var k :| 0 <= k < |front| && front[k] == (a, b);
        assert items[0] == a && items[k + 1] == b;
      } else if (a, b) in Pairs(tail) {
        var i, j :| 0 <= i < j < |tail| && tail[i] == a && tail[j] == b;
        assert items[i + 1] == a && items[j + 1] == b;
      }
      if exists i, j :: 0 <= i < j < |items| && items[i] == a && items[j] == b {
        var i, j :| 0 <= i < j < |items| && items[i] == a && items[j] == b;
        if i == 0 {
          assert front[j - 1] == (a, b);
        } else {
          assert tail[i - 1] == a && tail[j - 1] == b;
        }
      }
    }
  }

  /** `find_antinodes_antenna_pair(x, y)`: `x + (x - y)` and `y + (y - x)`. */
  function AntinodePair(x: Point, y: Point): (r: (Position.Pos, Position.Pos))
    ensures r.0 == Position.Pos(2 * x.0 - y.0, 2 * x.1 - y.1)
    ensures r.1 == Position.Pos(2 * y.0 - x.0, 2 * y.1 - x.1)
  {
    var xx := Position.FromTuple(Position.OfTuple([x.0, x.1])).value;
    var yy := Position.FromTuple(Position.OfTuple([y.0, y.1])).value;
    var fromY := Position.Sub(xx, Position.OfPos(yy)).value;
    var fromX := Position.Sub(yy, Position.OfPos(xx)).value;
    (Position.Add(xx, Position.OfPos(fromY)).value, Position.Add(yy, Position.OfPos(fromX)).value)
  }

  /** `position_in_grid`: both coordinates within the inclusive bounds. */
  predicate PositionInGrid(grid: seq<string>, pos: Position.Pos)
    requires grid != []
  {
    0 <= pos.row <= |grid| - 1 && 0 <= pos.col <= |grid[0]| - 1
  }

  /** `keep_positions_in_grid`: the positions on the map, in order. */
  function KeepPositionsInGrid(grid: seq<string>, ps: seq<Position.Pos>): (r: seq<Position.Pos>)
    requires grid != []
    ensures forall p :: p in r <==> p in ps && PositionInGrid(grid, p)
    ensures multiset(r) <= multiset(ps)
  {
    if ps == [] then []
    else
      var init, last := ps[..|ps| - 1], ps[|ps| - 1];
      assert ps == init + [last];
      KeepPositionsInGrid(grid, init) + (if PositionInGrid(grid, last) then [last] else [])
  }

  /** Both antinodes of every pair, pair by pair. */
  function AllAntinodes(pairs: seq<(Point, Point)>): seq<Position.Pos>
  {
    if pairs == [] then []
    else
      var (a, b) := AntinodePair(pairs[|pairs| - 1].0, pairs[|pairs| - 1].1);
      AllAntinodes(pairs[..|pairs| - 1]) + [a, b]
  }

  /** A point is listed exactly when it is an antinode of one of the pairs. */
  lemma {:induction false} AllAntinodesMembership(pairs: seq<(Point, Point)>, p: Position.Pos)
    ensures p in AllAntinodes(pairs) <==>
      exists a, b :: (a, b) in pairs && (p == AntinodePair(a, b).0 || p == AntinodePair(a, b).1)
  {
    if pairs != [] {
      var init, last := pairs[..|pairs| - 1], pairs[|pairs| - 1];
      assert pairs == init + [last];
      AllAntinodesMembership(init, p);
      if exists a, b :: (a, b) in pairs && (p == AntinodePair(a, b).0 || p == AntinodePair(a, b).1) {
        var a, b :| (a, b) in pairs && (p == AntinodePair(a, b).0 || p == AntinodePair(a, b).1);
        if (a, b) != last {
          assert (a, b) in init;
        }
      }
    }
  }

  /** A point `2a - b` for two antennas a, b at different places in the list. */
  ghost predicate IsAntinodeOf(antennas: seq<Point>, p: Position.Pos)
  {
    exists i, j :: 0 <= i < |antennas| && 0 <= j < |antennas| && i != j &&
      p == Position.Pos(2 * antennas[i].0 - antennas[j].0, 2 * antennas[i].1 - antennas[j].1)
  }

  /** An antinode of a listed pair is an antinode of two antennas. */
  lemma PairAntinodeIsAntinode(antennas: seq<Point>, p: Position.Pos)
    requires p in AllAntinodes(Pairs(antennas))
    ensures IsAntinodeOf(antennas, p)
  {
    var a, b := PickPair(Pairs(antennas), p);
    var i, j := PickIndices(antennas, a, b);
    if p == AntinodePair(a, b).0 {
      AntinodeWitness(antennas, i, j, p);
    } else {
      AntinodeWitness(antennas, j, i, p);
    }
  }

  lemma PickPair(pairs: seq<(Point, Point)>, p: Position.Pos) returns (a: Point, b: Point)
    requires p in AllAntinodes(pairs)
    ensures (a, b) in pairs && (p == AntinodePair(a, b).0 || p == AntinodePair(a, b).1)
  {
    AllAntinodesMembership(pairs, p);
    a, b :| (a, b) in pairs && (p == AntinodePair(a, b).0 || p == AntinodePair(a, b).1);
  }

  lemma PickIndices(antennas: seq<Point>, a: Point, b: Point) returns (i: nat, j: nat)
    requires (a, b) in Pairs(antennas)
    ensures i < j < |antennas| && antennas[i] == a && antennas[j] == b
  {
    PairsMembership(antennas, a, b);
    var i', j' :| 0 <= i' < j' < |antennas| && antennas[i'] == a && antennas[j'] == b;
    i, j := i', j';
  }

  lemma AntinodeWitness(antennas: seq<Point>, i: nat, j: nat, p: Position.Pos)
    requires i < |antennas| && j < |antennas| && i != j
    requires p == Position.Pos(2 * antennas[i].0 - antennas[j].0, 2 * antennas[i].1 - antennas[j].1)
    ensures IsAntinodeOf(antennas, p)
  {
  }

  /** An antinode of two antennas comes from the pair of them listed first to last. */
  lemma AntinodeIsPairAntinode(antennas: seq<Point>, p: Position.Pos)
    requires IsAntinodeOf(antennas, p)
    ensures p in AllAntinodes(Pairs(antennas))
  {
    var i, j :| 0 <= i < |antennas| && 0 <= j < |antennas| && i != j &&
      p == Position.Pos(2 * antennas[i].0 - antennas[j].0, 2 * antennas[i].1 - antennas[j].1);
    var lo, hi := if i < j then i else j, if i < j then j else i;
    var a, b := antennas[lo], antennas[hi];
    PairsMembership(antennas, a, b);
    assert p == AntinodePair(a, b).0 || p == AntinodePair(a, b).1;
    AllAntinodesMembership(Pairs(antennas), p);
  }

  /**
   * `find_antinodes_antenna_list`: the antinodes of every pair, without
   * repeats, sorted by (row, col), keeping those on the map.  Python's
   * `list(set(...))` leaves the order open, and sorting makes it irrelevant.
   */
  function FindAntinodesAntennaList(grid: seq<string>, antennas: seq<Point>): (r: seq<Position.Pos>)
    requires grid != []
    ensures Distinct(r) && Position.SortedByKey(r)
    ensures forall p :: p in r <==> IsAntinodeOf(antennas, p) && PositionInGrid(grid, p)
  {
    AntennaListAntinodes(grid, antennas);
    var unique := Dedup(AllAntinodes(Pairs(antennas)));
    KeepPositionsInGrid(grid, Position.SortPositions(unique))
  }

  /**
   * The list holds, once each and sorted by (row, col), exactly the
   * antinodes of pairs of antennas that lie on the map.
   */
  lemma AntennaListAntinodes(grid: seq<string>, antennas: seq<Point>)
    requires grid != []
    ensures var r := KeepPositionsInGrid(grid, Position.SortPositions(Dedup(AllAntinodes(Pairs(antennas)))));
      Distinct(r) && Position.SortedByKey(r) &&
      forall p :: p in r <==> IsAntinodeOf(antennas, p) && PositionInGrid(grid, p)
  {
    var all := AllAntinodes(Pairs(antennas));
    var unique := Dedup(all);
    var sorted := Position.SortPositions(unique);
    var r := KeepPositionsInGrid(grid, sorted);
    DistinctPermutation(sorted, unique);
    FilterKeepsOrder(grid, sorted);
    forall p
      ensures p in r <==> IsAntinodeOf(antennas, p) && PositionInGrid(grid, p)
    {
      assert p in sorted <==> p in multiset(sorted);
      assert p in unique <==> p in multiset(unique);
      if p in all {
        PairAntinodeIsAntinode(antennas, p);
      }
      if IsAntinodeOf(antennas, p) {
        AntinodeIsPairAntinode(antennas, p);
      }
    }
  }

  /** Filtering a sorted list without repeats keeps both. */
  lemma {:induction false} FilterKeepsOrder(grid: seq<string>, ps: seq<Position.Pos>)
    requires grid != [] && Distinct(ps) && Position.SortedByKey(ps)
    ensures Distinct(KeepPositionsInGrid(grid, ps)) && Position.SortedByKey(KeepPositionsInGrid(grid, ps))
  {
    if ps != [] {
      var init, last := ps[..|ps| - 1], ps[|ps| - 1];
      FilterKeepsOrder(grid, init);
      var rest := KeepPositionsInGrid(grid, init);
      assert ps == init + [last];
      BeforeLast(init, last);
      if PositionInGrid(grid, last) {
        AppendAfter(rest, last);
      }
    }
  }

  /** In a sorted list without repeats every earlier position is before the last one. */
  lemma BeforeLast(init: seq<Position.Pos>, last: Position.Pos)
    requires Distinct(init + [last]) && Position.SortedByKey(init + [last])
    ensures forall q :: q in init ==> q != last && Position.KeyLe(q, last)
  {
    var ps := init + [last];
    forall q | q in init ensures q != last && Position.KeyLe(q, last) {
      var k :| 0 <= k < |init| && init[k] == q;
      assert ps[k] == q && ps[|init|] == last;
    }
  }

  /** A position after all of a sorted list without repeats extends it. */
  lemma AppendAfter(rest: seq<Position.Pos>, last: Position.Pos)
    requires Distinct(rest) && Position.SortedByKey(rest)
    requires forall q :: q in rest ==> q != last && Position.KeyLe(q, last)
    ensures Distinct(rest + [last]) && Position.SortedByKey(rest + [last])
  {
    var r := rest + [last];
    forall i, j | 0 <= i < j < |r| ensures Position.KeyLe(r[i], r[j]) {
      if j == |rest| { assert r[i] in rest; }
    }
    forall i, j | 0 <= i < j < |r| ensures r[i] != r[j] {
      if j == |rest| { assert r[i] in rest; }
    }
  }

  /** `find_all_antinodes`: each antenna frequency's antinode list. */
  function FindAllAntinodes(grid: seq<string>): (m: map<char, seq<Position.Pos>>)
    requires grid != []
    ensures m.Keys == Group(Elements(grid), ".").Keys
  {
    var coords := Group(Elements(grid), ".");
    map ch | ch in coords :: FindAntinodesAntennaList(grid, coords[ch])
  }

  /** Every antinode in the dictionary, once. */
  function AllListed(m: map<char, seq<Position.Pos>>): set<Position.Pos>
  {
    set ch, p | ch in m && p in m[ch] :: p
  }

  /** `count_distinct_antinodes`: the size of the union of all frequencies' antinodes. */
  function CountDistinctAntinodes(grid: seq<string>): (n: nat)
    requires grid != []
    ensures n == |AllListed(FindAllAntinodes(grid))|
    ensures forall p :: p in AllListed(FindAllAntinodes(grid)) <==>
      PositionInGrid(grid, p) && exists ch :: ch != '.' && FrequencyAntinode(grid, ch, p)
  {
    assert forall p :: p in AllListed(FindAllAntinodes(grid)) <==>
      PositionInGrid(grid, p) && exists ch :: ch != '.' && FrequencyAntinode(grid, ch, p) by {
      forall p
        ensures p in AllListed(FindAllAntinodes(grid)) <==>
          PositionInGrid(grid, p) && exists ch :: ch != '.' && FrequencyAntinode(grid, ch, p)
      {
        CountedAntinodes(grid, p);
      }
    }
    |AllListed(FindAllAntinodes(grid))|
  }

  /** `p` lies at `2a - b` for two different cells a, b holding `ch`. */
  ghost predicate FrequencyAntinode(grid: seq<string>, ch: char, p: Position.Pos)
  {
    exists a, b :: OnGrid(grid, a) && OnGrid(grid, b) && a != b &&
      grid[a.0][a.1] == ch && grid[b.0][b.1] == ch &&
      p == Position.Pos(2 * a.0 - b.0, 2 * a.1 - b.1)
  }

  /** The cells listed for a frequency: exactly its cells, each once. */
  lemma CellsOfFrequency(grid: seq<string>, ch: char)
    requires ch in Group(Elements(grid), ".")
    ensures var cs := Group(Elements(grid), ".")[ch];
      Distinct(cs) && forall p :: p in cs <==> OnGrid(grid, p) && grid[p.0][p.1] == ch
  {
    CoordsWithCounterExact(grid, ".", ch);
  }

  /** An antinode of a frequency's listed cells is an antinode of that frequency. */
  lemma ListedAntinodeIsFrequencyAntinode(grid: seq<string>, ch: char, p: Position.Pos)
    requires ch in Group(Elements(grid), ".")
    requires IsAntinodeOf(Group(Elements(grid), ".")[ch], p)
    ensures FrequencyAntinode(grid, ch, p)
  {
    CellsOfFrequency(grid, ch);
    AntinodeOfCells(grid, ch, Group(Elements(grid), ".")[ch], p);
  }

  lemma AntinodeOfCells(grid: seq<string>, ch: char, cs: seq<Point>, p: Position.Pos)
    requires Distinct(cs) && forall q :: q in cs ==> OnGrid(grid, q) && grid[q.0][q.1] == ch
    requires IsAntinodeOf(cs, p)
    ensures FrequencyAntinode(grid, ch, p)
  {
    var i, j :| 0 <= i < |cs| && 0 <= j < |cs| && i != j &&
      p == Position.Pos(2 * cs[i].0 - cs[j].0, 2 * cs[i].1 - cs[j].1);
    var a, b := cs[i], cs[j];
    assert a in cs && b in cs;
    assert OnGrid(grid, a) && OnGrid(grid, b) && a != b && grid[a.0][a.1] == ch && grid[b.0][b.1] == ch;
  }

  /** Where a cell of a frequency sits in that frequency's list. */
  lemma CellIndex(grid: seq<string>, ch: char, a: Point) returns (i: nat)
    requires ch in Group(Elements(grid), ".")
    requires OnGrid(grid, a) && grid[a.0][a.1] == ch
    ensures i < |Group(Elements(grid), ".")[ch]| && Group(Elements(grid), ".")[ch][i] == a
  {
    var cs := Group(Elements(grid), ".")[ch];
    CoordsWithCounterExact(grid, ".", ch);
    assert a in cs;
    i :| 0 <= i < |cs| && cs[i] == a;
  }

  /** An antinode of a frequency is an antinode of its listed cells. */
  lemma FrequencyAntinodeIsListed(grid: seq<string>, ch: char, p: Position.Pos)
    requires ch in Group(Elements(grid), ".")
    requires FrequencyAntinode(grid, ch, p)
    ensures IsAntinodeOf(Group(Elements(grid), ".")[ch], p)
  {
    var cs := Group(Elements(grid), ".")[ch];
    var a, b :| OnGrid(grid, a) && OnGrid(grid, b) && a != b &&
      grid[a.0][a.1] == ch && grid[b.0][b.1] == ch &&
      p == Position.Pos(2 * a.0 - b.0, 2 * a.1 - b.1);
    var i := CellIndex(grid, ch, a);
    var j := CellIndex(grid, ch, b);
    assert p == Position.Pos(2 * cs[i].0 - cs[j].0, 2 * cs[i].1 - cs[j].1);
  }

  /** A frequency with an antinode has a cell on the map, so it has a list. */
  lemma FrequencyIsListed(grid: seq<string>, ch: char, p: Position.Pos)
    requires ch != '.' && FrequencyAntinode(grid, ch, p)
    ensures ch in Group(Elements(grid), ".")
  {
    var a, b :| OnGrid(grid, a) && OnGrid(grid, b) && a != b &&
      grid[a.0][a.1] == ch && grid[b.0][b.1] == ch &&
      p == Position.Pos(2 * a.0 - b.0, 2 * a.1 - b.1);
    CoordsWithCounterExact(grid, ".", ch);
  }

  /**
   * A point is counted exactly when it is on the map and, for some
   * frequency (any character but `.`), it lies at `2a - b` for two different
   * cells a, b holding that frequency.
   */
  lemma CountedAntinodes(grid: seq<string>, p: Position.Pos)
    requires grid != []
    ensures p in AllListed(FindAllAntinodes(grid)) <==>
      PositionInGrid(grid, p) && exists ch :: ch != '.' && FrequencyAntinode(grid, ch, p)
  {
    var coords := Group(Elements(grid), ".");
    var m := FindAllAntinodes(grid);
    if p in AllListed(m) {
      var ch :| ch in m && p in m[ch];
      AntennaListAntinodes(grid, coords[ch]);
      ListedAntinodeIsFrequencyAntinode(grid, ch, p);
      assert ch != '.' by {
        CoordsWithCounterExact(grid, ".", ch);
      }
    }
    if PositionInGrid(grid, p) && exists ch :: ch != '.' && FrequencyAntinode(grid, ch, p) {
      var ch :| ch != '.' && FrequencyAntinode(grid, ch, p);
      FrequencyIsListed(grid, ch, p);
      FrequencyAntinodeIsListed(grid, ch, p);
      AntennaListAntinodes(grid, coords[ch]);
      assert p in m[ch];
    }
  }
}
