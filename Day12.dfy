// Day 12 of 2024 (src/aoc/yr_2024/day_12/puzzle.py): a garden map of plant
// letters is cut into regions of orthogonally connected cells of one plant;
// each region costs its area times its perimeter.
//
// The flood fill and the region scan are loops over growing sets, so they are
// methods. They are proved against `Reachable`, the relation "joined by a path
// of same-plant orthogonal steps". The perimeter is proved against
// `NeighbourTotal`, a sum over the region that no visiting order can change.
module Day12 {
  import opened Common
  import opened GridPoints

  /** The map's cells, row by row, as `Grid.grid` holds them. */
  type Cells = seq<seq<char>>

  /** `q` is an up, down, left or right neighbour of `p` growing the same plant. */
  predicate Matching(cells: Cells, p: Point, q: Point)
  {
    InCells(cells, p) && InCells(cells, q) && ManhattanDistance(p, q) == 1 &&
    cells[p.0][p.1] == cells[q.0][q.1]
  }

  lemma MatchingSymmetric(cells: Cells, p: Point, q: Point)
    requires Matching(cells, p, q)
    ensures Matching(cells, q, p)
  {
    ManhattanSymmetric(p, q);
  }

  /** The four orthogonal neighbours of a point. */
  function Neighbours4(p: Point): seq<Point>
  {
    [(p.0 - 1, p.1), (p.0, p.1 - 1), (p.0, p.1 + 1), (p.0 + 1, p.1)]
  }

  lemma DistanceOneIsNeighbour(p: Point, q: Point)
    requires ManhattanDistance(p, q) == 1
    ensures q in Neighbours4(p)
  {
  }

  /** The matching neighbours of `p`, as a set. */
  function MatchingSet(cells: Cells, p: Point): set<Point>
  {
    set q | q in Neighbours4(p) && Matching(cells, p, q)
  }

  /** How many of the four sides of `p` border a cell of the same plant. */
  function NeighbourCount(cells: Cells, p: Point): (n: nat)
    ensures n <= 4
  {
    var ns := Neighbours4(p);
    assert MatchingSet(cells, p) <= {ns[0]} + {ns[1]} + {ns[2]} + {ns[3]};
    SubsetCardBound(MatchingSet(cells, p), {ns[0]} + {ns[1]} + {ns[2]} + {ns[3]});
    |MatchingSet(cells, p)|
  }

  lemma SubsetCardBound(a: set<Point>, b: set<Point>)
    requires a <= b
    ensures |a| <= |b|
  {
    assert b == a + (b - a);
  }

  lemma MatchingSetMembership(cells: Cells, p: Point)
    ensures forall q :: q in MatchingSet(cells, p) <==> Matching(cells, p, q)
  {
    forall q | Matching(cells, p, q) ensures q in MatchingSet(cells, p) {
      DistanceOneIsNeighbour(p, q);
    }
  }

  // ----- Reachability -----

  /** A walk of one or more map cells, each step to a matching neighbour. */
  ghost predicate IsPath(cells: Cells, path: seq<Point>)
  {
    |path| > 0 && InCells(cells, path[0]) &&
    forall i :: 0 <= i < |path| - 1 ==> Matching(cells, path[i], path[i + 1])
  }

  /** `b` lies in the same region as `a`. */
  ghost predicate Reachable(cells: Cells, a: Point, b: Point)
  {
    exists path :: IsPath(cells, path) && path[0] == a && path[|path| - 1] == b
  }

  lemma ReachRefl(cells: Cells, a: Point)
    requires InCells(cells, a)
    ensures Reachable(cells, a, a)
  {
    assert IsPath(cells, [a]);
  }

  lemma ReachStep(cells: Cells, a: Point, b: Point, c: Point)
    requires Reachable(cells, a, b) && Matching(cells, b, c)
    ensures Reachable(cells, a, c)
  {
    var path :| IsPath(cells, path) && path[0] == a && path[|path| - 1] == b;
    var longer := path + [c];
    assert IsPath(cells, longer) by {
      forall i | 0 <= i < |longer| - 1 ensures Matching(cells, longer[i], longer[i + 1]) {
        if i < |path| - 1 {
          assert longer[i] == path[i] && longer[i + 1] == path[i + 1];
        }
      }
    }
  }

  /** Every point of a path grows the plant of its first point. */
  lemma {:induction false} PathSamePlant(cells: Cells, path: seq<Point>, k: nat)
    requires IsPath(cells, path) && k < |path|
    ensures InCells(cells, path[k]) && cells[path[k].0][path[k].1] == cells[path[0].0][path[0].1]
  {
    if k > 0 {
      PathSamePlant(cells, path, k - 1);
      assert Matching(cells, path[k - 1], path[k]);
    }
  }

  lemma ReachSamePlant(cells: Cells, a: Point, b: Point)
    requires Reachable(cells, a, b)
    ensures InCells(cells, a) && InCells(cells, b)
    ensures cells[b.0][b.1] == cells[a.0][a.1]
  {
    var path :| IsPath(cells, path) && path[0] == a && path[|path| - 1] == b;
    PathSamePlant(cells, path, |path| - 1);
  }

  lemma ReachSym(cells: Cells, a: Point, b: Point)
    requires Reachable(cells, a, b)
    ensures Reachable(cells, b, a)
  {
    var path :| IsPath(cells, path) && path[0] == a && path[|path| - 1] == b;
    var n := |path|;
    var back := seq(n, i requires 0 <= i < n => path[n - 1 - i]);
    ReachSamePlant(cells, a, b);
    forall i | 0 <= i < n - 1 ensures Matching(cells, back[i], back[i + 1]) {
      assert Matching(cells, path[n - 2 - i], path[n - 1 - i]);
      MatchingSymmetric(cells, path[n - 2 - i], path[n - 1 - i]);
    }
    assert IsPath(cells, back);
  }

  lemma ReachTrans(cells: Cells, a: Point, b: Point, c: Point)
    requires Reachable(cells, a, b) && Reachable(cells, b, c)
    ensures Reachable(cells, a, c)
  {
    var p1 :| IsPath(cells, p1) && p1[0] == a && p1[|p1| - 1] == b;
    var p2 :| IsPath(cells, p2) && p2[0] == b && p2[|p2| - 1] == c;
    var joined := p1 + p2[1..];
    forall i | 0 <= i < |joined| - 1 ensures Matching(cells, joined[i], joined[i + 1]) {
      if i < |p1| - 1 {
        assert joined[i] == p1[i] && joined[i + 1] == p1[i + 1];
      } else {
        var j := i - (|p1| - 1);
        assert joined[i] == p2[j] && joined[i + 1] == p2[j + 1];
      }
    }
    assert IsPath(cells, joined);
  }

  /** No matching step leads out of `s`. */
  ghost predicate Closed(cells: Cells, s: set<Point>)
  {
    forall p, q :: p in s && Matching(cells, p, q) ==> q in s
  }

  lemma {:induction false} PathStaysIn(cells: Cells, s: set<Point>, path: seq<Point>, k: nat)
    requires Closed(cells, s) && IsPath(cells, path) && path[0] in s && k < |path|
    ensures path[k] in s
  {
    if k > 0 {
      PathStaysIn(cells, s, path, k - 1);
      assert Matching(cells, path[k - 1], path[k]);
    }
  }

  /** A closed set holding `a` holds everything reachable from `a`. */
  lemma ClosedContainsReachable(cells: Cells, s: set<Point>, a: Point, b: Point)
    requires Closed(cells, s) && a in s && Reachable(cells, a, b)
    ensures b in s
  {
    var path :| IsPath(cells, path) && path[0] == a && path[|path| - 1] == b;
    PathStaysIn(cells, s, path, |path| - 1);
  }

  // ----- PGrid.adjacent_matching_points -----

  lemma RowMajorIsDistinct(ps: seq<Point>)
    requires StrictlyRowMajor(ps)
    ensures Distinct(ps)
  {
    forall i, j | 0 <= i < j < |ps| ensures ps[i] != ps[j] {
      assert RowMajorLess(ps[i], ps[j]);
    }
  }

  /**
   * `adjacent_matching_points`: the in-grid orthogonal neighbours holding the
   * same plant, in row-major order; `get` raises IndexError off the grid.
   */
  method AdjacentMatchingPoints(g: Grid<char>, point: Point) returns (r: Result<seq<Point>>)
    requires g.Valid()
    ensures r.Ok? <==> g.InGrid(point)
    ensures r.Err? ==> r.error == IndexError
    ensures r.Ok? ==> StrictlyRowMajor(r.value)
    ensures r.Ok? ==> forall q :: q in r.value <==> Matching(g.grid, point, q)
    ensures r.Ok? ==> |r.value| == NeighbourCount(g.grid, point)
  {
    var adjPoints := g.PositionsWithinDist(point, 1);
    var refVal := g.Get(point);
    if refVal.Err? {
      return Err(refVal.error);
    }
    var cells := g.grid;
    var v := refVal.value;
    var valid := Select(adjPoints, q => InCells(cells, q) && cells[q.0][q.1] == v);
    assert forall q :: q in valid <==> Matching(cells, point, q);
    MatchingSetMembership(cells, point);
    RowMajorIsDistinct(valid);
    DistinctCard(valid, MatchingSet(cells, point));
    return Ok(valid);
  }

  // ----- PGrid.contiguous_matching_region -----

  /** Every cell of `s` is reachable from `start`. */
  ghost predicate AllReachable(cells: Cells, start: Point, s: set<Point>)
  {
    forall q :: q in s ==> Reachable(cells, start, q)
  }

  /** Every matching step out of `acc` ends in `acc`, in `search` or at `cur`. */
  ghost predicate FrontierClosed(cells: Cells, acc: set<Point>, search: set<Point>, cur: Option<Point>)
  {
    forall p, q :: p in acc && Matching(cells, p, q) ==> q in acc || q in search || cur == Some(q)
  }

  /** The cells added to the search set are the unvisited matching neighbours of `pt`. */
  function Unvisited(ns: seq<Point>, acc: set<Point>, search: set<Point>): set<Point>
  {
    set x | x in ns && x !in acc && x !in search
  }

  /** Visiting `pt` and queueing its unvisited matching neighbours keeps the frontier closed. */
  lemma VisitKeepsFrontier(cells: Cells, acc: set<Point>, search: set<Point>, pt: Point, ns: seq<Point>)
    requires FrontierClosed(cells, acc, search, Some(pt))
    requires forall q :: q in ns <==> Matching(cells, pt, q)
    ensures FrontierClosed(cells, acc + {pt}, search + Unvisited(ns, acc + {pt}, search), None)
  {
  }

  /** Popping `x` from the search set to visit it next keeps the frontier closed. */
  lemma PopKeepsFrontier(cells: Cells, acc: set<Point>, search: set<Point>, x: Point)
    requires FrontierClosed(cells, acc, search, None) && x in search
    ensures FrontierClosed(cells, acc, search - {x}, Some(x))
  {
  }

  /** Queued neighbours of a reachable cell are reachable. */
  lemma VisitKeepsReachable(cells: Cells, start: Point, acc: set<Point>, search: set<Point>, pt: Point, ns: seq<Point>)
    requires AllReachable(cells, start, acc) && AllReachable(cells, start, search)
    requires Reachable(cells, start, pt)
    requires forall q :: q in ns <==> Matching(cells, pt, q)
    ensures AllReachable(cells, start, acc + {pt})
    ensures AllReachable(cells, start, search + Unvisited(ns, acc + {pt}, search))
  {
    forall x | x in Unvisited(ns, acc + {pt}, search) ensures Reachable(cells, start, x) {
      ReachStep(cells, start, pt, x);
    }
  }

  /** The flood fill's loop invariant, with `cur` the cell about to be visited. */
  ghost predicate FloodInv(cells: Cells, start: Point, acc: set<Point>, search: set<Point>, cur: Option<Point>)
  {
    (start in acc || cur == Some(start)) && acc <= AllCells(cells) &&
    AllReachable(cells, start, acc) && AllReachable(cells, start, search) &&
    (cur.Some? ==> Reachable(cells, start, cur.value) && cur.value !in acc && cur.value !in search) &&
    acc !! search && FrontierClosed(cells, acc, search, cur) &&
    (cur.None? ==> search == {})
  }

  /** The state just after a visit, before the next cell is popped. */
  ghost predicate VisitedInv(cells: Cells, start: Point, acc: set<Point>, search: set<Point>)
  {
    start in acc && acc <= AllCells(cells) &&
    AllReachable(cells, start, acc) && AllReachable(cells, start, search) &&
    acc !! search && FrontierClosed(cells, acc, search, None)
  }

  lemma VisitStep(cells: Cells, start: Point, acc: set<Point>, search: set<Point>, pt: Point, ns: seq<Point>)
    requires FloodInv(cells, start, acc, search, Some(pt))
    requires forall q :: q in ns <==> Matching(cells, pt, q)
    ensures VisitedInv(cells, start, acc + {pt}, search + Unvisited(ns, acc + {pt}, search))
    ensures |AllCells(cells) - (acc + {pt})| < |AllCells(cells) - acc|
  {
    AllCellsMembership(cells);
    ReachSamePlant(cells, start, pt);
    CardDrops(AllCells(cells), acc, pt);
    VisitKeepsFrontier(cells, acc, search, pt, ns);
    VisitKeepsReachable(cells, start, acc, search, pt, ns);
  }

  lemma PopStep(cells: Cells, start: Point, acc: set<Point>, search: set<Point>, x: Point)
    requires VisitedInv(cells, start, acc, search) && x in search
    ensures FloodInv(cells, start, acc, search - {x}, Some(x))
  {
    PopKeepsFrontier(cells, acc, search, x);
  }

  /** When the search set runs dry, the visited cells are all reachable ones. */
  lemma FloodDone(cells: Cells, start: Point, acc: set<Point>)
    requires VisitedInv(cells, start, acc, {})
    ensures Closed(cells, acc)
    ensures forall q :: q in acc <==> Reachable(cells, start, q)
    ensures forall q :: q in acc ==> InCells(cells, q) && cells[q.0][q.1] == cells[start.0][start.1]
  {
    forall q | Reachable(cells, start, q) ensures q in acc {
      ClosedContainsReachable(cells, acc, start, q);
    }
    forall q | q in acc ensures InCells(cells, q) && cells[q.0][q.1] == cells[start.0][start.1] {
      ReachSamePlant(cells, start, q);
    }
  }

  /**
   * `contiguous_matching_region`: a flood fill from `point` that pops cells
   * from a search set in any order. It raises IndexError off the grid;
   * otherwise the result holds the start, holds only cells of its plant, is
   * closed under matching steps, and is exactly the cells reachable from it.
   */
  method ContiguousMatchingRegion(g: Grid<char>, point: Point) returns (r: Result<set<Point>>)
    requires g.Valid()
    ensures r.Ok? <==> g.InGrid(point)
    ensures r.Err? ==> r.error == IndexError
    ensures r.Ok? ==> point in r.value && Closed(g.grid, r.value)
    ensures r.Ok? ==> forall q :: q in r.value ==>
      InCells(g.grid, q) && g.grid[q.0][q.1] == g.grid[point.0][point.1]
    ensures r.Ok? ==> forall q :: q in r.value <==> Reachable(g.grid, point, q)
  {
    var ptValue := g.Get(point);
    if ptValue.Err? {
      return Err(ptValue.error);
    }
    ghost var cells := g.grid;
    var search: set<Point> := {};
    var acc: set<Point> := {};
    var cur: Option<Point> := Some(point);
    ReachRefl(cells, point);
    while cur.Some?
      invariant FloodInv(cells, point, acc, search, cur)
      decreases |AllCells(cells) - acc|
    {
      var pt := cur.value;
      ReachSamePlant(cells, point, pt);
      var adj := AdjacentMatchingPoints(g, pt);
      assert adj.Ok?;
      VisitStep(cells, point, acc, search, pt, adj.value);
      if pt !in acc {
        acc := acc + {pt};
      }
      search := search + Unvisited(adj.value, acc, search);
      if search != {} {
        var x :| x in search;
        PopStep(cells, point, acc, search, x);
        search := search - {x};
        cur := Some(x);
      } else {
        cur := None;
      }
    }
    FloodDone(cells, point, acc);
    return Ok(acc);
  }

  // ----- PGrid.all_contiguous_regions -----

  /** The cells of all regions together. */
  function Union(regions: seq<set<Point>>): set<Point>
  {
    if regions == [] then {} else Union(regions[..|regions| - 1]) + regions[|regions| - 1]
  }

  lemma {:induction false} UnionContains(regions: seq<set<Point>>, i: nat, x: Point)
    requires i < |regions| && x in regions[i]
    ensures x in Union(regions)
  {
    if i < |regions| - 1 {
      UnionContains(regions[..|regions| - 1], i, x);
    }
  }

  lemma {:induction false} UnionWitness(regions: seq<set<Point>>, x: Point) returns (i: nat)
    requires x in Union(regions)
    ensures i < |regions| && x in regions[i]
  {
    if x in regions[|regions| - 1] {
      i := |regions| - 1;
    } else {
      i := UnionWitness(regions[..|regions| - 1], x);
    }
  }

  /** A non-empty set that is one whole equivalence class of `Reachable`. */
  ghost predicate IsRegion(cells: Cells, s: set<Point>)
  {
    s != {} && forall p, q :: p in s ==> (q in s <==> Reachable(cells, p, q))
  }

  /** Each entry is a region and no two entries share a cell. */
  ghost predicate DisjointRegions(cells: Cells, regions: seq<set<Point>>)
  {
    (forall i :: 0 <= i < |regions| ==> IsRegion(cells, regions[i])) &&
    (forall i, j :: 0 <= i < j < |regions| ==> regions[i] !! regions[j])
  }

  /** Every cell of the map lies in exactly one of the regions. */
  ghost predicate Partition(cells: Cells, regions: seq<set<Point>>)
  {
    DisjointRegions(cells, regions) && Union(regions) == AllCells(cells)
  }

  /** The cells reachable from one start form a region. */
  lemma ComponentIsRegion(cells: Cells, start: Point, s: set<Point>)
    requires start in s && forall q :: q in s <==> Reachable(cells, start, q)
    ensures IsRegion(cells, s)
  {
    forall p, q | p in s ensures q in s <==> Reachable(cells, p, q) {
      ReachSym(cells, start, p);
      if q in s {
        ReachTrans(cells, p, start, q);
      }
      if Reachable(cells, p, q) {
        ReachTrans(cells, start, p, q);
      }
    }
  }

  /** The region of a cell no earlier region holds shares no cell with them. */
  lemma NewRegionDisjoint(cells: Cells, regions: seq<set<Point>>, start: Point, s: set<Point>)
    requires DisjointRegions(cells, regions) && start !in Union(regions)
    requires start in s && forall q :: q in s <==> Reachable(cells, start, q)
    ensures DisjointRegions(cells, regions + [s])
  {
    ComponentIsRegion(cells, start, s);
    var all := regions + [s];
    forall i | 0 <= i < |regions| ensures regions[i] !! s {
      if x :| x in regions[i] && x in s {
        ReachSym(cells, start, x);
        assert start in regions[i];
        UnionContains(regions, i, start);
      }
    }
    forall i, j | 0 <= i < j < |all| ensures all[i] !! all[j] {
      if j == |regions| {
        assert all[i] == regions[i] && all[j] == s;
      } else {
        assert all[i] == regions[i] && all[j] == regions[j];
      }
    }
    forall i | 0 <= i < |all| ensures IsRegion(cells, all[i]) {
      if i < |regions| {
        assert all[i] == regions[i];
      }
    }
  }

  lemma UnionSnoc(regions: seq<set<Point>>, s: set<Point>)
    ensures Union(regions + [s]) == Union(regions) + s
  {
    assert (regions + [s])[..|regions|] == regions;
  }

  /**
   * `all_contiguous_regions`: scans the map row by row and floods every cell
   * not yet seen. The regions partition the map: each is a whole region and
   * every cell lies in exactly one.
   */
  method AllContiguousRegions(g: Grid<char>) returns (regions: seq<set<Point>>)
    requires g.Valid()
    ensures Partition(g.grid, regions)
  {
    ghost var cells := g.grid;
    AllCellsMembership(cells);
    var pointsSeen: set<Point> := {};
    regions := [];
    var row := 0;
    while row < g.rows
      invariant 0 <= row <= g.rows
      invariant pointsSeen == Union(regions)
      invariant DisjointRegions(cells, regions)
      invariant pointsSeen <= AllCells(cells)
      invariant forall q :: InCells(cells, q) && q.0 < row ==> q in pointsSeen
    {
      var col := 0;
      while col < g.cols
        invariant 0 <= col <= g.cols
        invariant pointsSeen == Union(regions)
        invariant DisjointRegions(cells, regions)
        invariant pointsSeen <= AllCells(cells)
        invariant forall q :: InCells(cells, q) && (q.0 < row || (q.0 == row && q.1 < col)) ==> q in pointsSeen
      {
        var point := (row, col);
        if point !in pointsSeen {
          var newRegion := ContiguousMatchingRegion(g, point);
          assert newRegion.Ok?;
          NewRegionDisjoint(cells, regions, point, newRegion.value);
          UnionSnoc(regions, newRegion.value);
          regions := regions + [newRegion.value];
          pointsSeen := pointsSeen + newRegion.value;
        }
        col := col + 1;
      }
      row := row + 1;
    }
  }

  // ----- PGrid.perimeter_length and fence_price -----

  ghost function Pick(s: set<Point>): Point
    requires s != {}
  {
    var p :| p in s; p
  }

  /** The matching-neighbour counts of a set of cells, summed. */
  ghost function NeighbourTotal(cells: Cells, s: set<Point>): nat
  {
    if s == {} then 0
    else NeighbourCount(cells, Pick(s)) + NeighbourTotal(cells, s - {Pick(s)})
  }

  /** The total does not depend on which cell is taken out first. */
  lemma {:induction false} NeighbourTotalRemove(cells: Cells, s: set<Point>, y: Point)
    requires y in s
    ensures NeighbourTotal(cells, s) == NeighbourCount(cells, y) + NeighbourTotal(cells, s - {y})
    decreases |s|
  {
    var x := Pick(s);
    if y != x {
      calc {
        NeighbourTotal(cells, s);
        NeighbourCount(cells, x) + NeighbourTotal(cells, s - {x});
        { NeighbourTotalRemove(cells, s - {x}, y); }
        NeighbourCount(cells, x) + NeighbourCount(cells, y) + NeighbourTotal(cells, s - {x} - {y});
        { assert s - {x} - {y} == s - {y} - {x};
          NeighbourTotalRemove(cells, s - {y}, x); }
        NeighbourCount(cells, y) + NeighbourTotal(cells, s - {y});
      }
    }
  }

  lemma {:induction false} NeighbourTotalBound(cells: Cells, s: set<Point>)
    ensures NeighbourTotal(cells, s) <= 4 * |s|
    decreases |s|
  {
    if s != {} {
      NeighbourTotalBound(cells, s - {Pick(s)});
    }
  }

  /**
   * `perimeter_length`: four sides per cell less one for every matching
   * neighbour, so between 0 and 4·area. `adjacent_matching_points` raises
   * IndexError for a cell off the grid.
   */
  method PerimeterLength(g: Grid<char>, region: set<Point>) returns (r: Result<int>)
    requires g.Valid()
    ensures r.Ok? <==> forall q :: q in region ==> g.InGrid(q)
    ensures r.Err? ==> r.error == IndexError
    ensures r.Ok? ==> r.value == 4 * |region| - NeighbourTotal(g.grid, region)
    ensures r.Ok? ==> 0 <= r.value <= 4 * |region|
  {
    var rest := region;
    var total := 0;
    while rest != {}
      invariant rest <= region
      invariant total + NeighbourTotal(g.grid, rest) == NeighbourTotal(g.grid, region)
      invariant forall q :: q in region - rest ==> g.InGrid(q)
      decreases |rest|
    {
      var p :| p in rest;
      var adj := AdjacentMatchingPoints(g, p);
      if adj.Err? {
        return Err(adj.error);
      }
      NeighbourTotalRemove(g.grid, rest, p);
      total := total + |adj.value|;
      rest := rest - {p};
    }
    NeighbourTotalBound(g.grid, region);
    return Ok(4 * |region| - total);
  }

  /** The price of a region: its area times its perimeter. */
  ghost function Price(cells: Cells, region: set<Point>): int
  {
    |region| * (4 * |region| - NeighbourTotal(cells, region))
  }

  lemma PriceBounds(a: nat, per: int)
    requires 0 <= per <= 4 * a
    ensures 0 <= a * per <= 4 * a * a
  {
  }

  /** `fence_price`: area times perimeter, at most 4·area². */
  method FencePrice(g: Grid<char>, region: set<Point>) returns (r: Result<int>)
    requires g.Valid()
    ensures r.Ok? <==> forall q :: q in region ==> g.InGrid(q)
    ensures r.Err? ==> r.error == IndexError
    ensures r.Ok? ==> r.value == Price(g.grid, region)
    ensures r.Ok? ==> 0 <= r.value <= 4 * |region| * |region|
  {
    var area := |region|;
    var perimeter := PerimeterLength(g, region);
    if perimeter.Err? {
      return Err(perimeter.error);
    }
    PriceBounds(area, perimeter.value);
    return Ok(area * perimeter.value);
  }

  // ----- part1 -----

  /** The prices of a list of regions, summed. */
  ghost function PriceSum(cells: Cells, regions: seq<set<Point>>): int
  {
    if regions == [] then 0
    else PriceSum(cells, regions[..|regions| - 1]) + Price(cells, regions[|regions| - 1])
  }

  /** The areas of a list of regions, summed. */
  function AreaSum(regions: seq<set<Point>>): nat
  {
    if regions == [] then 0 else AreaSum(regions[..|regions| - 1]) + |regions[|regions| - 1]|
  }

  /** Disjoint regions' areas add up to the size of their union. */
  lemma {:induction false} AreaSumIsUnionSize(regions: seq<set<Point>>)
    requires forall i, j :: 0 <= i < j < |regions| ==> regions[i] !! regions[j]
    ensures AreaSum(regions) == |Union(regions)|
  {
    if regions != [] {
      var init := regions[..|regions| - 1];
      var last := regions[|regions| - 1];
      AreaSumIsUnionSize(init);
      forall x | x in Union(init) ensures x !in last {
        var i := UnionWitness(init, x);
        assert regions[i] !! last;
      }
    }
  }

  /** A partition's areas add up to the number of cells in the map. */
  lemma PartitionCoversEachCellOnce(cells: Cells, regions: seq<set<Point>>)
    requires Partition(cells, regions)
    ensures AreaSum(regions) == |AllCells(cells)|
  {
    AreaSumIsUnionSize(regions);
  }

  /**
   * `part1`: the fence prices of all regions, summed. The regions found are
   * returned as a ghost so the total can be stated over them.
   */
  method Part1(g: Grid<char>) returns (total: int, ghost regions: seq<set<Point>>)
    requires g.Valid()
    ensures Partition(g.grid, regions)
    ensures total == PriceSum(g.grid, regions)
    ensures total >= 0
  {
    var allRegions := AllContiguousRegions(g);
    regions := allRegions;
    AllCellsMembership(g.grid);
    total := 0;
    for i := 0 to |allRegions|
      invariant total == PriceSum(g.grid, allRegions[..i])
      invariant total >= 0
    {
      forall q | q in allRegions[i] ensures g.InGrid(q) {
        UnionContains(allRegions, i, q);
      }
      var price := FencePrice(g, allRegions[i]);
      assert allRegions[..i + 1][..i] == allRegions[..i];
      total := total + price.value;
    }
    assert allRegions[..|allRegions|] == allRegions;
  }
}
