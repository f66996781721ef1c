// Reindeer Maze (src/aoc/yr_2024/day_16/puzzle.py): the cheapest walk from a
// start tile to an end tile, where a step straight on costs 1, a quarter turn
// and step 1001 and a reversal and step 2001, found by a priority-queue
// search; part 2 keeps every equally cheap predecessor and counts the tiles
// on the cheapest walks.
module Day16 {
  import opened Common

  type Maze = seq<string>


  // ----- directions and the cost of a move -----

  /** The keys "n", "s", "e", "w" of `direc_incrs`. */
  datatype Dir = N | S | E | W

  /** `direc_incrs.keys()`, in their order. */
  const Directions: seq<Dir> := [N, S, E, W]

  /** `direc_incrs`: (row, column) increments. */
  function Incr(d: Dir): Point
  {
    match d
    case N => (-1, 0)
    case S => (1, 0)
    case E => (0, 1)
    case W => (0, -1)
  }

  /** The key string's one character. */
  function DirChar(d: Dir): char
  {
    match d
    case N => 'n'
    case S => 's'
    case E => 'e'
    case W => 'w'
  }

  /** A direction that only changes the row. */
  predicate IsVertical(d: Dir)
  {
    Incr(d).1 == 0
  }

  /** Two directions whose increments cancel. */
  predicate Opposite(a: Dir, b: Dir)
  {
    Incr(a).0 + Incr(b).0 == 0 && Incr(a).1 + Incr(b).1 == 0
  }

  /**
   * The cost of stepping in direction `next` after arriving in direction
   * `prev`, as `dijkstra_maze` writes it: 1 straight on, 1001 for a quarter
   * turn, 2001 for a reversal.
   */
  function MoveCost(prev: Dir, next: Dir): (c: nat)
    ensures c == 1 <==> prev == next
    ensures c == 1001 <==> IsVertical(prev) != IsVertical(next)
    ensures c == 2001 <==> Opposite(prev, next)
  {
    if prev == next then 1
    else if prev in {N, S} && next in {E, W} then 1001
    else if prev in {E, W} && next in {N, S} then 1001
    else 2001
  }

  /** The same cost as `dijkstra_maze_relaxed` writes it, testing the key characters against "ns" and "we". */
  function MoveCostRelaxed(prev: Dir, next: Dir): nat
  {
    if prev == next then 1
    else if (DirChar(prev) in "ns" && DirChar(next) in "ew") || (DirChar(prev) in "we" && DirChar(next) in "ns") then 1001
    else 2001
  }

  /** Both versions charge the same for every pair of directions. */
  lemma MoveCostsAgree(prev: Dir, next: Dir)
    ensures MoveCostRelaxed(prev, next) == MoveCost(prev, next)
  {
    assert DirChar(prev) in "ns" <==> prev in {N, S};
    assert DirChar(prev) in "we" <==> prev in {E, W};
    assert DirChar(next) in "ns" <==> next in {N, S};
    assert DirChar(next) in "ew" <==> next in {E, W};
  }

  // ----- cells -----

  /** The cell one step from `p` in direction `d`. */
  function Neighbour(p: Point, d: Dir): Point
  {
    (p.0 + Incr(d).0, p.1 + Incr(d).1)
  }

  /** The cells the search may enter: on the grid and holding `S`, `E` or `.`. */
  predicate Passable(maze: Maze, p: Point)
    requires Rectangular(maze)
  {
    0 <= p.0 < |maze| && 0 <= p.1 < |maze[0]| && maze[p.0][p.1] in "SE."
  }

  /**
   * A walk from `start` to `end`: consecutive cells adjacent and every cell
   * after the first passable.
   */
  predicate ValidPath(maze: Maze, start: Point, end: Point, path: seq<Point>)
    requires Rectangular(maze)
  {
    |path| > 0 && path[0] == start && path[|path| - 1] == end &&
    forall i :: 0 < i < |path| ==> Adjacent(path[i - 1], path[i]) && Passable(maze, path[i])
  }

  /**
   * The same walk read backwards, as it is collected from the end: it starts
   * at `end`, each next cell is adjacent to the one before, and every cell
   * but the last is passable.
   */
  predicate Trail(maze: Maze, end: Point, trail: seq<Point>)
    requires Rectangular(maze)
  {
    |trail| > 0 && trail[0] == end &&
    forall i :: 0 <= i < |trail| - 1 ==> Adjacent(trail[i + 1], trail[i]) && Passable(maze, trail[i])
  }

  /** A trail from `end` that stops at `start`, reversed, is a walk from `start` to `end`. */
  lemma TrailReversed(maze: Maze, start: Point, end: Point, trail: seq<Point>)
    requires Rectangular(maze) && Trail(maze, end, trail) && trail[|trail| - 1] == start
    ensures ValidPath(maze, start, end, Reversed(trail))
  {
    var r := Reversed(trail);
    forall i | 0 < i < |r|
      ensures Adjacent(r[i - 1], r[i]) && Passable(maze, r[i])
    {
      var j := |trail| - 1 - i;
      assert r[i] == trail[j] && r[i - 1] == trail[j + 1];
    }
  }

  // ----- the priority queue -----

  /** A queue item `(cost, position, direction)`. */
  datatype Entry = Entry(cost: nat, pos: Point, dir: Dir)

  /** How the direction strings compare: "e" < "n" < "s" < "w". */
  function DirRank(d: Dir): nat
  {
    match d
    case E => 0
    case N => 1
    case S => 2
    case W => 3
  }

  /** Python's tuple order on queue items: cost, then row, then column, then direction. */
  predicate EntryLe(a: Entry, b: Entry)
  {
    a.cost < b.cost || (a.cost == b.cost &&
      (a.pos.0 < b.pos.0 || (a.pos.0 == b.pos.0 &&
        (a.pos.1 < b.pos.1 || (a.pos.1 == b.pos.1 && DirRank(a.dir) <= DirRank(b.dir))))))
  }

  /**
   * The order is total and antisymmetric, so the least item of a queue is
   * one value whatever the heap's layout: `heappop` is determined by the
   * queue's contents.
   */
  lemma EntryOrderTotal(a: Entry, b: Entry)
    ensures EntryLe(a, b) || EntryLe(b, a)
    ensures EntryLe(a, b) && EntryLe(b, a) ==> a == b
  {
    if EntryLe(a, b) && EntryLe(b, a) {
      assert a.dir == b.dir by {
        match a.dir
        case N =>
        case S =>
        case E =>
        case W =>
      }
    }
  }

  /** The position of a least item. */
  function MinIndex(q: seq<Entry>): (i: nat)
    requires |q| > 0
    ensures i < |q| && forall j :: 0 <= j < |q| ==> EntryLe(q[i], q[j])
  {
    if |q| == 1 then 0
    else
      var i := MinIndex(q[..|q| - 1]);
      if EntryLe(q[i], q[|q| - 1]) then i else |q| - 1
  }

  /** `heappop`: a least item and the queue without it. */
  function Pop(q: seq<Entry>): (r: (Entry, seq<Entry>))
    requires |q| > 0
    ensures r.0 in q && forall e :: e in q ==> EntryLe(r.0, e)
    ensures multiset(r.1) + multiset{r.0} == multiset(q)
    ensures forall e :: e in r.1 ==> e in q
  {
    var i := MinIndex(q);
    assert q == q[..i] + [q[i]] + q[i + 1..];
    (q[i], q[..i] + q[i + 1..])
  }

  // ----- part 1: one parent per cell -----

  /** The search's state: the queue and the `costs` and `parent` dicts. */
  datatype Search = Search(queue: seq<Entry>, costs: map<Point, nat>, parent: map<Point, Option<Point>>)

  /**
   * A recorded parent: only the start has none; any other cell was entered
   * from an adjacent cell of strictly lower recorded cost, and is passable.
   */
  predicate ParentOk(maze: Maze, start: Point, s: Search, p: Point)
    requires Rectangular(maze) && p in s.parent
  {
    match s.parent[p]
    case None => p == start
    case Some(q) => p in s.costs && q in s.costs && s.costs[q] < s.costs[p] && Adjacent(q, p) && Passable(maze, p)
  }

  /**
   * What the search keeps: the start has cost 0 and no parent, `parent` and
   * `costs` have the same keys, every parent is sound, and every queued item
   * costs at least its cell's recorded cost.
   */
  ghost predicate SearchInv(maze: Maze, start: Point, s: Search)
    requires Rectangular(maze)
  {
    s.parent.Keys == s.costs.Keys && start in s.costs && s.costs[start] == 0 && s.parent[start] == None &&
    (forall p :: p in s.parent ==> ParentOk(maze, start, s, p)) &&
    (forall e :: e in s.queue ==> e.pos in s.costs && s.costs[e.pos] <= e.cost)
  }

  /** One neighbour of the popped item, as the body of the inner loop treats it. */
  function Relax(maze: Maze, cur: Entry, s: Search, d: Dir): Search
    requires Rectangular(maze)
  {
    var np := Neighbour(cur.pos, d);
    if !Passable(maze, np) then s
    else
      var newCost := cur.cost + MoveCost(cur.dir, d);
      if np !in s.costs || newCost < s.costs[np] then
        Search(s.queue + [Entry(newCost, np, d)], s.costs[np := newCost], s.parent[np := Some(cur.pos)])
      else s
  }

  /**
   * A recorded cost is only ever replaced by a strictly smaller one, and then
   * the popped cell becomes the parent; otherwise the parent stays. Only the
   * neighbour can be added.
   */
  lemma RelaxOnlyLowers(maze: Maze, cur: Entry, s: Search, d: Dir)
    requires Rectangular(maze)
    ensures var r := Relax(maze, cur, s, d);
      s.costs.Keys <= r.costs.Keys && r.costs.Keys <= s.costs.Keys + {Neighbour(cur.pos, d)} &&
      (forall p :: p in s.costs ==> r.costs[p] <= s.costs[p]) &&
      (forall p :: p in r.costs && (p !in s.costs || r.costs[p] < s.costs[p]) ==>
        p == Neighbour(cur.pos, d) && p in r.parent && r.parent[p] == Some(cur.pos)) &&
      (forall p :: p in s.costs && p in s.parent && r.costs[p] == s.costs[p] ==> p in r.parent && r.parent[p] == s.parent[p])
  {
  }

  /** A neighbour of a cell is adjacent to it and different from it. */
  lemma NeighbourAdjacent(p: Point, d: Dir)
    ensures Adjacent(p, Neighbour(p, d)) && Neighbour(p, d) != p
  {
  }

  /** The search's invariant, with the popped item's cell recorded at no more than its cost. */
  ghost predicate Explorable(maze: Maze, start: Point, cur: Entry, s: Search)
    requires Rectangular(maze)
  {
    SearchInv(maze, start, s) && cur.pos in s.costs && s.costs[cur.pos] <= cur.cost
  }

  /** Relaxing from a popped item keeps the search's invariant. */
  lemma RelaxKeeps(maze: Maze, start: Point, cur: Entry, s: Search, d: Dir)
    requires Rectangular(maze) && Explorable(maze, start, cur, s)
    ensures Explorable(maze, start, cur, Relax(maze, cur, s, d))
  {
    var np := Neighbour(cur.pos, d);
    NeighbourAdjacent(cur.pos, d);
    RelaxOnlyLowers(maze, cur, s, d);
    var r := Relax(maze, cur, s, d);
    if r != s {
      var newCost := cur.cost + MoveCost(cur.dir, d);
      assert np != start;
      forall p | p in r.parent
        ensures ParentOk(maze, start, r, p)
      {
        if p != np {
          assert ParentOk(maze, start, s, p);
        }
      }
    }
  }

  /** The inner loop over `directions` from the popped item, up to the `k`-th direction. */
  function ExploreUpTo(maze: Maze, cur: Entry, s: Search, k: nat): Search
    requires Rectangular(maze) && k <= |Directions|
  {
    if k == 0 then s else Relax(maze, cur, ExploreUpTo(maze, cur, s, k - 1), Directions[k - 1])
  }

  /** The whole inner loop keeps the search's invariant. */
  lemma {:induction false} ExploreKeeps(maze: Maze, start: Point, cur: Entry, s: Search, k: nat)
    requires Rectangular(maze) && Explorable(maze, start, cur, s) && k <= |Directions|
    ensures Explorable(maze, start, cur, ExploreUpTo(maze, cur, s, k))
  {
    if k > 0 {
      var before := ExploreUpTo(maze, cur, s, k - 1);
      ExploreKeeps(maze, start, cur, s, k - 1);
      RelaxKeeps(maze, start, cur, before, Directions[k - 1]);
      assert ExploreUpTo(maze, cur, s, k) == Relax(maze, cur, before, Directions[k - 1]);
    }
  }

  /** The inner loop of `dijkstra_maze`: every direction from the popped item. */
  method Explore(maze: Maze, cur: Entry, s: Search) returns (r: Search)
    requires Rectangular(maze)
    ensures r == ExploreUpTo(maze, cur, s, |Directions|)
  {
    r := s;
    for k := 0 to |Directions|
      invariant r == ExploreUpTo(maze, cur, s, k)
    {
      r := RelaxStep(maze, cur, r, Directions[k]);
    }
  }

  /** The body of that loop for one direction `newDir`. */
  method RelaxStep(maze: Maze, cur: Entry, s: Search, newDir: Dir) returns (r: Search)
    requires Rectangular(maze)
    ensures r == Relax(maze, cur, s, newDir)
  {
    r := s;
    var (dx, dy) := Incr(newDir);
    var np := (cur.pos.0 + dx, cur.pos.1 + dy);
    if 0 <= np.0 < |maze| && 0 <= np.1 < |maze[0]| && maze[np.0][np.1] in "SE." {
      var newCost := cur.cost + MoveCost(cur.dir, newDir);
      if np !in r.costs || newCost < r.costs[np] {
        r := Search(r.queue + [Entry(newCost, np, newDir)], r.costs[np := newCost], r.parent[np := Some(cur.pos)]);
      }
    }
  }

  /** The cells met following `parent` from `p`: `p`, its parent, and so on back to the start. */
  ghost function Chain(maze: Maze, start: Point, s: Search, p: Point): (c: seq<Point>)
    requires Rectangular(maze) && SearchInv(maze, start, s) && p in s.parent
    ensures Trail(maze, p, c) && c[|c| - 1] == start && |c| <= s.costs[p] + 1
    decreases s.costs[p]
  {
    assert ParentOk(maze, start, s, p);
    match s.parent[p]
    case None => [p]
    case Some(q) =>
      var rest := Chain(maze, start, s, q);
      assert forall i :: 1 <= i < |rest| + 1 ==> ([p] + rest)[i] == rest[i - 1];
      [p] + rest
  }

  /** The chain from an optional cell: empty past the start. */
  ghost function ChainOf(maze: Maze, start: Point, s: Search, p: Option<Point>): seq<Point>
    requires Rectangular(maze) && SearchInv(maze, start, s) && (p.Some? ==> p.value in s.parent)
  {
    if p.Some? then Chain(maze, start, s, p.value) else []
  }

  lemma ChainStep(maze: Maze, start: Point, s: Search, p: Point)
    requires Rectangular(maze) && SearchInv(maze, start, s) && p in s.parent
    ensures s.parent[p].Some? ==> s.parent[p].value in s.parent
    ensures Chain(maze, start, s, p) == [p] + ChainOf(maze, start, s, s.parent[p])
  {
    assert ParentOk(maze, start, s, p);
  }

  /** The path reconstruction of `dijkstra_maze`: follow `parent` from `end`, then reverse. */
  method Reconstruct(ghost maze: Maze, ghost start: Point, s: Search, end: Point) returns (path: seq<Point>)
    requires Rectangular(maze) && SearchInv(maze, start, s) && end in s.parent
    ensures path == Reversed(Chain(maze, start, s, end))
  {
    var walk: seq<Point> := [];
    var current: Option<Point> := Some(end);
    while current.Some?
      invariant current.Some? ==> current.value in s.parent
      invariant walk + ChainOf(maze, start, s, current) == Chain(maze, start, s, end)
      decreases if current.Some? then s.costs[current.value] + 1 else 0
    {
      var p := current.value;
      assert ParentOk(maze, start, s, p);
      ChainStep(maze, start, s, p);
      assert walk + [p] + ChainOf(maze, start, s, s.parent[p]) == walk + ChainOf(maze, start, s, current);
      walk := walk + [p];
      current := s.parent[p];
    }
    path := Reversed(walk);
  }

  /** What `dijkstra_maze` returns: the end's cost and path, ("boo", "hoo") as Unreachable, or no answer within the fuel. */
  datatype Outcome = Reached(cost: nat, path: seq<Point>) | Unreachable | OutOfFuel

  /**
   * `dijkstra_maze`: pops the least item until it is at `end`, then returns
   * its cost and the path rebuilt from `parent`. The path is a walk from
   * `start` to `end` over passable cells, no longer than its cost allows.
   * `fuel` bounds the number of pops.
   */
  method DijkstraMaze(maze: Maze, start: Point, end: Point, direc: Dir, fuel: nat) returns (r: Result<Outcome>)
    requires Rectangular(maze)
    ensures r.Err? <==> |maze| == 0
    ensures r.Err? ==> r.error == IndexError
    ensures r.Ok? && r.value.Reached? ==> ValidPath(maze, start, end, r.value.path) && |r.value.path| <= r.value.cost + 1
    ensures |maze| > 0 && fuel > 0 && start == end ==> r == Ok(Reached(0, [start]))
  {
    if |maze| == 0 {
      return Err(IndexError);
    }
    var s := Search([Entry(0, start, direc)], map[start := 0], map[start := None]);
    var steps := fuel;
    while |s.queue| > 0
      invariant SearchInv(maze, start, s)
      invariant start == end ==> steps == fuel && s.queue == [Entry(0, start, direc)]
      decreases steps
    {
      if steps == 0 {
        return Ok(OutOfFuel);
      }
      var (cur, rest) := Pop(s.queue);
      steps := steps - 1;
      s := s.(queue := rest);
      if cur.pos == end {
        var path := Reconstruct(maze, start, s, end);
        TrailReversed(maze, start, end, Chain(maze, start, s, end));
        if start == end {
          ChainStep(maze, start, s, start);
          assert path == [start];
        }
        return Ok(Reached(cur.cost, path));
      }
      ghost var before := s;
      s := Explore(maze, cur, s);
      ExploreKeeps(maze, start, cur, before, |Directions|);
    }
    return Ok(Unreachable);
  }

  /** `part1`: from the second-to-last row's first column to the second row's last column, facing east. */
  method Part1(maze: Maze, fuel: nat) returns (r: Result<Outcome>)
    requires Rectangular(maze)
    ensures r.Err? <==> |maze| == 0
    ensures r.Ok? && r.value.Reached? ==> ValidPath(maze, (|maze| - 2, 1), (1, |maze[0]| - 2), r.value.path)
  {
    if |maze| == 0 {
      return Err(IndexError);
    }
    var nrows := |maze|;
    var ncols := |maze[0]|;
    r := DijkstraMaze(maze, (nrows - 2, 1), (1, ncols - 2), E, fuel);
  }

  // ----- part 2: every equally cheap parent -----

  /** Part 2's search key: a cell and the direction it was entered in. */
  type Key = (Point, Dir)

  /** The key of a queue item. */
  function KeyOf(e: Entry): Key
  {
    (e.pos, e.dir)
  }

  /** Part 2's state: the queue and the `costs` and `parents` dicts over keys. */
  datatype Graph = Graph(queue: seq<Entry>, costs: map<Key, nat>, parents: map<Key, seq<Key>>)

  /**
   * Recorded parents: every key but the start's has a passable cell and at
   * least one parent; every parent has a strictly lower recorded cost and an
   * adjacent cell.
   */
  predicate ParentsOk(maze: Maze, start: Key, g: Graph, k: Key)
    requires Rectangular(maze) && k in g.parents && k in g.costs
  {
    (k != start ==> Passable(maze, k.0) && g.parents[k] != []) &&
    forall j :: 0 <= j < |g.parents[k]| ==>
      g.parents[k][j] in g.costs && g.costs[g.parents[k][j]] < g.costs[k] && Adjacent(g.parents[k][j].0, k.0)
  }

  /** What part 2's search keeps, as SearchInv does for part 1. */
  ghost predicate GraphInv(maze: Maze, start: Key, g: Graph)
    requires Rectangular(maze)
  {
    g.parents.Keys == g.costs.Keys && start in g.costs && g.costs[start] == 0 && g.parents[start] == [] &&
    (forall k :: k in g.parents ==> ParentsOk(maze, start, g, k)) &&
    (forall e :: e in g.queue ==> KeyOf(e) in g.costs && g.costs[KeyOf(e)] <= e.cost)
  }

  /** One neighbour of the popped item in `dijkstra_maze_relaxed`. */
  function RelaxKey(maze: Maze, cur: Entry, g: Graph, d: Dir): (r: Graph)
    requires Rectangular(maze) && g.parents.Keys == g.costs.Keys
    ensures r.parents.Keys == r.costs.Keys
  {
    var np := Neighbour(cur.pos, d);
    if !Passable(maze, np) then g
    else
      var newCost := cur.cost + MoveCostRelaxed(cur.dir, d);
      var newKey := (np, d);
      if newKey !in g.costs || newCost < g.costs[newKey] then
        Graph(g.queue + [Entry(newCost, np, d)], g.costs[newKey := newCost], g.parents[newKey := [KeyOf(cur)]])
      else if newCost == g.costs[newKey] then
        g.(parents := g.parents[newKey := g.parents[newKey] + [KeyOf(cur)]])
      else g
  }

  /**
   * A strictly cheaper arrival records its cost and replaces the parent list
   * by the popped key; an arrival at the recorded cost appends the popped key
   * to the list; any other arrival changes nothing. No other key changes.
   */
  lemma RelaxKeyParents(maze: Maze, cur: Entry, g: Graph, d: Dir)
    requires Rectangular(maze) && g.parents.Keys == g.costs.Keys
    ensures var r := RelaxKey(maze, cur, g, d);
      var k := (Neighbour(cur.pos, d), d);
      var newCost := cur.cost + MoveCostRelaxed(cur.dir, d);
      (Passable(maze, k.0) && (k !in g.costs || newCost < g.costs[k]) ==>
        k in r.costs && r.costs[k] == newCost && r.parents[k] == [KeyOf(cur)]) &&
      (Passable(maze, k.0) && k in g.costs && newCost == g.costs[k] ==>
        r.costs == g.costs && r.parents[k] == g.parents[k] + [KeyOf(cur)]) &&
      (!Passable(maze, k.0) || (k in g.costs && newCost > g.costs[k]) ==> r == g) &&
      (forall k2 :: k2 in g.costs && k2 != k ==> k2 in r.costs && r.costs[k2] == g.costs[k2] && r.parents[k2] == g.parents[k2]) &&
      r.costs.Keys <= g.costs.Keys + {k}
  {
  }

  /** Part 2's invariant, with the popped item's key recorded at no more than its cost. */
  ghost predicate KeyExplorable(maze: Maze, start: Key, cur: Entry, g: Graph)
    requires Rectangular(maze)
  {
    GraphInv(maze, start, g) && KeyOf(cur) in g.costs && g.costs[KeyOf(cur)] <= cur.cost
  }

  /** Relaxing from a popped item keeps part 2's invariant. */
  lemma RelaxKeyKeeps(maze: Maze, start: Key, cur: Entry, g: Graph, d: Dir)
    requires Rectangular(maze) && KeyExplorable(maze, start, cur, g)
    ensures KeyExplorable(maze, start, cur, RelaxKey(maze, cur, g, d))
  {
    var np := Neighbour(cur.pos, d);
    var newKey := (np, d);
    NeighbourAdjacent(cur.pos, d);
    RelaxKeyParents(maze, cur, g, d);
    var r := RelaxKey(maze, cur, g, d);
    if r != g {
      assert Passable(maze, np);
      assert newKey != start;
      forall k | k in r.parents
        ensures ParentsOk(maze, start, r, k)
      {
        if k != newKey {
          ParentsOkLowered(maze, start, g, r, k);
        } else if newKey in g.costs && r.costs[newKey] == g.costs[newKey] {
          ParentsOkAppended(maze, start, g, r, k, KeyOf(cur));
        }
      }
    }
  }

  /** A key whose cost and parents stay keeps sound parents when other costs only go down. */
  lemma ParentsOkLowered(maze: Maze, start: Key, g: Graph, r: Graph, k: Key)
    requires Rectangular(maze) && k in g.parents && k in g.costs && k in r.parents && k in r.costs
    requires ParentsOk(maze, start, g, k)
    requires r.costs[k] == g.costs[k] && r.parents[k] == g.parents[k]
    requires forall q :: q in g.costs ==> q in r.costs && r.costs[q] <= g.costs[q]
    ensures ParentsOk(maze, start, r, k)
  {
  }

  /** Appending a parent of lower cost and adjacent cell keeps the parents sound. */
  lemma ParentsOkAppended(maze: Maze, start: Key, g: Graph, r: Graph, k: Key, q: Key)
    requires Rectangular(maze) && k in g.parents && k in g.costs && k in r.parents && k in r.costs
    requires ParentsOk(maze, start, g, k)
    requires r.costs[k] == g.costs[k] && r.parents[k] == g.parents[k] + [q]
    requires q in r.costs && r.costs[q] < r.costs[k] && Adjacent(q.0, k.0)
    requires forall p :: p in g.costs ==> p in r.costs && r.costs[p] <= g.costs[p]
    ensures ParentsOk(maze, start, r, k)
  {
    forall j | 0 <= j < |r.parents[k]|
      ensures r.parents[k][j] in r.costs && r.costs[r.parents[k][j]] < r.costs[k] && Adjacent(r.parents[k][j].0, k.0)
    {
      if j < |g.parents[k]| {
        assert r.parents[k][j] == g.parents[k][j];
      }
    }
  }

  /** The inner loop of `dijkstra_maze_relaxed` up to the `k`-th direction. */
  function ExploreKeysUpTo(maze: Maze, cur: Entry, g: Graph, k: nat): (r: Graph)
    requires Rectangular(maze) && g.parents.Keys == g.costs.Keys && k <= |Directions|
    ensures r.parents.Keys == r.costs.Keys
  {
    if k == 0 then g else RelaxKey(maze, cur, ExploreKeysUpTo(maze, cur, g, k - 1), Directions[k - 1])
  }

  lemma {:induction false} ExploreKeysKeeps(maze: Maze, start: Key, cur: Entry, g: Graph, k: nat)
    requires Rectangular(maze) && KeyExplorable(maze, start, cur, g) && k <= |Directions|
    ensures KeyExplorable(maze, start, cur, ExploreKeysUpTo(maze, cur, g, k))
  {
    if k > 0 {
      var before := ExploreKeysUpTo(maze, cur, g, k - 1);
      ExploreKeysKeeps(maze, start, cur, g, k - 1);
      RelaxKeyKeeps(maze, start, cur, before, Directions[k - 1]);
      assert ExploreKeysUpTo(maze, cur, g, k) == RelaxKey(maze, cur, before, Directions[k - 1]);
    }
  }

  /** The inner loop of `dijkstra_maze_relaxed`. */
  method ExploreKeys(maze: Maze, cur: Entry, g: Graph) returns (r: Graph)
    requires Rectangular(maze) && g.parents.Keys == g.costs.Keys
    ensures r == ExploreKeysUpTo(maze, cur, g, |Directions|)
  {
    r := g;
    for k := 0 to |Directions|
      invariant r == ExploreKeysUpTo(maze, cur, g, k)
    {
      r := RelaxKeyStep(maze, cur, r, Directions[k]);
    }
  }

  /** The body of that loop for one direction `newDir`. */
  method RelaxKeyStep(maze: Maze, cur: Entry, g: Graph, newDir: Dir) returns (r: Graph)
    requires Rectangular(maze) && g.parents.Keys == g.costs.Keys
    ensures r == RelaxKey(maze, cur, g, newDir)
  {
    r := g;
    var (dx, dy) := Incr(newDir);
    var np := (cur.pos.0 + dx, cur.pos.1 + dy);
    if 0 <= np.0 < |maze| && 0 <= np.1 < |maze[0]| && maze[np.0][np.1] in "SE." {
      var newCost := cur.cost + MoveCostRelaxed(cur.dir, newDir);
      var newKey := (np, newDir);
      if newKey !in r.costs || newCost < r.costs[newKey] {
        r := Graph(r.queue + [Entry(newCost, np, newDir)], r.costs[newKey := newCost], r.parents[newKey := [KeyOf(cur)]]);
      } else if newCost == r.costs[newKey] {
        r := r.(parents := r.parents[newKey := r.parents[newKey] + [KeyOf(cur)]]);
      }
    }
  }

  /**
   * The search loop of `dijkstra_maze_relaxed`: pops until the queue is
   * empty, not expanding items at `end`. `fuel` bounds the number of pops;
   * None when it runs out.
   */
  method SearchAll(maze: Maze, start: Point, end: Point, direc: Dir, fuel: nat) returns (r: Option<Graph>)
    requires Rectangular(maze)
    ensures r.Some? ==> GraphInv(maze, (start, direc), r.value) && r.value.queue == []
    ensures start == end && fuel > 0 ==> r == Some(Graph([], map[(start, direc) := 0], map[(start, direc) := []]))
  {
    var g := Graph([Entry(0, start, direc)], map[(start, direc) := 0], map[(start, direc) := []]);
    var steps := fuel;
    while |g.queue| > 0
      invariant GraphInv(maze, (start, direc), g)
      invariant start == end ==> g.costs == map[(start, direc) := 0] && g.parents == map[(start, direc) := []]
      invariant start == end ==> g.queue == [] || (g.queue == [Entry(0, start, direc)] && steps == fuel)
      decreases steps
    {
      if steps == 0 {
        return None;
      }
      var (cur, rest) := Pop(g.queue);
      steps := steps - 1;
      g := g.(queue := rest);
      if cur.pos == end {
        if start == end {
          assert |multiset(rest)| == 0;
        }
        continue;
      }
      ghost var before := g;
      g := ExploreKeys(maze, cur, g);
      ExploreKeysKeeps(maze, (start, direc), cur, before, |Directions|);
    }
    return Some(g);
  }

  // ----- part 2: walking the parents back -----

  /** Every recorded parent has a strictly lower cost: what makes `backtrack` terminate. */
  predicate ParentsDescend(g: Graph)
  {
    g.parents.Keys == g.costs.Keys &&
    forall k, j :: k in g.parents && 0 <= j < |g.parents[k]| ==>
      g.parents[k][j] in g.costs && g.costs[g.parents[k][j]] < g.costs[k]
  }

  lemma GraphInvDescends(maze: Maze, start: Key, g: Graph)
    requires Rectangular(maze) && GraphInv(maze, start, g)
    ensures ParentsDescend(g)
  {
    forall k, j | k in g.parents && 0 <= j < |g.parents[k]|
      ensures g.parents[k][j] in g.costs && g.costs[g.parents[k][j]] < g.costs[k]
    {
      assert ParentsOk(maze, start, g, k);
    }
  }

  /**
   * `backtrack`: `trail` holds the cells collected from the end, the last
   * being `current`'s cell. At the start cell the reversed trail is one
   * answer; otherwise each parent in turn is followed with its cell added.
   * The answers come in the order the recursion finds them.
   */
  function Backtrack(g: Graph, start: Point, current: Key, trail: seq<Point>): seq<seq<Point>>
    requires ParentsDescend(g) && current in g.costs
    decreases g.costs[current], 1, 0
  {
    if current.0 == start then [Reversed(trail)]
    else BacktrackEach(g, start, g.parents[current], 0, trail, g.costs[current])
  }

  /** The `for parent in parents.get(current, [])` loop of `backtrack`, from the `i`-th parent on. */
  function BacktrackEach(g: Graph, start: Point, ps: seq<Key>, i: nat, trail: seq<Point>, bound: nat): seq<seq<Point>>
    requires ParentsDescend(g) && i <= |ps|
    requires forall j :: 0 <= j < |ps| ==> ps[j] in g.costs && g.costs[ps[j]] < bound
    decreases bound, 0, |ps| - i
  {
    if i == |ps| then []
    else Backtrack(g, start, ps[i], trail + [ps[i].0]) + BacktrackEach(g, start, ps, i + 1, trail, bound)
  }

  /** Extending a trail by a cell adjacent to its passable last cell gives a trail. */
  lemma TrailExtend(maze: Maze, end: Point, trail: seq<Point>, p: Point)
    requires Rectangular(maze) && Trail(maze, end, trail)
    requires Passable(maze, trail[|trail| - 1]) && Adjacent(p, trail[|trail| - 1])
    ensures Trail(maze, end, trail + [p])
  {
    var t := trail + [p];
    forall i | 0 <= i < |t| - 1
      ensures Adjacent(t[i + 1], t[i]) && Passable(maze, t[i])
    {
      if i < |trail| - 1 {
        assert t[i + 1] == trail[i + 1] && t[i] == trail[i];
      }
    }
  }

  /** Every answer `backtrack` collects from a valid trail is a walk from `start` to `end`. */
  lemma {:induction false} BacktrackValid(maze: Maze, start: Key, g: Graph, current: Key, trail: seq<Point>, end: Point)
    requires Rectangular(maze) && GraphInv(maze, start, g) && current in g.costs
    requires Trail(maze, end, trail) && trail[|trail| - 1] == current.0
    ensures ParentsDescend(g)
    ensures AllValid(maze, start.0, end, Backtrack(g, start.0, current, trail))
    decreases g.costs[current], 1, 0
  {
    GraphInvDescends(maze, start, g);
    if current.0 == start.0 {
      TrailReversed(maze, start.0, end, trail);
    } else {
      assert ParentsOk(maze, start, g, current);
      BacktrackEachValid(maze, start, g, g.parents[current], 0, trail, g.costs[current], end);
      assert Backtrack(g, start.0, current, trail) == BacktrackEach(g, start.0, g.parents[current], 0, trail, g.costs[current]);
    }
  }

  /** Walks from `start` to `end`, every one of them. */
  predicate AllValid(maze: Maze, start: Point, end: Point, paths: seq<seq<Point>>)
    requires Rectangular(maze)
  {
    forall i :: 0 <= i < |paths| ==> ValidPath(maze, start, end, paths[i])
  }

  lemma AllValidAppend(maze: Maze, start: Point, end: Point, a: seq<seq<Point>>, b: seq<seq<Point>>)
    requires Rectangular(maze) && AllValid(maze, start, end, a) && AllValid(maze, start, end, b)
    ensures AllValid(maze, start, end, a + b)
  {
    forall i | 0 <= i < |a + b|
      ensures ValidPath(maze, start, end, (a + b)[i])
    {
      if i < |a| { assert (a + b)[i] == a[i]; } else { assert (a + b)[i] == b[i - |a|]; }
    }
  }

  lemma {:induction false} BacktrackEachValid(maze: Maze, start: Key, g: Graph, ps: seq<Key>, i: nat, trail: seq<Point>, bound: nat, end: Point)
    requires Rectangular(maze) && GraphInv(maze, start, g) && ParentsDescend(g) && i <= |ps|
    requires Trail(maze, end, trail) && Passable(maze, trail[|trail| - 1])
    requires forall j :: 0 <= j < |ps| ==> ps[j] in g.costs && g.costs[ps[j]] < bound && Adjacent(ps[j].0, trail[|trail| - 1])
    ensures AllValid(maze, start.0, end, BacktrackEach(g, start.0, ps, i, trail, bound))
    decreases bound, 0, |ps| - i
  {
    if i < |ps| {
      TrailExtend(maze, end, trail, ps[i].0);
      BacktrackValid(maze, start, g, ps[i], trail + [ps[i].0], end);
      BacktrackEachValid(maze, start, g, ps, i + 1, trail, bound, end);
      AllValidAppend(maze, start.0, end, Backtrack(g, start.0, ps[i], trail + [ps[i].0]), BacktrackEach(g, start.0, ps, i + 1, trail, bound));
    }
  }

  /** From any recorded key `backtrack` finds at least one answer: every key but the start's has a parent. */
  lemma {:induction false} BacktrackFinds(maze: Maze, start: Key, g: Graph, current: Key, trail: seq<Point>)
    requires Rectangular(maze) && GraphInv(maze, start, g) && current in g.costs
    ensures ParentsDescend(g) && |Backtrack(g, start.0, current, trail)| > 0
    decreases g.costs[current]
  {
    GraphInvDescends(maze, start, g);
    if current.0 != start.0 {
      assert ParentsOk(maze, start, g, current);
      var ps := g.parents[current];
      BacktrackFinds(maze, start, g, ps[0], trail + [ps[0].0]);
    }
  }

  // ----- part 2: the directions the end is entered in -----

  /** `best_cost` after the loop over `ds`: the least recorded cost of `end` entered in any of them. */
  function MinOver(costs: map<Key, nat>, end: Point, ds: seq<Dir>): (b: Option<nat>)
    ensures b.None? <==> forall i :: 0 <= i < |ds| ==> (end, ds[i]) !in costs
    ensures b.Some? ==> exists i :: 0 <= i < |ds| && (end, ds[i]) in costs && costs[(end, ds[i])] == b.value
    ensures b.Some? ==> forall i :: 0 <= i < |ds| && (end, ds[i]) in costs ==> b.value <= costs[(end, ds[i])]
  {
    if ds == [] then None
    else
      var b := MinOver(costs, end, ds[..|ds| - 1]);
      var k := (end, ds[|ds| - 1]);
      if k !in costs then b
      else if b.None? || costs[k] <= b.value then Some(costs[k])
      else b
  }

  /**
   * `end_direcs` as written: a direction is appended whenever its cost is at
   * most the best so far, so a costlier direction seen earlier stays in.
   */
  function EndDirsAsWritten(costs: map<Key, nat>, end: Point, ds: seq<Dir>): (r: seq<Dir>)
    ensures forall d :: d in r ==> d in ds && (end, d) in costs
  {
    if ds == [] then []
    else
      var prev := EndDirsAsWritten(costs, end, ds[..|ds| - 1]);
      var b := MinOver(costs, end, ds[..|ds| - 1]);
      var k := (end, ds[|ds| - 1]);
      if k !in costs then prev
      else if b.None? || costs[k] <= b.value then prev + [ds[|ds| - 1]]
      else prev
  }

  /** The loop over `directions` that picks `best_cost` and `end_direcs`, as written. */
  method SelectEndDirs(costs: map<Key, nat>, end: Point) returns (best: Option<nat>, dirs: seq<Dir>)
    ensures best == MinOver(costs, end, Directions) && dirs == EndDirsAsWritten(costs, end, Directions)
  {
    best := None;
    dirs := [];
    for k := 0 to |Directions|
      invariant best == MinOver(costs, end, Directions[..k])
      invariant dirs == EndDirsAsWritten(costs, end, Directions[..k])
    {
      assert Directions[..k + 1][..k] == Directions[..k];
      var direc := Directions[k];
      if (end, direc) !in costs {
        continue;
      } else if best.None? {
        best := Some(costs[(end, direc)]);
        dirs := dirs + [direc];
      } else if costs[(end, direc)] <= best.value {
        best := Some(costs[(end, direc)]);
        dirs := dirs + [direc];
      }
    }
    assert Directions[..|Directions|] == Directions;
  }

  /** Every direction at the least cost is among those selected as written. */
  lemma {:induction false} EndDirsAsWrittenCoversBest(costs: map<Key, nat>, end: Point, ds: seq<Dir>, d: Dir)
    requires d in ds && (end, d) in costs && MinOver(costs, end, ds) == Some(costs[(end, d)])
    ensures d in EndDirsAsWritten(costs, end, ds)
  {
    var init := ds[..|ds| - 1];
    if d != ds[|ds| - 1] {
      assert d in init;
      var b := MinOver(costs, end, init);
      var i :| 0 <= i < |init| && init[i] == d;
      assert b.Some? && b.value <= costs[(end, d)];
      EndDirsAsWrittenCoversBest(costs, end, init, d);
    }
  }

  /** Recorded costs at (1, 1): northward 10, southward 5. */
  function CostlierFirst(): map<Key, nat>
  {
    map[((1, 1), N) := 10, ((1, 1), S) := 5]
  }

  lemma CostlierFirstOne()
    ensures MinOver(CostlierFirst(), (1, 1), [N]) == Some(10)
    ensures EndDirsAsWritten(CostlierFirst(), (1, 1), [N]) == [N]
  {
    assert [N][..0] == [];
  }

  lemma CostlierFirstTwo()
    ensures MinOver(CostlierFirst(), (1, 1), [N, S]) == Some(5)
    ensures EndDirsAsWritten(CostlierFirst(), (1, 1), [N, S]) == [N, S]
  {
    assert [N, S][..1] == [N];
    CostlierFirstOne();
  }

  lemma CostlierFirstThree()
    ensures MinOver(CostlierFirst(), (1, 1), [N, S, E]) == Some(5)
    ensures EndDirsAsWritten(CostlierFirst(), (1, 1), [N, S, E]) == [N, S]
  {
    assert [N, S, E][..2] == [N, S];
    CostlierFirstTwo();
  }

  /**
   * The end entered northward at cost 10 and southward at cost 5: the least
   * cost is 5, yet as written both directions are kept, while only the
   * southward one is at the least cost.
   */
  lemma EndDirsAsWrittenKeepsCostlier()
    ensures MinOver(CostlierFirst(), (1, 1), Directions) == Some(5)
    ensures EndDirsAsWritten(CostlierFirst(), (1, 1), Directions) == [N, S]
    ensures N !in BestEndDirs(CostlierFirst(), (1, 1)) && S in BestEndDirs(CostlierFirst(), (1, 1))
  {
    assert Directions[..3] == [N, S, E];
    CostlierFirstThree();
  }

  /** `directions` lists all four. */
  lemma AllDirections()
    ensures forall d: Dir :: d in Directions
  {
    forall d: Dir
      ensures d in Directions
    {
      assert Directions[0] == N && Directions[1] == S && Directions[2] == E && Directions[3] == W;
      match d
      case N => assert Directions[0] == d;
      case S => assert Directions[1] == d;
      case E => assert Directions[2] == d;
      case W => assert Directions[3] == d;
    }
  }

  /** The directions of `ds` whose recorded cost at `end` is `best`, in order. */
  function FilterAt(costs: map<Key, nat>, end: Point, ds: seq<Dir>, best: Option<nat>): (r: seq<Dir>)
    ensures forall d :: d in r <==> d in ds && (end, d) in costs && best == Some(costs[(end, d)])
  {
    if ds == [] then []
    else
      var rest := FilterAt(costs, end, ds[1..], best);
      if (end, ds[0]) in costs && best == Some(costs[(end, ds[0])]) then [ds[0]] + rest else rest
  }

  /** The directions `end_direcs` is meant to hold: exactly those at the least cost. */
  function BestEndDirs(costs: map<Key, nat>, end: Point): (r: seq<Dir>)
    ensures forall d :: d in r <==> (end, d) in costs && MinOver(costs, end, Directions) == Some(costs[(end, d)])
  {
    AllDirections();
    FilterAt(costs, end, Directions, MinOver(costs, end, Directions))
  }

  // ----- part 2: the driver -----

  /** `backtrack((end, direc), [end])` for each direction of `dirs` in turn, the answers concatenated. */
  function PathsFor(g: Graph, start: Point, end: Point, dirs: seq<Dir>): seq<seq<Point>>
    requires ParentsDescend(g) && forall i :: 0 <= i < |dirs| ==> (end, dirs[i]) in g.costs
  {
    if dirs == [] then []
    else PathsFor(g, start, end, dirs[..|dirs| - 1]) + Backtrack(g, start, (end, dirs[|dirs| - 1]), [end])
  }

  /** Every collected answer is a walk from the start cell to `end`. */
  lemma {:induction false} PathsForValid(maze: Maze, start: Key, g: Graph, end: Point, dirs: seq<Dir>)
    requires Rectangular(maze) && GraphInv(maze, start, g) && ParentsDescend(g)
    requires forall i :: 0 <= i < |dirs| ==> (end, dirs[i]) in g.costs
    ensures AllValid(maze, start.0, end, PathsFor(g, start.0, end, dirs))
  {
    if dirs != [] {
      PathsForValid(maze, start, g, end, dirs[..|dirs| - 1]);
      BacktrackValid(maze, start, g, (end, dirs[|dirs| - 1]), [end], end);
      AllValidAppend(maze, start.0, end, PathsFor(g, start.0, end, dirs[..|dirs| - 1]), Backtrack(g, start.0, (end, dirs[|dirs| - 1]), [end]));
    }
  }

  /** Some answer is collected exactly when some direction is selected. */
  lemma {:induction false} PathsForFinds(maze: Maze, start: Key, g: Graph, end: Point, dirs: seq<Dir>)
    requires Rectangular(maze) && GraphInv(maze, start, g) && ParentsDescend(g)
    requires forall i :: 0 <= i < |dirs| ==> (end, dirs[i]) in g.costs
    ensures |PathsFor(g, start.0, end, dirs)| > 0 <==> dirs != []
  {
    if dirs != [] {
      BacktrackFinds(maze, start, g, (end, dirs[|dirs| - 1]), [end]);
    }
  }

  /** The loop over `end_direcs` that fills `all_best_paths`. */
  method CollectPaths(g: Graph, start: Point, end: Point, dirs: seq<Dir>) returns (all: seq<seq<Point>>)
    requires ParentsDescend(g) && forall i :: 0 <= i < |dirs| ==> (end, dirs[i]) in g.costs
    ensures all == PathsFor(g, start, end, dirs)
  {
    all := [];
    for k := 0 to |dirs|
      invariant all == PathsFor(g, start, end, dirs[..k])
    {
      assert dirs[..k + 1][..k] == dirs[..k];
      all := all + Backtrack(g, start, (end, dirs[k]), [end]);
    }
    assert dirs[..|dirs|] == dirs;
  }

  /**
   * From a finished search: every walk collected from the best directions
   * is valid, and some walk is collected exactly when the end was reached.
   */
  lemma BestPaths(maze: Maze, start: Key, g: Graph, end: Point)
    requires Rectangular(maze) && GraphInv(maze, start, g) && ParentsDescend(g)
    ensures forall i :: 0 <= i < |BestEndDirs(g.costs, end)| ==> (end, BestEndDirs(g.costs, end)[i]) in g.costs
    ensures var paths := PathsFor(g, start.0, end, BestEndDirs(g.costs, end));
      AllValid(maze, start.0, end, paths) && (MinOver(g.costs, end, Directions).Some? <==> |paths| > 0)
  {
    var dirs := BestEndDirs(g.costs, end);
    PathsForValid(maze, start, g, end, dirs);
    PathsForFinds(maze, start, g, end, dirs);
    var best := MinOver(g.costs, end, Directions);
    if best.Some? {
      var i :| 0 <= i < |Directions| && (end, Directions[i]) in g.costs && g.costs[(end, Directions[i])] == best.value;
      assert Directions[i] in dirs;
    }
  }

  /** What `dijkstra_maze_relaxed` returns: `best_cost` and the number of cells on the collected walks, or no answer within the fuel. */
  datatype RelaxedOutcome = Counted(best: Option<nat>, points: nat) | RelaxedOutOfFuel

  /** When the start is the end, only the start key is recorded: it alone is selected, at cost 0. */
  lemma SameCellBest(g: Graph, start: Point, direc: Dir)
    requires g == Graph([], map[(start, direc) := 0], map[(start, direc) := []])
    ensures MinOver(g.costs, start, Directions) == Some(0)
    ensures var dirs := BestEndDirs(g.costs, start);
      |dirs| > 0 && forall i :: 0 <= i < |dirs| ==> dirs[i] == direc
  {
    SameCellMin(g, start, direc);
    var dirs := BestEndDirs(g.costs, start);
    assert direc in dirs;
    forall i | 0 <= i < |dirs|
      ensures dirs[i] == direc
    {
      assert dirs[i] in dirs;
    }
  }

  lemma SameCellMin(g: Graph, start: Point, direc: Dir)
    requires g == Graph([], map[(start, direc) := 0], map[(start, direc) := []])
    ensures MinOver(g.costs, start, Directions) == Some(0)
  {
    var i := match direc case N => 0 case S => 1 case E => 2 case W => 3;
    assert Directions[i] == direc;
    assert (start, Directions[i]) in g.costs;
    var b := MinOver(g.costs, start, Directions);
    var j :| 0 <= j < |Directions| && (start, Directions[j]) in g.costs && g.costs[(start, Directions[j])] == b.value;
  }

  /** ... and one cell is counted. */
  lemma SameCellCount(g: Graph, start: Point, direc: Dir)
    requires g == Graph([], map[(start, direc) := 0], map[(start, direc) := []])
    ensures ParentsDescend(g) && MinOver(g.costs, start, Directions) == Some(0)
    ensures forall i :: 0 <= i < |BestEndDirs(g.costs, start)| ==> (start, BestEndDirs(g.costs, start)[i]) in g.costs
    ensures |Elems(Flatten(PathsFor(g, start, start, BestEndDirs(g.costs, start))))| == 1
  {
    SameCellBest(g, start, direc);
    var dirs := BestEndDirs(g.costs, start);
    SameCellPaths(g, start, direc, dirs);
    var paths := PathsFor(g, start, start, dirs);
    SingleCellElems(paths, start);
  }

  lemma SingleCellElems(paths: seq<seq<Point>>, p: Point)
    requires |paths| > 0 && forall i :: 0 <= i < |paths| ==> paths[i] == [p]
    ensures |Elems(Flatten(paths))| == 1
  {
    forall x | x in Elems(Flatten(paths))
      ensures x == p
    {
      FlattenMembership(paths, x);
    }
    FlattenMembership(paths, p);
    assert p in paths[0];
    assert Elems(Flatten(paths)) == {p};
  }

  lemma {:induction false} SameCellPaths(g: Graph, start: Point, direc: Dir, dirs: seq<Dir>)
    requires g == Graph([], map[(start, direc) := 0], map[(start, direc) := []])
    requires forall i :: 0 <= i < |dirs| ==> dirs[i] == direc
    ensures ParentsDescend(g)
    ensures var paths := PathsFor(g, start, start, dirs);
      |paths| == |dirs| && forall i :: 0 <= i < |paths| ==> paths[i] == [start]
  {
    if dirs != [] {
      SameCellPaths(g, start, direc, dirs[..|dirs| - 1]);
      assert Reversed([start]) == [start];
    }
  }

  /**
   * `dijkstra_maze_relaxed`: the search, the directions the end is entered
   * in at its least cost, then the cells on every walk `backtrack` collects
   * from them. Every collected walk goes from `start` to `end`; a best cost
   * exists exactly when some walk was collected; the count is the number of
   * distinct cells on them. `fuel` bounds the number of pops.
   */
  method DijkstraMazeRelaxed(maze: Maze, start: Point, end: Point, direc: Dir, fuel: nat)
    returns (r: Result<RelaxedOutcome>, ghost paths: seq<seq<Point>>)
    requires Rectangular(maze)
    ensures r.Err? <==> |maze| == 0
    ensures r.Err? ==> r.error == IndexError
    ensures r.Ok? && r.value.Counted? ==>
      AllValid(maze, start, end, paths) && r.value.points == |Elems(Flatten(paths))| &&
      (r.value.best.Some? <==> |paths| > 0)
    ensures |maze| > 0 && fuel > 0 && start == end ==> r == Ok(Counted(Some(0), 1))
  {
    if |maze| == 0 {
      return Err(IndexError), [];
    }
    var found := SearchAll(maze, start, end, direc, fuel);
    if found.None? {
      return Ok(RelaxedOutOfFuel), [];
    }
    var g := found.value;
    GraphInvDescends(maze, (start, direc), g);
    var best := MinOver(g.costs, end, Directions);
    var dirs := BestEndDirs(g.costs, end);
    var all := CollectPaths(g, start, end, dirs);
    BestPaths(maze, (start, direc), g, end);
    if start == end && fuel > 0 {
      SameCellCount(g, start, direc);
    }
    paths := all;
    r := Ok(Counted(best, |Elems(Flatten(all))|));
  }

  /** `part2`: the same corners and heading as `part1`. */
  method Part2(maze: Maze, fuel: nat) returns (r: Result<RelaxedOutcome>, ghost paths: seq<seq<Point>>)
    requires Rectangular(maze)
    ensures r.Err? <==> |maze| == 0
    ensures r.Ok? && r.value.Counted? ==>
      AllValid(maze, (|maze| - 2, 1), (1, |maze[0]| - 2), paths) && r.value.points == |Elems(Flatten(paths))|
  {
    if |maze| == 0 {
      return Err(IndexError), [];
    }
    var nrows := |maze|;
    var ncols := |maze[0]|;
    r, paths := DijkstraMazeRelaxed(maze, (nrows - 2, 1), (1, ncols - 2), E, fuel);
  }
}

