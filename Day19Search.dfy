/**
 * The two queue-based searches of Day 19 (src/aoc/yr_2024/day_19/puzzle.py):
 * `find_all_permutations`, a breadth-first enumeration of every towel
 * sequence that spells the design, and `shortest_permutation_dijkstra`,
 * which pops the least `(cost, string, towels)` tuple from a heap and
 * returns the first towel sequence that spells the design.
 */
module Day19Search {
  import opened Common
  import opened Day19

  /** Every entry of `s` is one of the towels (empty ones included). */
  predicate Over(s: seq<string>, towels: seq<string>)
  {
    forall i :: 0 <= i < |s| ==> s[i] in towels
  }

  /** `s` spells `v` with towels of the list, empty towels allowed. */
  predicate Formation(s: seq<string>, v: string, towels: seq<string>)
  {
    Over(s, towels) && Flatten(s) == v
  }

  /** A prefix of a formation spells a prefix of what the formation spells. */
  lemma PrefixSpells(s: seq<string>, k: nat)
    requires k <= |s|
    ensures StartsWith(Flatten(s), Flatten(s[..k]))
    ensures k < |s| ==> Flatten(s[..k + 1]) == Flatten(s[..k]) + s[k]
  {
    assert StartsWith(Flatten(s), Flatten(s[..k])) by {
      var a, b := s[..k], s[k..];
      assert s == a + b;
      FlattenAppend(a, b);
      assert Flatten(s)[..|Flatten(a)|] == Flatten(a);
    }
    if k < |s| {
      assert Flatten(s[..k + 1]) == Flatten(s[..k]) + s[k] by {
        var a1 := s[..k + 1];
        assert a1[..|a1| - 1] == s[..k] && a1[|a1| - 1] == s[k];
      }
    }
  }

  lemma StartsWithTrans(a: string, b: string, c: string)
    requires StartsWith(a, b) && StartsWith(b, c)
    ensures StartsWith(a, c)
  {
    assert a[..|c|] == b[..|c|];
  }

  // --------------------------------------------------- find_all_permutations

  /** A queue entry: the string spelled so far and the towels that spell it. */
  datatype Partial = Partial(current: string, sequence: seq<string>)

  /**
   * The entries the inner `for towel in towels` loop appends for `p`: one per
   * towel, in list order, whose addition keeps a prefix of the design.
   */
  function Extensions(design: string, p: Partial, ts: seq<string>): (r: seq<Partial>)
  {
    if ts == [] then []
    else
      var t := ts[|ts| - 1];
      Extensions(design, p, ts[..|ts| - 1])
      + (if StartsWith(design, p.current + t) then [Partial(p.current + t, p.sequence + [t])] else [])
  }

  lemma {:induction false} ExtensionsMembers(design: string, p: Partial, ts: seq<string>)
    ensures forall q :: q in Extensions(design, p, ts) <==>
                          exists t :: t in ts && StartsWith(design, p.current + t) && q == Partial(p.current + t, p.sequence + [t])
  {
    if ts != [] {
      var init := ts[..|ts| - 1];
      ExtensionsMembers(design, p, init);
      assert ts == init + [ts[|ts| - 1]];
    }
  }

  /** Every queued entry spells a prefix of the design with towels of the list. */
  predicate QueueSound(design: string, towels: seq<string>, queue: seq<Partial>)
  {
    forall i :: 0 <= i < |queue| ==>
      Formation(queue[i].sequence, queue[i].current, towels) && StartsWith(design, queue[i].current)
  }

  /** Every result spells the design with towels of the list. */
  predicate ResultsSound(design: string, towels: seq<string>, results: seq<seq<string>>)
  {
    forall i :: 0 <= i < |results| ==> Formation(results[i], design, towels)
  }

  /** Layout `ps` is already a result, or one of its prefixes waits in the queue. */
  predicate Pending(ps: seq<string>, results: seq<seq<string>>, queue: seq<Partial>)
  {
    ps in results || exists k :: 0 <= k <= |ps| && Partial(Flatten(ps[..k]), ps[..k]) in queue
  }

  /** No layout of the design has been lost. */
  ghost predicate NoneLost(design: string, towels: seq<string>, results: seq<seq<string>>, queue: seq<Partial>)
  {
    forall ps :: IsLayout(ps, design, towels) ==> Pending(ps, results, queue)
  }

  /** What one pass of the outer loop does to the queue. */
  function NextQueue(design: string, towels: seq<string>, queue: seq<Partial>): seq<Partial>
    requires queue != []
  {
    if queue[0].current == design then queue[1..] else queue[1..] + Extensions(design, queue[0], towels)
  }

  /** What one pass of the outer loop does to the results. */
  function NextResults(design: string, queue: seq<Partial>, results: seq<seq<string>>): seq<seq<string>>
    requires queue != []
  {
    if queue[0].current == design then results + [queue[0].sequence] else results
  }

  lemma StepSound(design: string, towels: seq<string>, queue: seq<Partial>, results: seq<seq<string>>)
    requires queue != [] && QueueSound(design, towels, queue) && ResultsSound(design, towels, results)
    ensures QueueSound(design, towels, NextQueue(design, towels, queue))
    ensures ResultsSound(design, towels, NextResults(design, queue, results))
  {
    var p := queue[0];
    assert Formation(p.sequence, p.current, towels);
    if p.current != design {
      ExtensionsMembers(design, p, towels);
      var ext := Extensions(design, p, towels);
      forall i | 0 <= i < |ext|
        ensures Formation(ext[i].sequence, ext[i].current, towels) && StartsWith(design, ext[i].current)
      {
        assert ext[i] in ext;
        var t :| t in towels && StartsWith(design, p.current + t) && ext[i] == Partial(p.current + t, p.sequence + [t]);
        PrefixSpells(p.sequence + [t], |p.sequence|);
        assert (p.sequence + [t])[..|p.sequence|] == p.sequence;
        assert (p.sequence + [t])[..|p.sequence| + 1] == p.sequence + [t];
      }
      var q := NextQueue(design, towels, queue);
      forall i | 0 <= i < |q| ensures Formation(q[i].sequence, q[i].current, towels) && StartsWith(design, q[i].current)
      {
        if i < |queue| - 1 { assert q[i] == queue[i + 1]; } else { assert q[i] == ext[i - (|queue| - 1)]; }
      }
    } else {
      var q := NextQueue(design, towels, queue);
      forall i | 0 <= i < |q| ensures Formation(q[i].sequence, q[i].current, towels) && StartsWith(design, q[i].current)
      {
        assert q[i] == queue[i + 1];
      }
    }
  }

  /** Each towel of a layout adds at least one stripe. */
  lemma {:induction false} LayoutLength(s: seq<string>, design: string, towels: seq<string>)
    requires IsLayout(s, design, towels)
    ensures |s| <= |design|
    decreases |s|
  {
    if s != [] {
      var init := s[..|s| - 1];
      assert IsLayout(init, Flatten(init), towels) by {
        assert forall i :: 0 <= i < |init| ==> init[i] == s[i];
      }
      LayoutLength(init, Flatten(init), towels);
    }
  }

  lemma LayoutSuffix(ps: seq<string>, design: string, towels: seq<string>, k: nat)
    requires IsLayout(ps, design, towels) && k <= |ps|
    ensures IsLayout(ps[k..], Flatten(ps[k..]), towels)
  {
    assert forall i :: 0 <= i < |ps[k..]| ==> ps[k..][i] == ps[k + i];
  }

  /** A layout whose prefix `ps[..k]` already spells the whole design is that prefix. */
  lemma LayoutSpelledPrefix(ps: seq<string>, design: string, towels: seq<string>, k: nat)
    requires IsLayout(ps, design, towels) && k <= |ps| && Flatten(ps[..k]) == design
    ensures k == |ps|
  {
    assert ps == ps[..k] + ps[k..];
    FlattenAppend(ps[..k], ps[k..]);
    LayoutSuffix(ps, design, towels, k);
    LayoutLength(ps[k..], Flatten(ps[k..]), towels);
  }

  lemma StepKeepsPending(design: string, towels: seq<string>, queue: seq<Partial>, results: seq<seq<string>>, ps: seq<string>)
    requires queue != [] && IsLayout(ps, design, towels) && Pending(ps, results, queue)
    ensures Pending(ps, NextResults(design, queue, results), NextQueue(design, towels, queue))
  {
    var q' := NextQueue(design, towels, queue);
    var r' := NextResults(design, queue, results);
    if ps !in results {
      var k :| 0 <= k <= |ps| && Partial(Flatten(ps[..k]), ps[..k]) in queue;
      var w := Partial(Flatten(ps[..k]), ps[..k]);
      if w in queue[1..] {
        assert w in q';
      } else {
        assert w == queue[0];
        if w.current == design {
          LayoutSpelledPrefix(ps, design, towels, k);
          assert ps[..k] == ps;
          assert ps in r';
        } else {
          assert ps[..|ps|] == ps;
          var t := ps[k];
          PrefixSpells(ps, k + 1);
          PrefixSpells(ps, k);
          assert ps[..k + 1] == ps[..k] + [t];
          ExtensionsMembers(design, w, towels);
          var e := Partial(Flatten(ps[..k + 1]), ps[..k + 1]);
          assert e in Extensions(design, w, towels);
          assert e in q';
        }
      }
    }
  }

  lemma StepKeepsNoneLost(design: string, towels: seq<string>, queue: seq<Partial>, results: seq<seq<string>>)
    requires queue != [] && NoneLost(design, towels, results, queue)
    ensures NoneLost(design, towels, NextResults(design, queue, results), NextQueue(design, towels, queue))
  {
    forall ps | IsLayout(ps, design, towels)
      ensures Pending(ps, NextResults(design, queue, results), NextQueue(design, towels, queue))
    {
      StepKeepsPending(design, towels, queue, results, ps);
    }
  }

  /** The inner loop: appends the extensions of `p`, towel by towel. */
  method PushExtensions(design: string, towels: seq<string>, queue: seq<Partial>, p: Partial) returns (q: seq<Partial>)
    ensures q == queue + Extensions(design, p, towels)
  {
    q := queue;
    for j := 0 to |towels|
      invariant q == queue + Extensions(design, p, towels[..j])
    {
      TakeSnoc(towels, j);
      assert towels[..j + 1][..j] == towels[..j];
      var next := p.current + towels[j];
      if StartsWith(design, next) {
        q := q + [Partial(next, p.sequence + [towels[j]])];
      }
    }
    TakeDrop(towels, |towels|);
  }

  /**
   * `find_all_permutations(design, towels)`. The loop runs at most `fuel`
   * times; `None` stands for a queue that was still not empty then. Whatever
   * it returns spells the design with towels of the list, and every layout
   * of the design is among it; without empty towels that is all it holds.
   */
  method FindAllPermutations(design: string, towels: seq<string>, fuel: nat) returns (r: Option<seq<seq<string>>>)
    ensures r.Some? ==> forall x :: x in r.value ==> Formation(x, design, towels)
    ensures r.Some? ==> forall ps :: IsLayout(ps, design, towels) ==> ps in r.value
    ensures r.Some? && "" !in towels ==> forall x :: x in r.value <==> IsLayout(x, design, towels)
    ensures design == "" && fuel > 0 ==> r == Some([[]])
  {
    var queue := [Partial("", [])];
    var results: seq<seq<string>> := [];
    forall ps | IsLayout(ps, design, towels) ensures Pending(ps, results, queue)
    {
      assert ps[..0] == [] && Flatten<char>([]) == "";
      assert Partial(Flatten(ps[..0]), ps[..0]) in queue;
    }
    assert Formation([], "", towels) by { assert Flatten<char>([]) == ""; }
    var steps := 0;
    while queue != [] && steps < fuel
      invariant QueueSound(design, towels, queue) && ResultsSound(design, towels, results)
      invariant NoneLost(design, towels, results, queue)
      invariant design == "" && steps > 0 ==> queue == [] && results == [[]]
      invariant steps == 0 ==> queue == [Partial("", [])] && results == []
      decreases fuel - steps
    {
      StepSound(design, towels, queue, results);
      StepKeepsNoneLost(design, towels, queue, results);
      var p := queue[0];
      if p.current == design {
        results := results + [p.sequence];
        queue := queue[1..];
      } else {
        queue := PushExtensions(design, towels, queue[1..], p);
      }
      steps := steps + 1;
    }
    if queue != [] {
      return None;
    }
    forall x | x in results ensures Formation(x, design, towels)
    {
      var i :| 0 <= i < |results| && results[i] == x;
    }
    forall ps | IsLayout(ps, design, towels) ensures ps in results
    {
      assert Pending(ps, results, queue);
    }
    r := Some(results);
  }

  // --------------------------------------------- shortest_permutation_dijkstra

  /** A heap entry `(cost, current, sequence)`. */
  datatype Item = Item(cost: nat, current: string, sequence: seq<string>)

  predicate StrLt(a: string, b: string)
  {
    StrLe(a, b) && a != b
  }

  /** Python's `<` on lists of strings: element by element, a proper prefix first. */
  predicate ListLt(a: seq<string>, b: seq<string>)
    decreases |a|
  {
    if a == [] then b != []
    else b != [] && (StrLt(a[0], b[0]) || (a[0] == b[0] && ListLt(a[1..], b[1..])))
  }

  /** Python's `<` on `(cost, current, sequence)` tuples, the order of the heap. */
  predicate ItemLt(a: Item, b: Item)
  {
    a.cost < b.cost
    || (a.cost == b.cost && (StrLt(a.current, b.current) || (a.current == b.current && ListLt(a.sequence, b.sequence))))
  }

  /** `heapq.heappop`: the position of the least entry in tuple order; it has the least cost. */
  function MinItem(heap: seq<Item>): (r: nat)
    requires heap != []
    ensures r < |heap|
    ensures forall i :: 0 <= i < |heap| ==> heap[r].cost <= heap[i].cost
    ensures forall i :: 0 <= i < |heap| ==> !ItemLt(heap[i], heap[r])
  {
    if |heap| == 1 then
      ItemLtIrreflexive(heap[0]);
      0
    else
      var k := MinItem(heap[..|heap| - 1]);
      assert forall i :: 0 <= i < |heap| - 1 ==> heap[..|heap| - 1][i] == heap[i];
      var last := heap[|heap| - 1];
      if ItemLt(last, heap[k]) then
        ItemLtTrans(heap, k, |heap| - 1);
        ItemLtIrreflexive(last);
        |heap| - 1
      else k
  }

  lemma ItemLtTrans(heap: seq<Item>, k: nat, n: nat)
    requires k < n < |heap| && ItemLt(heap[n], heap[k])
    requires forall i :: 0 <= i < n ==> !ItemLt(heap[i], heap[k])
    ensures forall i :: 0 <= i < n ==> !ItemLt(heap[i], heap[n])
  {
    forall i | 0 <= i < n ensures !ItemLt(heap[i], heap[n])
    {
      if ItemLt(heap[i], heap[n]) {
        ItemLtTransitive(heap[i], heap[n], heap[k]);
      }
    }
  }

  lemma {:induction false} StrLtStep(a: string, b: string, c: string)
    requires StrLe(a, b) && StrLe(b, c)
    ensures StrLe(a, c) && (a == c ==> a == b)
    decreases |a|
  {
    StrLeTrans(a, b, c);
    if a != [] && b != [] && c != [] && a[0] == b[0] && b[0] == c[0] {
      StrLtStep(a[1..], b[1..], c[1..]);
      if a == c {
        assert a == [a[0]] + a[1..] && b == [b[0]] + b[1..];
      }
    }
  }

  lemma {:induction false} ListLtTransitive(a: seq<string>, b: seq<string>, c: seq<string>)
    requires ListLt(a, b) && ListLt(b, c)
    ensures ListLt(a, c)
    decreases |a|
  {
    if a != [] {
      if a[0] == b[0] && b[0] == c[0] {
        ListLtTransitive(a[1..], b[1..], c[1..]);
      } else {
        if StrLt(a[0], b[0]) && StrLt(b[0], c[0]) {
          StrLtStep(a[0], b[0], c[0]);
        }
      }
    }
  }

  lemma {:induction false} ListLtIrreflexive(a: seq<string>)
    ensures !ListLt(a, a)
    decreases |a|
  {
    if a != [] {
      ListLtIrreflexive(a[1..]);
    }
  }

  lemma ItemLtIrreflexive(a: Item)
    ensures !ItemLt(a, a)
  {
    ListLtIrreflexive(a.sequence);
  }

  lemma ItemLtTransitive(a: Item, b: Item, c: Item)
    requires ItemLt(a, b) && ItemLt(b, c)
    ensures ItemLt(a, c)
  {
    if a.cost == b.cost == c.cost {
      if StrLt(a.current, b.current) && StrLt(b.current, c.current) {
        StrLtStep(a.current, b.current, c.current);
      } else if a.current == b.current == c.current {
        ListLtTransitive(a.sequence, b.sequence, c.sequence);
      }
    }
  }

  /** Every prefix of `d`. */
  function Prefixes(d: string): (r: set<string>)
    ensures forall p :: p in r <==> StartsWith(d, p)
    ensures |r| <= |d| + 1
  {
    if d == [] then {[]}
    else
      var init := Prefixes(d[..|d| - 1]);
      forall p ensures StartsWith(d, p) <==> p == d || StartsWith(d[..|d| - 1], p)
      {
        if StartsWith(d, p) && p != d {
          assert |p| < |d|;
          assert d[..|d| - 1][..|p|] == d[..|p|];
        }
        if StartsWith(d[..|d| - 1], p) {
          assert d[..|d| - 1][..|p|] == d[..|p|];
        }
      }
      init + {d}
  }

  /**
   * The entries the inner `for towel in towels` loop pushes for `it`: one
   * per towel, in list order, whose addition keeps a prefix of the design.
   */
  function Pushes(design: string, it: Item, ts: seq<string>): seq<Item>
  {
    if ts == [] then []
    else
      var t := ts[|ts| - 1];
      Pushes(design, it, ts[..|ts| - 1])
      + (if StartsWith(design, it.current + t) then [Item(it.cost + 1, it.current + t, it.sequence + [t])] else [])
  }

  lemma {:induction false} PushesMembers(design: string, it: Item, ts: seq<string>)
    ensures forall x :: x in Pushes(design, it, ts) <==>
                          exists t :: t in ts && StartsWith(design, it.current + t) && x == Item(it.cost + 1, it.current + t, it.sequence + [t])
  {
    if ts != [] {
      var init := ts[..|ts| - 1];
      PushesMembers(design, it, init);
      assert ts == init + [ts[|ts| - 1]];
    }
  }

  /** The inner loop: pushes the entries for `it`, towel by towel. */
  method PushTowels(design: string, towels: seq<string>, heap: seq<Item>, it: Item) returns (h: seq<Item>)
    ensures h == heap + Pushes(design, it, towels)
  {
    h := heap;
    for j := 0 to |towels|
      invariant h == heap + Pushes(design, it, towels[..j])
    {
      TakeSnoc(towels, j);
      assert towels[..j + 1][..j] == towels[..j];
      var next := it.current + towels[j];
      if StartsWith(design, next) {
        h := h + [Item(it.cost + 1, next, it.sequence + [towels[j]])];
      }
    }
    TakeDrop(towels, |towels|);
  }

  /** An entry's cost is its number of towels, and they spell a prefix of the design. */
  predicate ItemOk(design: string, towels: seq<string>, it: Item)
  {
    it.cost == |it.sequence| && Formation(it.sequence, it.current, towels) && StartsWith(design, it.current)
  }

  predicate HeapOk(design: string, towels: seq<string>, heap: seq<Item>)
  {
    forall it :: it in heap ==> ItemOk(design, towels, it)
  }

  /** Some entry for `v` waits in the heap at cost at most `c`. */
  predicate Queued(heap: seq<Item>, v: string, c: nat)
  {
    exists it :: it in heap && it.current == v && it.cost <= c
  }

  /** The visited strings (the keys of `dist`) are proper prefixes of the design. */
  predicate VisitedOk(design: string, dist: map<string, nat>)
  {
    design !in dist && forall v :: v in dist ==> StartsWith(design, v)
  }

  /** Each visited string was visited at the least number of towels that spell it. */
  ghost predicate Optimal(towels: seq<string>, dist: map<string, nat>)
  {
    forall v, s :: v in dist && Formation(s, v, towels) ==> dist[v] <= |s|
  }

  /** Every towel that extends a visited string within the design leads to a visited string or a queued entry. */
  predicate Closed(design: string, towels: seq<string>, heap: seq<Item>, dist: map<string, nat>)
  {
    forall v, t :: v in dist && t in towels && StartsWith(design, v + t) ==> v + t in dist || Queued(heap, v + t, dist[v] + 1)
  }

  /** The empty string is visited, or its starting entry still waits. */
  predicate Started(heap: seq<Item>, dist: map<string, nat>)
  {
    "" in dist || Item(0, "", []) in heap
  }

  ghost predicate SearchInv(design: string, towels: seq<string>, heap: seq<Item>, dist: map<string, nat>)
  {
    HeapOk(design, towels, heap) && VisitedOk(design, dist) && Optimal(towels, dist)
    && Closed(design, towels, heap, dist) && Started(heap, dist)
  }

  /** A formation of an unvisited string leaves the visited set at some towel (or never enters it). */
  lemma {:induction false} FirstExit(s: seq<string>, visited: set<string>) returns (j: int)
    requires Flatten(s) !in visited
    ensures j == -1 ==> "" !in visited
    ensures j != -1 ==> 0 <= j < |s| && Flatten(s[..j]) in visited && Flatten(s[..j + 1]) !in visited
    decreases |s|
  {
    if s == [] {
      j := -1;
    } else {
      var init := s[..|s| - 1];
      assert s[..|s|] == s && s[..|s| - 1] == init;
      if Flatten(init) in visited {
        j := |s| - 1;
      } else {
        j := FirstExit(init, visited);
        if j != -1 {
          assert init[..j] == s[..j] && init[..j + 1] == s[..j + 1];
        }
      }
    }
  }

  /**
   * For every way to spell an unvisited prefix of the design there is an
   * entry in the heap costing no more towels than it uses.
   */
  lemma ExitWitness(design: string, towels: seq<string>, heap: seq<Item>, dist: map<string, nat>, s: seq<string>, v: string)
    requires Optimal(towels, dist) && Closed(design, towels, heap, dist) && Started(heap, dist)
    requires Formation(s, v, towels) && StartsWith(design, v) && v !in dist
    ensures exists it :: it in heap && it.cost <= |s|
  {
    var j := FirstExit(s, dist.Keys);
    if j == -1 {
      assert Item(0, "", []) in heap;
    } else {
      var u := Flatten(s[..j]);
      var t := s[j];
      PrefixSpells(s, j);
      PrefixSpells(s, j + 1);
      StartsWithTrans(design, v, Flatten(s[..j + 1]));
      assert Formation(s[..j], u, towels);
      assert dist[u] <= j;
      assert t in towels;
      assert Queued(heap, u + t, dist[u] + 1);
    }
  }

  /** The entry popped for an unvisited string costs no more than any way to spell it. */
  lemma PopOptimal(design: string, towels: seq<string>, heap: seq<Item>, dist: map<string, nat>, k: nat)
    requires SearchInv(design, towels, heap, dist)
    requires k < |heap| && (forall i :: 0 <= i < |heap| ==> heap[k].cost <= heap[i].cost)
    requires heap[k].current !in dist
    ensures forall s :: Formation(s, heap[k].current, towels) ==> heap[k].cost <= |s|
  {
    assert heap[k] in heap;
    forall s | Formation(s, heap[k].current, towels) ensures heap[k].cost <= |s|
    {
      ExitWitness(design, towels, heap, dist, s, heap[k].current);
      var it :| it in heap && it.cost <= |s|;
      var i :| 0 <= i < |heap| && heap[i] == it;
    }
  }

  /** Dropping an empty towel spells the same string with one towel less. */
  lemma DropEmpty(s: seq<string>, v: string, towels: seq<string>, i: nat)
    requires Formation(s, v, towels) && i < |s| && s[i] == ""
    ensures Formation(s[..i] + s[i + 1..], v, towels)
  {
    assert s == s[..i] + ([s[i]] + s[i + 1..]);
    FlattenAppend(s[..i], [s[i]] + s[i + 1..]);
    FlattenCons(s[i], s[i + 1..]);
    FlattenAppend(s[..i], s[i + 1..]);
    var d := s[..i] + s[i + 1..];
    forall j | 0 <= j < |d| ensures d[j] in towels
    {
      if j < i { assert d[j] == s[j]; } else { assert d[j] == s[j + 1]; }
    }
  }

  /** A shortest way to spell a string uses no empty towel, so it is a layout. */
  lemma ShortestIsLayout(s: seq<string>, v: string, towels: seq<string>)
    requires Formation(s, v, towels)
    requires forall u :: Formation(u, v, towels) ==> |s| <= |u|
    ensures IsLayout(s, v, towels)
  {
    forall i | 0 <= i < |s| ensures s[i] != ""
    {
      if s[i] == "" {
        DropEmpty(s, v, towels, i);
      }
    }
  }

  /** Removing the popped entry keeps every other entry. */
  lemma Removed(heap: seq<Item>, k: nat)
    requires k < |heap|
    ensures forall x :: x in heap[..k] + heap[k + 1..] ==> x in heap
    ensures forall x :: x in heap && x != heap[k] ==> x in heap[..k] + heap[k + 1..]
  {
    assert heap == heap[..k] + [heap[k]] + heap[k + 1..];
  }

  /** Popping an already visited string keeps the invariant. */
  lemma SkipKeeps(design: string, towels: seq<string>, heap: seq<Item>, dist: map<string, nat>, k: nat)
    requires SearchInv(design, towels, heap, dist) && k < |heap| && heap[k].current in dist
    ensures SearchInv(design, towels, heap[..k] + heap[k + 1..], dist)
  {
    Removed(heap, k);
    var h := heap[..k] + heap[k + 1..];
    forall v, t | v in dist && t in towels && StartsWith(design, v + t) && v + t !in dist
      ensures Queued(h, v + t, dist[v] + 1)
    {
      var it :| it in heap && it.current == v + t && it.cost <= dist[v] + 1;
      assert it in h;
    }
  }

  /** The entries pushed for a popped entry are sound. */
  lemma PushesOk(design: string, towels: seq<string>, it: Item)
    requires ItemOk(design, towels, it)
    ensures HeapOk(design, towels, Pushes(design, it, towels))
  {
    PushesMembers(design, it, towels);
    forall x | x in Pushes(design, it, towels) ensures ItemOk(design, towels, x)
    {
      var t :| t in towels && StartsWith(design, it.current + t) && x == Item(it.cost + 1, it.current + t, it.sequence + [t]);
      PrefixSpells(it.sequence + [t], |it.sequence|);
      assert (it.sequence + [t])[..|it.sequence|] == it.sequence;
      assert (it.sequence + [t])[..|it.sequence| + 1] == it.sequence + [t];
    }
  }

  /** After a visit every towel out of the visited strings still leads somewhere. */
  lemma VisitClosed(design: string, towels: seq<string>, heap: seq<Item>, dist: map<string, nat>, k: nat)
    requires Closed(design, towels, heap, dist) && k < |heap|
    ensures Closed(design, towels, heap[..k] + heap[k + 1..] + Pushes(design, heap[k], towels),
                   dist[heap[k].current := heap[k].cost])
  {
    var it := heap[k];
    Removed(heap, k);
    PushesMembers(design, it, towels);
    var h := heap[..k] + heap[k + 1..] + Pushes(design, it, towels);
    var d := dist[it.current := it.cost];
    forall v, t | v in d && t in towels && StartsWith(design, v + t) && v + t !in d
      ensures Queued(h, v + t, d[v] + 1)
    {
      if v == it.current {
        assert Item(it.cost + 1, it.current + t, it.sequence + [t]) in h;
      } else {
        var y :| y in heap && y.current == v + t && y.cost <= dist[v] + 1;
        assert y in h;
      }
    }
  }

  /** Visiting the popped string keeps the invariant. */
  lemma VisitKeeps(design: string, towels: seq<string>, heap: seq<Item>, dist: map<string, nat>, k: nat)
    requires SearchInv(design, towels, heap, dist) && k < |heap|
    requires forall i :: 0 <= i < |heap| ==> heap[k].cost <= heap[i].cost
    requires heap[k].current !in dist && heap[k].current != design
    ensures SearchInv(design, towels, heap[..k] + heap[k + 1..] + Pushes(design, heap[k], towels),
                      dist[heap[k].current := heap[k].cost])
  {
    var it := heap[k];
    assert it in heap;
    PopOptimal(design, towels, heap, dist, k);
    Removed(heap, k);
    PushesOk(design, towels, it);
    VisitClosed(design, towels, heap, dist, k);
    var h := heap[..k] + heap[k + 1..] + Pushes(design, it, towels);
    if "" !in dist {
      assert Item(0, "", []) in heap && it.cost == 0;
      assert it.sequence == [] && it.current == "";
    }
  }

  lemma {:induction false} SubsetCard<T>(a: set<T>, b: set<T>)
    requires a <= b
    ensures |a| <= |b|
    decreases |a|
  {
    if a != {} {
      var x :| x in a;
      SubsetCard(a - {x}, b - {x});
    }
  }

  /** With the heap empty, no layout of the design exists. */
  lemma EmptyHeapNoLayout(design: string, towels: seq<string>, dist: map<string, nat>)
    requires SearchInv(design, towels, [], dist)
    ensures forall s :: !IsLayout(s, design, towels)
  {
    forall s | IsLayout(s, design, towels) ensures false
    {
      assert StartsWith(design, design);
      ExitWitness(design, towels, [], dist, s, design);
    }
  }

  /**
   * `shortest_permutation_dijkstra(design, towels)`: pops the least entry,
   * returns its towels once they spell the design, skips strings already
   * visited, and otherwise pushes one entry per towel that keeps a prefix
   * of the design. What it returns is a layout of the design with as few
   * towels as any; `None` means the design has no layout.
   */
  method ShortestPermutationDijkstra(design: string, towels: seq<string>) returns (r: Option<seq<string>>)
    ensures r.Some? ==> IsLayout(r.value, design, towels)
    ensures r.Some? ==> forall s :: IsLayout(s, design, towels) ==> |r.value| <= |s|
    ensures r.None? ==> forall s :: !IsLayout(s, design, towels)
    ensures r.Some? <==> CanBeFormed(design, towels)
  {
    var heap := [Item(0, "", [])];
    var visited: set<string> := {};
    ghost var dist: map<string, nat> := map[];
    assert Formation([], "", towels) by { assert Flatten<char>([]) == ""; }
    while heap != []
      invariant SearchInv(design, towels, heap, dist) && visited == dist.Keys
      decreases |Prefixes(design)| - |visited|, |heap|
    {
      assert visited <= Prefixes(design);
      SubsetCard(visited, Prefixes(design));
      var k := MinItem(heap);
      var it := heap[k];
      if it.current == design {
        assert it in heap;
        PopOptimal(design, towels, heap, dist, k);
        ShortestIsLayout(it.sequence, design, towels);
        LayoutFormed(it.sequence, design, towels);
        return Some(it.sequence);
      }
      if it.current in visited {
        SkipKeeps(design, towels, heap, dist, k);
        heap := heap[..k] + heap[k + 1..];
        continue;
      }
      VisitKeeps(design, towels, heap, dist, k);
      var rest := heap[..k] + heap[k + 1..];
      visited := visited + {it.current};
      dist := dist[it.current := it.cost];
      heap := PushTowels(design, towels, rest, it);
      assert visited <= Prefixes(design);
      SubsetCard(visited, Prefixes(design));
    }
    EmptyHeapNoLayout(design, towels, dist);
    if CanBeFormed(design, towels) {
      var s := FormedLayout(design, towels);
    }
    return None;
  }
}
