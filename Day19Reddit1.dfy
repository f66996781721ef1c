/**
 * The memoised `find_syl` of src/aoc/yr_2024/day_19/reddit_1.py and the
 * counting loop of its `part_2`. `find_syl` first narrows the syllables to
 * those occurring anywhere in the design, then sums the counts of what
 * follows each syllable that starts it, storing every result in a cache
 * shared by all designs. The cache is keyed by the design alone, so it is
 * only sound because narrowing the syllables never changes a count; that is
 * what `NarrowKeepsWays` proves.
 */
module Day19Reddit1 {
  import opened Common
  import opened Day19

  // --------------------------------------------------------- narrowing

  /** `[elem for elem in syll if elem in design]`. */
  function Occurring(syll: seq<string>, design: string): (r: seq<string>)
    ensures forall x :: x in r <==> x in syll && Contains(design, x)
  {
    if syll == [] then []
    else (if Contains(design, syll[0]) then [syll[0]] else []) + Occurring(syll[1..], design)
  }

  /** `[elem for elem in syll if design.startswith(elem)]`. */
  function Starting(syll: seq<string>, design: string): (r: seq<string>)
    ensures forall x :: x in r <==> x in syll && StartsWith(design, x)
  {
    if syll == [] then []
    else (if StartsWith(design, syll[0]) then [syll[0]] else []) + Starting(syll[1..], design)
  }

  /**
   * The layouts of `e` whose first towel is one of `ts` (taken entry by
   * entry), the rest laid out with `towels`.
   */
  function WaysOver(e: string, ts: seq<string>, towels: seq<string>): nat
    decreases |ts|
  {
    if ts == [] then 0
    else (if ts[0] != "" && StartsWith(e, ts[0]) then Ways(e[|ts[0]|..], towels) else 0) + WaysOver(e, ts[1..], towels)
  }

  /** What the `for prefix in start` loop adds up: the count for what follows each prefix. */
  function Tails(design: string, start: seq<string>, total: seq<string>): nat
    decreases |start|
  {
    if start == [] then 0
    else (if |start[0]| <= |design| then Ways(design[|start[0]|..], total) else 0) + Tails(design, start[1..], total)
  }

  lemma {:induction false} WaysFromOver(e: string, towels: seq<string>, i: nat)
    requires i <= |towels|
    ensures WaysFrom(e, towels, i) == WaysOver(e, towels[i..], towels)
    decreases |towels| - i
  {
    if i < |towels| {
      WaysFromOver(e, towels, i + 1);
      assert towels[i..][1..] == towels[i + 1..];
    }
  }

  /** A string inside a suffix of `d` is inside `d`. */
  lemma ContainsInSuffix(d: string, k: nat, e: string)
    requires k <= |d| && Contains(d[k..], e)
    ensures Contains(d, e)
  {
    var i :| 0 <= i <= |d[k..]| && OccursAt(d[k..], e, i);
    assert d[k + i..k + i + |e|] == d[k..][i..i + |e|];
    assert OccursAt(d, e, k + i);
  }

  /** A prefix of `d` is inside `d`. */
  lemma ContainsPrefix(d: string, t: string)
    requires StartsWith(d, t)
    ensures Contains(d, t)
  {
    assert OccursAt(d, t, 0);
  }

  /** A string inside `e` that is itself inside `d` is inside `d`. */
  lemma ContainsTrans(d: string, e: string, t: string)
    requires Contains(d, e) && Contains(e, t)
    ensures Contains(d, t)
  {
    var i :| 0 <= i <= |d| && OccursAt(d, e, i);
    var j :| 0 <= j <= |e| && OccursAt(e, t, j);
    forall m | 0 <= m < |t| ensures d[i + j + m] == t[m]
    {
      assert d[i + (j + m)] == e[j + m];
    }
    assert d[i + j..i + j + |t|] == t;
    assert OccursAt(d, t, i + j);
  }

  /**
   * Narrowing the syllables to those inside `d` changes the count of no
   * string inside `d`.
   */
  lemma {:induction false} NarrowKeepsWays(d: string, xs: seq<string>, e: string)
    requires Contains(d, e)
    ensures Ways(e, Occurring(xs, d)) == Ways(e, xs)
    decreases |e|, 1
  {
    if e != "" {
      var ks := Occurring(xs, d);
      WaysFromOver(e, ks, 0);
      WaysFromOver(e, xs, 0);
      assert ks[0..] == ks && xs[0..] == xs;
      NarrowOver(d, xs, xs, e);
    }
  }

  lemma {:induction false} NarrowOver(d: string, xs: seq<string>, ts: seq<string>, e: string)
    requires Contains(d, e) && e != ""
    ensures WaysOver(e, Occurring(ts, d), Occurring(xs, d)) == WaysOver(e, ts, xs)
    decreases |e|, 0, |ts|
  {
    if ts != [] {
      var t := ts[0];
      var rest := Occurring(ts[1..], d);
      NarrowOver(d, xs, ts[1..], e);
      var used := t != "" && StartsWith(e, t);
      assert WaysOver(e, ts, xs) == (if used then Ways(e[|t|..], xs) else 0) + WaysOver(e, ts[1..], xs);
      if Contains(d, t) {
        var o := [t] + rest;
        assert Occurring(ts, d) == o;
        assert o[0] == t && o[1..] == rest;
        if used {
          ContainsInSuffix(e, |t|, e[|t|..]) by {
            assert OccursAt(e[|t|..], e[|t|..], 0);
          }
          ContainsTrans(d, e, e[|t|..]);
          NarrowKeepsWays(d, xs, e[|t|..]);
        }
      } else {
        assert Occurring(ts, d) == rest;
        if used {
          ContainsPrefix(e, t);
          ContainsTrans(d, e, t);
          assert false;
        }
      }
    }
  }

  /** With no empty syllable, the loop over the syllables that start `d` adds up the count of `d`. */
  lemma {:induction false} TailsOver(d: string, ts: seq<string>, xs: seq<string>, total: seq<string>)
    requires "" !in ts
    requires forall t :: t in ts && StartsWith(d, t) ==> Ways(d[|t|..], xs) == Ways(d[|t|..], total)
    ensures Tails(d, Starting(ts, d), total) == WaysOver(d, ts, xs)
    decreases |ts|
  {
    if ts != [] {
      var t := ts[0];
      assert t in ts && t != "";
      assert forall u :: u in ts[1..] ==> u in ts;
      TailsOver(d, ts[1..], xs, total);
      var rest := Starting(ts[1..], d);
      assert WaysOver(d, ts, xs) == (if StartsWith(d, t) then Ways(d[|t|..], xs) else 0) + WaysOver(d, ts[1..], xs);
      if StartsWith(d, t) {
        var st := [t] + rest;
        assert Starting(ts, d) == st;
        assert st[0] == t && st[1..] == rest;
        assert Ways(d[|t|..], xs) == Ways(d[|t|..], total);
      } else {
        assert Starting(ts, d) == rest;
      }
    }
  }

  // ---------------------------------------------------------- find_syl

  /** Every cached count is the number of layouts with all the syllables. */
  predicate CacheSound(cache: map<string, nat>, total: seq<string>)
  {
    forall k :: k in cache ==> cache[k] == Ways(k, total)
  }

  /** `syll` counts like the full list on every string inside the design. */
  ghost predicate Narrowed(syll: seq<string>, total: seq<string>, design: string)
  {
    ("" in syll <==> "" in total) &&
    forall e {:trigger Contains(design, e)} :: Contains(design, e) ==> Ways(e, syll) == Ways(e, total)
  }

  /** `cache.setdefault(design, value)`: the cache afterwards and what it holds for `design`. */
  function SetDefault(cache: map<string, nat>, design: string, value: nat): (r: (map<string, nat>, nat))
    ensures design in r.0 && r.1 == r.0[design]
    ensures design !in cache ==> r.0 == cache[design := value] && r.1 == value
    ensures design in cache ==> r.0 == cache && r.1 == cache[design]
  {
    if design in cache then (cache, cache[design]) else (cache[design := value], value)
  }

  /**
   * `find_syl(design, syll, cache=cache)`. The result is the number of
   * layouts of the design with all the syllables, and it is then in the
   * cache. An empty syllable starts every design and makes the call repeat
   * itself until Python stops it with RecursionError; that happens exactly
   * for a non-empty design that is not yet cached.
   */
  method FindSyl(design: string, syll: seq<string>, cache: map<string, nat>, ghost total: seq<string>)
    returns (r: Result<nat>, cache': map<string, nat>)
    requires CacheSound(cache, total) && Narrowed(syll, total, design)
    ensures r.Ok? ==> r.value == Ways(design, total) && design in cache' && cache'[design] == r.value
    ensures r.Ok? ==> CacheSound(cache', total) && forall k :: k in cache ==> k in cache' && cache'[k] == cache[k]
    ensures r.Err? <==> design !in cache && design != "" && "" in total
    ensures r.Err? ==> r.error == RecursionError
    ensures forall k :: k in cache' && k !in cache ==> |k| <= |design|
    decreases |design|, 2
  {
    if design in cache {
      return Ok(cache[design]), cache;
    }
    if design == "" {
      var (c, v) := SetDefault(cache, design, 1);
      return Ok(v), c;
    }
    var narrowed := Occurring(syll, design);
    NarrowStep(design, syll, total);
    var start := Starting(narrowed, design);
    if |narrowed| == 0 || |start| == 0 {
      NoneStartZero(design, narrowed, total);
      var (c, v) := SetDefault(cache, design, 0);
      return Ok(v), c;
    }
    EmptyStarts(design, narrowed, total);
    var res;
    res, cache' := SumTails(design, narrowed, start, cache, total);
    if res.Err? {
      return res, cache';
    }
    LoopTotal(design, narrowed, total);
    var (c, v) := SetDefault(cache', design, res.value);
    return Ok(v), c;
  }

  /**
   * The `for prefix in start` loop of `find_syl`: adds the count for what
   * follows each prefix, recursing with the narrowed syllables.
   */
  method SumTails(design: string, narrowed: seq<string>, start: seq<string>, cache: map<string, nat>, ghost total: seq<string>)
    returns (r: Result<nat>, cache': map<string, nat>)
    requires design != "" && design !in cache && CacheSound(cache, total) && Narrowed(narrowed, total, design)
    requires forall x :: x in start ==> x in narrowed && StartsWith(design, x)
    requires "" in total ==> "" in start
    ensures r.Ok? ==> r.value == Tails(design, start, total) && CacheSound(cache', total) && design !in cache'
    ensures r.Ok? ==> forall k :: k in cache ==> k in cache' && cache'[k] == cache[k]
    ensures r.Err? <==> "" in total
    ensures r.Err? ==> r.error == RecursionError
    ensures forall k :: k in cache' && k !in cache ==> |k| < |design|
    decreases |design|, 1
  {
    var res := 0;
    var k := 0;
    cache' := cache;
    while k < |start|
      invariant 0 <= k <= |start|
      invariant res + Tails(design, start[k..], total) == Tails(design, start, total)
      invariant CacheSound(cache', total) && design !in cache'
      invariant forall x :: x in cache ==> x in cache' && cache'[x] == cache[x]
      invariant forall x :: x in cache' && x !in cache ==> |x| < |design|
      invariant "" in total ==> "" in start[k..]
    {
      assert start[k] in start;
      assert start[k..][0] == start[k] && start[k..][1..] == start[k + 1..];
      var n;
      n, cache' := AddTail(design, narrowed, start[k], cache', total);
      if n.Err? {
        return n, cache';
      }
      res := res + n.value;
      k := k + 1;
    }
    assert start[k..] == [];
    return Ok(res), cache';
  }

  /** The empty syllable, when the full list has one, starts every design. */
  lemma EmptyStarts(design: string, narrowed: seq<string>, total: seq<string>)
    requires Narrowed(narrowed, total, design)
    ensures "" in total ==> "" in Starting(narrowed, design)
  {
    assert StartsWith(design, "");
  }

  /**
   * One round of that loop: the count for what follows `prefix`, or
   * RecursionError when `prefix` is empty.
   */
  method AddTail(design: string, narrowed: seq<string>, prefix: string, cache: map<string, nat>, ghost total: seq<string>)
    returns (n: Result<nat>, cache': map<string, nat>)
    requires design !in cache && CacheSound(cache, total) && Narrowed(narrowed, total, design)
    requires prefix in narrowed && StartsWith(design, prefix)
    ensures n.Ok? ==> n.value == Ways(design[|prefix|..], total) && CacheSound(cache', total) && design !in cache'
    ensures n.Ok? ==> forall k :: k in cache ==> k in cache' && cache'[k] == cache[k]
    ensures n.Err? ==> "" in total && n.error == RecursionError
    ensures prefix == "" ==> n.Err?
    ensures forall k :: k in cache' && k !in cache ==> |k| < |design|
    decreases |design|, 0
  {
    if prefix == "" {
      return Err(RecursionError), cache;
    }
    NarrowedSuffix(narrowed, total, design, |prefix|);
    n, cache' := FindSyl(design[|prefix|..], narrowed, cache, total);
  }

  /** Narrowing once more keeps the syllables counting like the full list. */
  lemma NarrowStep(design: string, syll: seq<string>, total: seq<string>)
    requires Narrowed(syll, total, design)
    ensures Narrowed(Occurring(syll, design), total, design)
  {
    var narrowed := Occurring(syll, design);
    assert Contains(design, "") by { assert OccursAt(design, "", 0); }
    forall e | Contains(design, e) ensures Ways(e, narrowed) == Ways(e, total)
    {
      NarrowKeepsWays(design, syll, e);
    }
  }

  /** What counts like the full list inside a design does so inside each of its suffixes. */
  lemma NarrowedSuffix(syll: seq<string>, total: seq<string>, design: string, k: nat)
    requires k <= |design| && Narrowed(syll, total, design)
    ensures Narrowed(syll, total, design[k..])
  {
    forall e | Contains(design[k..], e) ensures Ways(e, syll) == Ways(e, total)
    {
      ContainsInSuffix(design, k, e);
    }
  }

  /** No syllable starts a non-empty design: it has no layout. */
  lemma NoneStartZero(design: string, narrowed: seq<string>, total: seq<string>)
    requires design != "" && Narrowed(narrowed, total, design)
    requires |narrowed| == 0 || |Starting(narrowed, design)| == 0
    ensures Ways(design, total) == 0
  {
    assert Contains(design, design) by { assert OccursAt(design, design, 0); }
    NoneStartOver(design, narrowed, narrowed);
    WaysFromOver(design, narrowed, 0);
    assert narrowed[0..] == narrowed;
  }

  /** Without an empty syllable the loop adds up exactly the count of the design. */
  lemma LoopTotal(design: string, narrowed: seq<string>, total: seq<string>)
    requires design != "" && Narrowed(narrowed, total, design) && "" !in narrowed
    ensures Tails(design, Starting(narrowed, design), total) == Ways(design, total)
  {
    assert Contains(design, design) by { assert OccursAt(design, design, 0); }
    forall t | t in narrowed && StartsWith(design, t)
      ensures Ways(design[|t|..], narrowed) == Ways(design[|t|..], total)
    {
      NarrowedSuffix(narrowed, total, design, |t|);
      assert Contains(design[|t|..], design[|t|..]) by {
        assert OccursAt(design[|t|..], design[|t|..], 0);
      }
    }
    TailsOver(design, narrowed, narrowed, total);
    WaysFromOver(design, narrowed, 0);
    assert narrowed[0..] == narrowed;
  }

  lemma {:induction false} NoneStartOver(design: string, ts: seq<string>, towels: seq<string>)
    requires forall t :: t in ts ==> !StartsWith(design, t)
    ensures WaysOver(design, ts, towels) == 0
    decreases |ts|
  {
    if ts != [] {
      assert ts[0] in ts;
      assert forall t :: t in ts[1..] ==> t in ts;
      NoneStartOver(design, ts[1..], towels);
    }
  }

  // ------------------------------------------------------------ part_2

  /**
   * `part_2` on the lines of the file: every line stripped, the syllables
   * are the stripped pieces of the first line split at commas, and the loop
   * over the designs from the third line on counts the designs with a
   * layout and adds up all layouts, sharing one cache. An empty file fails
   * at `lines[0]` with IndexError.
   */
  method Part2(fileLines: seq<string>) returns (r: Result<(nat, nat)>)
    ensures fileLines == [] ==> r == Err(IndexError)
    ensures r.Ok? ==>
              var lines := StripAll(fileLines);
              var sylls := StripAll(Split(lines[0], ","));
              r.value == (CountFormable(Designs(lines), sylls), TotalWays(Designs(lines), sylls))
    ensures fileLines != [] && "" !in StripAll(Split(Strip(fileLines[0]), ",")) ==> r.Ok?
  {
    if fileLines == [] {
      return Err(IndexError);
    }
    var lines := StripAll(fileLines);
    var syllTot := StripAll(Split(lines[0], ","));
    r := CountDesigns(Designs(lines), syllTot);
  }

  /**
   * The `for design in lines[2:]` loop of `part_2`: `count1` counts the
   * designs with a layout, `count2` adds up the layouts, and one cache
   * serves every design.
   */
  method CountDesigns(designs: seq<string>, syllTot: seq<string>) returns (r: Result<(nat, nat)>)
    ensures r.Ok? ==> r.value == (CountFormable(designs, syllTot), TotalWays(designs, syllTot))
    ensures r.Err? ==> "" in syllTot
    ensures "" !in syllTot ==> r.Ok?
  {
    var count1: nat, count2: nat := 0, 0;
    var cache: map<string, nat> := map[];
    var i := 0;
    while i < |designs|
      invariant Tally(designs, i, syllTot, count1, count2, cache)
    {
      var design := designs[i];
      NarrowedSelf(syllTot, design);
      var res, cache';
      res, cache' := FindSyl(design, syllTot, cache, syllTot);
      if res.Err? {
        return Err(res.error);
      }
      TallyStep(designs, i, syllTot, count1, count2, cache, cache', res.value);
      if res.value > 0 {
        count1 := count1 + 1;
      }
      count2 := count2 + res.value;
      cache := cache';
      i := i + 1;
    }
    assert designs[..i] == designs;
    return Ok((count1, count2));
  }

  lemma NarrowedSelf(total: seq<string>, design: string)
    ensures Narrowed(total, total, design)
  {
  }

  /** The loop of `part_2` after `i` designs: a sound cache and the two counts so far. */
  predicate Tally(designs: seq<string>, i: nat, total: seq<string>, count1: nat, count2: nat, cache: map<string, nat>)
  {
    i <= |designs| && CacheSound(cache, total) &&
    count1 == CountFormable(designs[..i], total) && count2 == TotalWays(designs[..i], total)
  }

  lemma TallyStep(designs: seq<string>, i: nat, total: seq<string>, count1: nat, count2: nat,
                  cache: map<string, nat>, cache': map<string, nat>, res: nat)
    requires i < |designs| && Tally(designs, i, total, count1, count2, cache)
    requires CacheSound(cache', total) && res == Ways(designs[i], total)
    ensures Tally(designs, i + 1, total, count1 + (if res > 0 then 1 else 0), count2 + res, cache')
  {
    assert designs[..i + 1][..i] == designs[..i] && designs[..i + 1][i] == designs[i];
    WaysPositive(designs[i], total);
  }

  /** `lines[2:]`, empty when there are fewer than three lines. */
  function Designs(lines: seq<string>): (r: seq<string>)
    ensures |lines| >= 2 ==> r == lines[2..]
    ensures |lines| < 2 ==> r == []
  {
    if |lines| < 2 then [] else lines[2..]
  }

  /** `[line.strip() for line in lines]`. */
  function StripAll(lines: seq<string>): (r: seq<string>)
    ensures |r| == |lines| && forall i :: 0 <= i < |lines| ==> r[i] == Strip(lines[i])
  {
    if lines == [] then [] else [Strip(lines[0])] + StripAll(lines[1..])
  }
}
