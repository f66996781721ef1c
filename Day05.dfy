// Print Queue (src/aoc/yr_2024/day_05/puzzle.py): page-ordering rules
// `before|after`, the check that an update obeys them, and two ways of
// repairing an update that does not: counting rules per page, and moving
// pages inside the caller's list until no rule fails.
module Day05 {
  import opened Common

  /** A rule `before|after`. */
  type Rule = (int, int)

  /** `relevant_rules`: the rules whose two pages both occur, in their original order. */
  function RelevantRules(rules: seq<Rule>, pages: seq<int>): (r: seq<Rule>)
    ensures forall rule :: rule in r <==> rule in rules && rule.0 in pages && rule.1 in pages
    ensures |r| <= |rules|
  {
    if rules == [] then []
    else
      var rest := RelevantRules(rules[1..], pages);
      if rules[0].0 in pages && rules[0].1 in pages then [rules[0]] + rest else rest
  }

  /**
   * `RelevantRules` is a filter in order: filtering two rule lists in turn
   * is filtering the first followed by filtering the second, and a single
   * rule stays exactly when both its pages occur.
   */
  lemma {:induction false} RelevantRulesAppend(a: seq<Rule>, b: seq<Rule>, pages: seq<int>)
    ensures RelevantRules(a + b, pages) == RelevantRules(a, pages) + RelevantRules(b, pages)
    ensures |a| == 1 ==> RelevantRules(a, pages) == (if a[0].0 in pages && a[0].1 in pages then a else [])
  {
    if a != [] {
      assert (a + b)[1..] == a[1..] + b;
      RelevantRulesAppend(a[1..], b, pages);
    } else {
      assert a + b == b;
    }
  }

  /** Filtering again by a list with the same pages changes nothing. */
  lemma {:induction false} RelevantRulesAgain(rules: seq<Rule>, p0: seq<int>, p: seq<int>)
    requires forall x :: x in p0 <==> x in p
    ensures RelevantRules(RelevantRules(rules, p0), p) == RelevantRules(rules, p)
  {
    if rules != [] {
      RelevantRulesAgain(rules[1..], p0, p);
      var rest := RelevantRules(rules[1..], p0);
      if rules[0].0 in p0 && rules[0].1 in p0 {
        assert ([rules[0]] + rest)[1..] == rest;
      }
    }
  }

  /** `rule_passes`: the first page comes before the second; `index` raises for an absent page. */
  function RulePasses(rule: Rule, pages: seq<int>): (r: Result<bool>)
    ensures r.Ok? <==> rule.0 in pages && rule.1 in pages
    ensures r.Err? ==> r.error == ValueError
    ensures r.Ok? ==> (r.value <==> IndexOf(pages, rule.0).value < IndexOf(pages, rule.1).value)
  {
    match IndexOf(pages, rule.0)
    case Err(e) => Err(e)
    case Ok(i) =>
      match IndexOf(pages, rule.1)
      case Err(e) => Err(e)
      case Ok(j) => Ok(i < j)
  }

  /** `apply_rules`: every relevant rule passes. */
  function ApplyRules(rules: seq<Rule>, pages: seq<int>): (ok: bool)
    ensures ok <==> forall rule :: rule in rules && rule.0 in pages && rule.1 in pages ==>
                      IndexOf(pages, rule.0).value < IndexOf(pages, rule.1).value
  {
    var rel := RelevantRules(rules, pages);
    forall rule | rule in rel :: RulePasses(rule, pages) == Ok(true)
  }

  /** With no rule mentioning two of the pages, any order is accepted. */
  lemma NoRelevantRulesPass(rules: seq<Rule>, pages: seq<int>)
    requires RelevantRules(rules, pages) == []
    ensures ApplyRules(rules, pages)
  {
  }

  lemma {:induction false} NoRulesForEmptyUpdate(rules: seq<Rule>)
    ensures RelevantRules(rules, []) == []
  {
    if rules != [] {
      NoRulesForEmptyUpdate(rules[1..]);
    }
  }

  /** For an update without repeated pages, passing means each `before` sits left of its `after`. */
  lemma ApplyRulesPositions(rules: seq<Rule>, pages: seq<int>, i: nat, j: nat)
    requires Distinct(pages) && i < |pages| && j < |pages| && (pages[i], pages[j]) in rules
    requires ApplyRules(rules, pages)
    ensures i < j
  {
    DistinctIndexOf(pages, i);
    DistinctIndexOf(pages, j);
  }

  /** `middle_page`: `pages[(len(pages) - 1) // 2]`; an empty list indexes -1 and raises. */
  function MiddlePage(pages: seq<int>): (r: Result<int>)
    ensures r.Err? <==> pages == []
    ensures r.Err? ==> r.error == IndexError
    ensures r.Ok? ==> exists k :: 0 <= k < |pages| && r.value == pages[k] && k + (|pages| - 1) % 2 == |pages| - 1 - k
  {
    if pages == [] then Err(IndexError)
    else
      var k := (|pages| - 1) / 2;
      assert k + (|pages| - 1) % 2 == |pages| - 1 - k;
      Ok(pages[k])
  }

  /** For an odd number of pages as many pages come before the middle one as after it. */
  lemma MiddleOfOdd(pages: seq<int>, n: nat)
    requires |pages| == 2 * n + 1
    ensures MiddlePage(pages) == Ok(pages[n])
    ensures |pages[..n]| == |pages[n + 1..]|
  {
  }

  function SumMiddles(updates: seq<seq<int>>): (r: Result<int>)
    ensures r.Err? <==> [] in updates
    ensures r.Err? ==> r.error == IndexError
  {
    if updates == [] then Ok(0)
    else
      var last := updates[|updates| - 1];
      assert forall u :: u in updates <==> u in updates[..|updates| - 1] || u == last by {
        assert updates == updates[..|updates| - 1] + [last];
      }
      match SumMiddles(updates[..|updates| - 1])
      case Err(e) => Err(e)
      case Ok(s) =>
        match MiddlePage(last)
        case Err(e) => Err(e)
        case Ok(m) => Ok(s + m)
  }

  function Passing(rules: seq<Rule>, updates: seq<seq<int>>): (r: seq<seq<int>>)
    ensures forall u :: u in r <==> u in updates && ApplyRules(rules, u)
  {
    if updates == [] then []
    else
      var rest := Passing(rules, updates[1..]);
      if ApplyRules(rules, updates[0]) then [updates[0]] + rest else rest
  }

  /**
   * `Passing` is a filter in order: filtering two lists of updates in turn
   * is filtering the first followed by filtering the second, and a single
   * update stays exactly when it passes the rules. So each passing update
   * is kept once per listing, in input order, which the sum in `part1`
   * depends on.
   */
  lemma {:induction false} PassingAppend(rules: seq<Rule>, a: seq<seq<int>>, b: seq<seq<int>>)
    ensures Passing(rules, a + b) == Passing(rules, a) + Passing(rules, b)
    ensures |a| == 1 ==> Passing(rules, a) == (if ApplyRules(rules, a[0]) then a else [])
  {
    if a == [] {
      assert a + b == b;
    } else {
      PassingAppend(rules, a[1..], b);
      PassingAppendStep(rules, a, b);
      if |a| == 1 {
        PassingHead(rules, a);
        assert a[1..] == [];
      }
    }
  }

  /** The inductive step of `PassingAppend`: putting the head back on both sides. */
  lemma PassingAppendStep(rules: seq<Rule>, a: seq<seq<int>>, b: seq<seq<int>>)
    requires a != [] && Passing(rules, a[1..] + b) == Passing(rules, a[1..]) + Passing(rules, b)
    ensures Passing(rules, a + b) == Passing(rules, a) + Passing(rules, b)
  {
    var k := if ApplyRules(rules, a[0]) then [a[0]] else [];
    DropAppend(a, b);
    PassingHead(rules, a + b);
    PassingHead(rules, a);
    AppendAssociates(k, Passing(rules, a[1..]), Passing(rules, b));
  }

  /** One step of `Passing`: the head, if it passes, then the passing updates of the tail. */
  lemma PassingHead(rules: seq<Rule>, updates: seq<seq<int>>)
    requires updates != []
    ensures Passing(rules, updates)
      == (if ApplyRules(rules, updates[0]) then [updates[0]] else []) + Passing(rules, updates[1..])
  {
  }

  /** `part1`: the sum of the middle pages of the updates already in order. */
  function Part1(rules: seq<Rule>, updates: seq<seq<int>>): (r: Result<int>)
    ensures r.Err? <==> [] in updates
    ensures r.Err? ==> r.error == IndexError
    ensures r.Ok? && (forall u :: u in updates ==> !ApplyRules(rules, u)) ==> r.value == 0
  {
    var passing := Passing(rules, updates);
    assert passing != [] ==> passing[0] in passing;
    SumMiddles(passing)
  }

  /** An empty update passes every rule, so it reaches `middle_page` and raises. */
  lemma Part1EmptyUpdateRaises(rules: seq<Rule>)
    ensures Part1(rules, [[]]) == Err(IndexError)
  {
    var empty: seq<int> := [];
    NoRulesForEmptyUpdate(rules);
    NoRelevantRulesPass(rules, empty);
    assert empty in Passing(rules, [empty]);
  }

  // ---- part 2b: ordering by rule counts (`fix_order_no_network`) ----

  /** A `Counter` as Python builds it: keys in order of first increment, and their counts. */
  datatype Tally = Tally(keys: seq<int>, counts: map<int, nat>)

  /** `counter[k]`: a missing key counts 0. */
  function Count(t: Tally, k: int): nat
  {
    if k in t.counts then t.counts[k] else 0
  }

  ghost predicate WellFormed(t: Tally)
  {
    Distinct(t.keys) && forall k :: k in t.counts <==> k in t.keys
  }

  /** `counter[x] += 1`. */
  function Incr(t: Tally, x: int): Tally
  {
    if x in t.counts then Tally(t.keys, t.counts[x := t.counts[x] + 1])
    else Tally(t.keys + [x], t.counts[x := 1])
  }

  /** The tally of `xs` after incrementing once per element, left to right. */
  function TallyOf(xs: seq<int>): (t: Tally)
    ensures WellFormed(t)
    ensures forall k :: k in t.keys <==> k in xs
  {
    if xs == [] then Tally([], map[])
    else
      var x := xs[|xs| - 1];
      assert forall k :: k in xs <==> k in xs[..|xs| - 1] || k == x by {
        assert xs == xs[..|xs| - 1] + [x];
      }
      Incr(TallyOf(xs[..|xs| - 1]), x)
  }

  /** Each count is the number of times the key occurs. */
  lemma {:induction false} TallyCounts(xs: seq<int>, k: int)
    ensures Count(TallyOf(xs), k) == multiset(xs)[k]
  {
    if xs != [] {
      var init := xs[..|xs| - 1];
      assert xs == init + [xs[|xs| - 1]];
      TallyCounts(init, k);
    }
  }

  /** Keys in descending order of count. */
  predicate DescByCount(r: seq<int>, t: Tally)
  {
    forall i, j :: 0 <= i < j < |r| ==> Count(t, r[i]) >= Count(t, r[j])
  }

  lemma ConsDescByCount(head: int, rest: seq<int>, t: Tally)
    requires DescByCount(rest, t) && forall i :: 0 <= i < |rest| ==> Count(t, head) >= Count(t, rest[i])
    ensures DescByCount([head] + rest, t)
  {
    var r := [head] + rest;
    forall i, j | 0 <= i < j < |r| ensures Count(t, r[i]) >= Count(t, r[j]) {
      assert r[j] == rest[j - 1];
      if i > 0 {
        assert r[i] == rest[i - 1];
      }
    }
  }

  /** One step of a stable sort by descending count: `x` goes after every key counted at least as often. */
  function InsertByCount(x: int, sorted: seq<int>, t: Tally): (r: seq<int>)
    requires DescByCount(sorted, t)
    ensures multiset(r) == multiset(sorted) + multiset{x}
    ensures DescByCount(r, t)
  {
    if sorted == [] then [x]
    else if Count(t, x) > Count(t, sorted[0]) then
      ConsDescByCount(x, sorted, t);
      [x] + sorted
    else
      var head, tail := sorted[0], sorted[1..];
      assert sorted == [head] + tail;
      assert DescByCount(tail, t) by {
        forall i, j | 0 <= i < j < |tail| ensures Count(t, tail[i]) >= Count(t, tail[j]) {
          assert tail[i] == sorted[i + 1] && tail[j] == sorted[j + 1];
        }
      }
      var rest := InsertByCount(x, tail, t);
      forall i | 0 <= i < |rest| ensures Count(t, head) >= Count(t, rest[i]) {
        assert rest[i] in multiset(tail) + multiset{x};
        if rest[i] != x {
          assert rest[i] in tail;
          var j :| 0 <= j < |tail| && tail[j] == rest[i];
          assert sorted[j + 1] == rest[i];
        }
      }
      ConsDescByCount(head, rest, t);
      [head] + rest
  }

  /** `most_common()` keys: by descending count, ties kept in insertion order. */
  function MostCommon(t: Tally): (r: seq<int>)
    ensures multiset(r) == multiset(t.keys)
    ensures DescByCount(r, t)
  {
    SortByCount(t.keys, t)
  }

  function SortByCount(keys: seq<int>, t: Tally): (r: seq<int>)
    ensures multiset(r) == multiset(keys)
    ensures DescByCount(r, t)
  {
    if keys == [] then []
    else
      var init := keys[..|keys| - 1];
      assert keys == init + [keys[|keys| - 1]];
      InsertByCount(keys[|keys| - 1], SortByCount(init, t), t)
  }

  /** The keys counted exactly `c` times, in their order. */
  function OfCount(keys: seq<int>, t: Tally, c: nat): seq<int>
  {
    if keys == [] then []
    else (if Count(t, keys[0]) == c then [keys[0]] else []) + OfCount(keys[1..], t, c)
  }

  lemma {:induction false} OfCountAppend(a: seq<int>, b: seq<int>, t: Tally, c: nat)
    ensures OfCount(a + b, t, c) == OfCount(a, t, c) + OfCount(b, t, c)
  {
    if a != [] {
      assert (a + b)[1..] == a[1..] + b;
      OfCountAppend(a[1..], b, t, c);
    } else {
      assert a + b == b;
    }
  }

  lemma DescByCountTail(sorted: seq<int>, t: Tally)
    requires sorted != [] && DescByCount(sorted, t)
    ensures DescByCount(sorted[1..], t)
  {
    var tail := sorted[1..];
    forall i, j | 0 <= i < j < |tail| ensures Count(t, tail[i]) >= Count(t, tail[j]) {
      assert tail[i] == sorted[i + 1] && tail[j] == sorted[j + 1];
    }
  }

  /** No key of a list sorted by descending count is counted more often than its head. */
  lemma {:induction false} OfCountAboveHead(sorted: seq<int>, t: Tally, c: nat)
    requires sorted != [] && DescByCount(sorted, t) && Count(t, sorted[0]) < c
    ensures OfCount(sorted, t, c) == []
    decreases |sorted|
  {
    if |sorted| > 1 {
      DescByCountTail(sorted, t);
      assert Count(t, sorted[0]) >= Count(t, sorted[1]);
      OfCountAboveHead(sorted[1..], t, c);
    }
  }

  lemma OfCountCons(head: int, rest: seq<int>, t: Tally, c: nat)
    ensures OfCount([head] + rest, t, c) == (if Count(t, head) == c then [head] else []) + OfCount(rest, t, c)
  {
    assert ([head] + rest)[1..] == rest;
  }

  /** A key counted no more often than the head goes into the tail. */
  lemma InsertByCountBehindHead(x: int, sorted: seq<int>, t: Tally)
    requires sorted != [] && DescByCount(sorted, t) && Count(t, x) <= Count(t, sorted[0])
    ensures DescByCount(sorted[1..], t)
    ensures InsertByCount(x, sorted, t) == [sorted[0]] + InsertByCount(x, sorted[1..], t)
  {
    DescByCountTail(sorted, t);
  }

  /**
   * `InsertByCount` is stable: among the keys of any one count, `x` comes
   * after those already in `sorted`, which keep their order.
   */
  lemma {:induction false} InsertByCountStable(x: int, sorted: seq<int>, t: Tally, c: nat)
    requires DescByCount(sorted, t)
    ensures OfCount(InsertByCount(x, sorted, t), t, c) == OfCount(sorted, t, c) + (if Count(t, x) == c then [x] else [])
  {
    var theirs := if Count(t, x) == c then [x] else [];
    if sorted == [] {
      OfCountCons(x, [], t, c);
      assert InsertByCount(x, sorted, t) == [x] + [];
    } else if Count(t, x) > Count(t, sorted[0]) {
      OfCountAheadOfHead(x, sorted, t, c);
    } else {
      InsertByCountBehindHead(x, sorted, t);
      InsertByCountStable(x, sorted[1..], t, c);
      OfCountAfterHead(x, sorted, t, c);
    }
  }

  /** The case of `InsertByCountStable` where `x` goes before the head. */
  lemma OfCountAheadOfHead(x: int, sorted: seq<int>, t: Tally, c: nat)
    requires sorted != [] && DescByCount(sorted, t) && Count(t, x) > Count(t, sorted[0])
    ensures OfCount(InsertByCount(x, sorted, t), t, c) == OfCount(sorted, t, c) + (if Count(t, x) == c then [x] else [])
  {
    assert InsertByCount(x, sorted, t) == [x] + sorted;
    OfCountCons(x, sorted, t, c);
    if Count(t, x) == c {
      OfCountAboveHead(sorted, t, c);
    }
  }

  /** The step of `InsertByCountStable` where `x` goes behind the head. */
  lemma OfCountAfterHead(x: int, sorted: seq<int>, t: Tally, c: nat)
    requires sorted != [] && DescByCount(sorted, t) && DescByCount(sorted[1..], t)
    requires InsertByCount(x, sorted, t) == [sorted[0]] + InsertByCount(x, sorted[1..], t)
    requires OfCount(InsertByCount(x, sorted[1..], t), t, c) == OfCount(sorted[1..], t, c) + (if Count(t, x) == c then [x] else [])
    ensures OfCount(InsertByCount(x, sorted, t), t, c) == OfCount(sorted, t, c) + (if Count(t, x) == c then [x] else [])
  {
    var head, tail := sorted[0], sorted[1..];
    var rest := InsertByCount(x, tail, t);
    var mine := if Count(t, head) == c then [head] else [];
    var theirs := if Count(t, x) == c then [x] else [];
    OfCountCons(head, rest, t, c);
    assert sorted == [head] + tail;
    OfCountCons(head, tail, t, c);
    AppendAssociates(mine, OfCount(tail, t, c), theirs);
  }

  /**
   * `SortByCount` is stable: the keys of any one count come out in the
   * order they went in, as `Counter.most_common` keeps ties in insertion
   * order.
   */
  lemma {:induction false} SortByCountStable(keys: seq<int>, t: Tally, c: nat)
    ensures OfCount(SortByCount(keys, t), t, c) == OfCount(keys, t, c)
  {
    if keys != [] {
      var init, last := keys[..|keys| - 1], keys[|keys| - 1];
      SortByCountStable(init, t, c);
      var sortedInit := SortByCount(init, t);
      assert SortByCount(keys, t) == InsertByCount(last, sortedInit, t);
      InsertByCountStable(last, sortedInit, t, c);
      OfCountSnoc(keys, t, c);
    }
  }

  /** The keys of one count in a list: those before its last key, then the last key if it has that count. */
  lemma OfCountSnoc(keys: seq<int>, t: Tally, c: nat)
    requires keys != []
    ensures OfCount(keys, t, c) == OfCount(keys[..|keys| - 1], t, c) + (if Count(t, keys[|keys| - 1]) == c then [keys[|keys| - 1]] else [])
  {
    var init, last := keys[..|keys| - 1], keys[|keys| - 1];
    assert keys == init + [last];
    OfCountAppend(init, [last], t, c);
    OfCountCons(last, [], t, c);
    assert [last] + [] == [last];
  }

  /** `most_common()[0][0]`: the first key of highest count. */
  function TopKey(keys: seq<int>, t: Tally): (r: int)
    requires keys != []
    ensures r in keys && forall i :: 0 <= i < |keys| ==> Count(t, keys[i]) <= Count(t, r)
    ensures exists j :: 0 <= j < |keys| && keys[j] == r && forall i :: 0 <= i < j ==> Count(t, keys[i]) < Count(t, r)
  {
    if |keys| == 1 then keys[0]
    else
      var tail := keys[1..];
      var best := TopKey(tail, t);
      if Count(t, keys[0]) >= Count(t, best) then
        HeadIsTop(keys, t, best);
        keys[0]
      else
        TailIsTop(keys, t, best);
        best
  }

  /** A head counted at least as often as the top of the tail is the first key of highest count. */
  lemma HeadIsTop(keys: seq<int>, t: Tally, best: int)
    requires |keys| > 1 && forall i :: 0 <= i < |keys| - 1 ==> Count(t, keys[1..][i]) <= Count(t, best)
    requires Count(t, keys[0]) >= Count(t, best)
    ensures forall i :: 0 <= i < |keys| ==> Count(t, keys[i]) <= Count(t, keys[0])
  {
    forall i | 0 < i < |keys| ensures Count(t, keys[i]) <= Count(t, keys[0]) {
      assert keys[i] == keys[1..][i - 1];
    }
  }

  /** A top of the tail counted more often than the head is the first key of highest count. */
  lemma TailIsTop(keys: seq<int>, t: Tally, best: int)
    requires |keys| > 1 && forall i :: 0 <= i < |keys| - 1 ==> Count(t, keys[1..][i]) <= Count(t, best)
    requires exists j :: 0 <= j < |keys| - 1 && keys[1..][j] == best && forall i :: 0 <= i < j ==> Count(t, keys[1..][i]) < Count(t, best)
    requires Count(t, keys[0]) < Count(t, best)
    ensures best in keys && forall i :: 0 <= i < |keys| ==> Count(t, keys[i]) <= Count(t, best)
    ensures exists j :: 0 <= j < |keys| && keys[j] == best && forall i :: 0 <= i < j ==> Count(t, keys[i]) < Count(t, best)
  {
    var j :| 0 <= j < |keys| - 1 && keys[1..][j] == best && forall i :: 0 <= i < j ==> Count(t, keys[1..][i]) < Count(t, best);
    assert keys[j + 1] == best;
    forall i | 0 < i < |keys| ensures Count(t, keys[i]) <= Count(t, best) {
      assert keys[i] == keys[1..][i - 1];
    }
    forall i | 0 < i < j + 1 ensures Count(t, keys[i]) < Count(t, best) {
      assert keys[i] == keys[1..][i - 1];
    }
  }

  function Firsts(rules: seq<Rule>): (r: seq<int>)
    ensures |r| == |rules| && forall i :: 0 <= i < |rules| ==> r[i] == rules[i].0
  {
    seq(|rules|, i requires 0 <= i < |rules| => rules[i].0)
  }

  function Seconds(rules: seq<Rule>): (r: seq<int>)
    ensures |r| == |rules| && forall i :: 0 <= i < |rules| ==> r[i] == rules[i].1
  {
    seq(|rules|, i requires 0 <= i < |rules| => rules[i].1)
  }

  /**
   * `fix_order_no_network`: count the outgoing and incoming relevant rules of
   * every page, list the pages with outgoing rules by descending count, then
   * the page with the most incoming rules.  With no relevant rule the empty
   * `ins` counter has no first entry and IndexError is raised.
   */
  method FixOrderNoNetwork(pages: seq<int>, rules: seq<Rule>) returns (r: Result<seq<int>>)
    ensures var rel := RelevantRules(rules, pages);
      var outs, ins := TallyOf(Firsts(rel)), TallyOf(Seconds(rel));
      if rel == [] then r == Err(IndexError)
      else ins.keys != [] && r == Ok(MostCommon(outs) + [TopKey(ins.keys, ins)])
  {
    var rel := RelevantRules(rules, pages);
    var outs := Tally([], map[]);
    var ins := Tally([], map[]);
    var i := 0;
    while i < |rel|
      invariant 0 <= i <= |rel|
      invariant outs == TallyOf(Firsts(rel[..i])) && ins == TallyOf(Seconds(rel[..i]))
    {
      var (first, second) := rel[i];
      PrefixStep(rel, i);
      outs := Incr(outs, first);
      ins := Incr(ins, second);
      i := i + 1;
    }
    assert rel[..i] == rel;
    if rel == [] {
      return Err(IndexError);
    }
    assert rel[0].1 in Seconds(rel);
    r := Ok(MostCommon(outs) + [TopKey(ins.keys, ins)]);
  }

  lemma PrefixStep(rel: seq<Rule>, i: nat)
    requires i < |rel|
    ensures TallyOf(Firsts(rel[..i + 1])) == Incr(TallyOf(Firsts(rel[..i])), rel[i].0)
    ensures TallyOf(Seconds(rel[..i + 1])) == Incr(TallyOf(Seconds(rel[..i])), rel[i].1)
  {
    assert Firsts(rel[..i + 1])[..i] == Firsts(rel[..i]);
    assert Seconds(rel[..i + 1])[..i] == Seconds(rel[..i]);
  }

  /** The listed pages are exactly those that begin some relevant rule, each once, by descending rule count. */
  lemma FixOrderListsEveryRuleHead(pages: seq<int>, rules: seq<Rule>, x: int)
    ensures var rel := RelevantRules(rules, pages);
      var outs := TallyOf(Firsts(rel));
      var order := MostCommon(outs);
      (x in order <==> exists after :: (x, after) in rel) &&
      (x in order ==> multiset(order)[x] == 1) &&
      Count(outs, x) == multiset(Firsts(rel))[x]
  {
    var rel := RelevantRules(rules, pages);
    var outs := TallyOf(Firsts(rel));
    TallyCounts(Firsts(rel), x);
    FirstsAreHeads(rel, x);
    MostCommonOnce(outs, x);
  }

  /** A page is among the first pages of the rules exactly when some rule starts at it. */
  lemma FirstsAreHeads(rel: seq<Rule>, x: int)
    ensures x in Firsts(rel) <==> exists after :: (x, after) in rel
  {
    if x in Firsts(rel) {
      var i :| 0 <= i < |rel| && Firsts(rel)[i] == x;
      assert (x, rel[i].1) in rel;
    }
    if exists after :: (x, after) in rel {
      var after :| (x, after) in rel;
      var i :| 0 <= i < |rel| && rel[i] == (x, after);
      assert Firsts(rel)[i] == x;
    }
  }

  /** `most_common` lists every key of a tally exactly once. */
  lemma MostCommonOnce(t: Tally, x: int)
    requires WellFormed(t)
    ensures x in MostCommon(t) <==> x in t.keys
    ensures x in MostCommon(t) ==> multiset(MostCommon(t))[x] == 1
  {
    var order := MostCommon(t);
    assert x in order <==> x in multiset(t.keys);
    if x in t.keys {
      DistinctOnce(t.keys, x);
    }
  }

  lemma DistinctOnce(xs: seq<int>, x: int)
    requires Distinct(xs) && x in xs
    ensures multiset(xs)[x] == 1
  {
    var i :| 0 <= i < |xs| && xs[i] == x;
    assert xs == xs[..i] + [x] + xs[i + 1..];
    assert x !in xs[..i] && x !in xs[i + 1..];
    assert multiset(xs[..i])[x] == 0 && multiset(xs[i + 1..])[x] == 0;
  }

  // ---- part 2c: moving pages in place (`move_item`, `fix_pages_rule`, `fix_pages_move`) ----

  /** The list after `pop(before)` then `insert(after, item)`, or unchanged when `before < after`. */
  function Moved(s: seq<int>, before: nat, after: nat): (r: seq<int>)
    requires before < |s| && after < |s|
    ensures |r| == |s|
  {
    if before < after then s
    else s[..after] + [s[before]] + s[after..before] + s[before + 1..]
  }

  /** Moving an item is a permutation that puts it at `after`, directly followed by the old occupant. */
  lemma MovedIsPermutation(s: seq<int>, before: nat, after: nat)
    requires after <= before < |s|
    ensures multiset(Moved(s, before, after)) == multiset(s)
    ensures Moved(s, before, after)[after] == s[before]
    ensures after < before ==> Moved(s, before, after)[after + 1] == s[after]
  {
    assert s == s[..after] + s[after..before] + [s[before]] + s[before + 1..];
  }

  /** The position in `s` that position `k` of the moved list came from. */
  function MovedFrom(k: nat, before: nat, after: nat): nat
  {
    if k < after || k > before then k else if k == after then before else k - 1
  }

  /** Moving keeps a list free of repeats. */
  lemma MovedKeepsDistinct(s: seq<int>, before: nat, after: nat)
    requires after <= before < |s| && Distinct(s)
    ensures Distinct(Moved(s, before, after))
  {
    MovedElements(s, before, after);
  }

  /** After a failing rule is repaired by a move, the rule passes in a list without repeats. */
  lemma MoveRepairsRule(s: seq<int>, rule: Rule)
    requires Distinct(s) && rule.0 in s && rule.1 in s && rule.0 != rule.1
    ensures var b, a := IndexOf(s, rule.0).value, IndexOf(s, rule.1).value;
      RulePasses(rule, Moved(s, b, a)) == Ok(true)
  {
    var b, a := IndexOf(s, rule.0).value, IndexOf(s, rule.1).value;
    if a <= b {
      assert a < b;
      var r := Moved(s, b, a);
      MovedIsPermutation(s, b, a);
      MovedKeepsDistinct(s, b, a);
      DistinctIndexOf(r, a);
      DistinctIndexOf(r, a + 1);
    }
  }

  /** Where each element of the moved list comes from. */
  lemma MovedElements(s: seq<int>, before: nat, after: nat)
    requires after <= before < |s|
    ensures forall k :: 0 <= k < |s| ==> MovedFrom(k, before, after) < |s| && Moved(s, before, after)[k] == s[MovedFrom(k, before, after)]
  {
  }

  /** `move_item` on the caller's list: pop at `before`, insert at `after`, unless `before < after`. */
  method MoveItem(pages: array<int>, before: nat, after: nat)
    requires before < pages.Length && after < pages.Length
    modifies pages
    ensures pages[..] == Moved(old(pages[..]), before, after)
  {
    if before < after {
      return;
    }
    ghost var s := pages[..];
    var item := pages[before];
    var k := before;
    while k > after
      invariant after <= k <= before
      invariant forall j :: 0 <= j <= k ==> pages[j] == s[j]
      invariant forall j :: k < j <= before ==> pages[j] == s[j - 1]
      invariant forall j :: before < j < pages.Length ==> pages[j] == s[j]
    {
      pages[k] := pages[k - 1];
      k := k - 1;
    }
    pages[after] := item;
    MovedElements(s, before, after);
    assert pages[..] == Moved(s, before, after);
  }

  /** `fix_pages_rule`: look both pages up (ValueError if absent) and move accordingly. */
  method FixPagesRule(pages: array<int>, rule: Rule) returns (r: Result<()>)
    modifies pages
    ensures r.Err? <==> !(rule.0 in old(pages[..]) && rule.1 in old(pages[..]))
    ensures r.Err? ==> r.error == ValueError && pages[..] == old(pages[..])
    ensures r.Ok? ==> pages[..] == Moved(old(pages[..]), IndexOf(old(pages[..]), rule.0).value, IndexOf(old(pages[..]), rule.1).value)
  {
    var before := IndexOf(pages[..], rule.0);
    var after := IndexOf(pages[..], rule.1);
    if before.Err? || after.Err? {
      return Err(ValueError);
    }
    MoveItem(pages, before.value, after.value);
    return Ok(());
  }

  /** The relevant rules that do not pass, evaluated on one snapshot of the pages. */
  function FailingRules(rel: seq<Rule>, pages: seq<int>): (r: seq<Rule>)
    requires forall rule :: rule in rel ==> rule.0 in pages && rule.1 in pages
    ensures forall rule :: rule in r <==> rule in rel && RulePasses(rule, pages) == Ok(false)
  {
    if rel == [] then []
    else
      var rest := FailingRules(rel[1..], pages);
      if RulePasses(rel[0], pages) == Ok(false) then [rel[0]] + rest else rest
  }

  /**
   * `fix_pages_move`: repair every rule failing on the current pages, then
   * start again with the relevant rules, until none fails.  The source recurses
   * without bound; `fuel` caps the rounds and `done` says the pages were fixed.
   */
  method FixPagesMove(pages: array<int>, rules: seq<Rule>, fuel: nat) returns (done: bool)
    modifies pages
    ensures multiset(pages[..]) == multiset(old(pages[..]))
    ensures done ==> ApplyRules(rules, pages[..])
    decreases fuel
  {
    ghost var start := pages[..];
    var rel := RelevantRules(rules, pages[..]);
    var failing := FailingRules(rel, pages[..]);
    if failing == [] {
      forall rule | rule in rel ensures RulePasses(rule, pages[..]) == Ok(true) {
      }
      return true;
    }
    if fuel == 0 {
      return false;
    }
    var i := 0;
    while i < |failing|
      invariant 0 <= i <= |failing|
      invariant multiset(pages[..]) == multiset(start)
    {
      ghost var s := pages[..];
      assert forall x :: x in s <==> x in start by {
        assert forall x :: x in s <==> x in multiset(s);
        assert forall x :: x in start <==> x in multiset(start);
      }
      var _ := FixPagesRule(pages, failing[i]);
      if IndexOf(s, failing[i].0).value >= IndexOf(s, failing[i].1).value {
        MovedIsPermutation(s, IndexOf(s, failing[i].0).value, IndexOf(s, failing[i].1).value);
      }
      i := i + 1;
    }
    var now := pages[..];
    assert forall x :: x in now <==> x in start by {
      assert forall x :: x in now <==> x in multiset(now);
      assert forall x :: x in start <==> x in multiset(start);
    }
    done := FixPagesMove(pages, rel, fuel - 1);
    if done {
      var final := pages[..];
      assert forall x :: x in final <==> x in start by {
        assert forall x :: x in final <==> x in multiset(final);
        assert forall x :: x in start <==> x in multiset(start);
      }
      RelevantRulesAgain(rules, start, final);
    }
  }
}
