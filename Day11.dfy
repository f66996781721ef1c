// Day 11 of 2024 (src/aoc/yr_2024/day_11/puzzle.py): stones that change on
// every blink.  A stone 0 becomes 1, a stone with an even number of decimal
// digits splits into its two halves, and any other stone is multiplied by
// 2024.  Part 1 blinks a list of stones; part 2 counts stones through a
// Counter (here a multiset) so that equal stones are handled once.
module Day11 {
  import opened Common

  // --------------------------------------------------------- decimal halves

  function Pow10(k: nat): nat
  {
    if k == 0 then 1 else 10 * Pow10(k - 1)
  }

  /** Reading `a + b` is reading `a`, shifted past the digits of `b`, plus `b`. */
  lemma {:induction false} DecimalAppend(a: string, b: string)
    requires AllDigits(a) && AllDigits(b)
    ensures DecimalValue(a + b) == DecimalValue(a) * Pow10(|b|) + DecimalValue(b)
  {
    if b == [] {
      assert a + b == a;
    } else {
      var init, d := b[..|b| - 1], b[|b| - 1] as int - '0' as int;
      assert (a + b)[..|a + b| - 1] == a + init;
      DecimalAppend(a, init);
      var va, vi := DecimalValue(a), DecimalValue(init);
      var p := Pow10(|init|);
      calc {
        DecimalValue(a + b);
        10 * DecimalValue(a + init) + d;
        10 * (va * p + vi) + d;
        { ShiftDigit(va, p, vi, d); }
        va * (10 * p) + (10 * vi + d);
        va * Pow10(|b|) + DecimalValue(b);
      }
    }
  }

  lemma ShiftDigit(va: int, p: int, vi: int, d: int)
    ensures 10 * (va * p + vi) + d == va * (10 * p) + (10 * vi + d)
  {
    calc {
      10 * (va * p + vi) + d;
      10 * (va * p) + 10 * vi + d;
      { assert 10 * (va * p) == va * (10 * p); }
      va * (10 * p) + (10 * vi + d);
    }
  }

  /** Any digit string reads as less than ten to its length. */
  lemma {:induction false} DecimalBelow(s: string)
    requires AllDigits(s)
    ensures DecimalValue(s) < Pow10(|s|)
  {
    if s != [] {
      DecimalBelow(s[..|s| - 1]);
    }
  }

  /** A digit string that does not start with `0` reads as at least ten to its length minus one. */
  lemma {:induction false} DecimalAtLeast(s: string)
    requires AllDigits(s) && |s| > 0 && s[0] != '0'
    ensures DecimalValue(s) >= Pow10(|s| - 1)
  {
    if |s| > 1 {
      DecimalAtLeast(s[..|s| - 1]);
    }
  }

  /** `str(n)` of a number of two or more digits does not start with `0`. */
  lemma {:induction false} ToDecimalLeading(n: nat)
    ensures n > 0 ==> ToDecimal(n)[0] != '0'
  {
    if n >= 10 {
      ToDecimalLeading(n / 10);
    }
  }

  /** `len(str(n))` is the number of decimal digits of `n`. */
  lemma DecimalLength(n: nat)
    ensures n < Pow10(|ToDecimal(n)|)
    ensures n > 0 ==> Pow10(|ToDecimal(n)| - 1) <= n
  {
    DecimalRoundTrip(n);
    DecimalBelow(ToDecimal(n));
    ToDecimalLeading(n);
    if n > 0 {
      DecimalAtLeast(ToDecimal(n));
    }
  }

  // ------------------------------------------------------------------ rules

  /** `rule_0_1`: 0 becomes `[1]`; `None` for every other stone. */
  function Rule01(stone: nat): (r: Option<seq<nat>>)
    ensures r.Some? <==> stone == 0
    ensures r.Some? ==> r.value == [1]
  {
    if stone == 0 then Some([1]) else None
  }

  /**
   * `rule_even_digits`: a stone whose decimal string has an even length
   * splits into `int` of its left and right halves; `None` otherwise.
   */
  function RuleEvenDigits(stone: nat): (r: Option<seq<nat>>)
    ensures r.Some? <==> |ToDecimal(stone)| % 2 == 0
    ensures r.Some? ==>
      var half := |ToDecimal(stone)| / 2;
      |r.value| == 2 && r.value[0] * Pow10(half) + r.value[1] == stone &&
      r.value[1] < Pow10(half) && Pow10(half - 1) <= r.value[0] < Pow10(half)
  {
    EvenSplitRecombines(stone);
    var s := ToDecimal(stone);
    if |s| % 2 == 0 then
      var mid := |s| / 2;
      Some([DecimalValue(s[..mid]), DecimalValue(s[mid..])])
    else None
  }

  /** `rule_other_2024`: one stone, 2024 times the old one, so larger unless it was 0. */
  function RuleOther2024(stone: nat): (r: seq<nat>)
    ensures |r| == 1 && r[0] % 2024 == 0 && r[0] / 2024 == stone
    ensures stone > 0 ==> r[0] > stone
  {
    [2024 * stone]
  }

  /**
   * The halves of an even-length stone: put side by side they give the
   * stone back; the right half has at most `half` digits (leading zeros
   * dropped) and the left exactly `half`.
   */
  lemma EvenSplitRecombines(stone: nat)
    ensures var s := ToDecimal(stone); |s| % 2 == 0 ==>
      var half := |s| / 2;
      var left, right := DecimalValue(s[..half]), DecimalValue(s[half..]);
      left * Pow10(half) + right == stone &&
      right < Pow10(half) && Pow10(half - 1) <= left < Pow10(half)
  {
    var s := ToDecimal(stone);
    if |s| % 2 == 0 {
      var mid := |s| / 2;
      var left, right := s[..mid], s[mid..];
      assert s == left + right;
      DecimalAppend(left, right);
      DecimalRoundTrip(stone);
      DecimalBelow(right);
      DecimalBelow(left);
      ToDecimalLeading(stone);
      assert stone > 0;
      DecimalAtLeast(left);
    }
  }

  /** `apply_first_rule`: the first rule that does not give `None`. */
  function ApplyFirstRule(stone: nat): (r: seq<nat>)
    ensures 1 <= |r| <= 2
  {
    match Rule01(stone)
    case Some(r) => r
    case None =>
      match RuleEvenDigits(stone)
      case Some(r) => r
      case None => RuleOther2024(stone)
  }

  /** The rules in priority order: zero, then an even digit count, then the factor 2024. */
  lemma ApplyFirstRuleCases(stone: nat)
    ensures stone == 0 ==> ApplyFirstRule(stone) == [1]
    ensures stone != 0 && |ToDecimal(stone)| % 2 == 0 ==>
      ApplyFirstRule(stone) == RuleEvenDigits(stone).value &&
      ApplyFirstRule(stone)[0] * Pow10(|ToDecimal(stone)| / 2) + ApplyFirstRule(stone)[1] == stone
    ensures stone != 0 && |ToDecimal(stone)| % 2 == 1 ==> ApplyFirstRule(stone) == [2024 * stone]
  {
    EvenSplitRecombines(stone);
  }

  // ------------------------------------------------------------------ blink

  /** Each stone's replacement, in order. */
  function Transforms(stones: seq<nat>): (r: seq<seq<nat>>)
    ensures |r| == |stones|
  {
    seq(|stones|, i requires 0 <= i < |stones| => ApplyFirstRule(stones[i]))
  }

  /** Each stone gives one or two, so the flattened replacements are between one and two per stone. */
  lemma {:induction false} TransformsLength(stones: seq<nat>)
    ensures |stones| <= |Flatten(Transforms(stones))| <= 2 * |stones|
  {
    if stones != [] {
      var init := stones[..|stones| - 1];
      var ts := Transforms(stones);
      assert ts[..|ts| - 1] == Transforms(init);
      TransformsLength(init);
    }
  }

  /** One blink over a list of stones: every stone replaced, flattened; it keeps every stone and at most doubles the row. */
  function BlinkAll(stones: seq<nat>): (r: seq<nat>)
    ensures |stones| <= |r| <= 2 * |stones|
  {
    TransformsLength(stones);
    Flatten(Transforms(stones))
  }

  lemma BlinkSnoc(init: seq<nat>, last: nat)
    ensures BlinkAll(init + [last]) == BlinkAll(init) + ApplyFirstRule(last)
  {
    var ts := Transforms(init + [last]);
    assert ts[..|ts| - 1] == Transforms(init);
  }

  /** A blink of a concatenation is the concatenation of the blinks. */
  lemma {:induction false} BlinkAppend(a: seq<nat>, b: seq<nat>)
    ensures BlinkAll(a + b) == BlinkAll(a) + BlinkAll(b)
    decreases |b|
  {
    if b == [] {
      assert a + b == a;
      assert Transforms(b) == [];
    } else {
      var init, last := b[..|b| - 1], b[|b| - 1];
      assert a + b == (a + init) + [last];
      assert b == init + [last];
      BlinkSnoc(a + init, last);
      BlinkSnoc(init, last);
      BlinkAppend(a, init);
    }
  }

  /** `k` blinks, one after another: no stone is lost, and no stones stay no stones. */
  function BlinkTimes(stones: seq<nat>, k: nat): (r: seq<nat>)
    ensures |stones| <= |r|
    ensures stones == [] ==> r == []
  {
    if k == 0 then stones else BlinkAll(BlinkTimes(stones, k - 1))
  }

  /** The puzzle's row of stones, rewritten in place by `blink`. */
  class Puzzle {
    var stones: seq<nat>

    constructor(inputs: seq<nat>)
      ensures stones == inputs
    {
      stones := inputs;
    }

    /** `blink`: replace every stone and return the new row. */
    method Blink() returns (r: seq<nat>)
      modifies this`stones
      ensures stones == BlinkAll(old(stones)) && r == stones
    {
      var newStones := Transforms(stones);
      stones := Flatten(newStones);
      r := stones;
    }
  }

  /** `part1`: blink `blinks` times (none when it is not positive) and count the stones. */
  method Part1(stones: seq<nat>, blinks: int) returns (n: nat)
    ensures n == |BlinkTimes(stones, if blinks < 0 then 0 else blinks)|
  {
    var puzzle := new Puzzle(stones);
    var rounds: nat := if blinks < 0 then 0 else blinks;
    var i := 0;
    while i < rounds
      invariant i <= rounds
      invariant puzzle.stones == BlinkTimes(stones, i)
    {
      var _ := puzzle.Blink();
      i := i + 1;
    }
    n := |puzzle.stones|;
  }

  // ---------------------------------------------------------------- counter

  /**
   * One blink of a bag of stones, each copy replaced: the Counter that the
   * helper of `blink_n` builds.  It does not depend on which stone is taken
   * first (`BlinkBagRemove`).
   */
  ghost function BlinkBag(m: multiset<nat>): multiset<nat>
    decreases |m|
  {
    if m == multiset{} then multiset{}
    else
      var s :| s in m;
      multiset(ApplyFirstRule(s)) + BlinkBag(m - multiset{s})
  }

  /** Any stone of the bag may be taken first. */
  lemma {:induction false} BlinkBagRemove(m: multiset<nat>, s: nat)
    requires s in m
    ensures BlinkBag(m) == multiset(ApplyFirstRule(s)) + BlinkBag(m - multiset{s})
    decreases |m|
  {
    var t :| t in m && BlinkBag(m) == multiset(ApplyFirstRule(t)) + BlinkBag(m - multiset{t});
    if t != s {
      var rest := m - multiset{s} - multiset{t};
      assert m - multiset{t} - multiset{s} == rest;
      BlinkBagRemove(m - multiset{t}, s);
      BlinkBagRemove(m - multiset{s}, t);
    }
  }

  /** The bag of a list's blink is the blink of the list's bag. */
  lemma {:induction false} BlinkBagOfList(stones: seq<nat>)
    ensures BlinkBag(multiset(stones)) == multiset(BlinkAll(stones))
  {
    if stones == [] {
      assert Transforms(stones) == [];
    } else {
      var init, last := stones[..|stones| - 1], stones[|stones| - 1];
      assert stones == init + [last];
      BlinkSnoc(init, last);
      BlinkBagOfList(init);
      assert multiset(stones) - multiset{last} == multiset(init);
      BlinkBagRemove(multiset(stones), last);
    }
  }

  /** `n` copies of every stone of `xs`. */
  function Scaled(xs: seq<nat>, n: nat): multiset<nat>
  {
    if xs == [] then multiset{}
    else
      var init, last := xs[..|xs| - 1], xs[|xs| - 1];
      assert xs == init + [last];
      var m := Scaled(init, n);
      m[last := m[last] + n]
  }

  /** No copies of anything. */
  lemma {:induction false} ScaledZero(xs: seq<nat>)
    ensures Scaled(xs, 0) == multiset{}
  {
    if xs != [] {
      ScaledZero(xs[..|xs| - 1]);
    }
  }

  /** One more copy of each stone of `xs`. */
  lemma {:induction false} ScaledOneMore(xs: seq<nat>, n: nat)
    ensures Scaled(xs, n + 1) == multiset(xs) + Scaled(xs, n)
  {
    if xs != [] {
      var init, last := xs[..|xs| - 1], xs[|xs| - 1];
      assert xs == init + [last];
      ScaledOneMore(init, n);
      assert multiset(xs) == multiset(init) + multiset{last};
    }
  }

  /** All `m[s]` copies of a stone taken at once. */
  lemma {:induction false} BlinkBagAll(m: multiset<nat>, s: nat)
    ensures BlinkBag(m) == Scaled(ApplyFirstRule(s), m[s]) + BlinkBag(m[s := 0])
    decreases m[s]
  {
    if m[s] == 0 {
      assert m[s := 0] == m;
      ScaledZero(ApplyFirstRule(s));
    } else {
      var fewer := m - multiset{s};
      BlinkBagAll(fewer, s);
      BlinkBagOneMore(m, s, fewer, ApplyFirstRule(s), fewer[s]);
    }
  }

  /** Taking one copy of `s` and then the other `n` at once takes all `n + 1`. */
  lemma BlinkBagOneMore(m: multiset<nat>, s: nat, fewer: multiset<nat>, xs: seq<nat>, n: nat)
    requires fewer == m - multiset{s} && xs == ApplyFirstRule(s) && n + 1 == m[s]
    requires BlinkBag(fewer) == Scaled(xs, n) + BlinkBag(fewer[s := 0])
    ensures BlinkBag(m) == Scaled(xs, m[s]) + BlinkBag(m[s := 0])
  {
    DropOneThenAll(m, s);
    calc {
      BlinkBag(m);
      { BlinkBagRemove(m, s); }
      multiset(xs) + BlinkBag(fewer);
      multiset(xs) + (Scaled(xs, n) + BlinkBag(m[s := 0]));
      (multiset(xs) + Scaled(xs, n)) + BlinkBag(m[s := 0]);
      { ScaledOneMore(xs, n); }
      Scaled(xs, n + 1) + BlinkBag(m[s := 0]);
    }
  }

  lemma DropOneThenAll(m: multiset<nat>, s: nat)
    ensures (m - multiset{s})[s := 0] == m[s := 0]
  {
  }

  /** The bag with every copy of `s` gone is smaller. */
  lemma DropAllSmaller(m: multiset<nat>, s: nat)
    requires s in m
    ensures |m[s := 0]| < |m|
  {
    assert m[s := 0] + multiset{s} <= m;
  }

  /**
   * The loop in the helper of `blink_n`: for each stone of the Counter, add
   * its count to the Counter entry of every stone it turns into.
   */
  method BlinkCounter(ctr: multiset<nat>) returns (output: multiset<nat>)
    ensures output == BlinkBag(ctr)
  {
    output := multiset{};
    var rest := ctr;
    while rest != multiset{}
      invariant output + BlinkBag(rest) == BlinkBag(ctr)
      decreases |rest|
    {
      var stone :| stone in rest;
      var toAdd := rest[stone];
      var xforms := ApplyFirstRule(stone);
      output := AddEach(output, xforms, toAdd);
      BlinkBagAll(rest, stone);
      DropAllSmaller(rest, stone);
      rest := rest[stone := 0];
    }
  }

  /** `output[new_stone] += to_add` for each stone of `xs` in turn. */
  method AddEach(start: multiset<nat>, xs: seq<nat>, n: nat) returns (output: multiset<nat>)
    ensures output == start + Scaled(xs, n)
  {
    output := start;
    for j := 0 to |xs|
      invariant output == start + Scaled(xs[..j], n)
    {
      assert xs[..j + 1][..j] == xs[..j];
      output := output[xs[j] := output[xs[j]] + n];
    }
    assert xs[..|xs|] == xs;
  }

  /** `k` blinks of a bag, the first one first. */
  ghost function BagTimes(m: multiset<nat>, k: nat): multiset<nat>
    decreases k
  {
    if k == 0 then m else BagTimes(BlinkBag(m), k - 1)
  }

  lemma {:induction false} BagTimesEmpty(k: nat)
    ensures BagTimes(multiset{}, k) == multiset{}
  {
    if k > 0 {
      BagTimesEmpty(k - 1);
    }
  }

  /** The bag of `k` blinks of a list is `k` blinks of its bag. */
  lemma BagTimesOfList(stones: seq<nat>, k: nat)
    ensures BagTimes(multiset(stones), k) == multiset(BlinkTimes(stones, k))
  {
    var j := 0;
    while j < k
      invariant j <= k
      invariant BagTimes(multiset(stones), j) == multiset(BlinkTimes(stones, j))
    {
      BagTimesStepUp(stones, j);
      j := j + 1;
    }
  }

  /** From `j` blinks to `j + 1`: blinking the bag is the bag of the blinked row. */
  lemma BagTimesStepUp(stones: seq<nat>, j: nat)
    requires BagTimes(multiset(stones), j) == multiset(BlinkTimes(stones, j))
    ensures BagTimes(multiset(stones), j + 1) == multiset(BlinkTimes(stones, j + 1))
  {
    BagTimesLast(multiset(stones), j + 1);
    BlinkBagOfList(BlinkTimes(stones, j));
  }

  /** The last of `k` blinks of a bag is one blink of the bag after `k - 1`. */
  lemma {:induction false} BagTimesLast(m: multiset<nat>, k: nat)
    requires k > 0
    ensures BagTimes(m, k) == BlinkBag(BagTimes(m, k - 1))
    decreases k
  {
    if k > 1 {
      BagTimesLast(BlinkBag(m), k - 1);
    }
  }

  /** Blinking first and then `k` times is `k + 1` blinks. */
  lemma {:induction false} BlinkTimesShift(stones: seq<nat>, k: nat)
    requires k > 0
    ensures BlinkTimes(BlinkAll(stones), k - 1) == BlinkTimes(stones, k)
    decreases k
  {
    if k > 1 {
      BlinkTimesShift(stones, k - 1);
    }
  }

  /**
   * `helper(stone_ctr, acc)`: an empty Counter stays empty; at `acc >=
   * blinks` the Counter is the answer; otherwise blink it once and recurse.
   */
  method Helper(ctr: multiset<nat>, acc: int, blinks: int) returns (res: multiset<nat>)
    ensures res == BagTimes(ctr, if acc >= blinks then 0 else blinks - acc)
    decreases blinks - acc
  {
    if ctr == multiset{} {
      res := multiset{};
      BagTimesEmpty(if acc >= blinks then 0 else blinks - acc);
    } else if acc >= blinks {
      res := ctr;
    } else {
      var output := BlinkCounter(ctr);
      res := Helper(output, acc + 1, blinks);
    }
  }

  /**
   * `blink_n(stones, blinks)`: the total of the Counter after `blinks`
   * rounds, which is the number of stones after that many blinks.
   */
  method BlinkN(stones: seq<nat>, blinks: int) returns (n: nat)
    ensures n == |BlinkTimes(stones, if blinks < 0 then 0 else blinks)|
  {
    var stoneCounter := multiset(stones);
    var finalCounter := Helper(stoneCounter, 0, blinks);
    BagTimesOfList(stones, if blinks < 0 then 0 else blinks);
    n := |finalCounter|;
  }
}
