/**
 * src/aoc/yr_2024/day_22/puzzle.py: the monkey market. Each buyer's secret
 * number evolves by `next_secret`: three rounds of multiply-or-divide by a
 * power of two, mixed back in by exclusive or and pruned to 24 bits. The
 * price at each step is the secret's last decimal digit; a buyer sells at
 * the first time the last four price changes match the sequence asked for.
 */
module Day22 {
  import opened Common

  // ----- mix: Python's `^` -----

  /** Bitwise exclusive or of two naturals, one binary digit at a time. */
  function NatXor(a: nat, b: nat): nat
    decreases a + b
  {
    if a == 0 then b
    else if b == 0 then a
    else 2 * NatXor(a / 2, b / 2) + (a + b) % 2
  }

  /**
   * Python's `a ^ b` on ints of any sign: negative ints act as infinite
   * two's complement, where `~x == -x - 1` and `~x ^ ~y == x ^ y`. The
   * result is negative exactly when one operand is.
   */
  function Xor(a: int, b: int): (r: int)
    ensures r >= 0 <==> (a >= 0 <==> b >= 0)
  {
    if a >= 0 && b >= 0 then NatXor(a, b) as int
    else if a < 0 && b < 0 then NatXor(-a - 1, -b - 1) as int
    else if a < 0 then -(NatXor(-a - 1, b) as int) - 1
    else -(NatXor(a, -b - 1) as int) - 1
  }

  /** The lowest binary digit and the rest, for every pair of naturals. */
  lemma NatXorUnfold(a: nat, b: nat)
    ensures NatXor(a, b) == 2 * NatXor(a / 2, b / 2) + (a + b) % 2
  {
    if a == 0 {
      assert NatXor(a, b) == b && NatXor(a / 2, b / 2) == b / 2;
      assert (a + b) % 2 == b % 2;
    } else if b == 0 {
      assert NatXor(a, b) == a && NatXor(a / 2, b / 2) == a / 2;
      assert (a + b) % 2 == a % 2;
    } else {
      assert NatXor(a, b) == 2 * NatXor(a / 2, b / 2) + (a + b) % 2;
    }
  }

  lemma {:induction false} NatXorCommutes(a: nat, b: nat)
    ensures NatXor(a, b) == NatXor(b, a)
    decreases a + b
  {
    if a != 0 && b != 0 {
      NatXorCommutes(a / 2, b / 2);
    }
  }

  lemma {:induction false} NatXorSelf(a: nat)
    ensures NatXor(a, a) == 0
    decreases a
  {
    if a != 0 {
      NatXorSelf(a / 2);
    }
  }

  lemma Halves(x: nat, y: nat, bit: nat)
    requires bit < 2 && x == 2 * y + bit
    ensures x / 2 == y && x % 2 == bit
  {
  }

  /** Exclusive or with the same value twice gives back the first operand. */
  lemma {:induction false} NatXorCancel(a: nat, b: nat)
    ensures NatXor(NatXor(a, b), b) == a
    decreases a + b
  {
    if a + b != 0 {
      var c, y, bit := NatXor(a, b), NatXor(a / 2, b / 2), (a + b) % 2;
      NatXorUnfold(a, b);
      Halves(c, y, bit);
      NatXorUnfold(c, b);
      NatXorCancel(a / 2, b / 2);
      assert (bit + b) % 2 == a % 2 by {
        ModAdd(a + b, b, 2);
        ModShift(a, b, 2);
      }
      assert NatXor(c, b) == 2 * (a / 2) + a % 2;
    }
  }

  lemma NatXorCancelLeft(a: nat, b: nat)
    ensures NatXor(a, NatXor(a, b)) == b
  {
    NatXorCommutes(a, b);
    NatXorCommutes(a, NatXor(b, a));
    NatXorCancel(b, a);
  }


  lemma XorCommutes(value: int, secret: int)
    ensures Xor(value, secret) == Xor(secret, value)
  {
    if value >= 0 && secret >= 0 {
      NatXorCommutes(value, secret);
    } else if value < 0 && secret < 0 {
      NatXorCommutes(-value - 1, -secret - 1);
    } else if value < 0 {
      NatXorCommutes(-value - 1, secret);
    } else {
      NatXorCommutes(value, -secret - 1);
    }
  }

  lemma XorSelf(secret: int)
    ensures Xor(secret, secret) == 0
  {
    if secret >= 0 {
      NatXorSelf(secret);
    } else {
      NatXorSelf(-secret - 1);
    }
  }

  /** Xor with the same value twice restores the other operand. */
  lemma XorTwice(value: int, secret: int)
    ensures Xor(value, Xor(value, secret)) == secret
  {
    if value >= 0 && secret >= 0 {
      NatXorCancelLeft(value, secret);
    } else if value < 0 && secret < 0 {
      NatXorCancelLeft(-value - 1, -secret - 1);
    } else if value < 0 {
      NatXorCancelLeft(-value - 1, secret);
    } else {
      NatXorCancelLeft(value, -secret - 1);
    }
  }

  /**
   * `mix(value, secret)`: the exclusive or of the two. Mixing the same value
   * in again restores the secret, and a secret mixed into itself gives 0.
   */
  function Mix(value: int, secret: int): (r: int)
    ensures Xor(value, r) == secret
    ensures value == secret ==> r == 0
  {
    XorTwice(value, secret);
    XorSelf(secret);
    Xor(value, secret)
  }

  // ----- prune -----

  function Pow2(k: nat): (p: nat)
    ensures p >= 1
  {
    if k == 0 then 1 else 2 * Pow2(k - 1)
  }

  /** `prune(secret)`: Python's `secret % 16777216`, the low 24 bits. */
  function Prune(secret: int): (r: int)
    ensures 0 <= r < 16777216
    ensures (secret - r) % 16777216 == 0
  {
    ModShift(secret, -(secret / 16777216), 16777216);
    secret % 16777216
  }

  lemma Pow2At24()
    ensures Pow2(24) == 16777216
  {
    assert Pow2(12) == 4096;
  }

  lemma PruneIdempotent(secret: int)
    ensures Prune(Prune(secret)) == Prune(secret)
  {
  }

  /** A remainder by `2 * p` splits into its lowest bit and a remainder by `p` of the rest. */
  lemma ModDouble(x: nat, p: nat)
    requires p >= 1
    ensures x % (2 * p) == 2 * ((x / 2) % p) + x % 2
    ensures (x % (2 * p)) / 2 == (x / 2) % p && (x % (2 * p)) % 2 == x % 2
  {
    var h, bit := x / 2, x % 2;
    var q, r := h / p, h % p;
    assert x == q * (2 * p) + (2 * r + bit);
    DivModUnique(x, 2 * p, q, 2 * r + bit);
  }

  lemma ParityOfSum(a: nat, b: nat, a': nat, b': nat)
    requires a % 2 == a' % 2 && b % 2 == b' % 2
    ensures (a + b) % 2 == (a' + b') % 2
  {
    ModAdd(a, b, 2);
    ModAdd(b, a % 2, 2);
    ModAdd(a', b', 2);
    ModAdd(b', a' % 2, 2);
  }

  /** The low `k` bits of an exclusive or only depend on the low `k` bits of its operands. */
  lemma {:induction false} NatXorLowBits(a: nat, b: nat, k: nat)
    ensures NatXor(a, b) % Pow2(k) == NatXor(a % Pow2(k), b % Pow2(k))
    decreases k
  {
    if k == 0 {
      assert NatXor(0, 0) == 0;
    } else {
      var p := Pow2(k - 1);
      assert Pow2(k) == 2 * p;
      var x, y := NatXor(a, b), NatXor(a / 2, b / 2);
      var a', b' := a % (2 * p), b % (2 * p);
      NatXorUnfold(a, b);
      Halves(x, y, (a + b) % 2);
      ModDouble(x, p);
      NatXorLowBits(a / 2, b / 2, k - 1);
      ModDouble(a, p);
      ModDouble(b, p);
      NatXorUnfold(a', b');
      ParityOfSum(a, b, a', b');
    }
  }

  // ----- next_secret -----

  /**
   * `next_secret`: multiply by 64, divide by 32 (Python's `//`, the same as
   * Dafny's `/` on the non-negative value pruned before it) and multiply by
   * 2048, each result mixed into the secret and pruned.
   */
  function NextSecret(secret: int): (r: int)
    ensures 0 <= r < 16777216
  {
    var step1 := Prune(Mix(secret * 64, secret));
    var step2 := Prune(Mix(step1 / 32, step1));
    Prune(Mix(step2 * 2048, step2))
  }

  /** The first round only depends on the low 24 bits of a non-negative secret. */
  lemma FirstRoundLow24(secret: nat, low: nat)
    requires low == Prune(secret)
    ensures Prune(Mix(secret * 64, secret)) == Prune(Mix(low * 64, low))
  {
    XorTimes64Low24(secret, low);
  }

  lemma XorTimes64Low24(secret: nat, low: nat)
    requires low == Prune(secret)
    ensures Prune(Xor(secret * 64, secret)) == Prune(Xor(low * 64, low))
  {
    var x, y := secret * 64, low * 64;
    assert Xor(x, secret) == NatXor(x, secret);
    assert Xor(y, low) == NatXor(y, low);
    assert low % 16777216 == low && secret % 16777216 == low;
    assert NatXor(x, secret) % 16777216 == NatXor(x % 16777216, low) by {
      Pow2At24();
      NatXorLowBits(x, secret, 24);
    }
    assert NatXor(y, low) % 16777216 == NatXor(y % 16777216, low) by {
      Pow2At24();
      NatXorLowBits(y, low, 24);
    }
    TimesLow24(secret, low);
  }

  lemma TimesLow24(secret: nat, low: nat)
    requires low == secret % 16777216
    ensures (secret * 64) % 16777216 == (low * 64) % 16777216
  {
    var q := secret / 16777216;
    assert secret * 64 == low * 64 + (64 * q) * 16777216;
    ModShift(low * 64, 64 * q, 16777216);
  }

  /** The next secret only depends on the low 24 bits of a non-negative secret. */
  lemma NextSecretLow24(secret: nat)
    ensures NextSecret(secret) == NextSecret(Prune(secret))
  {
    FirstRoundLow24(secret, Prune(secret));
  }

  // ----- the sequence of secrets -----

  /** The value after `k` applications of `step`; for a buyer, `step` is `next_secret`. */
  function Iterate(step: int -> int, start: int, k: nat): int
  {
    if k == 0 then start else step(Iterate(step, start, k - 1))
  }

  /** Every secret after the first is pruned to 24 bits. */
  lemma IterateInRange(start: int, k: nat)
    requires k >= 1
    ensures 0 <= Iterate(NextSecret, start, k) < 16777216
  {
    assert Iterate(NextSecret, start, k) == NextSecret(Iterate(NextSecret, start, k - 1));
  }

  /** The first `k + 1` secrets, from `start` on. */
  function Trace(step: int -> int, start: int, k: nat): (t: seq<int>)
  {
    seq(k + 1, i requires 0 <= i < k + 1 => Iterate(step, start, i))
  }

  /** No secret repeats among the first `k + 1`. */
  ghost predicate Fresh(step: int -> int, start: int, k: nat)
  {
    forall i, j :: 0 <= i < j <= k ==> Iterate(step, start, i) != Iterate(step, start, j)
  }

  /** The set of the first `k + 1` secrets, added one at a time. */
  function Seen(step: int -> int, start: int, k: nat): set<int>
  {
    if k == 0 then {start} else Seen(step, start, k - 1) + {Iterate(step, start, k)}
  }

  /** The first `k + 1` secrets with repeats skipped, in order of first appearance. */
  function Firsts(step: int -> int, start: int, k: nat): seq<int>
  {
    if k == 0 then [start]
    else if Iterate(step, start, k) in Firsts(step, start, k - 1) then Firsts(step, start, k - 1)
    else Firsts(step, start, k - 1) + [Iterate(step, start, k)]
  }

  /** `Seen` holds exactly the secrets met in the first `k` steps. */
  lemma {:induction false} SeenMeans(step: int -> int, start: int, k: nat, x: int)
    ensures x in Seen(step, start, k) <==> exists i :: 0 <= i <= k && Iterate(step, start, i) == x
  {
    if k == 0 {
      assert Iterate(step, start, 0) == start;
    } else {
      SeenMeans(step, start, k - 1, x);
      if x in Seen(step, start, k) && x !in Seen(step, start, k - 1) {
        assert Iterate(step, start, k) == x;
      }
      if i :| 0 <= i <= k && Iterate(step, start, i) == x {
        if i < k {
          assert 0 <= i <= k - 1;
        }
      }
    }
  }

  /** `Firsts` lists the same secrets as `Seen`. */
  lemma {:induction false} FirstsSeen(step: int -> int, start: int, k: nat, x: int)
    ensures x in Firsts(step, start, k) <==> x in Seen(step, start, k)
  {
    if k > 0 {
      FirstsSeen(step, start, k - 1, x);
    }
  }

  /** Equal secrets have equal successors, however far on. */
  lemma {:induction false} IterateShift(step: int -> int, start: int, i: nat, j: nat, t: nat)
    requires Iterate(step, start, i) == Iterate(step, start, j)
    ensures Iterate(step, start, i + t) == Iterate(step, start, j + t)
  {
    if t > 0 {
      IterateShift(step, start, i, j, t - 1);
      assert Iterate(step, start, i + t) == step(Iterate(step, start, i + t - 1));
      assert Iterate(step, start, j + t) == step(Iterate(step, start, j + t - 1));
    }
  }

  /**
   * Once a secret has repeated, the sequence is in a cycle: every later
   * secret is one already met.
   */
  lemma RepeatSeen(step: int -> int, start: int, m: nat)
    requires !Fresh(step, start, m + 1)
    ensures Iterate(step, start, m + 1) in Seen(step, start, m)
  {
    var i, j :| 0 <= i < j <= m + 1 && Iterate(step, start, i) == Iterate(step, start, j);
    var t := m + 1 - j;
    IterateShift(step, start, i, j, t);
    SeenMeans(step, start, m, Iterate(step, start, m + 1));
  }

  /** One more step either meets a new secret or changes nothing. */
  lemma GrowOrStall(step: int -> int, start: int, k: nat)
    ensures Fresh(step, start, k + 1) ==>
      (Fresh(step, start, k) && Iterate(step, start, k + 1) !in Seen(step, start, k) &&
       |Seen(step, start, k + 1)| == |Seen(step, start, k)| + 1 && Firsts(step, start, k + 1) == Firsts(step, start, k) + [Iterate(step, start, k + 1)])
    ensures !Fresh(step, start, k + 1) ==> Seen(step, start, k + 1) == Seen(step, start, k) && Firsts(step, start, k + 1) == Firsts(step, start, k)
  {
    var x := Iterate(step, start, k + 1);
    FirstsSeen(step, start, k, x);
    if Fresh(step, start, k + 1) {
      assert forall i :: 0 <= i <= k ==> Iterate(step, start, i) != x;
      SeenMeans(step, start, k, x);
    } else {
      RepeatSeen(step, start, k);
    }
  }

  /** Without repeats, one secret per step: `k + 1` of them after `k` steps. */
  lemma {:induction false} FreshCount(step: int -> int, start: int, k: nat)
    requires Fresh(step, start, k)
    ensures |Seen(step, start, k)| == k + 1 && Firsts(step, start, k) == Trace(step, start, k)
  {
    if k > 0 {
      GrowOrStall(step, start, k - 1);
      FreshCount(step, start, k - 1);
      TraceSnoc(step, start, k);
    }
  }

  lemma TraceSnoc(step: int -> int, start: int, k: nat)
    requires k > 0
    ensures Trace(step, start, k) == Trace(step, start, k - 1) + [Iterate(step, start, k)]
  {
    var a, b := Trace(step, start, k), Trace(step, start, k - 1) + [Iterate(step, start, k)];
    assert |a| == |b|;
    forall i | 0 <= i < |a| ensures a[i] == b[i] {
    }
  }

  /** A prefix of a run without repeats has none either. */
  lemma FreshPrefix(step: int -> int, start: int, k: nat, m: nat)
    requires Fresh(step, start, k) && m <= k
    ensures Fresh(step, start, m)
  {
  }

  /**
   * The state of the loops that collect secrets until more than `n` are
   * distinct: after `steps` steps the current secret is the `steps`-th,
   * `count` distinct ones have been kept, and once a secret repeats the
   * count is stuck at most at `n`.
   */
  ghost predicate Collecting(step: int -> int, start: int, n: int, steps: nat, count: int, current: int)
  {
    current == Iterate(step, start, steps) &&
    (Fresh(step, start, steps) ==> count == steps + 1 && (steps == 0 || steps <= n)) &&
    (!Fresh(step, start, steps) ==> count <= n) &&
    (n >= 0 && Fresh(step, start, n) ==> steps <= n)
  }

  lemma CollectingStart(step: int -> int, start: int, n: int)
    ensures Collecting(step, start, n, 0, 1, start)
  {
  }

  lemma CollectingStep(step: int -> int, start: int, n: int, steps: nat, count: int, current: int, count': int)
    requires Collecting(step, start, n, steps, count, current) && count <= n
    requires Fresh(step, start, steps + 1) ==> count' == count + 1
    requires !Fresh(step, start, steps + 1) ==> count' == count
    ensures Collecting(step, start, n, steps + 1, count', step(current))
  {
    if Fresh(step, start, steps + 1) {
      FreshPrefix(step, start, steps + 1, steps);
    }
  }

  /** The loop stops with exactly `n + 1` distinct secrets, none repeated. */
  lemma CollectingDone(step: int -> int, start: int, n: int, steps: nat, count: int, current: int)
    requires Collecting(step, start, n, steps, count, current) && count > n
    ensures Fresh(step, start, steps) && steps == (if n < 0 then 0 else n)
  {
  }

  /** A loop still running has taken fewer than `n` steps if no secret repeats within `n`. */
  lemma CollectingUnfinished(step: int -> int, start: int, n: int, steps: nat, count: int, current: int)
    requires Collecting(step, start, n, steps, count, current) && count <= n
    ensures n >= 0 && Fresh(step, start, n) ==> steps < n
  {
  }

  /** One pass of the list-collecting loops: the next secret is listed exactly when it is new. */
  lemma ListingStep(step: int -> int, secret: int, n: int, steps: nat, secrets: seq<int>, current: int)
    requires secrets == Firsts(step, secret, steps) && |secrets| <= n
    requires Collecting(step, secret, n, steps, |secrets|, current)
    ensures var next := step(current);
      var secrets' := if next in secrets then secrets else secrets + [next];
      secrets' == Firsts(step, secret, steps + 1) &&
      Collecting(step, secret, n, steps + 1, |secrets'|, next)
  {
    GrowOrStall(step, secret, steps);
    FirstsSeen(step, secret, steps, step(current));
    CollectingStep(step, secret, n, steps, |secrets|, current, |Firsts(step, secret, steps + 1)|);
  }

  /**
   * `get_nth_new_secret(start, n)`: step until `n + 1` distinct secrets
   * have been met, and return the last one. Once a secret repeats the
   * source loops for ever, because every later secret repeats too; `fuel`
   * bounds the steps and None stands for a loop that has not finished.
   * The generator is the parameter `step`; the source's is `NextSecret`.
   */
  method NthNewSecret(step: int -> int, start: int, n: int, fuel: nat) returns (r: Option<int>)
    ensures n <= 0 ==> r == Some(start)
    ensures n >= 0 && r.Some? ==> Fresh(step, start, n) && r.value == Iterate(step, start, n)
    ensures n >= 0 && Fresh(step, start, n) && n <= fuel ==> r.Some?
    ensures n >= 0 && !Fresh(step, start, n) ==> r.None?
  {
    var secrets := {start};
    var newSecret := start;
    var steps := 0;
    CollectingStart(step, start, n);
    while |secrets| <= n
      invariant steps <= fuel
      invariant secrets == Seen(step, start, steps)
      invariant Collecting(step, start, n, steps, |secrets|, newSecret)
      decreases fuel - steps
    {
      if steps == fuel {
        CollectingUnfinished(step, start, n, steps, |secrets|, newSecret);
        return None;
      }
      GrowOrStall(step, start, steps);
      CollectingStep(step, start, n, steps, |secrets|, newSecret, |Seen(step, start, steps + 1)|);
      newSecret := step(newSecret);
      secrets := secrets + {newSecret};
      steps := steps + 1;
    }
    CollectingDone(step, start, n, steps, |secrets|, newSecret);
    return Some(newSecret);
  }

  /**
   * `first_n_secrets(secret, n)`: the first `n + 1` secrets, stepping
   * until that many distinct ones have been listed; the same stopping rule
   * as `get_nth_new_secret`, with a list in place of a set.
   */
  method FirstNSecrets(step: int -> int, secret: int, n: int, fuel: nat) returns (r: Option<seq<int>>)
    ensures n <= 0 ==> r == Some([secret])
    ensures n >= 0 && r.Some? ==> Fresh(step, secret, n) && r.value == Trace(step, secret, n)
    ensures n >= 0 && Fresh(step, secret, n) && n <= fuel ==> r.Some?
    ensures n >= 0 && !Fresh(step, secret, n) ==> r.None?
  {
    var secrets := [secret];
    var current := secret;
    var steps := 0;
    CollectingStart(step, secret, n);
    while |secrets| <= n
      invariant steps <= fuel
      invariant secrets == Firsts(step, secret, steps)
      invariant Collecting(step, secret, n, steps, |secrets|, current)
      decreases fuel - steps
    {
      if steps == fuel {
        CollectingUnfinished(step, secret, n, steps, |secrets|, current);
        return None;
      }
      ListingStep(step, secret, n, steps, secrets, current);
      current := step(current);
      if current !in secrets {
        secrets := secrets + [current];
      }
      steps := steps + 1;
    }
    CollectingDone(step, secret, n, steps, |secrets|, current);
    FreshCount(step, secret, steps);
    return Some(secrets);
  }

  // ----- prices -----

  /** `get_price(secret)`: Python's `secret % 10`, the last decimal digit. */
  function Price(secret: int): (p: int)
    ensures 0 <= p <= 9 && (secret - p) % 10 == 0
  {
    ModShift(secret, -(secret / 10), 10);
    secret % 10
  }

  /** The price of each secret in a list. */
  function Prices(secrets: seq<int>): (ps: seq<int>)
  {
    seq(|secrets|, i requires 0 <= i < |secrets| => Price(secrets[i]))
  }

  lemma PricesSnoc(secrets: seq<int>, x: int)
    ensures Prices(secrets + [x]) == Prices(secrets) + [Price(x)]
  {
    var a, b := Prices(secrets + [x]), Prices(secrets) + [Price(x)];
    assert |a| == |b|;
    forall i | 0 <= i < |a| ensures a[i] == b[i] {
    }
  }

  /**
   * `first_n_prices(secret, n)`: the loop of `first_n_secrets`, keeping
   * the price of each secret it lists beside it.
   */
  method FirstNPrices(step: int -> int, secret: int, n: int, fuel: nat) returns (r: Option<seq<int>>)
    ensures n <= 0 ==> r == Some([Price(secret)])
    ensures n >= 0 && r.Some? ==> Fresh(step, secret, n) && r.value == Prices(Trace(step, secret, n))
    ensures n >= 0 && Fresh(step, secret, n) && n <= fuel ==> r.Some?
    ensures n >= 0 && !Fresh(step, secret, n) ==> r.None?
  {
    var secrets := [secret];
    var prices := [Price(secret)];
    var current := secret;
    var steps := 0;
    CollectingStart(step, secret, n);
    while |secrets| <= n
      invariant steps <= fuel
      invariant secrets == Firsts(step, secret, steps) && prices == Prices(secrets)
      invariant Collecting(step, secret, n, steps, |secrets|, current)
      decreases fuel - steps
    {
      if steps == fuel {
        CollectingUnfinished(step, secret, n, steps, |secrets|, current);
        return None;
      }
      ListingStep(step, secret, n, steps, secrets, current);
      current := step(current);
      if current !in secrets {
        PricesSnoc(secrets, current);
        secrets := secrets + [current];
        prices := prices + [Price(current)];
      }
      steps := steps + 1;
    }
    CollectingDone(step, secret, n, steps, |secrets|, current);
    FreshCount(step, secret, steps);
    return Some(prices);
  }

  // ----- get_deltas -----

  /** `get_deltas(prices)`: the change from each price to the next. */
  function Deltas(prices: seq<int>): (d: seq<int>)
    ensures |d| == if prices == [] then 0 else |prices| - 1
  {
    if prices == [] then []
    else seq(|prices| - 1, i requires 0 <= i < |prices| - 1 => prices[i + 1] - prices[i])
  }

  /** The running sums of `deltas` from `first`: the prices the changes lead through. */
  function Rebuild(first: int, deltas: seq<int>): (ps: seq<int>)
    ensures |ps| == |deltas| + 1 && ps[0] == first
    decreases |deltas|
  {
    if deltas == [] then [first] else [first] + Rebuild(first + deltas[0], deltas[1..])
  }

  /** The first price and the changes give back every price. */
  lemma {:induction false} DeltasRoundTrip(prices: seq<int>)
    requires prices != []
    ensures Rebuild(prices[0], Deltas(prices)) == prices
    decreases |prices|
  {
    if |prices| > 1 {
      var d, t := Deltas(prices), prices[1..];
      DeltasTail(prices);
      DeltasRoundTrip(t);
      assert prices[0] + d[0] == t[0];
      calc {
        Rebuild(prices[0], d);
        [prices[0]] + Rebuild(prices[0] + d[0], d[1..]);
        [prices[0]] + Rebuild(t[0], Deltas(t));
        [prices[0]] + t;
        prices;
      }
    }
  }

  /** The changes of a list of prices are its first change, then the changes of its tail. */
  lemma DeltasTail(prices: seq<int>)
    requires |prices| > 1
    ensures Deltas(prices)[0] == prices[1] - prices[0]
    ensures Deltas(prices)[1..] == Deltas(prices[1..])
  {
    var d, t := Deltas(prices), Deltas(prices[1..]);
    assert |d[1..]| == |t|;
    forall i | 0 <= i < |t| ensures d[1..][i] == t[i] {
      assert prices[1..][i + 1] == prices[i + 2] && prices[1..][i] == prices[i + 1];
    }
  }

  /** Changes between prices in 0..9 lie in -9..9. */
  lemma DeltasBounded(prices: seq<int>)
    requires forall i :: 0 <= i < |prices| ==> 0 <= prices[i] <= 9
    ensures forall i :: 0 <= i < |Deltas(prices)| ==> -9 <= Deltas(prices)[i] <= 9
  {
  }

  // ----- process_secret -----

  /** `[None] + deltas`: the change into each price, and none into the first. */
  function ExtendedDeltas(deltas: seq<int>): (e: seq<Option<int>>)
    ensures |e| == |deltas| + 1
  {
    [None] + seq(|deltas|, i requires 0 <= i < |deltas| => Some(deltas[i]))
  }

  /**
   * `price_delta_pairs`: each price from index 4 on, with the tuple of the
   * extended changes at indices `i - 3` to `i`.
   */
  function PriceDeltaPairs(prices: seq<int>): (pairs: seq<(int, seq<Option<int>>)>)
    ensures |pairs| == if |prices| > 4 then |prices| - 4 else 0
    ensures forall k :: 0 <= k < |pairs| ==> pairs[k] == (prices[k + 4], Changes(prices, k + 4))
  {
    var ext := ExtendedDeltas(Deltas(prices));
    assert forall i :: 4 <= i < |prices| ==> ext[i - 3..i + 1] == Changes(prices, i);
    seq(if |prices| > 4 then |prices| - 4 else 0,
      k requires 0 <= k < |prices| - 4 => (prices[k + 4], ext[k + 1..k + 5]))
  }

  /** The four price changes that end at price `i`. */
  function Changes(prices: seq<int>, i: int): seq<Option<int>>
    requires 4 <= i < |prices|
  {
    [Some(prices[i - 3] - prices[i - 4]), Some(prices[i - 2] - prices[i - 3]),
     Some(prices[i - 1] - prices[i - 2]), Some(prices[i] - prices[i - 1])]
  }

  /** No earlier pair has the same key as pair `j`. */
  ghost predicate FirstKey<V, K(!new)>(pairs: seq<(V, K)>, j: int)
    requires 0 <= j < |pairs|
  {
    forall i :: 0 <= i < j ==> pairs[i].1 != pairs[j].1
  }

  /** `key` is the key of one of the first `k` pairs. */
  ghost predicate Occurs<V, K(!new)>(pairs: seq<(V, K)>, k: int, key: K)
  {
    exists j :: 0 <= j < k && j < |pairs| && pairs[j].1 == key
  }

  /** If pair `j` is the first with its key, `m` maps that key to its value. */
  ghost predicate FirstValueAt<V, K(!new)>(pairs: seq<(V, K)>, m: map<K, V>, j: int)
  {
    0 <= j < |pairs| && (FirstKey(pairs, j) ==> pairs[j].1 in m && m[pairs[j].1] == pairs[j].0)
  }

  /** `m` maps each key of the first `k` pairs to the value paired with it first. */
  ghost predicate FirstValuesUpTo<V, K(!new)>(pairs: seq<(V, K)>, k: int, m: map<K, V>)
  {
    0 <= k <= |pairs| &&
    (forall key :: key in m <==> Occurs(pairs, k, key)) &&
    (forall j :: 0 <= j < k ==> FirstValueAt(pairs, m, j))
  }

  /** `m` maps each key of `pairs` to the value paired with it first. */
  ghost predicate FirstValues<V, K(!new)>(pairs: seq<(V, K)>, m: map<K, V>)
  {
    FirstValuesUpTo(pairs, |pairs|, m)
  }

  lemma FirstValuesSnoc<V, K(!new)>(pairs: seq<(V, K)>, k: nat, m: map<K, V>)
    requires k < |pairs| && FirstValuesUpTo(pairs, k, m)
    ensures FirstValuesUpTo(pairs, k + 1, if pairs[k].1 in m then m else m[pairs[k].1 := pairs[k].0])
  {
    var m' := if pairs[k].1 in m then m else m[pairs[k].1 := pairs[k].0];
    forall key ensures key in m' <==> Occurs(pairs, k + 1, key) {
      if key in m' && key !in m {
        assert pairs[k].1 == key;
      }
      if Occurs(pairs, k + 1, key) {
        var j :| 0 <= j < k + 1 && j < |pairs| && pairs[j].1 == key;
        if j < k {
          assert Occurs(pairs, k, key);
        }
      }
    }
    forall j | 0 <= j < k + 1 ensures FirstValueAt(pairs, m', j) {
      if j < k {
        assert FirstValueAt(pairs, m, j);
      }
    }
  }

  /** The loop of `process_secret` that keeps the price at each key's first occurrence. */
  method FirstSeqPrice<V, K(==,!new)>(pairs: seq<(V, K)>) returns (m: map<K, V>)
    ensures FirstValues(pairs, m)
  {
    m := map[];
    for k := 0 to |pairs|
      invariant FirstValuesUpTo(pairs, k, m)
    {
      FirstValuesSnoc(pairs, k, m);
      var (price, prevDeltas) := pairs[k];
      if prevDeltas !in m {
        m := m[prevDeltas := price];
      }
    }
  }

  /** The prices of the first `n + 1` secrets. */
  function SecretPrices(step: int -> int, secret: int, n: nat): seq<int>
  {
    Prices(Trace(step, secret, n))
  }

  /** No earlier price has the same four changes before it as price `i`. */
  ghost predicate FirstChange(prices: seq<int>, i: int)
    requires 4 <= i < |prices|
  {
    forall j :: 4 <= j < i ==> Changes(prices, j) != Changes(prices, i)
  }

  /**
   * `m` records where a buyer with these prices sells: every run of four
   * changes that occurs is a key, and its value is the price at its first
   * occurrence.
   */
  ghost predicate FirstSales(prices: seq<int>, m: map<seq<Option<int>>, int>)
  {
    (forall w :: w in m <==> exists i :: 4 <= i < |prices| && Changes(prices, i) == w) &&
    (forall i :: 4 <= i < |prices| && FirstChange(prices, i) ==> Changes(prices, i) in m && m[Changes(prices, i)] == prices[i])
  }

  /** The map of first prices by pair is the map of first sales by price. */
  lemma FirstValuesOfPrices(prices: seq<int>, m: map<seq<Option<int>>, int>)
    requires FirstValues(PriceDeltaPairs(prices), m)
    ensures FirstSales(prices, m)
  {
    var pairs := PriceDeltaPairs(prices);
    forall w ensures w in m <==> exists i :: 4 <= i < |prices| && Changes(prices, i) == w {
      if w in m {
        assert Occurs(pairs, |pairs|, w);
        var j :| 0 <= j < |pairs| && j < |pairs| && pairs[j].1 == w;
        assert Changes(prices, j + 4) == w;
      }
      if i :| 4 <= i < |prices| && Changes(prices, i) == w {
        assert pairs[i - 4].1 == w;
        assert Occurs(pairs, |pairs|, w);
      }
    }
    forall i | 4 <= i < |prices| && FirstChange(prices, i) ensures Changes(prices, i) in m && m[Changes(prices, i)] == prices[i] {
      forall j | 0 <= j < i - 4 ensures pairs[j].1 != pairs[i - 4].1 {
        assert Changes(prices, j + 4) != Changes(prices, i);
      }
      assert FirstKey(pairs, i - 4);
      assert FirstValueAt(pairs, m, i - 4);
    }
  }

  /**
   * `process_secret(secret, n)`: the prices of the first `n + 1` secrets,
   * their changes, and for every run of four changes the price at which it
   * first ends. None when the collecting loop has not finished.
   */
  method ProcessSecret(step: int -> int, secret: int, n: int, fuel: nat) returns (r: Option<map<seq<Option<int>>, int>>)
    ensures n <= 0 ==> r == Some(map[])
    ensures n >= 0 && Fresh(step, secret, n) && n <= fuel ==> r.Some?
    ensures n >= 0 && !Fresh(step, secret, n) ==> r.None?
    ensures n >= 0 && r.Some? ==> FirstSales(SecretPrices(step, secret, n), r.value)
  {
    var prices := FirstNPrices(step, secret, n, fuel);
    if prices.None? {
      return None;
    }
    var pairs := PriceDeltaPairs(prices.value);
    var firstSeqPrice := FirstSeqPrice(pairs);
    FirstValuesOfPrices(prices.value, firstSeqPrice);
    if n <= 0 {
      assert firstSeqPrice == map[];
    }
    return Some(firstSeqPrice);
  }

  // ----- combine_dicts -----

  /** The sum of the values under `key` across `dicts`, a missing key counting 0. */
  function Total<K>(dicts: seq<map<K, int>>, key: K): int
  {
    if dicts == [] then 0
    else Total(dicts[..|dicts| - 1], key) + (if key in dicts[|dicts| - 1] then dicts[|dicts| - 1][key] else 0)
  }

  /** Totals add up over a split list of dicts. */
  lemma {:induction false} TotalAppend<K>(a: seq<map<K, int>>, b: seq<map<K, int>>, key: K)
    ensures Total(a + b, key) == Total(a, key) + Total(b, key)
    decreases |b|
  {
    if b == [] {
      assert a + b == a;
    } else {
      assert (a + b)[..|a + b| - 1] == a + b[..|b| - 1];
      TotalAppend(a, b[..|b| - 1], key);
    }
  }

  /** A key in none of the dicts totals 0. */
  lemma {:induction false} TotalMissing<K>(dicts: seq<map<K, int>>, key: K)
    requires forall j :: 0 <= j < |dicts| ==> key !in dicts[j]
    ensures Total(dicts, key) == 0
    decreases |dicts|
  {
    if dicts != [] {
      TotalMissing(dicts[..|dicts| - 1], key);
    }
  }

  /** The value under `key`, 0 when it is missing, as a defaultdict(int) reads it. */
  function ValueOr<K>(d: map<K, int>, key: K): int
  {
    if key in d then d[key] else 0
  }

  /** The inner loop of `combine_dicts`: add every item of `d` into `combined`. */
  method AddItems<K(==)>(combined: map<K, int>, d: map<K, int>) returns (r: map<K, int>)
    ensures forall key :: key in r <==> key in combined || key in d
    ensures forall key :: key in r ==> r[key] == ValueOr(combined, key) + ValueOr(d, key)
  {
    r := combined;
    var rest := d.Keys;
    while rest != {}
      invariant rest <= d.Keys
      invariant forall key :: key in r <==> key in combined || (key in d && key !in rest)
      invariant forall key :: key in r ==> r[key] == ValueOr(combined, key) + (if key in d && key !in rest then d[key] else 0)
      decreases |rest|
    {
      var key :| key in rest;
      r := r[key := ValueOr(r, key) + d[key]];
      rest := rest - {key};
    }
  }

  /**
   * `combine_dicts(dicts)`: a defaultdict(int) that adds each dict's value
   * under each of its keys. The source walks each dict in insertion order;
   * the order does not change the sums, and the model picks keys in any
   * order.
   */
  method CombineDicts<K(==)>(dicts: seq<map<K, int>>) returns (combined: map<K, int>)
    ensures forall key :: key in combined <==> exists j :: 0 <= j < |dicts| && key in dicts[j]
    ensures forall key :: key in combined ==> combined[key] == Total(dicts, key)
  {
    combined := map[];
    for i := 0 to |dicts|
      invariant forall key :: key in combined <==> exists j :: 0 <= j < i && key in dicts[j]
      invariant forall key :: key in combined ==> combined[key] == Total(dicts[..i], key)
    {
      ghost var before := combined;
      combined := AddItems(combined, dicts[i]);
      assert dicts[..i + 1][..i] == dicts[..i];
      forall key | key in combined ensures combined[key] == Total(dicts[..i + 1], key) {
        if key !in before {
          TotalMissing(dicts[..i], key);
        }
      }
    }
    assert dicts[..|dicts|] == dicts;
  }
}
