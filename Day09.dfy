/**
 * Day 9: a disk map is a digit string read in pairs (file length, free
 * space after it).  `fill_spaces` walks the files left to right, writing each
 * file's id `length` times and then filling its free space with ids taken
 * from the files at the end of the list.
 *
 * A `Block` is an object whose `length` is lowered in place as ids are taken
 * from it; `Span` is the value of a block at one moment, and the
 * specification functions below work on lists of spans.
 */
module Day09 {
  import opened Common

  function Min(a: nat, b: nat): nat { if a <= b then a else b }

  /** A block's (index, length, spaces) at one moment. */
  datatype Span = Span(index: nat, length: nat, spaces: nat)

  /** `[x] * k`. */
  function Repeat(x: int, k: nat): seq<int>
  {
    seq(k, _ => x)
  }

  /** `[index] * length`: the ids a span holds. */
  function Ids(s: Span): seq<int>
  {
    Repeat(s.index, s.length)
  }

  /** The ids stored in a list of spans, with their multiplicities. */
  function Data(spans: seq<Span>): multiset<int>
  {
    if spans == [] then multiset{} else multiset(Ids(spans[0])) + Data(spans[1..])
  }

  lemma {:induction false} DataAppend(a: seq<Span>, b: seq<Span>)
    ensures Data(a + b) == Data(a) + Data(b)
  {
    if a == [] {
      assert a + b == b;
    } else {
      assert (a + b)[1..] == a[1..] + b;
      DataAppend(a[1..], b);
    }
  }

  /** Ids appended to a map and ids taken from the blocks balance. */
  lemma Regroup(acc: seq<int>, taken: seq<int>, rest: multiset<int>, whole: multiset<int>)
    requires rest + multiset(taken) == whole
    ensures multiset(acc + taken) + rest == multiset(acc) + whole
  {
  }

  /** Taking `taken` off one span removes exactly those ids from the list. */
  lemma DataUpdate(spans: seq<Span>, k: nat, v: Span, taken: seq<int>)
    requires k < |spans| && Ids(spans[k]) == taken + Ids(v)
    ensures Data(spans[k := v]) + multiset(taken) == Data(spans)
  {
    var pre, post := spans[..k], spans[k + 1..];
    assert spans == pre + [spans[k]] + post;
    assert spans[k := v] == pre + [v] + post;
    DataAppend(pre + [spans[k]], post);
    DataAppend(pre, [spans[k]]);
    DataAppend(pre + [v], post);
    DataAppend(pre, [v]);
    DataSingle(v);
    DataSingle(spans[k]);
    assert multiset(Ids(spans[k])) == multiset(taken) + multiset(Ids(v));
  }

  // ---------------------------------------------------------------- parsing

  /** Each pair of characters becomes one block, numbered by its position. */
  function ParsePairs(d: string): (r: Result<seq<Span>>)
    requires |d| % 2 == 0
    ensures r.Ok? <==> forall i :: 0 <= i < |d| ==> IsDigit(d[i])
    ensures r.Err? ==> r.error == ValueError
    ensures r.Ok? ==> |r.value| == |d| / 2
    decreases |d|
  {
    if d == [] then Ok([])
    else
      var front := d[..|d| - 2];
      assert forall i :: 0 <= i < |front| ==> front[i] == d[i];
      match ParsePairs(front)
      case Err(e) => Err(e)
      case Ok(init) =>
        var a, b := d[|d| - 2], d[|d| - 1];
        if IsDigit(a) && IsDigit(b) then Ok(init + [Span(|init|, DigitValue(a), DigitValue(b))])
        else Err(ValueError)
  }

  /**
   * `read_data` on the stripped file contents: a "0" is appended, an odd
   * total length fails the `assert`, and a non-digit makes `int` raise
   * ValueError.
   */
  function ReadData(data: string): (r: Result<seq<Span>>)
    ensures r.Ok? <==> |data| % 2 == 1 && forall i :: 0 <= i < |data| ==> IsDigit(data[i])
    ensures r.Err? ==> (r.error == AssertionError <==> |data| % 2 == 0)
    ensures r.Err? ==> r.error == AssertionError || r.error == ValueError
    ensures r.Ok? ==> |r.value| == (|data| + 1) / 2
  {
    assert forall i :: 0 <= i < |data| ==> (data + "0")[i] == data[i];
    assert (data + "0")[|data|] == '0';
    var d := data + "0";
    if |d| % 2 != 0 then Err(AssertionError) else ParsePairs(d)
  }

  /** Block k has index k, its length from digit 2k and its spaces from digit 2k+1. */
  lemma {:induction false} ParsePairsBlocks(d: string)
    requires |d| % 2 == 0 && ParsePairs(d).Ok?
    ensures var bs := ParsePairs(d).value;
      forall k :: 0 <= k < |bs| ==>
        IsDigit(d[2 * k]) && IsDigit(d[2 * k + 1]) &&
        bs[k] == Span(k, DigitValue(d[2 * k]), DigitValue(d[2 * k + 1]))
    decreases |d|
  {
    if d != [] {
      var front := d[..|d| - 2];
      ParsePairsBlocks(front);
      var bs := ParsePairs(d).value;
      var init := ParsePairs(front).value;
      forall k | 0 <= k < |bs|
        ensures IsDigit(d[2 * k]) && IsDigit(d[2 * k + 1]) &&
          bs[k] == Span(k, DigitValue(d[2 * k]), DigitValue(d[2 * k + 1]))
      {
        if k < |init| {
          assert bs[k] == init[k];
          assert front[2 * k] == d[2 * k] && front[2 * k + 1] == d[2 * k + 1];
        } else {
          assert 2 * k == |d| - 2;
        }
      }
    }
  }

  /** The digit string a list of blocks is read from: length, then spaces. */
  function Encode(spans: seq<Span>): (e: string)
    requires forall i :: 0 <= i < |spans| ==> spans[i].length < 10 && spans[i].spaces < 10
    ensures |e| == 2 * |spans|
  {
    if spans == [] then ""
    else
      var last := spans[|spans| - 1];
      Encode(spans[..|spans| - 1]) + [DigitChar(last.length), DigitChar(last.spaces)]
  }

  /** Blocks numbered 0, 1, 2, ... in list order, as `read_data` numbers them. */
  predicate Numbered(spans: seq<Span>)
  {
    forall i :: 0 <= i < |spans| ==> spans[i].index == i && spans[i].length < 10 && spans[i].spaces < 10
  }

  lemma LastTwo(d: string)
    requires |d| >= 2
    ensures d == d[..|d| - 2] + [d[|d| - 2], d[|d| - 1]]
  {
  }

  /** The blocks read are numbered from 0 and hold single digits. */
  lemma ParsePairsNumbered(d: string)
    requires |d| % 2 == 0 && ParsePairs(d).Ok?
    ensures Numbered(ParsePairs(d).value)
  {
    var bs := ParsePairs(d).value;
    ParsePairsBlocks(d);
    forall k | 0 <= k < |bs|
      ensures bs[k].index == k && bs[k].length < 10 && bs[k].spaces < 10
    {
      assert bs[k] == Span(k, DigitValue(d[2 * k]), DigitValue(d[2 * k + 1]));
    }
  }

  /** Reading pairs and writing them back gives the same digits. */
  lemma {:induction false} ParsePairsEncode(d: string)
    requires |d| % 2 == 0 && ParsePairs(d).Ok?
    ensures Numbered(ParsePairs(d).value) && Encode(ParsePairs(d).value) == d
    decreases |d|
  {
    var bs := ParsePairs(d).value;
    ParsePairsNumbered(d);
    if d != [] {
      var front := d[..|d| - 2];
      ParsePairsEncode(front);
      var init := ParsePairs(front).value;
      var a, b := d[|d| - 2], d[|d| - 1];
      var last := bs[|bs| - 1];
      assert bs[..|bs| - 1] == init;
      assert last == Span(|init|, DigitValue(a), DigitValue(b));
      DigitRoundTrip(a, 0);
      DigitRoundTrip(b, 0);
      assert DigitChar(last.length) == a && DigitChar(last.spaces) == b;
      assert Encode(bs) == Encode(init) + [a, b];
      LastTwo(d);
    }
  }

  /** Writing numbered blocks as digits and reading them back gives the same blocks. */
  lemma {:induction false} EncodeParsePairs(spans: seq<Span>)
    requires Numbered(spans)
    ensures ParsePairs(Encode(spans)) == Ok(spans)
    decreases |spans|
  {
    if spans != [] {
      var init, last := spans[..|spans| - 1], spans[|spans| - 1];
      var e := Encode(spans);
      EncodeParsePairs(init);
      assert e[..|e| - 2] == Encode(init);
      DigitRoundTrip('0', last.length);
      DigitRoundTrip('0', last.spaces);
      assert e[|e| - 2] == DigitChar(last.length) && e[|e| - 1] == DigitChar(last.spaces);
      assert last == Span(|init|, DigitValue(e[|e| - 2]), DigitValue(e[|e| - 1]));
      assert spans == init + [last];
    }
  }

  /**
   * `read_data` round trip: the blocks read from a disk map write back to it
   * with the added "0"; numbered blocks whose last has no spaces are read
   * back from their digits without that final "0".
   */
  lemma ReadDataRoundTrip(data: string, spans: seq<Span>)
    ensures ReadData(data).Ok? ==> Numbered(ReadData(data).value) && Encode(ReadData(data).value) == data + "0"
    ensures Numbered(spans) && spans != [] && spans[|spans| - 1].spaces == 0 ==>
      ReadData(Encode(spans)[..2 * |spans| - 1]) == Ok(spans)
  {
    if ReadData(data).Ok? {
      ParsePairsEncode(data + "0");
    }
    if Numbered(spans) && spans != [] && spans[|spans| - 1].spaces == 0 {
      var e := Encode(spans);
      assert e[|e| - 1] == DigitChar(0);
      assert e[..|e| - 1] + "0" == e;
      EncodeParsePairs(spans);
    }
  }

  // --------------------------------------------------- taking from the end

  /** What the `add_n_from_end` loop leaves: the map, the blocks, and whether it ran off the front. */
  datatype Taken = Taken(dmap: seq<int>, spans: seq<Span>, ranOut: bool)

  /**
   * The `add_n_from_end` loop with `back` blocks already visited from the
   * end: take ids from the next block until `needed` is met.  Running past
   * the first block with ids still needed is the `blocks[-cur_block]`
   * IndexError.
   */
  function Take(spans: seq<Span>, needed: nat, back: nat, acc: seq<int>): Taken
    decreases |spans| - back
  {
    if needed == 0 then Taken(acc, spans, false)
    else if back >= |spans| then Taken(acc, spans, true)
    else
      var k := |spans| - 1 - back;
      var s := spans[k];
      var t := Min(needed, s.length);
      Take(spans[k := s.(length := s.length - t)], needed - t, back + 1, acc + Repeat(s.index, t))
  }

  /** Nothing more needed: the loop stops with what it has. */
  lemma TakeDone(spans: seq<Span>, back: nat, acc: seq<int>)
    ensures Take(spans, 0, back, acc) == Taken(acc, spans, false)
  {
  }

  /** Ids still needed after the first block: the IndexError. */
  lemma TakeRunsPast(spans: seq<Span>, needed: nat, back: nat, acc: seq<int>)
    requires needed > 0 && back >= |spans|
    ensures Take(spans, needed, back, acc) == Taken(acc, spans, true)
  {
  }

  /** One round of the loop: the next block from the end gives what it can. */
  lemma TakeStep(spans: seq<Span>, needed: nat, back: nat, acc: seq<int>,
                 k: nat, s: Span, t: nat, next: seq<Span>, taken: seq<int>)
    requires needed > 0 && back < |spans|
    requires k == |spans| - 1 - back && s == spans[k]
    requires t == Min(needed, s.length) && taken == Repeat(s.index, t)
    requires next == spans[k := s.(length := s.length - t)]
    ensures Take(spans, needed, back, acc) == Take(next, needed - t, back + 1, acc + taken)
  {
  }

  /** Taking from the end only appends, and appends `needed` ids unless it runs off the front. */
  lemma {:induction false} TakeAppends(spans: seq<Span>, needed: nat, back: nat, acc: seq<int>)
    ensures var o := Take(spans, needed, back, acc);
      |o.spans| == |spans| && acc <= o.dmap && |o.dmap| <= |acc| + needed &&
      (!o.ranOut ==> |o.dmap| == |acc| + needed)
    decreases |spans| - back
  {
    if needed != 0 && back < |spans| {
      var k := |spans| - 1 - back;
      var s := spans[k];
      var t := Min(needed, s.length);
      TakeAppends(spans[k := s.(length := s.length - t)], needed - t, back + 1, acc + Repeat(s.index, t));
    }
  }

  /** Taking from the end moves ids from the blocks to the map: none is lost or made up. */
  lemma {:induction false} TakeMovesIds(spans: seq<Span>, needed: nat, back: nat, acc: seq<int>)
    ensures var o := Take(spans, needed, back, acc);
      multiset(o.dmap) + Data(o.spans) == multiset(acc) + Data(spans)
    decreases |spans| - back
  {
    if needed != 0 && back < |spans| {
      var k := |spans| - 1 - back;
      var s := spans[k];
      var t := Min(needed, s.length);
      var v := s.(length := s.length - t);
      var taken := Repeat(s.index, t);
      var next := spans[k := v];
      TakeStep(spans, needed, back, acc, k, s, t, next, taken);
      TakeMovesIds(next, needed - t, back + 1, acc + taken);
      TakeStepData(spans, k, s, t, next, taken);
      var o := Take(next, needed - t, back + 1, acc + taken);
      Rebalance(o.dmap, Data(o.spans), acc, taken, Data(next), Data(spans));
    }
  }

  /** One round of the loop moves `taken` out of the blocks. */
  lemma TakeStepData(spans: seq<Span>, k: nat, s: Span, t: nat, next: seq<Span>, taken: seq<int>)
    requires k < |spans| && s == spans[k] && t <= s.length && taken == Repeat(s.index, t)
    requires next == spans[k := s.(length := s.length - t)]
    ensures Data(next) + multiset(taken) == Data(spans)
  {
    var v := s.(length := s.length - t);
    assert Ids(s) == taken + Ids(v);
    DataUpdate(spans, k, v, taken);
  }

  /** Ids appended to the map in one round and in the rounds after it balance with those taken. */
  lemma Rebalance(d: seq<int>, restData: multiset<int>, acc: seq<int>, taken: seq<int>,
                  nextData: multiset<int>, spansData: multiset<int>)
    requires multiset(d) + restData == multiset(acc + taken) + nextData
    requires nextData + multiset(taken) == spansData
    ensures multiset(d) + restData == multiset(acc) + spansData
  {
  }

  /** The ids stored in the blocks the loop has not yet visited. */
  function Unvisited(spans: seq<Span>, back: nat): nat
    requires back <= |spans|
  {
    |Data(spans[..|spans| - back])|
  }

  /** The loop runs off the front exactly when more ids are needed than the unvisited blocks hold. */
  lemma {:induction false} TakeRunsOut(spans: seq<Span>, needed: nat, back: nat, acc: seq<int>)
    requires back <= |spans|
    ensures Take(spans, needed, back, acc).ranOut <==> needed > Unvisited(spans, back)
    decreases |spans| - back
  {
    if needed != 0 && back < |spans| {
      var k := |spans| - 1 - back;
      var s := spans[k];
      var t := Min(needed, s.length);
      var taken := Repeat(s.index, t);
      var next := spans[k := s.(length := s.length - t)];
      TakeStep(spans, needed, back, acc, k, s, t, next, taken);
      TakeRunsOut(next, needed - t, back + 1, acc + taken);
      UnvisitedStep(spans, back, k, s, next);
    } else if needed != 0 {
      assert spans[..|spans| - back] == [];
    }
  }

  /** Visiting block `k` leaves its ids out of the unvisited ones, whatever it gives. */
  lemma UnvisitedStep(spans: seq<Span>, back: nat, k: nat, s: Span, next: seq<Span>)
    requires back < |spans| && k == |spans| - 1 - back && s == spans[k]
    requires |next| == |spans| && next[..k] == spans[..k]
    ensures Unvisited(spans, back) == Unvisited(next, back + 1) + s.length
  {
    assert spans[..|spans| - back] == spans[..k] + [s];
    DataAppend(spans[..k], [s]);
    DataSingle(s);
  }

  /** The trailing zero-length blocks dropped, as `remove_empty_blocks_from_end` returns. */
  function DropEmptyTail(spans: seq<Span>): (r: seq<Span>)
    ensures r <= spans
    ensures r == [] || r[|r| - 1].length != 0
    ensures forall i :: |r| <= i < |spans| ==> spans[i].length == 0
  {
    if spans != [] && spans[|spans| - 1].length == 0 then DropEmptyTail(spans[..|spans| - 1])
    else spans
  }

  /** The empty tail ends where the last non-empty block is. */
  lemma {:induction false} DropEmptyTailIs(spans: seq<Span>, m: nat)
    requires m <= |spans| && (m == 0 || spans[m - 1].length != 0)
    requires forall i :: m <= i < |spans| ==> spans[i].length == 0
    ensures DropEmptyTail(spans) == spans[..m]
    decreases |spans|
  {
    if m < |spans| {
      var init := spans[..|spans| - 1];
      assert init[..m] == spans[..m];
      DropEmptyTailIs(init, m);
    }
  }

  /** Dropping empty blocks loses no ids from any suffix of the list. */
  lemma {:induction false} DropEmptyTailKeepsData(spans: seq<Span>, from: nat)
    ensures Data(Suffix(DropEmptyTail(spans), from)) == Data(Suffix(spans, from))
  {
    if spans != [] && spans[|spans| - 1].length == 0 {
      var init, last := spans[..|spans| - 1], spans[|spans| - 1];
      DropEmptyTailKeepsData(init, from);
      SuffixSnoc(spans, from);
      if from < |spans| {
        DataAppend(Suffix(init, from), [last]);
        DataSingle(last);
      }
    }
  }

  /** A suffix of a list ending in `last` is the suffix of the rest, plus `last` if it reaches that far. */
  lemma SuffixSnoc(spans: seq<Span>, from: nat)
    requires spans != []
    ensures var init, last := spans[..|spans| - 1], spans[|spans| - 1];
      Suffix(spans, from) == if from < |spans| then Suffix(init, from) + [last] else []
  {
  }

  lemma DataSingle(s: Span)
    ensures Data([s]) == multiset(Ids(s))
  {
    assert [s][1..] == [];
  }

  /** `blocks[from:]`, empty once `from` is past the end. */
  function Suffix(spans: seq<Span>, from: nat): seq<Span>
  {
    if from <= |spans| then spans[from..] else []
  }

  /**
   * `add_n_from_end(d_map, n, blocks)`: with no blocks nothing happens;
   * otherwise ids are taken from the end, an IndexError is raised when the
   * blocks run out, and the empty blocks at the end are dropped.
   */
  function AddN(dmap: seq<int>, n: nat, spans: seq<Span>): Result<(seq<int>, seq<Span>)>
  {
    if spans == [] then Ok((dmap, spans))
    else
      var o := Take(spans, n, 0, dmap);
      if o.ranOut then Err(IndexError) else Ok((o.dmap, DropEmptyTail(o.spans)))
  }

  /**
   * `add_n_from_end`'s contract: it fails exactly when the blocks are not
   * empty and hold fewer than n ids; otherwise it appends exactly n ids (none
   * when there are no blocks), and the ids appended and the ids left in the
   * blocks together are the ids there were.
   */
  lemma AddNConserves(dmap: seq<int>, n: nat, spans: seq<Span>)
    ensures AddN(dmap, n, spans).Err? <==> spans != [] && n > |Data(spans)|
    ensures AddN(dmap, n, spans).Ok? ==>
      var (d, rest) := AddN(dmap, n, spans).value;
      dmap <= d && |d| == |dmap| + (if spans == [] then 0 else n) &&
      multiset(d) + Data(rest) == multiset(dmap) + Data(spans)
  {
    if spans != [] {
      TakeRunsOut(spans, n, 0, dmap);
      assert spans[..|spans| - 0] == spans;
      TakeAppends(spans, n, 0, dmap);
      TakeMovesIds(spans, n, 0, dmap);
      var o := Take(spans, n, 0, dmap);
      DropEmptyTailKeepsData(o.spans, 0);
      assert Suffix(o.spans, 0) == o.spans;
      assert Suffix(DropEmptyTail(o.spans), 0) == DropEmptyTail(o.spans);
    }
  }

  // -------------------------------------------------------- filling spaces

  /**
   * The `fill_spaces` loop from block `idx` on, over the `total` blocks the
   * list had at the start: the last block only writes its ids; an earlier
   * block writes its ids and then fills its spaces from the end; past the
   * end of the (shrunken) list the loop breaks.
   */
  function Fill(spans: seq<Span>, idx: nat, total: nat, dmap: seq<int>): Result<seq<int>>
    decreases total - idx
  {
    if idx >= total then Ok(dmap)
    else if idx + 1 == |spans| then Fill(spans, idx + 1, total, dmap + Ids(spans[idx]))
    else if idx + 1 < |spans| then
      match AddN(dmap + Ids(spans[idx]), spans[idx].spaces, spans)
      case Err(e) => Err(e)
      case Ok((d, rest)) => Fill(rest, idx + 1, total, d)
    else Ok(dmap)
  }

  // -------------------------------------------- filling without overlap

  /**
   * Taking from the end as `fill_spaces` evidently intends: only the blocks
   * after position `lo` (the block whose spaces are being filled) give ids,
   * and the loop stops when they are used up instead of reaching the block
   * being filled and those before it.
   */
  function TakeAfter(spans: seq<Span>, lo: nat, needed: nat, back: nat, acc: seq<int>): (r: (seq<int>, seq<Span>))
    ensures |r.1| == |spans|
    decreases |spans| - back
  {
    if needed == 0 || back + lo + 1 >= |spans| then (acc, spans)
    else
      var k := |spans| - 1 - back;
      var s := spans[k];
      var t := Min(needed, s.length);
      TakeAfter(spans[k := s.(length := s.length - t)], lo, needed - t, back + 1, acc + Repeat(s.index, t))
  }

  /** Taking `taken` off a span at or after `lo` removes exactly those ids from the suffix at `lo`. */
  lemma DataSliceUpdate(spans: seq<Span>, lo: nat, k: nat, v: Span, taken: seq<int>)
    requires lo <= k < |spans| && Ids(spans[k]) == taken + Ids(v)
    ensures Data(spans[k := v][lo..]) + multiset(taken) == Data(spans[lo..])
  {
    assert spans[k := v][lo..] == spans[lo..][k - lo := v];
    DataUpdate(spans[lo..], k - lo, v, taken);
  }

  /** One round of the corrected loop. */
  lemma TakeAfterStep(spans: seq<Span>, lo: nat, needed: nat, back: nat, acc: seq<int>,
                      k: nat, s: Span, t: nat, next: seq<Span>, taken: seq<int>)
    requires needed > 0 && back + lo + 1 < |spans|
    requires k == |spans| - 1 - back && s == spans[k]
    requires t == Min(needed, s.length) && taken == Repeat(s.index, t)
    requires next == spans[k := s.(length := s.length - t)]
    ensures TakeAfter(spans, lo, needed, back, acc) == TakeAfter(next, lo, needed - t, back + 1, acc + taken)
  {
  }

  /** One round of the corrected loop moves `taken` out of the blocks from `from` on. */
  lemma TakeAfterStepData(spans: seq<Span>, from: nat, k: nat, s: Span, t: nat, next: seq<Span>, taken: seq<int>)
    requires from <= k < |spans| && s == spans[k] && t <= s.length && taken == Repeat(s.index, t)
    requires next == spans[k := s.(length := s.length - t)]
    ensures Data(next[from..]) + multiset(taken) == Data(spans[from..])
  {
    var v := s.(length := s.length - t);
    assert Ids(s) == taken + Ids(v);
    DataSliceUpdate(spans, from, k, v, taken);
  }

  /** Only blocks after `lo` change, and the list keeps its length; ids are only appended. */
  lemma {:induction false} TakeAfterShape(spans: seq<Span>, lo: nat, needed: nat, back: nat, acc: seq<int>)
    requires lo < |spans|
    ensures var (d, rest) := TakeAfter(spans, lo, needed, back, acc);
      rest[..lo + 1] == spans[..lo + 1] && acc <= d && |d| <= |acc| + needed
    decreases |spans| - back
  {
    if needed != 0 && back + lo + 1 < |spans| {
      var k := |spans| - 1 - back;
      var s := spans[k];
      var t := Min(needed, s.length);
      var next := spans[k := s.(length := s.length - t)];
      TakeAfterShape(next, lo, needed - t, back + 1, acc + Repeat(s.index, t));
      assert next[..lo + 1] == spans[..lo + 1];
    }
  }

  /** The ids appended are exactly the ids the blocks after `lo` lose. */
  lemma {:induction false} TakeAfterMovesIds(spans: seq<Span>, lo: nat, needed: nat, back: nat, acc: seq<int>)
    requires lo < |spans|
    ensures var r := TakeAfter(spans, lo, needed, back, acc);
      multiset(r.0) + Data(r.1[lo + 1..]) == multiset(acc) + Data(spans[lo + 1..])
    decreases |spans| - back
  {
    if needed != 0 && back + lo + 1 < |spans| {
      var k := |spans| - 1 - back;
      var s := spans[k];
      var t := Min(needed, s.length);
      var v := s.(length := s.length - t);
      var taken := Repeat(s.index, t);
      var next := spans[k := v];
      TakeAfterStep(spans, lo, needed, back, acc, k, s, t, next, taken);
      TakeAfterMovesIds(next, lo, needed - t, back + 1, acc + taken);
      TakeAfterStepData(spans, lo + 1, k, s, t, next, taken);
      var o := TakeAfter(next, lo, needed - t, back + 1, acc + taken);
      Rebalance(o.0, Data(o.1[lo + 1..]), acc, taken, Data(next[lo + 1..]), Data(spans[lo + 1..]));
    }
  }

  /**
   * `fill_spaces` as evidently intended: each block's ids, then its spaces
   * filled from the blocks after it only.
   */
  function FillFrom(spans: seq<Span>, idx: nat, dmap: seq<int>): seq<int>
    decreases |spans| - idx
  {
    if idx >= |spans| then dmap
    else
      var d := dmap + Ids(spans[idx]);
      if idx + 1 == |spans| then d
      else
        var (d2, rest) := TakeAfter(spans, idx, spans[idx].spaces, 0, d);
        FillFrom(DropEmptyTail(rest), idx + 1, d2)
  }

  /** The corrected `fill_spaces` on a whole list of blocks. */
  function FillSpacesCorrected(spans: seq<Span>): (dmap: seq<int>)
    ensures multiset(dmap) == Data(spans)
  {
    FillFromConserves(spans, 0, []);
    assert Suffix(spans, 0) == spans;
    FillFrom(spans, 0, [])
  }

  lemma DataFirst(spans: seq<Span>, idx: nat)
    requires idx < |spans|
    ensures Data(spans[idx..]) == multiset(Ids(spans[idx])) + Data(spans[idx + 1..])
  {
    assert spans[idx..][1..] == spans[idx + 1..];
  }

  /** One block of the corrected fill: its ids, then its spaces from the blocks after it. */
  lemma FillFromStep(spans: seq<Span>, idx: nat, dmap: seq<int>, r: (seq<int>, seq<Span>))
    requires idx + 1 < |spans|
    requires r == TakeAfter(spans, idx, spans[idx].spaces, 0, dmap + Ids(spans[idx]))
    ensures FillFrom(spans, idx, dmap) == FillFrom(DropEmptyTail(r.1), idx + 1, r.0)
  {
  }

  /** From block `idx` on, the corrected fill writes exactly the ids the remaining blocks hold. */
  lemma {:induction false} FillFromConserves(spans: seq<Span>, idx: nat, dmap: seq<int>)
    ensures multiset(FillFrom(spans, idx, dmap)) == multiset(dmap) + Data(Suffix(spans, idx))
    decreases |spans| - idx
  {
    if idx < |spans| {
      var d := dmap + Ids(spans[idx]);
      DataFirst(spans, idx);
      if idx + 1 == |spans| {
        assert spans[idx + 1..] == [];
      } else {
        var r := TakeAfter(spans, idx, spans[idx].spaces, 0, d);
        var next := DropEmptyTail(r.1);
        FillFromStep(spans, idx, dmap, r);
        TakeAfterMovesIds(spans, idx, spans[idx].spaces, 0, d);
        DropEmptyTailKeepsData(r.1, idx + 1);
        FillFromConserves(next, idx + 1, r.0);
        assert Suffix(r.1, idx + 1) == r.1[idx + 1..];
        Regroup(dmap, Ids(spans[idx]), Data(spans[idx + 1..]), Data(spans[idx..]));
        calc {
          multiset(FillFrom(spans, idx, dmap));
          multiset(FillFrom(next, idx + 1, r.0));
          multiset(r.0) + Data(Suffix(next, idx + 1));
          multiset(r.0) + Data(r.1[idx + 1..]);
          multiset(d) + Data(spans[idx + 1..]);
          multiset(dmap) + Data(spans[idx..]);
        }
      }
    } else {
      assert Suffix(spans, idx) == [];
    }
  }

  /**
   * `get_hash(xs)`: the sum of position times value. The value at position
   * 0 does not count, and ids, which are never negative, hash to a
   * non-negative sum.
   */
  function GetHash(xs: seq<int>): (h: int)
    ensures |xs| <= 1 ==> h == 0
    ensures (forall i :: 0 <= i < |xs| ==> xs[i] >= 0) ==> h >= 0
  {
    if xs == [] then 0
    else
      var init, last := xs[..|xs| - 1], xs[|xs| - 1];
      assert (forall i :: 0 <= i < |xs| ==> xs[i] >= 0) ==> (forall i :: 0 <= i < |init| ==> init[i] >= 0) && (|xs| - 1) * last >= 0;
      GetHash(init) + (|xs| - 1) * last
  }

  /** Putting a value in front moves every other value one place right. */
  lemma {:induction false} GetHashShift(x: int, xs: seq<int>)
    ensures GetHash([x] + xs) == GetHash(xs) + Sum(xs)
    decreases |xs|
  {
    if xs == [] {
      assert [x] + xs == [x];
      assert [x][..0] == [];
    } else {
      var init, last := xs[..|xs| - 1], xs[|xs| - 1];
      GetHashShift(x, init);
      assert ([x] + xs)[..|xs|] == [x] + init;
      assert (|xs| - 1) * last + last == |xs| * last;
    }
  }

  /** `part1` on the file contents: read, fill, hash. */
  function Part1Of(data: string): Result<int>
  {
    match ReadData(data)
    case Err(e) => Err(e)
    case Ok(spans) =>
      match Fill(spans, 0, |spans|, [])
      case Err(e) => Err(e)
      case Ok(d) => Ok(GetHash(d))
  }

  /**
   * On the disk map "10131" (files 0, 1, 2 of one block each, three free
   * blocks after file 1), filling file 1's spaces takes file 2's block and
   * then reaches back into file 1 and file 0, whose ids were already
   * written: ids 1 and 0 come out twice and the hash is 8.
   */
  lemma FillSpacesRepeatsIds()
    ensures ReadData("10131") == Ok([Span(0, 1, 0), Span(1, 1, 3), Span(2, 1, 0)])
    ensures Fill([Span(0, 1, 0), Span(1, 1, 3), Span(2, 1, 0)], 0, 3, []) == Ok([0, 1, 2, 1, 0])
    ensures multiset([0, 1, 2, 1, 0]) != Data([Span(0, 1, 0), Span(1, 1, 3), Span(2, 1, 0)])
    ensures Part1Of("10131") == Ok(8)
  {
    ReadExample();
    FillFirstStep();
    FillSecondStep();
    ExampleCounts();
    ExampleHash();
  }

  lemma ReadExample()
    ensures ReadData("10131") == Ok([Span(0, 1, 0), Span(1, 1, 3), Span(2, 1, 0)])
  {
    var spans := [Span(0, 1, 0), Span(1, 1, 3), Span(2, 1, 0)];
    assert DigitChar(0) == '0' && DigitChar(1) == '1' && DigitChar(3) == '3';
    assert spans[..2][..1][..0] == [] && spans[..2][..1] == [Span(0, 1, 0)] && spans[..2] == [Span(0, 1, 0), Span(1, 1, 3)];
    assert Encode(spans) == "101310";
    ReadDataRoundTrip("", spans);
    assert Encode(spans)[..5] == "10131";
  }

  /** File 0 has no spaces: nothing is taken. */
  lemma FillFirstStep()
    ensures Fill([Span(0, 1, 0), Span(1, 1, 3), Span(2, 1, 0)], 0, 3, []) ==
      Fill([Span(0, 1, 0), Span(1, 1, 3), Span(2, 1, 0)], 1, 3, [0])
  {
    var spans := [Span(0, 1, 0), Span(1, 1, 3), Span(2, 1, 0)];
    assert Ids(spans[0]) == [0];
    assert [] + Ids(spans[0]) == [0];
    assert Take(spans, 0, 0, [0]) == Taken([0], spans, false);
    assert DropEmptyTail(spans) == spans;
    assert AddN([0], 0, spans) == Ok(([0], spans));
  }

  /** File 1's three spaces take file 2, then file 1 itself, then file 0. */
  lemma TakeExample()
    ensures Take([Span(0, 1, 0), Span(1, 1, 3), Span(2, 1, 0)], 3, 0, [0, 1]) ==
      Taken([0, 1, 2, 1, 0], [Span(0, 0, 0), Span(1, 0, 3), Span(2, 0, 0)], false)
  {
    var spans := [Span(0, 1, 0), Span(1, 1, 3), Span(2, 1, 0)];
    var s1 := [Span(0, 1, 0), Span(1, 1, 3), Span(2, 0, 0)];
    var s2 := [Span(0, 1, 0), Span(1, 0, 3), Span(2, 0, 0)];
    var s3 := [Span(0, 0, 0), Span(1, 0, 3), Span(2, 0, 0)];
    assert Repeat(2, 1) == [2] && Repeat(1, 1) == [1] && Repeat(0, 1) == [0];
    TakeStep(spans, 3, 0, [0, 1], 2, spans[2], 1, s1, [2]);
    TakeStep(s1, 2, 1, [0, 1, 2], 1, s1[1], 1, s2, [1]);
    TakeStep(s2, 1, 2, [0, 1, 2, 1], 0, s2[0], 1, s3, [0]);
    assert [0, 1] + [2] == [0, 1, 2] && [0, 1, 2] + [1] == [0, 1, 2, 1] && [0, 1, 2, 1] + [0] == [0, 1, 2, 1, 0];
  }

  /** All blocks are then empty and dropped, so the loop breaks. */
  lemma FillSecondStep()
    ensures Fill([Span(0, 1, 0), Span(1, 1, 3), Span(2, 1, 0)], 1, 3, [0]) == Ok([0, 1, 2, 1, 0])
  {
    var spans := [Span(0, 1, 0), Span(1, 1, 3), Span(2, 1, 0)];
    var s3 := [Span(0, 0, 0), Span(1, 0, 3), Span(2, 0, 0)];
    TakeExample();
    assert Ids(spans[1]) == [1];
    assert [0] + Ids(spans[1]) == [0, 1];
    assert DropEmptyTail(s3) == [] by {
      assert s3[..2] == [Span(0, 0, 0), Span(1, 0, 3)];
      assert s3[..2][..1] == [Span(0, 0, 0)];
      assert s3[..2][..1][..0] == [];
    }
    assert AddN([0, 1], 3, spans) == Ok(([0, 1, 2, 1, 0], []));
  }

  /** Id 1 is written twice but stored once. */
  lemma ExampleCounts()
    ensures multiset([0, 1, 2, 1, 0]) != Data([Span(0, 1, 0), Span(1, 1, 3), Span(2, 1, 0)])
  {
    var spans := [Span(0, 1, 0), Span(1, 1, 3), Span(2, 1, 0)];
    assert |multiset([0, 1, 2, 1, 0])| == 5;
    DataFirst(spans, 0);
    DataFirst(spans, 1);
    DataFirst(spans, 2);
    assert spans[0..] == spans && spans[3..] == [];
    assert |Data(spans)| == |Ids(spans[0])| + |Ids(spans[1])| + |Ids(spans[2])| == 3;
  }

  lemma ExampleHash()
    ensures GetHash([0, 1, 2, 1, 0]) == 8
  {
    assert [0][..0] == [] && [0, 1][..1] == [0] && [0, 1, 2][..2] == [0, 1];
    assert [0, 1, 2, 1][..3] == [0, 1, 2] && [0, 1, 2, 1, 0][..4] == [0, 1, 2, 1];
    assert GetHash([0]) == 0;
    assert GetHash([0, 1]) == 1;
    assert GetHash([0, 1, 2]) == 5;
    assert GetHash([0, 1, 2, 1]) == 8;
  }

  /** On the same disk map the corrected fill writes each id once, and the hash is 5. */
  lemma FillSpacesCorrectedExample()
    ensures FillSpacesCorrected([Span(0, 1, 0), Span(1, 1, 3), Span(2, 1, 0)]) == [0, 1, 2]
    ensures GetHash([0, 1, 2]) == 5
  {
    FillFromExample();
    assert [0][..0] == [] && [0, 1][..1] == [0] && [0, 1, 2][..2] == [0, 1];
    assert GetHash([0]) == 0;
    assert GetHash([0, 1]) == 1;
  }

  /** The corrected fill's steps on that disk map. */
  lemma FillFromExample()
    ensures FillFrom([Span(0, 1, 0), Span(1, 1, 3), Span(2, 1, 0)], 0, []) == [0, 1, 2]
  {
    var spans := [Span(0, 1, 0), Span(1, 1, 3), Span(2, 1, 0)];
    assert Ids(spans[0]) == [0] && Ids(spans[1]) == [1];
    assert [] + Ids(spans[0]) == [0] && [0] + Ids(spans[1]) == [0, 1];
    assert TakeAfter(spans, 0, 0, 0, [0]) == ([0], spans);
    assert DropEmptyTail(spans) == spans;
    var s1 := [Span(0, 1, 0), Span(1, 1, 3), Span(2, 0, 0)];
    assert Repeat(2, 1) == [2];
    assert spans[2 := Span(2, 0, 0)] == s1;
    assert [0, 1] + [2] == [0, 1, 2];
    assert TakeAfter(spans, 1, 3, 0, [0, 1]) == TakeAfter(s1, 1, 2, 1, [0, 1, 2]);
    assert TakeAfter(s1, 1, 2, 1, [0, 1, 2]) == ([0, 1, 2], s1);
    assert DropEmptyTail(s1) == s1[..2] by {
      assert s1[..2] == [Span(0, 1, 0), Span(1, 1, 3)];
    }
    assert FillFrom(spans, 0, []) == FillFrom(spans, 1, [0]);
    assert FillFrom(spans, 1, [0]) == FillFrom(s1[..2], 2, [0, 1, 2]);
  }

  // ------------------------------------------------------------ the blocks

  class Block {
    const index: nat
    var length: nat
    const spaces: nat

    constructor (index: nat, length: nat, spaces: nat)
      ensures this.index == index && this.length == length && this.spaces == spaces
    {
      this.index := index;
      this.length := length;
      this.spaces := spaces;
    }

    function Value(): Span
      reads this`length
    {
      Span(index, length, spaces)
    }

    /**
     * `remove_n_from_end(n)`: hand over `min(n, length)` copies of the index,
     * lower the length by as many, and report how many are still needed.
     */
    method RemoveNFromEnd(n: nat) returns (indices: seq<int>, needed: nat)
      modifies this`length
      ensures indices == Repeat(index, Min(n, old(length)))
      ensures |indices| + needed == n && (needed > 0 ==> length == 0)
      ensures length == old(length) - |indices|
    {
      var toReturn := Min(n, length);
      needed := n - toReturn;
      indices := Repeat(index, toReturn);
      length := length - toReturn;
    }
  }

  /** The values of a list of blocks, position by position. */
  function Snap(blocks: seq<Block>): (r: seq<Span>)
    reads set b | b in blocks
  {
    seq(|blocks|, i requires 0 <= i < |blocks| reads set b | b in blocks => blocks[i].Value())
  }

  lemma SnapPrefix(blocks: seq<Block>, m: nat)
    requires m <= |blocks|
    ensures Snap(blocks[..m]) == Snap(blocks)[..m]
  {
  }

  /** Lowering one block's length changes that block's value and no other. */
  lemma SnapAfterRemove(blocks: seq<Block>, before: seq<Span>, k: nat)
    requires Distinct(blocks) && k < |blocks| && |before| == |blocks|
    requires forall j :: 0 <= j < |blocks| && j != k ==> before[j] == blocks[j].Value()
    requires before[k].index == blocks[k].index && before[k].spaces == blocks[k].spaces
    ensures Snap(blocks) == before[k := blocks[k].Value()]
  {
  }

  /**
   * `remove_empty_blocks_from_end`: count the zero-length blocks at the end
   * and slice them off; the blocks kept are the same objects.
   */
  method RemoveEmptyBlocksFromEnd(blocks: seq<Block>) returns (r: seq<Block>)
    ensures |r| <= |blocks| && r == blocks[..|r|]
    ensures Snap(r) == DropEmptyTail(Snap(blocks))
  {
    ghost var s := Snap(blocks);
    var count := 0;
    while count < |blocks| && blocks[|blocks| - 1 - count].length == 0
      invariant count <= |blocks|
      invariant forall i :: |blocks| - count <= i < |blocks| ==> s[i].length == 0
    {
      count := count + 1;
    }
    r := if count > 0 then blocks[..|blocks| - count] else blocks;
    SnapPrefix(blocks, |blocks| - count);
    DropEmptyTailIs(s, |blocks| - count);
    assert r == blocks[..|blocks| - count];
  }

  /**
   * The loop of `add_n_from_end`: take ids from the blocks from the end,
   * lowering their lengths in place, while ids are needed; `ranOut` is the
   * IndexError of reading past the first block.  `num_blocks` only matters
   * before the first round (it is lowered only when nothing more is
   * needed), so the loop runs while ids are needed.
   */
  method TakeFromEnd(dmap: seq<int>, n: nat, blocks: seq<Block>) returns (d: seq<int>, ranOut: bool)
    requires Distinct(blocks)
    modifies set b | b in blocks
    ensures Take(old(Snap(blocks)), n, 0, dmap) == Taken(d, Snap(blocks), ranOut)
  {
    d := dmap;
    var needed := n;
    var back := 0;
    ghost var spec := Take(Snap(blocks), n, 0, dmap);
    while needed > 0
      invariant back <= |blocks|
      invariant spec == Take(Snap(blocks), needed, back, d)
      decreases |blocks| - back
    {
      ghost var cur := Snap(blocks);
      if back >= |blocks| {
        TakeRunsPast(cur, needed, back, d);
        return d, true;
      }
      var k := |blocks| - 1 - back;
      ghost var t := Min(needed, cur[k].length);
      var indices, rest := TakeFromBlock(blocks, k, needed);
      TakeStep(cur, needed, back, d, k, cur[k], t, Snap(blocks), indices);
      d := d + indices;
      needed := rest;
      back := back + 1;
    }
    TakeDone(Snap(blocks), back, d);
    return d, false;
  }

  /** One round of that loop: block `k` gives what it can of `needed`, and no other block changes. */
  method TakeFromBlock(blocks: seq<Block>, k: nat, needed: nat) returns (indices: seq<int>, rest: nat)
    requires Distinct(blocks) && k < |blocks|
    modifies blocks[k]
    ensures var s := old(blocks[k].Value());
      var t := Min(needed, s.length);
      indices == Repeat(s.index, t) && rest == needed - t &&
      Snap(blocks) == old(Snap(blocks))[k := s.(length := s.length - t)]
  {
    ghost var before := Snap(blocks);
    indices, rest := blocks[k].RemoveNFromEnd(needed);
    forall j | 0 <= j < |blocks| && j != k
      ensures before[j] == blocks[j].Value()
    {
      assert blocks[j] != blocks[k];
    }
    SnapAfterRemove(blocks, before, k);
  }

  /**
   * `add_n_from_end(d_map, n, blocks)`: with no blocks nothing happens;
   * otherwise the loop takes ids from the end (raising IndexError if they
   * run out) and the empty blocks at the end are dropped.
   */
  method AddNFromEnd(dmap: seq<int>, n: nat, blocks: seq<Block>) returns (r: Result<(seq<int>, seq<Block>)>)
    requires Distinct(blocks)
    modifies set b | b in blocks
    ensures var spec := AddN(dmap, n, old(Snap(blocks)));
      r.Err? == spec.Err? && (r.Err? ==> r.error == IndexError) &&
      (r.Ok? ==> r.value.0 == spec.value.0 && |r.value.1| <= |blocks| && r.value.1 == blocks[..|r.value.1|] &&
                 Snap(r.value.1) == spec.value.1)
    ensures blocks != [] ==> Snap(blocks) == Take(old(Snap(blocks)), n, 0, dmap).spans
    ensures blocks == [] ==> r == Ok((dmap, blocks))
  {
    if |blocks| == 0 {
      return Ok((dmap, blocks));
    }
    var d, ranOut := TakeFromEnd(dmap, n, blocks);
    if ranOut {
      return Err(IndexError);
    }
    var kept := RemoveEmptyBlocksFromEnd(blocks);
    return Ok((d, kept));
  }

  /**
   * `fill_spaces(blocks)`: the loop runs over the positions the list had at
   * the start, writing each block's ids and filling its spaces from the end.
   */
  method FillSpaces(blocks: seq<Block>) returns (r: Result<seq<int>>)
    requires Distinct(blocks)
    modifies set b | b in blocks
    ensures r == Fill(old(Snap(blocks)), 0, |blocks|, [])
  {
    var dmap: seq<int> := [];
    var cur := blocks;
    var total := |blocks|;
    for idx := 0 to total
      invariant |cur| <= |blocks| && cur == blocks[..|cur|] && Distinct(cur)
      invariant Fill(old(Snap(blocks)), 0, total, []) == Fill(Snap(cur), idx, total, dmap)
    {
      if idx + 1 == |cur| {
        var b := cur[idx];
        dmap := dmap + Repeat(b.index, b.length);
      } else if idx + 1 < |cur| {
        var b := cur[idx];
        dmap := dmap + Repeat(b.index, b.length);
        var res := AddNFromEnd(dmap, b.spaces, cur);
        if res.Err? {
          return Err(res.error);
        }
        dmap, cur := res.value.0, res.value.1;
      } else {
        return Ok(dmap);
      }
    }
    return Ok(dmap);
  }

  /** `read_data`'s loop: one fresh block per pair of digits. */
  method ReadBlocks(spans: seq<Span>) returns (blocks: seq<Block>)
    ensures Distinct(blocks) && Snap(blocks) == spans
    ensures forall b :: b in blocks ==> fresh(b)
  {
    blocks := [];
    for i := 0 to |spans|
      invariant Distinct(blocks) && Snap(blocks) == spans[..i]
      invariant forall b :: b in blocks ==> fresh(b)
    {
      var b := new Block(spans[i].index, spans[i].length, spans[i].spaces);
      blocks := blocks + [b];
    }
  }

  /** `part1(filename)` on the file's contents. */
  method Part1(data: string) returns (r: Result<int>)
    ensures r == Part1Of(data)
  {
    var parsed := ReadData(data);
    if parsed.Err? {
      return Err(parsed.error);
    }
    var blocks := ReadBlocks(parsed.value);
    var filled := FillSpaces(blocks);
    if filled.Err? {
      return Err(filled.error);
    }
    return Ok(GetHash(filled.value));
  }
}
