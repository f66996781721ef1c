// Shared value types: Python's `None`-or-value results and the exceptions the
// puzzle code raises, plus a few list helpers used by several days.
module Common {

  datatype Option<T> = None | Some(value: T)

  /** The Python exception classes that the modelled code can raise. */
  datatype PyError = TypeError | ValueError | IndexError | AttributeError | KeyError | ZeroDivisionError | AssertionError | NameError | RecursionError

  datatype Result<T> = Ok(value: T) | Err(error: PyError)

  /** (row, col), as the `Point = tuple[int, int]` alias of the repository. */
  type Point = (int, int)

  function Abs(x: int): nat { if x < 0 then -x else x }

  function Sum(xs: seq<int>): int
  {
    if xs == [] then 0 else Sum(xs[..|xs| - 1]) + xs[|xs| - 1]
  }

  lemma {:induction false} SumAppend(xs: seq<int>, ys: seq<int>)
    ensures Sum(xs + ys) == Sum(xs) + Sum(ys)
  {
    if ys != [] {
      assert (xs + ys)[..|xs + ys| - 1] == xs + ys[..|ys| - 1];
      SumAppend(xs, ys[..|ys| - 1]);
    } else {
      assert xs + ys == xs;
    }
  }

  /** One-level concatenation of a list of lists. */
  function Flatten<T>(xss: seq<seq<T>>): seq<T>
  {
    if xss == [] then [] else Flatten(xss[..|xss| - 1]) + xss[|xss| - 1]
  }

  lemma {:induction false} FlattenMembership<T>(xss: seq<seq<T>>, x: T)
    ensures x in Flatten(xss) <==> exists i :: 0 <= i < |xss| && x in xss[i]
  {
    if xss != [] {
      var init := xss[..|xss| - 1];
      FlattenMembership(init, x);
      assert forall i :: 0 <= i < |init| ==> init[i] == xss[i];
    }
  }

  /** Flattening a list that starts with `x` starts with `x`. */
  lemma {:induction false} FlattenCons<T>(x: seq<T>, xss: seq<seq<T>>)
    ensures Flatten([x] + xss) == x + Flatten(xss)
  {
    if xss != [] {
      var init := xss[..|xss| - 1];
      assert ([x] + xss)[..|xss|] == [x] + init;
      FlattenCons(x, init);
    } else {
      assert [x] + xss == [x];
      assert [x][..0] == [];
    }
  }

  /** Flattening two lists one after the other flattens each in turn. */
  lemma {:induction false} FlattenAppend<T>(xss: seq<seq<T>>, yss: seq<seq<T>>)
    ensures Flatten(xss + yss) == Flatten(xss) + Flatten(yss)
    decreases |yss|
  {
    if yss == [] {
      assert xss + yss == xss;
    } else {
      var init := yss[..|yss| - 1];
      assert (xss + yss)[..|xss + yss| - 1] == xss + init;
      FlattenAppend(xss, init);
    }
  }

  function TotalLength<T>(xss: seq<seq<T>>): nat
  {
    if xss == [] then 0 else TotalLength(xss[..|xss| - 1]) + |xss[|xss| - 1]|
  }

  lemma {:induction false} FlattenLength<T>(xss: seq<seq<T>>)
    ensures |Flatten(xss)| == TotalLength(xss)
  {
    if xss != [] { FlattenLength(xss[..|xss| - 1]); }
  }

  /** `list.index`: the first position of `x`, ValueError when it is absent. */
  function IndexOf<T(==)>(xs: seq<T>, x: T): (r: Result<nat>)
    ensures r.Ok? <==> x in xs
    ensures r.Err? ==> r.error == ValueError
    ensures r.Ok? ==> r.value < |xs| && xs[r.value] == x && forall j :: 0 <= j < r.value ==> xs[j] != x
  {
    if xs == [] then Err(ValueError)
    else if xs[0] == x then Ok(0)
    else match IndexOf(xs[1..], x)
      case Ok(i) => Ok(i + 1)
      case Err(e) => Err(e)
  }

  /** No value occurs twice. */
  predicate Distinct<T(==)>(xs: seq<T>)
  {
    forall i, j :: 0 <= i < j < |xs| ==> xs[i] != xs[j]
  }

  /** In a list without repeats, `index` finds each element at its own position. */
  lemma DistinctIndexOf<T>(xs: seq<T>, k: nat)
    requires Distinct(xs) && k < |xs|
    ensures IndexOf(xs, xs[k]) == Ok(k)
  {
    assert xs[k] in xs;
  }

  /** The elements of `xs`, each exactly once (in no promised order). */
  function Dedup<T(==,!new)>(xs: seq<T>): (r: seq<T>)
    ensures Distinct(r)
    ensures forall x :: x in r <==> x in xs
  {
    if xs == [] then []
    else
      var init, last := xs[..|xs| - 1], xs[|xs| - 1];
      assert xs == init + [last];
      var rest := Dedup(init);
      if last in rest then rest else rest + [last]
  }

  /** A list without repeats holds each value at most once. */
  lemma {:induction false} DistinctCountsAtMostOne<T>(xs: seq<T>, x: T)
    requires Distinct(xs)
    ensures multiset(xs)[x] <= 1
  {
    if xs != [] {
      assert xs == [xs[0]] + xs[1..];
      DistinctCountsAtMostOne(xs[1..], x);
      if x == xs[0] {
        assert x !in xs[1..];
      }
    }
  }

  /** A list without repeats is as long as the set of its elements is large. */
  lemma {:induction false} DistinctCard<T>(xs: seq<T>, s: set<T>)
    requires Distinct(xs) && forall x :: x in xs <==> x in s
    ensures |xs| == |s|
    decreases |xs|
  {
    if xs != [] {
      var init, last := xs[..|xs| - 1], xs[|xs| - 1];
      assert xs == init + [last];
      assert last !in init by {
        forall k | 0 <= k < |init| ensures init[k] != last {
          assert xs[k] == init[k];
        }
      }
      DistinctCard(init, s - {last});
    } else {
      assert s == {};
    }
  }

  /** Any rearrangement of a list without repeats has no repeats either. */
  lemma DistinctPermutation<T>(a: seq<T>, b: seq<T>)
    requires multiset(a) == multiset(b) && Distinct(b)
    ensures Distinct(a)
  {
    forall i, j | 0 <= i < j < |a|
      ensures a[i] != a[j]
    {
      if a[i] == a[j] {
        assert a == a[..i] + [a[i]] + a[i + 1..j] + [a[j]] + a[j + 1..];
        assert multiset(a)[a[i]] >= 2;
        DistinctCountsAtMostOne(b, a[i]);
      }
    }
  }

  /** A prefix of a prefix is a prefix. */
  lemma PrefixTrans<T>(a: seq<T>, b: seq<T>, c: seq<T>)
    requires a <= b && b <= c
    ensures a <= c
  {
    assert c[..|a|] == b[..|a|];
  }

  /** The set of elements of a list, as `set(xs)`. */
  function Elems<T>(xs: seq<T>): set<T> { set x | x in xs }

  /** Every row as long as the first, as rows read from a text grid are. */
  predicate Rectangular<T>(g: seq<seq<T>>)
  {
    forall r :: 0 <= r < |g| ==> |g[r]| == |g[0]|
  }

  /** `p` addresses a cell of the rows `g`. */
  predicate InCells<T>(g: seq<seq<T>>, p: Point)
  {
    0 <= p.0 < |g| && 0 <= p.1 < |g[p.0]|
  }

  /** Every point of the rows `g`. */
  function AllCells<T>(g: seq<seq<T>>): set<Point>
  {
    set r, c | 0 <= r < |g| && 0 <= c < |g[r]| :: (r, c)
  }

  lemma AllCellsMembership<T>(g: seq<seq<T>>)
    ensures forall p :: p in AllCells(g) <==> InCells(g, p)
  {
    forall p | InCells(g, p) ensures p in AllCells(g) {
      var (r, c) := p;
      assert (r, c) in AllCells(g);
    }
  }

  /** Adding an unvisited cell leaves fewer cells unvisited. */
  lemma CardDrops<T>(all: set<T>, acc: set<T>, x: T)
    requires acc <= all && x in all && x !in acc
    ensures |all - (acc + {x})| < |all - acc|
  {
    assert all - (acc + {x}) == (all - acc) - {x};
  }

  /** Orthogonally adjacent points. */
  predicate Adjacent(a: Point, b: Point)
  {
    Abs(a.0 - b.0) + Abs(a.1 - b.1) == 1
  }

  /** `xs[::-1]`. */
  function Reversed<T>(s: seq<T>): (r: seq<T>)
    ensures |r| == |s| && forall i :: 0 <= i < |s| ==> r[i] == s[|s| - 1 - i]
  {
    seq(|s|, i requires 0 <= i < |s| => s[|s| - 1 - i])
  }

  /**
   * Python's `xs[i]`: a negative index counts from the end; outside
   * `-len(xs) <= i < len(xs)` it raises IndexError.
   */
  function PyIndex<T>(xs: seq<T>, i: int): (r: Result<T>)
    ensures r.Ok? <==> -|xs| <= i < |xs|
    ensures r.Ok? ==> r.value in xs
    ensures r.Ok? && 0 <= i ==> r.value == xs[i]
    ensures r.Err? ==> r.error == IndexError
  {
    if 0 <= i < |xs| then Ok(xs[i])
    else if -|xs| <= i < 0 then Ok(xs[|xs| + i])
    else Err(IndexError)
  }

  /** A prefix one longer is the prefix and the next item. */
  /** Appending is associative; spelled out so that proofs over long sequences stay cheap. */
  lemma AppendAssociates<T>(a: seq<T>, b: seq<T>, c: seq<T>)
    ensures (a + b) + c == a + (b + c)
  {
  }

  /** The head and tail of a concatenation whose first part is not empty. */
  lemma DropAppend<T>(a: seq<T>, b: seq<T>)
    requires a != []
    ensures (a + b)[0] == a[0] && (a + b)[1..] == a[1..] + b
  {
  }

  lemma TakeSnoc<T>(xs: seq<T>, i: nat)
    requires i < |xs|
    ensures xs[..i + 1] == xs[..i] + [xs[i]]
  {
  }

  /** A prefix and the rest make up the whole. */
  lemma TakeDrop<T>(xs: seq<T>, i: nat)
    requires i <= |xs|
    ensures xs[..i] + xs[i..] == xs && xs[..|xs|] == xs
  {
  }

  /** `f` applied to every item in turn, stopping at the first error. */
  function Traverse<A, B>(f: A -> Result<B>, xs: seq<A>): (r: Result<seq<B>>)
    ensures r.Ok? ==> |r.value| == |xs|
  {
    if xs == [] then Ok([])
    else
      match f(xs[0])
      case Err(e) => Err(e)
      case Ok(y) =>
        match Traverse(f, xs[1..])
        case Err(e) => Err(e)
        case Ok(ys) => Ok([y] + ys)
  }

  /** Traverse succeeds exactly when `f` does on every item, gives each item's own result, and otherwise fails with the first item's error. */
  lemma {:induction false} TraverseEach<A, B>(f: A -> Result<B>, xs: seq<A>)
    ensures Traverse(f, xs).Ok? <==> forall i :: 0 <= i < |xs| ==> f(xs[i]).Ok?
    ensures Traverse(f, xs).Ok? ==> forall i :: 0 <= i < |xs| ==> f(xs[i]) == Ok(Traverse(f, xs).value[i])
    ensures Traverse(f, xs).Err? ==>
              exists i :: 0 <= i < |xs| && f(xs[i]) == Err(Traverse(f, xs).error) &&
                          forall j :: 0 <= j < i ==> f(xs[j]).Ok?
  {
    if xs != [] {
      TraverseEach(f, xs[1..]);
      assert forall i :: 1 <= i < |xs| ==> xs[i] == xs[1..][i - 1];
      if f(xs[0]).Ok? && Traverse(f, xs[1..]).Err? {
        var i :| 0 <= i < |xs[1..]| && f(xs[1..][i]) == Err(Traverse(f, xs[1..]).error) &&
          forall j :: 0 <= j < i ==> f(xs[1..][j]).Ok?;
        assert f(xs[i + 1]) == Err(Traverse(f, xs).error);
      }
    }
  }

  /** Traversing one more item: its result is appended, or its error is the answer. */
  lemma {:induction false} TraverseSnoc<A, B>(f: A -> Result<B>, xs: seq<A>, x: A)
    requires Traverse(f, xs).Ok?
    ensures f(x).Ok? ==> Traverse(f, xs + [x]) == Ok(Traverse(f, xs).value + [f(x).value])
    ensures f(x).Err? ==> Traverse(f, xs + [x]) == Err(f(x).error)
  {
    if xs == [] {
      assert xs + [x] == [x] && [x][1..] == [];
      assert Traverse(f, [x][1..]) == Ok([]);
      if f(x).Ok? {
        assert [f(x).value] + [] == [] + [f(x).value];
      }
    } else {
      assert (xs + [x])[0] == xs[0];
      assert (xs + [x])[1..] == xs[1..] + [x];
      TraverseSnoc(f, xs[1..], x);
      if f(x).Ok? {
        var y, ys := f(xs[0]).value, Traverse(f, xs[1..]).value;
        assert [y] + (ys + [f(x).value]) == ([y] + ys) + [f(x).value];
      }
    }
  }

  /** Once a prefix fails, whatever follows it does not change the answer. */
  lemma {:induction false} TraverseErrPrefix<A, B>(f: A -> Result<B>, xs: seq<A>, ys: seq<A>)
    requires Traverse(f, xs).Err?
    ensures Traverse(f, xs + ys) == Traverse(f, xs)
  {
    assert (xs + ys)[0] == xs[0];
    if f(xs[0]).Ok? {
      assert (xs + ys)[1..] == xs[1..] + ys;
      TraverseErrPrefix(f, xs[1..], ys);
    }
  }

  /** Lexicographic (row, col) order, the order of Python's tuple comparison. */
  predicate LexLe(a: Point, b: Point)
  {
    a.0 < b.0 || (a.0 == b.0 && a.1 <= b.1)
  }

  predicate LexSorted(ps: seq<Point>)
  {
    forall i, j :: 0 <= i < j < |ps| ==> LexLe(ps[i], ps[j])
  }

  function InsertPoint(x: Point, ps: seq<Point>): (r: seq<Point>)
    requires LexSorted(ps)
    ensures LexSorted(r)
    ensures multiset(r) == multiset(ps) + multiset{x}
  {
    if ps == [] then [x]
    else if LexLe(x, ps[0]) then [x] + ps
    else
      var rest := InsertPoint(x, ps[1..]);
      InsertPointStep(x, ps, rest);
      [ps[0]] + rest
  }

  /** One step of `InsertPoint`: the head stays in front of the sorted rest. */
  lemma InsertPointStep(x: Point, ps: seq<Point>, rest: seq<Point>)
    requires ps != [] && LexSorted(ps) && !LexLe(x, ps[0])
    requires LexSorted(rest) && multiset(rest) == multiset(ps[1..]) + multiset{x}
    ensures LexSorted([ps[0]] + rest)
    ensures multiset([ps[0]] + rest) == multiset(ps) + multiset{x}
  {
    assert ps == [ps[0]] + ps[1..];
    forall y | y in rest ensures LexLe(ps[0], y)
    {
      assert y in multiset(rest);
      if y != x {
        assert y in multiset(ps[1..]);
        var j :| 0 <= j < |ps[1..]| && ps[1..][j] == y;
        assert ps[j + 1] == y;
      }
    }
    var r := [ps[0]] + rest;
    forall i, j | 0 <= i < j < |r| ensures LexLe(r[i], r[j])
    {
      if i == 0 { assert r[j] in rest; } else { assert r[i] == rest[i - 1] && r[j] == rest[j - 1]; }
    }
  }

  /** `sorted(points)` for (row, col) tuples. */
  function SortPoints(ps: seq<Point>): (r: seq<Point>)
    ensures LexSorted(r)
    ensures multiset(r) == multiset(ps)
  {
    if ps == [] then []
    else
      assert ps == [ps[0]] + ps[1..];
      InsertPoint(ps[0], SortPoints(ps[1..]))
  }

  // ------------------------------------------------------- decimal digits

  predicate IsDigit(c: char) { '0' <= c <= '9' }

  predicate AllDigits(s: string) { forall i :: 0 <= i < |s| ==> IsDigit(s[i]) }

  function DigitValue(c: char): nat
    requires IsDigit(c)
  {
    (c as int - '0' as int) as nat
  }

  function DigitChar(n: nat): char
    requires n < 10
  {
    ('0' as int + n) as char
  }

  lemma DigitRoundTrip(c: char, n: nat)
    ensures IsDigit(c) ==> DigitChar(DigitValue(c)) == c
    ensures n < 10 ==> IsDigit(DigitChar(n)) && DigitValue(DigitChar(n)) == n
  {
  }

  /** Decimal value of a string of digits, as `int()` reads it. */
  function DecimalValue(ds: string): nat
    requires AllDigits(ds)
  {
    if ds == [] then 0 else 10 * DecimalValue(ds[..|ds| - 1]) + (ds[|ds| - 1] as int - '0' as int)
  }

  /** Decimal digits of a number, as `str()` writes it. */
  function ToDecimal(n: nat): (ds: string)
    ensures |ds| > 0 && AllDigits(ds)
  {
    if n < 10 then [('0' as int + n) as char] else ToDecimal(n / 10) + [('0' as int + n % 10) as char]
  }

  lemma {:induction false} DecimalRoundTrip(n: nat)
    ensures DecimalValue(ToDecimal(n)) == n
  {
    if n >= 10 {
      DecimalRoundTrip(n / 10);
      var ds := ToDecimal(n);
      assert ds[..|ds| - 1] == ToDecimal(n / 10);
    }
  }

  /** Length of the longest run of digits starting at index `i`. */
  function DigitRun(s: string, i: nat): (n: nat)
    requires i <= |s|
    ensures i + n <= |s| && AllDigits(s[i..i + n])
    ensures i + n == |s| || !IsDigit(s[i + n])
    decreases |s| - i
  {
    if i < |s| && IsDigit(s[i]) then
      var m := DigitRun(s, i + 1);
      assert s[i..i + 1 + m] == [s[i]] + s[i + 1..i + 1 + m];
      1 + m
    else 0
  }

  /** A run of digits followed by a non-digit or the end has exactly its own length. */
  lemma DigitRunOf(s: string, i: nat, ds: string)
    requires i + |ds| <= |s| && s[i..i + |ds|] == ds && AllDigits(ds)
    requires i + |ds| == |s| || !IsDigit(s[i + |ds|])
    ensures DigitRun(s, i) == |ds|
    decreases |ds|
  {
    if ds != [] {
      assert s[i] == ds[0];
      assert s[i + 1..i + 1 + |ds[1..]|] == ds[1..];
      DigitRunOf(s, i + 1, ds[1..]);
    }
  }

  // ----- Python str.split -----

  /** `s[i:i+len(pat)] == pat`. */
  predicate OccursAt(s: string, pat: string, i: int)
  {
    0 <= i && i + |pat| <= |s| && s[i..i + |pat|] == pat
  }

  /** Python's `pat in s` on strings. */
  predicate Contains(s: string, pat: string)
  {
    exists i :: 0 <= i <= |s| && OccursAt(s, pat, i)
  }

  /** `str.startswith`. */
  predicate StartsWith(s: string, prefix: string)
  {
    |prefix| <= |s| && s[..|prefix|] == prefix
  }

  /** `str.removeprefix`: what follows `prefix`, or `s` itself when it does not start with it. */
  function RemovePrefix(s: string, prefix: string): (r: string)
    ensures StartsWith(s, prefix) ==> s == prefix + r
    ensures !StartsWith(s, prefix) ==> r == s
  {
    if StartsWith(s, prefix) then s[|prefix|..] else s
  }

  /** The first index of `pat` in `s` at or after `i` (`str.find`), or None. */
  function FindText(s: string, pat: string, i: nat): (r: Option<nat>)
    requires i <= |s|
    ensures r.Some? ==> i <= r.value && OccursAt(s, pat, r.value) &&
                        forall k :: i <= k < r.value ==> !OccursAt(s, pat, k)
    ensures r.None? ==> forall k :: i <= k ==> !OccursAt(s, pat, k)
    decreases |s| - i
  {
    if OccursAt(s, pat, i) then Some(i)
    else if i == |s| then None
    else FindText(s, pat, i + 1)
  }

  /** The first occurrence is the one `str.find` reports. */
  lemma FindTextFirst(s: string, pat: string, j: nat)
    requires OccursAt(s, pat, j) && forall k :: 0 <= k < j ==> !OccursAt(s, pat, k)
    ensures FindText(s, pat, 0) == Some(j)
  {
  }

  /**
   * `str.split(sep)` for a non-empty separator: the pieces between
   * non-overlapping occurrences; no piece contains the separator.
   */
  function Split(s: string, sep: string): (pieces: seq<string>)
    requires |sep| > 0
    ensures |pieces| > 0
    ensures forall p, k :: p in pieces ==> !OccursAt(p, sep, k)
    decreases |s|
  {
    match FindText(s, sep, 0)
    case None => [s]
    case Some(i) =>
      var rest := s[i + |sep|..];
      assert s == s[..i] + sep + rest by {
        assert s[i..i + |sep|] == sep;
      }
      assert forall k :: !OccursAt(s[..i], sep, k) by {
        forall k | OccursAt(s[..i], sep, k) ensures false {
          assert s[k..k + |sep|] == s[..i][k..k + |sep|];
          assert OccursAt(s, sep, k);
        }
      }
      var tail := Split(rest, sep);
      assert ([s[..i]] + tail)[1..] == tail;
      [s[..i]] + tail
  }

  /** Joining the pieces of `str.split(sep)` with the separator gives the text back. */
  lemma {:induction false} SplitJoinRoundTrip(s: string, sep: string)
    requires |sep| > 0
    ensures Join(Split(s, sep), sep) == s
    decreases |s|
  {
    match FindText(s, sep, 0)
    case None =>
    case Some(i) =>
      var rest := s[i + |sep|..];
      assert s == s[..i] + sep + rest by {
        assert s[i..i + |sep|] == sep;
      }
      SplitJoinRoundTrip(rest, sep);
      var pieces := Split(s, sep);
      assert pieces[0] == s[..i] && pieces[1..] == Split(rest, sep);
  }

  /**
   * `sep.join(pieces)`: starts with the first piece, ends with the last,
   * and with two pieces or more the separator follows the first.
   */
  function Join(pieces: seq<string>, sep: string): (r: string)
    requires |pieces| > 0
    ensures |pieces[0]| <= |r| && r[..|pieces[0]|] == pieces[0]
    ensures |pieces[|pieces| - 1]| <= |r| && r[|r| - |pieces[|pieces| - 1]|..] == pieces[|pieces| - 1]
    ensures |pieces| > 1 ==> OccursAt(r, sep, |pieces[0]|)
  {
    if |pieces| == 1 then pieces[0] else pieces[0] + sep + Join(pieces[1..], sep)
  }

  /** `str.split(c)` at a separator character that occurs nowhere: the whole text. */
  lemma SplitNoSeparator(s: string, c: char)
    requires c !in s
    ensures Split(s, [c]) == [s]
  {
    forall k | 0 <= k < |s| ensures !OccursAt(s, [c], k) {
      assert s[k] in s;
      assert s[k..k + 1] == [s[k]];
    }
  }

  /** `str.split(c)` where `c` occurs exactly once: the text before it and the text after it. */
  lemma SplitOnce(a: string, c: char, b: string)
    requires c !in a && c !in b
    ensures Split(a + [c] + b, [c]) == [a, b]
  {
    var s := a + [c] + b;
    assert s[|a|..|a| + 1] == [c];
    assert OccursAt(s, [c], |a|);
    forall k | 0 <= k < |a| ensures !OccursAt(s, [c], k) {
      assert a[k] in a;
      assert s[k..k + 1] == [a[k]];
    }
    assert FindText(s, [c], 0) == Some(|a|);
    assert s[..|a|] == a && s[|a| + 1..] == b;
    SplitNoSeparator(b, c);
  }

  // ----- Python int() and // -----

  /**
   * The ASCII characters `str.strip()` removes: space, tab, line feed,
   * carriage return, vertical tab, form feed and the four separators
   * 0x1C to 0x1F.
   */
  predicate IsSpace(c: char)
  {
    c == ' ' || c == '\t' || c == '\n' || c == '\r' || c == '\U{000B}' || c == '\U{000C}'
    || ('\U{001C}' <= c <= '\U{001F}')
  }

  function StripLeft(s: string): (r: string)
    ensures |r| <= |s| && r == s[|s| - |r|..]
    ensures r == [] || !IsSpace(r[0])
  {
    if |s| > 0 && IsSpace(s[0]) then StripLeft(s[1..]) else s
  }

  function StripRight(s: string): (r: string)
    ensures |r| <= |s| && r == s[..|r|]
    ensures r == [] || !IsSpace(r[|r| - 1])
  {
    if |s| > 0 && IsSpace(s[|s| - 1]) then StripRight(s[..|s| - 1]) else s
  }

  /**
   * `str.strip()`: no whitespace left at either end, and text with no
   * whitespace at either end is left as it is.
   */
  function Strip(s: string): (r: string)
    ensures r == [] || (!IsSpace(r[0]) && !IsSpace(r[|r| - 1]))
    ensures |s| > 0 && !IsSpace(s[0]) && !IsSpace(s[|s| - 1]) ==> r == s
  {
    var l := StripLeft(s);
    var r := StripRight(l);
    assert r != [] ==> r[0] == l[0];
    assert |s| > 0 && !IsSpace(s[0]) && !IsSpace(s[|s| - 1]) ==> l == s && r == s;
    r
  }

  /**
   * `int(s)` on text: surrounding whitespace is ignored, then an optional
   * sign and a non-empty run of decimal digits; anything else is ValueError.
   */
  function PyInt(s: string): (r: Result<int>)
    ensures r.Err? ==> r.error == ValueError
    ensures |s| > 0 && AllDigits(s) ==> r == Ok(DecimalValue(s))
    ensures s == [] ==> r == Err(ValueError)
  {
    var t := Strip(s);
    var signed := |t| > 0 && (t[0] == '+' || t[0] == '-');
    var body := if signed then t[1..] else t;
    if |body| == 0 || !AllDigits(body) then Err(ValueError)
    else if signed && t[0] == '-' then Ok(-(DecimalValue(body) as int))
    else Ok(DecimalValue(body))
  }

  /** `str(n)` for an int. */
  function IntToString(n: int): (s: string)
    ensures |s| > 0 && !IsSpace(s[0]) && !IsSpace(s[|s| - 1])
    ensures forall k :: 0 <= k < |s| ==> IsDigit(s[k]) || s[k] == '-'
  {
    if n < 0 then "-" + ToDecimal(-n) else ToDecimal(n)
  }

  /** `int(str(n)) == n`. */
  lemma PyIntRoundTrip(n: int)
    ensures PyInt(IntToString(n)) == Ok(n)
  {
    var s := IntToString(n);
    assert StripLeft(s) == s;
    assert StripRight(s) == s;
    if n < 0 {
      DecimalRoundTrip(-n);
      assert s[1..] == ToDecimal(-n);
    } else {
      DecimalRoundTrip(n);
    }
  }

  /** Python's `a // b`: the quotient rounded down, ZeroDivisionError for `b == 0`. */
  function FloorDiv(a: int, b: int): (r: Result<int>)
    ensures r.Ok? <==> b != 0
    ensures r.Err? ==> r.error == ZeroDivisionError
    ensures b > 0 && r.Ok? ==> r.value * b <= a < r.value * b + b
    ensures b < 0 && r.Ok? ==> r.value * b + b < a <= r.value * b
  {
    if b == 0 then Err(ZeroDivisionError)
    else if b > 0 then Ok(a / b)
    else Ok((-a) / (-b))
  }

  /** Python's `a % n`: the remainder takes the sign of `n`; ZeroDivisionError for `n == 0`. */
  function FloorMod(a: int, n: int): (r: Result<int>)
    ensures r.Ok? <==> n != 0
    ensures r.Err? ==> r.error == ZeroDivisionError
    ensures n > 0 && r.Ok? ==> 0 <= r.value < n
    ensures n < 0 && r.Ok? ==> n < r.value <= 0
  {
    if n == 0 then Err(ZeroDivisionError)
    else if n > 0 then Ok(a % n)
    else Ok(-((-a) % (-n)))
  }

  lemma MulAtLeastOne(d: int, n: int)
    requires d >= 1 && n > 0
    ensures d * n >= n
  {
  }

  /** Quotient and remainder are unique: any `q*n + r` with `0 <= r < n` is the Euclidean split. */
  lemma DivModUnique(a: int, n: int, q: int, r: int)
    requires n > 0 && 0 <= r < n && a == q * n + r
    ensures a / n == q && a % n == r
  {
    var q2, r2 := a / n, a % n;
    assert (q - q2) * n == r2 - r;
    if q > q2 {
      MulAtLeastOne(q - q2, n);
      assert false;
    } else if q < q2 {
      MulAtLeastOne(q2 - q, n);
      assert false;
    }
  }

  /** Adding a multiple of `n` leaves the remainder unchanged. */
  lemma ModShift(y: int, k: int, n: int)
    requires n > 0
    ensures (y + k * n) % n == y % n
  {
    DivModUnique(y + k * n, n, y / n + k, y % n);
  }

  /** `(x % n + y) % n == (x + y) % n` for a positive modulus. */
  lemma ModAdd(x: int, y: int, n: int)
    requires n > 0
    ensures (x % n + y) % n == (x + y) % n
  {
    ModShift(x % n + y, x / n, n);
    assert x % n + y + (x / n) * n == x + y;
  }

  /** Python's `%` absorbs an earlier `%` by the same modulus. */
  lemma FloorModAdd(x: int, y: int, n: int)
    requires n != 0
    ensures FloorMod(FloorMod(x, n).value + y, n) == FloorMod(x + y, n)
  {
    if n > 0 {
      ModAdd(x, y, n);
    } else {
      ModAdd(-x, -y, -n);
      assert -(-((-x) % (-n)) + y) == (-x) % (-n) + -y;
    }
  }
}
