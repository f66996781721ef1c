/**
 * Day 19 of 2024 (Linen Layout). A towel is a short string of stripe
 * colours and a design is a longer one; a design can be laid out when it is
 * towels joined end to end. This module holds the recursive test
 * `can_be_formed`, the enumeration `find_towel_combos`, the reduction of
 * the towel list to the towels no shorter ones can form, and the per-towel
 * counts built on them.
 */
module Day19 {
  import opened Common

  // ------------------------------------------------------------ layouts

  /** `s` lays out `design`: towels of the list, none of them empty, joined in order. */
  predicate IsLayout(s: seq<string>, design: string, towels: seq<string>)
  {
    (forall i :: 0 <= i < |s| ==> s[i] in towels && s[i] != "") && Flatten(s) == design
  }

  /** A layout that is not empty is its first towel followed by a layout of the rest. */
  lemma LayoutCons(t: string, s: seq<string>, design: string, towels: seq<string>)
    ensures IsLayout([t] + s, design, towels) <==>
              t in towels && t != "" && StartsWith(design, t) && IsLayout(s, design[|t|..], towels)
  {
    FlattenCons(t, s);
    var ts := [t] + s;
    assert forall i :: 1 <= i < |ts| ==> ts[i] == s[i - 1];
    assert forall i :: 0 <= i < |s| ==> s[i] == ts[i + 1];
    if IsLayout(ts, design, towels) {
      assert ts[0] == t;
      assert design == t + Flatten(s);
      assert design[..|t|] == t && design[|t|..] == Flatten(s);
      forall i | 0 <= i < |s| ensures s[i] in towels && s[i] != ""
      {
        assert s[i] == ts[i + 1];
      }
    }
    if t in towels && t != "" && StartsWith(design, t) && IsLayout(s, design[|t|..], towels) {
      assert design[..|t|] + design[|t|..] == design;
      assert Flatten(ts) == t + Flatten(s) == design;
      forall i | 0 <= i < |ts| ensures ts[i] in towels && ts[i] != ""
      {
        if i > 0 { assert ts[i] == s[i - 1]; }
      }
    }
  }

  /** Only the empty layout lays out the empty design, and it lays out nothing else. */
  lemma EmptyLayout(s: seq<string>, design: string, towels: seq<string>)
    requires IsLayout(s, design, towels)
    ensures design == "" <==> s == []
  {
    if s != [] {
      assert Flatten(s) == Flatten(s[..|s| - 1]) + s[|s| - 1];
    }
  }

  /** A layout over some towels is a layout over any list holding them. */
  lemma LayoutWiden(s: seq<string>, design: string, towels: seq<string>, more: seq<string>)
    requires IsLayout(s, design, towels)
    requires forall t :: t in towels ==> t in more
    ensures IsLayout(s, design, more)
  {
  }

  /** Two layouts side by side lay out the joined designs. */
  lemma {:induction false} LayoutAppend(s: seq<string>, a: string, u: seq<string>, b: string, towels: seq<string>)
    requires IsLayout(s, a, towels) && IsLayout(u, b, towels)
    ensures IsLayout(s + u, a + b, towels)
    decreases |s|
  {
    if s != [] {
      var t := s[0];
      assert s == [t] + s[1..];
      LayoutCons(t, s[1..], a, towels);
      LayoutAppend(s[1..], a[|t|..], u, b, towels);
      assert s + u == [t] + (s[1..] + u);
      assert a + b == t + (a[|t|..] + b) by { assert a == t + a[|t|..]; }
      assert (a + b)[|t|..] == a[|t|..] + b;
      LayoutCons(t, s[1..] + u, a + b, towels);
    } else {
      assert s + u == u;
      EmptyLayout(s, a, towels);
    }
  }

  // ------------------------------------------------- reference count

  /**
   * The number of layouts of `d`, each towel entry counted on its own (a
   * towel listed twice gives two layouts): one for the empty design,
   * otherwise the layouts of what follows each non-empty towel that starts it.
   */
  function Ways(d: string, towels: seq<string>): nat
    decreases |d|, 1
  {
    if d == "" then 1 else WaysFrom(d, towels, 0)
  }

  /** The layouts of `d` whose first towel is entry `i` of the list or a later one. */
  function WaysFrom(d: string, towels: seq<string>, i: nat): nat
    decreases |d|, 0, |towels| - i
  {
    if i >= |towels| then 0
    else
      var t := towels[i];
      (if t != "" && StartsWith(d, t) then Ways(d[|t|..], towels) else 0) + WaysFrom(d, towels, i + 1)
  }

  // ------------------------------------------------------ can_be_formed

  /**
   * `can_be_formed(design, towels)`: the empty design is formed; otherwise
   * some towel whose removal as a prefix changes the design leaves a
   * remainder that can be formed.
   */
  function CanBeFormed(design: string, towels: seq<string>): bool
    decreases |design|, 1
  {
    design == "" || FormedFrom(design, towels, 0)
  }

  /** The `for towel in towels` loop of `can_be_formed`, from entry `i` on. */
  function FormedFrom(design: string, towels: seq<string>, i: nat): bool
    decreases |design|, 0, |towels| - i
  {
    if i >= |towels| then false
    else
      var remainder := RemovePrefix(design, towels[i]);
      if remainder != design && CanBeFormed(remainder, towels) then true
      else FormedFrom(design, towels, i + 1)
  }

  /** `removeprefix` changes the design exactly when a non-empty towel starts it. */
  lemma RemovePrefixChanges(design: string, t: string)
    ensures (RemovePrefix(design, t) != design) <==> (t != "" && StartsWith(design, t))
    ensures RemovePrefix(design, t) != design ==> RemovePrefix(design, t) == design[|t|..]
  {
    if StartsWith(design, t) && t == "" {
      assert design[|t|..] == design;
    }
  }

  /** A design `can_be_formed` reports true for has a layout. */
  lemma {:induction false} FormedLayout(design: string, towels: seq<string>) returns (s: seq<string>)
    requires CanBeFormed(design, towels)
    ensures IsLayout(s, design, towels)
    decreases |design|, 1
  {
    if design == "" {
      s := [];
    } else {
      s := FormedFromLayout(design, towels, 0);
    }
  }

  lemma {:induction false} FormedFromLayout(design: string, towels: seq<string>, i: nat) returns (s: seq<string>)
    requires FormedFrom(design, towels, i)
    ensures IsLayout(s, design, towels)
    decreases |design|, 0, |towels| - i
  {
    var t := towels[i];
    var remainder := RemovePrefix(design, t);
    RemovePrefixChanges(design, t);
    if remainder != design && CanBeFormed(remainder, towels) {
      var rest := FormedLayout(remainder, towels);
      s := [t] + rest;
      LayoutCons(t, rest, design, towels);
    } else {
      s := FormedFromLayout(design, towels, i + 1);
    }
  }

  /** Entry `j` starts the design and the rest can be formed, so the loop from `i <= j` succeeds. */
  lemma {:induction false} FormedFromAt(design: string, towels: seq<string>, i: nat, j: nat)
    requires i <= j < |towels| && towels[j] != "" && StartsWith(design, towels[j])
    requires CanBeFormed(design[|towels[j]|..], towels)
    ensures FormedFrom(design, towels, i)
    decreases j - i
  {
    RemovePrefixChanges(design, towels[i]);
    if i < j {
      FormedFromAt(design, towels, i + 1, j);
    }
  }

  /** A design with a layout is one `can_be_formed` reports true for. */
  lemma {:induction false} LayoutFormed(s: seq<string>, design: string, towels: seq<string>)
    requires IsLayout(s, design, towels)
    ensures CanBeFormed(design, towels)
    decreases |s|
  {
    if s == [] {
      EmptyLayout(s, design, towels);
    } else {
      var t := s[0];
      assert s == [t] + s[1..];
      LayoutCons(t, s[1..], design, towels);
      LayoutFormed(s[1..], design[|t|..], towels);
      EmptyLayout(s, design, towels);
      var j :| 0 <= j < |towels| && towels[j] == t;
      FormedFromAt(design, towels, 0, j);
    }
  }

  /** `can_be_formed` holds exactly when the design is non-empty towels joined together. */
  lemma CanBeFormedIff(design: string, towels: seq<string>)
    ensures CanBeFormed(design, towels) <==> exists s :: IsLayout(s, design, towels)
  {
    if CanBeFormed(design, towels) {
      var s := FormedLayout(design, towels);
    }
    if exists s :: IsLayout(s, design, towels) {
      var s :| IsLayout(s, design, towels);
      LayoutFormed(s, design, towels);
    }
  }

  /** The empty design is always formed. */
  lemma CanBeFormedEmpty(towels: seq<string>)
    ensures CanBeFormed("", towels)
    ensures Ways("", towels) == 1
  {
  }

  /** Extra towels never make a design unformable. */
  lemma CanBeFormedWiden(design: string, towels: seq<string>, more: seq<string>)
    requires CanBeFormed(design, towels)
    requires forall t :: t in towels ==> t in more
    ensures CanBeFormed(design, more)
  {
    var s := FormedLayout(design, towels);
    LayoutWiden(s, design, towels, more);
    LayoutFormed(s, design, more);
  }

  /** There is a layout exactly when the reference count is positive. */
  lemma {:induction false} WaysPositive(d: string, towels: seq<string>)
    ensures (Ways(d, towels) > 0) == CanBeFormed(d, towels)
    decreases |d|, 1
  {
    if d != "" {
      WaysFromPositive(d, towels, 0);
    }
  }

  lemma {:induction false} WaysFromPositive(d: string, towels: seq<string>, i: nat)
    ensures (WaysFrom(d, towels, i) > 0) == FormedFrom(d, towels, i)
    decreases |d|, 0, |towels| - i
  {
    if i < |towels| {
      var t := towels[i];
      RemovePrefixChanges(d, t);
      if t != "" && StartsWith(d, t) {
        WaysPositive(d[|t|..], towels);
      }
      WaysFromPositive(d, towels, i + 1);
    }
  }

  // -------------------------------------------------- find_towel_combos

  /**
   * `helper(current_design, path)` inside `find_towel_combos`: `path`
   * followed by every layout of `current`, in towel order. An empty towel
   * starts every design, so on a non-empty design it makes `helper` call
   * itself with the same design until Python gives up with RecursionError.
   */
  function Combos(current: string, path: seq<string>, towels: seq<string>): (r: Result<seq<seq<string>>>)
    ensures r.Err? ==> r.error == RecursionError
    ensures "" !in towels ==> r.Ok?
    decreases |current|, 1
  {
    if current == "" then Ok([path]) else CombosFrom(current, path, towels, 0)
  }

  /** The loop over `valid_towels` from entry `i` of the list on. */
  function CombosFrom(current: string, path: seq<string>, towels: seq<string>, i: nat): (r: Result<seq<seq<string>>>)
    ensures r.Err? ==> r.error == RecursionError
    ensures "" !in towels ==> r.Ok?
    decreases |current|, 0, |towels| - i
  {
    if i >= |towels| then Ok([])
    else if !StartsWith(current, towels[i]) then CombosFrom(current, path, towels, i + 1)
    else if towels[i] == "" then Err(RecursionError)
    else
      match Combos(current[|towels[i]|..], path + [towels[i]], towels)
      case Err(e) => Err(e)
      case Ok(first) =>
        match CombosFrom(current, path, towels, i + 1)
        case Err(e) => Err(e)
        case Ok(more) => Ok(first + more)
  }

  /** `find_towel_combos(design, towels)`. */
  function FindTowelCombos(design: string, towels: seq<string>): (r: Result<seq<seq<string>>>)
    ensures r.Err? ==> r.error == RecursionError
    ensures "" !in towels ==> r.Ok?
  {
    Combos(design, [], towels)
  }

  /** The layouts `helper` finds from entry `i` on: those whose first towel is entry `j >= i`. */
  predicate FromEntry(x: seq<string>, current: string, path: seq<string>, towels: seq<string>, i: nat)
  {
    exists j :: i <= j < |towels| && EntryLayout(x, current, path, towels, j)
  }

  /** `x` is `path`, then entry `j`, then a layout of what entry `j` leaves of `current`. */
  predicate EntryLayout(x: seq<string>, current: string, path: seq<string>, towels: seq<string>, j: nat)
    requires j < |towels|
  {
    var t := towels[j];
    t != "" && StartsWith(current, t) && |path| < |x| && x[..|path|] == path && x[|path|] == t
    && IsLayout(x[|path| + 1..], current[|t|..], towels)
  }

  /** What `helper` returns: `path` extended by a layout of `current`. */
  predicate Extends(x: seq<string>, current: string, path: seq<string>, towels: seq<string>)
  {
    |path| <= |x| && x[..|path|] == path && IsLayout(x[|path|..], current, towels)
  }

  lemma {:induction false} CombosMembers(current: string, path: seq<string>, towels: seq<string>)
    requires Combos(current, path, towels).Ok?
    ensures forall x :: x in Combos(current, path, towels).value <==> Extends(x, current, path, towels)
    decreases |current|, 1
  {
    if current == "" {
      forall x ensures x in Combos(current, path, towels).value <==> Extends(x, current, path, towels)
      {
        if Extends(x, current, path, towels) {
          EmptyLayout(x[|path|..], current, towels);
          assert x == x[..|path|] + x[|path|..];
        }
        if x == path {
          assert x[..|path|] == path && x[|path|..] == [];
          assert Flatten<char>([]) == "";
        }
      }
    } else {
      CombosFromMembers(current, path, towels, 0);
      forall x ensures FromEntry(x, current, path, towels, 0) <==> Extends(x, current, path, towels)
      {
        if FromEntry(x, current, path, towels, 0) {
          var j :| 0 <= j < |towels| && EntryLayout(x, current, path, towels, j);
          ExtendsOfEntry(x, current, path, towels, j);
        }
        if Extends(x, current, path, towels) {
          var j := EntryOfExtends(x, current, path, towels);
        }
      }
    }
  }

  /** An entry-led layout is an extension of `path`. */
  lemma ExtendsOfEntry(x: seq<string>, current: string, path: seq<string>, towels: seq<string>, j: nat)
    requires j < |towels| && EntryLayout(x, current, path, towels, j)
    ensures Extends(x, current, path, towels)
  {
    var t := towels[j];
    var tail := x[|path|..];
    assert tail == [t] + x[|path| + 1..];
    LayoutCons(t, x[|path| + 1..], current, towels);
  }

  /** An extension of `path` over a non-empty design starts with some entry of the list. */
  lemma EntryOfExtends(x: seq<string>, current: string, path: seq<string>, towels: seq<string>) returns (j: nat)
    requires current != "" && Extends(x, current, path, towels)
    ensures j < |towels| && EntryLayout(x, current, path, towels, j)
  {
    var tail := x[|path|..];
    EmptyLayout(tail, current, towels);
    var t := tail[0];
    assert tail == [t] + tail[1..];
    assert tail[1..] == x[|path| + 1..];
    LayoutCons(t, tail[1..], current, towels);
    j :| 0 <= j < |towels| && towels[j] == t;
  }

  lemma {:induction false} CombosFromMembers(current: string, path: seq<string>, towels: seq<string>, i: nat)
    requires CombosFrom(current, path, towels, i).Ok?
    ensures forall x :: x in CombosFrom(current, path, towels, i).value <==> FromEntry(x, current, path, towels, i)
    decreases |current|, 0, |towels| - i
  {
    if i < |towels| {
      var t := towels[i];
      CombosFromMembers(current, path, towels, i + 1);
      if StartsWith(current, t) {
        var sub := current[|t|..];
        var path' := path + [t];
        CombosMembers(sub, path', towels);
        forall x ensures Extends(x, sub, path', towels) <==> EntryLayout(x, current, path, towels, i)
        {
          if |path| < |x| {
            assert (x[..|path|] == path && x[|path|] == t) <==> x[..|path| + 1] == path';
            assert x[|path'|..] == x[|path| + 1..];
          }
        }
        forall x ensures FromEntry(x, current, path, towels, i) <==>
                           EntryLayout(x, current, path, towels, i) || FromEntry(x, current, path, towels, i + 1)
        {
        }
      } else {
        forall x ensures FromEntry(x, current, path, towels, i) <==> FromEntry(x, current, path, towels, i + 1)
        {
          if FromEntry(x, current, path, towels, i) {
            var j :| i <= j < |towels| && EntryLayout(x, current, path, towels, j);
            assert j != i;
          }
        }
      }
    }
  }

  /** `helper` finds as many layouts as the reference count says, duplicates included. */
  lemma {:induction false} CombosCount(current: string, path: seq<string>, towels: seq<string>)
    requires Combos(current, path, towels).Ok?
    ensures |Combos(current, path, towels).value| == Ways(current, towels)
    decreases |current|, 1
  {
    if current != "" {
      CombosFromCount(current, path, towels, 0);
    }
  }

  lemma {:induction false} CombosFromCount(current: string, path: seq<string>, towels: seq<string>, i: nat)
    requires CombosFrom(current, path, towels, i).Ok?
    ensures |CombosFrom(current, path, towels, i).value| == WaysFrom(current, towels, i)
    decreases |current|, 0, |towels| - i
  {
    if i < |towels| {
      var t := towels[i];
      CombosFromCount(current, path, towels, i + 1);
      if StartsWith(current, t) && t != "" {
        CombosCount(current[|t|..], path + [t], towels);
      }
    }
  }

  /** With an empty towel in the list, `helper` never returns on a non-empty design. */
  lemma {:induction false} CombosLoops(current: string, path: seq<string>, towels: seq<string>)
    requires current != "" && "" in towels
    ensures Combos(current, path, towels).Err?
    decreases |current|, 1
  {
    CombosFromLoops(current, path, towels, 0);
  }

  lemma {:induction false} CombosFromLoops(current: string, path: seq<string>, towels: seq<string>, i: nat)
    requires i <= |towels| && current != "" && "" in towels[i..]
    ensures CombosFrom(current, path, towels, i).Err?
    decreases |current|, 0, |towels| - i
  {
    var t := towels[i];
    assert "" in towels by { assert forall k :: i <= k < |towels| ==> towels[k] in towels; }
    if t != "" {
      assert "" in towels[i + 1..] by { assert towels[i..] == [t] + towels[i + 1..]; }
      if StartsWith(current, t) {
        var sub := current[|t|..];
        if sub != "" {
          CombosLoops(sub, path + [t], towels);
        } else {
          CombosFromLoops(current, path, towels, i + 1);
        }
      } else {
        CombosFromLoops(current, path, towels, i + 1);
      }
    }
  }

  /**
   * What `find_towel_combos` promises: when it returns, its result holds
   * exactly the layouts of the design, as many as the reference count; it
   * returns whenever no towel is empty, and fails whenever one is and the
   * design is not.
   */
  lemma FindTowelCombosSpec(design: string, towels: seq<string>)
    ensures FindTowelCombos(design, towels).Ok? ==>
              (forall s :: s in FindTowelCombos(design, towels).value <==> IsLayout(s, design, towels))
              && |FindTowelCombos(design, towels).value| == Ways(design, towels)
    ensures FindTowelCombos(design, towels).Ok? <==> design == "" || "" !in towels
  {
    if FindTowelCombos(design, towels).Ok? {
      CombosMembers(design, [], towels);
      CombosCount(design, [], towels);
      forall s ensures Extends(s, design, [], towels) <==> IsLayout(s, design, towels)
      {
        assert s[..0] == [] && s[0..] == s;
      }
    }
    if design != "" && "" in towels {
      CombosLoops(design, [], towels);
    }
  }

  // ---------------------------------------------- reduce_redundancies_towels

  /** Python's `<=` on strings: by code point, a proper prefix first. */
  predicate StrLe(a: string, b: string)
    decreases |a|
  {
    a == [] || (b != [] && (a[0] < b[0] || (a[0] == b[0] && StrLe(a[1..], b[1..]))))
  }

  lemma {:induction false} StrLeTotal(a: string, b: string)
    ensures StrLe(a, b) || StrLe(b, a)
    decreases |a|
  {
    if a != [] && b != [] && a[0] == b[0] {
      StrLeTotal(a[1..], b[1..]);
    }
  }

  lemma {:induction false} StrLeTrans(a: string, b: string, c: string)
    requires StrLe(a, b) && StrLe(b, c)
    ensures StrLe(a, c)
    decreases |a|
  {
    if a != [] && b != [] && c != [] && a[0] == b[0] && b[0] == c[0] {
      StrLeTrans(a[1..], b[1..], c[1..]);
    }
  }

  /** The sort key `(len(x), x)`: shorter first, then in string order. */
  predicate KeyLe(a: string, b: string)
  {
    |a| < |b| || (|a| == |b| && StrLe(a, b))
  }

  lemma KeyLeTotal(a: string, b: string)
    ensures KeyLe(a, b) || KeyLe(b, a)
  {
    StrLeTotal(a, b);
  }

  lemma KeyLeTrans(a: string, b: string, c: string)
    requires KeyLe(a, b) && KeyLe(b, c)
    ensures KeyLe(a, c)
  {
    if |a| == |b| == |c| {
      StrLeTrans(a, b, c);
    }
  }

  predicate KeySorted(s: seq<string>)
  {
    forall i, j :: 0 <= i < j < |s| ==> KeyLe(s[i], s[j])
  }

  function InsertTowel(x: string, s: seq<string>): (r: seq<string>)
    requires KeySorted(s)
    ensures KeySorted(r)
    ensures multiset(r) == multiset(s) + multiset{x}
  {
    if s == [] then [x]
    else if KeyLe(x, s[0]) then
      InsertFront(x, s);
      [x] + s
    else
      var rest := InsertTowel(x, s[1..]);
      InsertTowelStep(x, s, rest);
      [s[0]] + rest
  }

  lemma InsertFront(x: string, s: seq<string>)
    requires s != [] && KeySorted(s) && KeyLe(x, s[0])
    ensures KeySorted([x] + s)
  {
    var r := [x] + s;
    forall i, j | 0 <= i < j < |r| ensures KeyLe(r[i], r[j])
    {
      if i == 0 {
        if j > 1 { KeyLeTrans(x, s[0], s[j - 1]); }
      } else {
        assert r[i] == s[i - 1] && r[j] == s[j - 1];
      }
    }
  }

  lemma InsertTowelStep(x: string, s: seq<string>, rest: seq<string>)
    requires s != [] && KeySorted(s) && !KeyLe(x, s[0])
    requires KeySorted(rest) && multiset(rest) == multiset(s[1..]) + multiset{x}
    ensures KeySorted([s[0]] + rest)
    ensures multiset([s[0]] + rest) == multiset(s) + multiset{x}
  {
    assert s == [s[0]] + s[1..];
    forall y | y in rest ensures KeyLe(s[0], y)
    {
      assert y in multiset(rest);
      if y != x {
        assert y in multiset(s[1..]);
        var j :| 0 <= j < |s[1..]| && s[1..][j] == y;
        assert s[j + 1] == y;
      } else {
        KeyLeTotal(x, s[0]);
      }
    }
    var r := [s[0]] + rest;
    forall i, j | 0 <= i < j < |r| ensures KeyLe(r[i], r[j])
    {
      if i == 0 { assert r[j] in rest; } else { assert r[i] == rest[i - 1] && r[j] == rest[j - 1]; }
    }
  }

  /** `sorted(towels, key=lambda x: (len(x), x))`. */
  function SortTowels(towels: seq<string>): (r: seq<string>)
    ensures KeySorted(r)
    ensures multiset(r) == multiset(towels)
  {
    if towels == [] then []
    else
      assert towels == [towels[0]] + towels[1..];
      InsertTowel(towels[0], SortTowels(towels[1..]))
  }

  /**
   * The split the loop of `reduce_redundancies_towels` makes of a sorted
   * list: a towel goes to the reduced list when the reduced towels before
   * it cannot form it, and to the redundant list otherwise.
   */
  function Reduce(sorted: seq<string>): (r: (seq<string>, seq<string>))
  {
    if sorted == [] then ([], [])
    else
      var p := Reduce(sorted[..|sorted| - 1]);
      var t := sorted[|sorted| - 1];
      if !CanBeFormed(t, p.0) then (p.0 + [t], p.1) else (p.0, p.1 + [t])
  }

  /** The two lists share out the sorted list between them. */
  lemma {:induction false} ReduceSplits(sorted: seq<string>)
    ensures multiset(Reduce(sorted).0) + multiset(Reduce(sorted).1) == multiset(sorted)
  {
    if sorted != [] {
      var init := sorted[..|sorted| - 1];
      ReduceSplits(init);
      assert sorted == init + [sorted[|sorted| - 1]];
    }
  }

  /** Every reduced towel is one the reduced towels before it cannot form. */
  lemma {:induction false} ReduceReduced(sorted: seq<string>)
    ensures forall i :: 0 <= i < |Reduce(sorted).0| ==> !CanBeFormed(Reduce(sorted).0[i], Reduce(sorted).0[..i])
  {
    if sorted != [] {
      var init := sorted[..|sorted| - 1];
      ReduceReduced(init);
      var p := Reduce(init);
      var t := sorted[|sorted| - 1];
      if !CanBeFormed(t, p.0) {
        var q := p.0 + [t];
        assert q[..|p.0|] == p.0;
        assert forall i :: 0 <= i < |p.0| ==> q[i] == p.0[i] && q[..i] == p.0[..i];
      }
    }
  }

  /** Every redundant towel can be formed from the reduced towels. */
  lemma {:induction false} ReduceRedundant(sorted: seq<string>)
    ensures forall j :: 0 <= j < |Reduce(sorted).1| ==> CanBeFormed(Reduce(sorted).1[j], Reduce(sorted).0)
  {
    if sorted != [] {
      var init := sorted[..|sorted| - 1];
      ReduceRedundant(init);
      var p := Reduce(init);
      var t := sorted[|sorted| - 1];
      if !CanBeFormed(t, p.0) {
        var q := p.0 + [t];
        forall j | 0 <= j < |p.1| ensures CanBeFormed(p.1[j], q)
        {
          CanBeFormedWiden(p.1[j], p.0, q);
        }
      }
    }
  }

  /** Both lists keep the order of the sorted list they come from. */
  lemma {:induction false} ReduceSorted(sorted: seq<string>)
    requires KeySorted(sorted)
    ensures KeySorted(Reduce(sorted).0) && KeySorted(Reduce(sorted).1)
  {
    if sorted != [] {
      var init := sorted[..|sorted| - 1];
      var t := sorted[|sorted| - 1];
      ReduceSorted(init);
      ReduceSplits(init);
      var p := Reduce(init);
      forall y | y in p.0 || y in p.1 ensures KeyLe(y, t)
      {
        assert y in multiset(p.0) || y in multiset(p.1);
        assert y in multiset(init);
        var k :| 0 <= k < |init| && init[k] == y;
      }
      SnocSorted(p.0, t);
      SnocSorted(p.1, t);
    }
  }

  lemma SnocSorted(s: seq<string>, t: string)
    requires KeySorted(s) && forall y :: y in s ==> KeyLe(y, t)
    ensures KeySorted(s + [t])
  {
    var r := s + [t];
    forall i, j | 0 <= i < j < |r| ensures KeyLe(r[i], r[j])
    {
      assert r[i] == s[i];
      if j < |s| { assert r[j] == s[j]; }
    }
  }

  /** The reduced towels form every design the whole list forms. */
  lemma {:induction false} ReduceKeepsFormed(sorted: seq<string>, design: string)
    ensures CanBeFormed(design, Reduce(sorted).0) <==> CanBeFormed(design, sorted)
  {
    var p := Reduce(sorted);
    ReduceSplits(sorted);
    ReduceRedundant(sorted);
    forall t | t in p.0 ensures t in sorted
    {
      assert t in multiset(p.0);
      assert t in multiset(sorted);
    }
    if CanBeFormed(design, p.0) {
      CanBeFormedWiden(design, p.0, sorted);
    }
    if CanBeFormed(design, sorted) {
      var s := FormedLayout(design, sorted);
      forall t | t in sorted && t != "" ensures CanBeFormed(t, p.0)
      {
        assert t in multiset(sorted);
        if t !in p.0 {
          assert t in multiset(p.1);
          var j :| 0 <= j < |p.1| && p.1[j] == t;
        }
        else {
          var i :| 0 <= i < |p.0| && p.0[i] == t;
          LayoutFormed([t], t, p.0) by {
            assert Flatten([t]) == Flatten([t][..0]) + t;
          }
        }
      }
      Substitute(s, design, sorted, p.0);
    }
  }

  /** Replacing each towel of a layout by a layout of it over `base` gives a layout over `base`. */
  lemma {:induction false} Substitute(s: seq<string>, design: string, towels: seq<string>, base: seq<string>)
    requires IsLayout(s, design, towels)
    requires forall t :: t in towels && t != "" ==> CanBeFormed(t, base)
    ensures CanBeFormed(design, base)
    decreases |s|
  {
    if s == [] {
      EmptyLayout(s, design, towels);
    } else {
      var t := s[0];
      assert s == [t] + s[1..];
      LayoutCons(t, s[1..], design, towels);
      var rest := design[|t|..];
      Substitute(s[1..], rest, towels, base);
      var a := FormedLayout(t, base);
      var b := FormedLayout(rest, base);
      LayoutAppend(a, t, b, rest, base);
      assert t + rest == design;
      LayoutFormed(a + b, design, base);
    }
  }

  /**
   * `reduce_redundancies_towels`: sorts the towels by (length, string) and
   * sends each one to the reduced list when the reduced towels so far
   * cannot form it, to the redundant list otherwise.
   */
  method ReduceRedundancies(towels: seq<string>) returns (reduced: seq<string>, redundant: seq<string>)
    ensures (reduced, redundant) == Reduce(SortTowels(towels))
    ensures multiset(reduced) + multiset(redundant) == multiset(towels)
    ensures KeySorted(reduced) && KeySorted(redundant)
    ensures forall i :: 0 <= i < |reduced| ==> !CanBeFormed(reduced[i], reduced[..i])
    ensures forall j :: 0 <= j < |redundant| ==> CanBeFormed(redundant[j], reduced)
  {
    var sorted := SortTowels(towels);
    reduced, redundant := [], [];
    for i := 0 to |sorted|
      invariant (reduced, redundant) == Reduce(sorted[..i])
    {
      TakeSnoc(sorted, i);
      assert sorted[..i + 1][..i] == sorted[..i];
      if !CanBeFormed(sorted[i], reduced) {
        reduced := reduced + [sorted[i]];
      } else {
        redundant := redundant + [sorted[i]];
      }
    }
    TakeDrop(sorted, |sorted|);
    ReduceSplits(sorted);
    ReduceSorted(sorted);
    ReduceReduced(sorted);
    ReduceRedundant(sorted);
  }

  // ---------------------------------------------- count_all_towel_combos

  /**
   * `count_all_towel_combos(towels)`: 1 for every reduced towel, then, for
   * each redundant towel in turn, the number of layouts
   * `find_towel_combos` lists for it over the whole list.
   */
  method CountAllTowelCombos(towels: seq<string>) returns (r: Result<map<string, nat>>)
    ensures r.Err? ==> r.error == RecursionError && "" in towels
    ensures "" !in towels ==> r.Ok?
    ensures r.Ok? ==> r.value.Keys == set t | t in towels
    ensures r.Ok? ==> forall t :: t in towels && t !in Reduce(SortTowels(towels)).1 ==> r.value[t] == 1
    ensures r.Ok? ==> forall t :: t in Reduce(SortTowels(towels)).1 ==> t in r.value && r.value[t] == Ways(t, towels)
  {
    var reduced, redundant := ReduceRedundancies(towels);
    r := FillCounts(reduced, redundant, towels);
    if r.Ok? {
      forall t ensures t in towels <==> t in reduced || t in redundant
      {
        assert t in towels <==> t in multiset(towels);
        assert t in reduced <==> t in multiset(reduced);
        assert t in redundant <==> t in multiset(redundant);
      }
    }
  }

  /** The body of `count_all_towel_combos` once the towels are split. */
  method FillCounts(reduced: seq<string>, redundant: seq<string>, towels: seq<string>) returns (r: Result<map<string, nat>>)
    ensures r.Err? ==> r.error == RecursionError && "" in towels
    ensures "" !in towels ==> r.Ok?
    ensures r.Ok? ==> r.value.Keys == (set t | t in reduced) + (set t | t in redundant)
    ensures r.Ok? ==> forall t :: t in reduced && t !in redundant ==> r.value[t] == 1
    ensures r.Ok? ==> forall t :: t in redundant ==> r.value[t] == Ways(t, towels)
  {
    var counts: map<string, nat> := map t | t in reduced :: 1;
    for j := 0 to |redundant|
      invariant counts.Keys == (set t | t in reduced) + (set t | t in redundant[..j])
      invariant forall t :: t in reduced && t !in redundant[..j] ==> counts[t] == 1
      invariant forall t :: t in redundant[..j] ==> counts[t] == Ways(t, towels)
    {
      var combos := FindTowelCombos(redundant[j], towels);
      if combos.Err? {
        FindTowelCombosSpec(redundant[j], towels);
        return Err(combos.error);
      }
      FindTowelCombosSpec(redundant[j], towels);
      counts := counts[redundant[j] := |combos.value|];
      TakeSnoc(redundant, j);
    }
    TakeDrop(redundant, |redundant|);
    return Ok(counts);
  }

  // ------------------------------------------------------ totals over designs

  /** How many of the designs have a layout. */
  function CountFormable(designs: seq<string>, towels: seq<string>): (r: nat)
    ensures r <= |designs|
  {
    if designs == [] then 0
    else CountFormable(designs[..|designs| - 1], towels) + (if CanBeFormed(designs[|designs| - 1], towels) then 1 else 0)
  }

  /**
   * The layouts of all the designs together: every design that has a
   * layout adds at least one, so the total is 0 exactly when none has.
   */
  function TotalWays(designs: seq<string>, towels: seq<string>): (n: nat)
    ensures n >= CountFormable(designs, towels)
    ensures n == 0 <==> CountFormable(designs, towels) == 0
  {
    if designs == [] then 0
    else
      var last := designs[|designs| - 1];
      WaysPositive(last, towels);
      TotalWays(designs[..|designs| - 1], towels) + Ways(last, towels)
  }
}
