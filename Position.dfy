// The immutable (row, col) value of src/aoc/pyutils/position.py.  Python lets
// the operators receive any object; `Operand` lists the kinds of right-hand
// operand the methods distinguish, so the exceptions they raise can be stated.
module Position {
  import opened Common

  datatype Pos = Pos(row: int, col: int)

  /** A right-hand operand: another Position, a tuple of ints, an int, or anything else. */
  datatype Operand = OfPos(p: Pos) | OfTuple(items: seq<int>) | OfInt(n: int) | OfOther

  /** The `pos` property: the position as a (row, col) tuple. */
  function AsTuple(p: Pos): (t: Point)
    ensures t.0 == p.row && t.1 == p.col
  {
    (p.row, p.col)
  }

  /** `from_tuple`: only a 2-tuple is accepted, anything else raises TypeError. */
  function FromTuple(v: Operand): (r: Result<Pos>)
    ensures r.Ok? <==> v.OfTuple? && |v.items| == 2
    ensures r.Ok? ==> AsTuple(r.value) == (v.items[0], v.items[1])
    ensures r.Err? ==> r.error == TypeError
  {
    if v.OfTuple? && |v.items| == 2 then Ok(Pos(v.items[0], v.items[1])) else Err(TypeError)
  }

  lemma FromTupleRoundTrip(p: Pos)
    ensures FromTuple(OfTuple([p.row, p.col])) == Ok(p)
  {
  }

  /** Tuples are converted first (which may raise); then only a Position can be used. */
  function Coerce(other: Operand): Result<Pos>
  {
    if other.OfTuple? then FromTuple(other)
    else if other.OfPos? then Ok(other.p)
    else Err(AttributeError)
  }

  /** `__eq__`: a 2-tuple is converted; any non-Position, non-tuple compares unequal. */
  function Equals(p: Pos, other: Operand): (r: Result<bool>)
    ensures other.OfPos? ==> r == Ok(p == other.p)
    ensures other.OfTuple? ==> (r.Ok? <==> |other.items| == 2)
    ensures other.OfTuple? && |other.items| == 2 ==> r == Ok(AsTuple(p) == (other.items[0], other.items[1]))
    ensures other.OfInt? || other.OfOther? ==> r == Ok(false)
  {
    if other.OfTuple? then
      match FromTuple(other)
      case Ok(q) => Ok(p.row == q.row && p.col == q.col)
      case Err(e) => Err(e)
    else if other.OfPos? then Ok(p.row == other.p.row && p.col == other.p.col)
    else Ok(false)
  }

  /** `__add__`: componentwise; a non-tuple, non-Position has no `.row` (AttributeError). */
  function Add(p: Pos, other: Operand): (r: Result<Pos>)
    ensures r.Ok? <==> Coerce(other).Ok?
    ensures r.Ok? ==> (r.value.row - p.row == Coerce(other).value.row &&
                       r.value.col - p.col == Coerce(other).value.col)
  {
    match Coerce(other)
    case Ok(q) => Ok(Pos(p.row + q.row, p.col + q.col))
    case Err(e) => Err(e)
  }

  /** `__sub__`: componentwise difference, with the same operand handling as `__add__`. */
  function Sub(p: Pos, other: Operand): (r: Result<Pos>)
    ensures r.Ok? <==> Coerce(other).Ok?
    ensures r.Ok? ==> (r.value.row + Coerce(other).value.row == p.row &&
                       r.value.col + Coerce(other).value.col == p.col)
  {
    match Coerce(other)
    case Ok(q) => Ok(Pos(p.row - q.row, p.col - q.col))
    case Err(e) => Err(e)
  }

  /** Adding and then subtracting the same Position gives the start back. */
  lemma AddSubRoundTrip(p: Pos, q: Pos)
    ensures Add(p, OfPos(q)).Ok?
    ensures Sub(Add(p, OfPos(q)).value, OfPos(q)) == Ok(p)
  {
  }

  /** Subtracting and then adding a 2-tuple gives the start back. */
  lemma SubAddTupleRoundTrip(p: Pos, dr: int, dc: int)
    ensures Sub(p, OfTuple([dr, dc])).Ok?
    ensures Add(Sub(p, OfTuple([dr, dc])).value, OfTuple([dr, dc])) == Ok(p)
  {
  }

  /** `__mul__`: componentwise with a Position, scaling with an int, TypeError otherwise (tuples too). */
  function Mul(p: Pos, other: Operand): (r: Result<Pos>)
    ensures r.Ok? <==> other.OfPos? || other.OfInt?
    ensures r.Err? ==> r.error == TypeError
    ensures other.OfInt? && r.Ok? ==> r.value == Pos(other.n * p.row, other.n * p.col)
    ensures other.OfPos? && r.Ok? ==> r.value == Pos(other.p.row * p.row, other.p.col * p.col)
  {
    if other.OfPos? then Ok(Pos(p.row * other.p.row, p.col * other.p.col))
    else if other.OfInt? then Ok(Pos(p.row * other.n, p.col * other.n))
    else Err(TypeError)
  }

  /** Scaling distributes over addition: `(p + q) * k == p * k + q * k`. */
  lemma MulDistributesOverAdd(p: Pos, q: Pos, k: int)
    ensures Add(p, OfPos(q)).Ok? && Mul(p, OfInt(k)).Ok? && Mul(q, OfInt(k)).Ok?
    ensures Mul(Add(p, OfPos(q)).value, OfInt(k)) == Add(Mul(p, OfInt(k)).value, OfPos(Mul(q, OfInt(k)).value))
  {
    assert (p.row + q.row) * k == p.row * k + q.row * k;
    assert (p.col + q.col) * k == p.col * k + q.col * k;
  }

  /** `dot`: the four-way product of the coordinates (not a sum), TypeError for a non-Position. */
  function Dot(p: Pos, other: Operand): (r: Result<int>)
    ensures r.Ok? <==> other.OfPos?
    ensures r.Err? ==> r.error == TypeError
    ensures r.Ok? && (p.row == 0 || p.col == 0 || other.p.row == 0 || other.p.col == 0) ==> r.value == 0
  {
    if other.OfPos? then Ok(p.row * other.p.row * p.col * other.p.col) else Err(TypeError)
  }

  /** The four-way product does not depend on the order of the operands. */
  lemma DotSymmetric(p: Pos, q: Pos)
    ensures Dot(p, OfPos(q)) == Dot(q, OfPos(p))
  {
    var a, b := p.row * q.row, p.col * q.col;
    assert p.row * q.row == q.row * p.row;
    assert p.col * q.col == q.col * p.col;
    assert p.row * q.row * p.col * q.col == a * b by {
      assert p.row * q.row * p.col * q.col == (p.row * q.row) * p.col * q.col;
    }
    assert q.row * p.row * q.col * p.col == a * b;
  }

  /** The projection of a position on a direction vector. */
  function Projection(p: Pos, d: Point): int
  {
    p.row * d.0 + p.col * d.1
  }

  /** `lt`: compares projections on `direction`; a 2-tuple is converted first. */
  function Lt(p: Pos, other: Operand, direction: Point): (r: Result<bool>)
    ensures r.Ok? <==> Coerce(other).Ok?
    ensures r.Ok? ==> (r.value <==> Projection(p, direction) < Projection(Coerce(other).value, direction))
  {
    match Coerce(other)
    case Ok(q) => Ok(p.row * direction.0 + p.col * direction.1 < q.row * direction.0 + q.col * direction.1)
    case Err(e) => Err(e)
  }

  lemma LtIrreflexive(p: Pos, d: Point)
    ensures Lt(p, OfPos(p), d) == Ok(false)
  {
  }

  lemma LtTransitive(p: Pos, q: Pos, s: Pos, d: Point)
    requires Lt(p, OfPos(q), d) == Ok(true) && Lt(q, OfPos(s), d) == Ok(true)
    ensures Lt(p, OfPos(s), d) == Ok(true)
  {
  }

  /** The (row, col) key order used by `sort_positions`. */
  predicate KeyLe(a: Pos, b: Pos)
  {
    a.row < b.row || (a.row == b.row && a.col <= b.col)
  }

  predicate SortedByKey(ps: seq<Pos>)
  {
    forall i, j :: 0 <= i < j < |ps| ==> KeyLe(ps[i], ps[j])
  }

  function Insert(x: Pos, ps: seq<Pos>): (r: seq<Pos>)
    requires SortedByKey(ps)
    ensures SortedByKey(r)
    ensures multiset(r) == multiset(ps) + multiset{x}
  {
    if ps == [] then [x]
    else if KeyLe(x, ps[0]) then [x] + ps
    else
      var rest := Insert(x, ps[1..]);
      InsertStep(x, ps, rest);
      [ps[0]] + rest
  }

  /** One step of `Insert`: the head stays in front of the sorted rest. */
  lemma InsertStep(x: Pos, ps: seq<Pos>, rest: seq<Pos>)
    requires ps != [] && SortedByKey(ps) && !KeyLe(x, ps[0])
    requires SortedByKey(rest) && multiset(rest) == multiset(ps[1..]) + multiset{x}
    ensures SortedByKey([ps[0]] + rest)
    ensures multiset([ps[0]] + rest) == multiset(ps) + multiset{x}
  {
    assert ps == [ps[0]] + ps[1..];
    forall y | y in rest ensures KeyLe(ps[0], y)
    {
      assert y in multiset(rest);
      if y != x {
        assert y in multiset(ps[1..]);
        var j :| 0 <= j < |ps[1..]| && ps[1..][j] == y;
        assert ps[j + 1] == y;
      }
    }
    var r := [ps[0]] + rest;
    forall i, j | 0 <= i < j < |r| ensures KeyLe(r[i], r[j])
    {
      if i == 0 { assert r[j] in rest; } else { assert r[i] == rest[i - 1] && r[j] == rest[j - 1]; }
    }
  }

  /** `sort_positions`: the positions ordered by (row, col). */
  function SortPositions(ps: seq<Pos>): (r: seq<Pos>)
    ensures SortedByKey(r)
    ensures multiset(r) == multiset(ps)
  {
    if ps == [] then []
    else
      assert ps == [ps[0]] + ps[1..];
      Insert(ps[0], SortPositions(ps[1..]))
  }

  /** Two sorted permutations of one list are equal, so the sorted order is the unique one. */
  lemma {:induction false} SortedPermutationUnique(a: seq<Pos>, b: seq<Pos>)
    requires SortedByKey(a) && SortedByKey(b) && multiset(a) == multiset(b)
    ensures a == b
  {
    if a != [] {
      assert a[0] in multiset(b);
      assert b[0] in multiset(a);
      assert KeyLe(a[0], b[0]) by {
        var j :| 0 <= j < |a| && a[j] == b[0];
      }
      assert KeyLe(b[0], a[0]) by {
        var j :| 0 <= j < |b| && b[j] == a[0];
      }
      assert a[0] == b[0];
      assert a == [a[0]] + a[1..];
      assert b == [b[0]] + b[1..];
      assert multiset(a) == multiset{a[0]} + multiset(a[1..]);
      assert multiset(b) == multiset{b[0]} + multiset(b[1..]);
      assert multiset(a[1..]) == multiset(a) - multiset{a[0]};
      assert multiset(b[1..]) == multiset(b) - multiset{b[0]};
      SortedPermutationUnique(a[1..], b[1..]);
    } else {
      assert |multiset(b)| == 0;
    }
  }
}
