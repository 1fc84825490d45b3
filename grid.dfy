/**
 * Integer voxel cells, 6-connectivity (cells sharing a face) and paths of
 * face-adjacent cells inside a set of open cells.
 */
module Grid {
  type Cell = (int, int, int)

  function Abs(n: int): nat { if n < 0 then -n else n }

  /** The six face directions, in the order the flood fill visits them. */
  function Offset6(k: nat): Cell
    requires k < 6
  {
    [(1, 0, 0), (-1, 0, 0), (0, 1, 0), (0, -1, 0), (0, 0, 1), (0, 0, -1)][k]
  }

  function Shift(c: Cell, d: Cell): Cell
  {
    (c.0 + d.0, c.1 + d.1, c.2 + d.2)
  }

  /** Two cells share a face. */
  predicate FaceAdjacent(a: Cell, b: Cell)
  {
    Abs(a.0 - b.0) + Abs(a.1 - b.1) + Abs(a.2 - b.2) == 1
  }

  /** The face direction leading from `a` to an adjacent `b`. */
  function DirectionTo(a: Cell, b: Cell): (k: nat)
    requires FaceAdjacent(a, b)
    ensures k < 6 && b == Shift(a, Offset6(k))
  {
    if b.0 == a.0 + 1 then 0
    else if b.0 == a.0 - 1 then 1
    else if b.1 == a.1 + 1 then 2
    else if b.1 == a.1 - 1 then 3
    else if b.2 == a.2 + 1 then 4
    else 5
  }

  lemma OffsetAdjacent(c: Cell, k: nat)
    requires k < 6
    ensures FaceAdjacent(c, Shift(c, Offset6(k)))
  {
  }

  predicate InBox(n0: int, n1: int, n2: int, c: Cell)
  {
    0 <= c.0 < n0 && 0 <= c.1 < n1 && 0 <= c.2 < n2
  }

  /** The cells lying on one of the six faces of the box. */
  predicate OnBoundary(n0: int, n1: int, n2: int, c: Cell)
  {
    InBox(n0, n1, n2, c) &&
    (c.0 == 0 || c.0 == n0 - 1 || c.1 == 0 || c.1 == n1 - 1 || c.2 == 0 || c.2 == n2 - 1)
  }

  /** A non-empty walk through open cells, each step to a face neighbour. */
  predicate IsPath(open: set<Cell>, p: seq<Cell>)
  {
    |p| > 0 &&
    (forall i :: 0 <= i < |p| ==> p[i] in open) &&
    (forall i :: 0 <= i < |p| - 1 ==> FaceAdjacent(p[i], p[i + 1]))
  }

  /** `b` is 6-connected to `a` through open cells. */
  ghost predicate Connected(open: set<Cell>, a: Cell, b: Cell)
  {
    exists p :: IsPath(open, p) && p[0] == a && p[|p| - 1] == b
  }

  lemma ConnectedEnds(open: set<Cell>, a: Cell, b: Cell)
    requires Connected(open, a, b)
    ensures a in open && b in open
  {
  }

  lemma ConnectedSelf(open: set<Cell>, a: Cell)
    requires a in open
    ensures Connected(open, a, a)
  {
    assert IsPath(open, [a]);
  }

  lemma ConnectedStep(open: set<Cell>, a: Cell, b: Cell, c: Cell)
    requires Connected(open, a, b) && c in open && FaceAdjacent(b, c)
    ensures Connected(open, a, c)
  {
    var p :| IsPath(open, p) && p[0] == a && p[|p| - 1] == b;
    var q := p + [c];
    assert IsPath(open, q);
  }

  lemma ConnectedTrans(open: set<Cell>, a: Cell, b: Cell, c: Cell)
    requires Connected(open, a, b) && Connected(open, b, c)
    ensures Connected(open, a, c)
  {
    var p :| IsPath(open, p) && p[0] == a && p[|p| - 1] == b;
    var q :| IsPath(open, q) && q[0] == b && q[|q| - 1] == c;
    var r := p + q[1..];
    forall i | 0 <= i < |r| - 1
      ensures FaceAdjacent(r[i], r[i + 1])
    {
      if i < |p| - 1 {
      } else if i == |p| - 1 {
        assert r[i] == q[0] && r[i + 1] == q[1];
      } else {
        assert r[i] == q[i - |p| + 1] && r[i + 1] == q[i - |p| + 2];
      }
    }
    assert IsPath(open, r);
  }

  /** A path through fewer open cells is still a path. */
  lemma ConnectedWithin(small: set<Cell>, big: set<Cell>, a: Cell, b: Cell)
    requires small <= big && Connected(small, a, b)
    ensures Connected(big, a, b)
  {
    var p :| IsPath(small, p) && p[0] == a && p[|p| - 1] == b;
    assert IsPath(big, p);
  }

  /** The tail of a path from its `i`-th cell on is a path. */
  lemma PathSuffix(open: set<Cell>, p: seq<Cell>, i: nat)
    requires IsPath(open, p) && i < |p|
    ensures Connected(open, p[i], p[|p| - 1])
  {
    var q := p[i..];
    forall j | 0 <= j < |q| - 1
      ensures FaceAdjacent(q[j], q[j + 1])
    {
      assert q[j] == p[i + j] && q[j + 1] == p[i + j + 1];
    }
    assert IsPath(open, q);
  }

  /**
   * A region of open cells that contains `start` and is closed under stepping to
   * open face neighbours contains every cell connected to `start`.
   */
  lemma {:induction false} ClosedRegionContainsConnected(open: set<Cell>, region: set<Cell>, start: Cell, d: Cell)
    requires start in region && region <= open
    requires forall c, k :: c in region && 0 <= k < 6 && Shift(c, Offset6(k)) in open ==> Shift(c, Offset6(k)) in region
    requires Connected(open, start, d)
    ensures d in region
  {
    var p :| IsPath(open, p) && p[0] == start && p[|p| - 1] == d;
    var i := 0;
    while i < |p| - 1
      invariant 0 <= i < |p| && p[i] in region
    {
      var k := DirectionTo(p[i], p[i + 1]);
      assert p[i + 1] in open;
      i := i + 1;
    }
  }

  /** Nothing is connected from a cell that is not open. */
  lemma NotOpenNotConnected(open: set<Cell>, a: Cell, b: Cell)
    requires a !in open
    ensures !Connected(open, a, b)
  {
  }

  /** Lexicographic order on cells, the row order `np.unique(axis=0)` produces. */
  predicate CellBefore(a: Cell, b: Cell)
  {
    a.0 < b.0 || (a.0 == b.0 && (a.1 < b.1 || (a.1 == b.1 && a.2 < b.2)))
  }

  predicate StrictlySorted(s: seq<Cell>)
  {
    forall i, j :: 0 <= i < j < |s| ==> CellBefore(s[i], s[j])
  }

  function InsertUnique(x: Cell, s: seq<Cell>): (r: seq<Cell>)
    requires StrictlySorted(s)
    ensures StrictlySorted(r)
    ensures forall c :: c in r <==> c in s || c == x
  {
    if s == [] then [x]
    else if s[|s| - 1] == x then s
    else if CellBefore(s[|s| - 1], x) then s + [x]
    else
      var init, last := s[..|s| - 1], s[|s| - 1];
      assert s == init + [last];
      var r' := InsertUnique(x, init);
      assert forall i :: 0 <= i < |r'| ==> CellBefore(r'[i], last) by {
        forall i | 0 <= i < |r'|
          ensures CellBefore(r'[i], last)
        {
          assert r'[i] in r';
          if r'[i] != x {
            var k :| 0 <= k < |init| && init[k] == r'[i];
            assert s[k] == init[k];
          }
        }
      }
      r' + [last]
  }

  /** `np.unique(cells, axis=0)`: the distinct cells, in lexicographic order. */
  function SortedUnique(s: seq<Cell>): (r: seq<Cell>)
    ensures StrictlySorted(r)
    ensures forall c :: c in r <==> c in s
    ensures |r| <= |s|
  {
    if s == [] then []
    else
      var r' := SortedUnique(s[..|s| - 1]);
      assert s == s[..|s| - 1] + [s[|s| - 1]];
      var r := InsertUnique(s[|s| - 1], r');
      DistinctLength(r, s);
      r
  }

  /** A strictly sorted list is no longer than any list holding all of its cells. */
  lemma DistinctLength(r: seq<Cell>, s: seq<Cell>)
    requires StrictlySorted(r) && forall c :: c in r ==> c in s
    ensures |r| <= |s|
  {
    var rs := set c | c in r;
    var ss := set c | c in s;
    DistinctCardinality(r);
    SetOfSeqCardinality(s);
    SubsetCardinality(rs, ss);
  }

  lemma {:induction false} DistinctCardinality(r: seq<Cell>)
    requires StrictlySorted(r)
    ensures |set c | c in r| == |r|
    decreases |r|
  {
    if r != [] {
      var init := r[..|r| - 1];
      DistinctCardinality(init);
      assert (set c | c in r) == (set c | c in init) + {r[|r| - 1]};
      assert r[|r| - 1] !in init;
    }
  }

  lemma {:induction false} SetOfSeqCardinality(s: seq<Cell>)
    ensures |set c | c in s| <= |s|
    decreases |s|
  {
    if s != [] {
      var init := s[..|s| - 1];
      SetOfSeqCardinality(init);
      assert (set c | c in s) == (set c | c in init) + {s[|s| - 1]};
    }
  }

  lemma {:induction false} SubsetCardinality(a: set<Cell>, b: set<Cell>)
    requires a <= b
    ensures |a| <= |b|
    decreases |a|
  {
    if a != {} {
      var x :| x in a;
      SubsetCardinality(a - {x}, b - {x});
    }
  }
}
