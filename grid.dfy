/**
 * Grid geometry shared by the pathfinder, the game's search helpers, the
 * renderer and the monster manager: cells are addressed (x, y) with x the
 * column and y the row, stored as `terrain[y, x]`.
 */
module Grid {
  import opened Tiles

  type Pos = (int, int)

  /** `isValidPosition(x, y)`: inside the `width x height` grid. */
  predicate IsValidPosition(terrain: array2<Tile>, x: int, y: int)
  {
    0 <= x < terrain.Length1 && 0 <= y < terrain.Length0
  }

  /** An in-bounds cell whose tile is passable. */
  predicate Walkable(terrain: array2<Tile>, p: Pos)
    reads terrain
  {
    IsValidPosition(terrain, p.0, p.1) && terrain[p.1, p.0].passable
  }

  /** No element occurs twice. */
  ghost predicate NoDup<T>(s: seq<T>)
  {
    forall i, j :: 0 <= i < j < |s| ==> s[i] != s[j]
  }

  function Abs(n: int): nat
  {
    if n < 0 then -n else n
  }

  function Manhattan(p: Pos, q: Pos): nat
  {
    Abs(p.0 - q.0) + Abs(p.1 - q.1)
  }

  function Max(a: int, b: int): int
  {
    if a < b then b else a
  }

  /** Chebyshev distance: the radius of the smallest square ring around `q` through `p`. */
  function Chebyshev(p: Pos, q: Pos): nat
  {
    Max(Abs(p.0 - q.0), Abs(p.1 - q.1))
  }

  /** Row-major order: earlier row first, then earlier column. */
  predicate RowMajorBefore(p: Pos, q: Pos)
  {
    p.1 < q.1 || (p.1 == q.1 && p.0 < q.0)
  }

  /** A 4-directional unit step from `p` onto the walkable cell `q`. */
  predicate Step(terrain: array2<Tile>, p: Pos, q: Pos)
    reads terrain
  {
    Manhattan(p, q) == 1 && Walkable(terrain, q)
  }

  /** The four directions in the order the game tries them: left, right, up, down. */
  const Directions: seq<Pos> := [(-1, 0), (1, 0), (0, -1), (0, 1)]

  function Offset(p: Pos, d: Pos): Pos
  {
    (p.0 + d.0, p.1 + d.1)
  }

  /** The walkable cells among `p` shifted by each of `ds`, in order. */
  function WalkableOffsets(terrain: array2<Tile>, p: Pos, ds: seq<Pos>): (ns: seq<Pos>)
    reads terrain
    ensures |ns| <= |ds|
    ensures forall q :: q in ns ==> Walkable(terrain, q)
    ensures forall q :: q in ns ==> exists d :: d in ds && q == Offset(p, d)
  {
    if ds == [] then []
    else
      var last := Offset(p, ds[|ds| - 1]);
      WalkableOffsets(terrain, p, ds[..|ds| - 1]) + (if Walkable(terrain, last) then [last] else [])
  }

  /** Filtering a concatenation of direction lists filters each part in turn. */
  lemma {:induction false} WalkableOffsetsAppend(terrain: array2<Tile>, p: Pos, a: seq<Pos>, b: seq<Pos>)
    ensures WalkableOffsets(terrain, p, a + b) == WalkableOffsets(terrain, p, a) + WalkableOffsets(terrain, p, b)
    decreases |b|
  {
    if b == [] {
      assert a + b == a;
    } else {
      var b' := b[..|b| - 1];
      assert (a + b)[..|a + b| - 1] == a + b';
      assert (a + b)[|a + b| - 1] == b[|b| - 1];
      WalkableOffsetsAppend(terrain, p, a, b');
    }
  }

  /** `getNeighbors(x, y)`: the walkable 4-neighbours in direction order. */
  function Neighbors(terrain: array2<Tile>, p: Pos): seq<Pos>
    reads terrain
  {
    WalkableOffsets(terrain, p, Directions)
  }

  /** The neighbour list is exactly the set of cells one step away. */
  lemma NeighborsAreSteps(terrain: array2<Tile>, p: Pos, q: Pos)
    ensures q in Neighbors(terrain, p) <==> Step(terrain, p, q)
  {
    var ds := Directions;
    assert WalkableOffsets(terrain, p, ds[..3]) == WalkableOffsets(terrain, p, ds[..3][..2]) + (if Walkable(terrain, Offset(p, ds[2])) then [Offset(p, ds[2])] else []);
    assert ds[..3][..2] == ds[..2];
    assert ds[..2][..1] == ds[..1];
    assert ds[..1][..0] == [];
    if Step(terrain, p, q) {
      var d := (q.0 - p.0, q.1 - p.1);
      assert d in ds;
    }
  }

  /**
   * Walks: `w` lists the cells entered after leaving `s`, so `s` itself is
   * not part of it; Node(s, w, j) is the cell reached after j steps.
   */
  function Node(s: Pos, w: seq<Pos>, j: int): Pos
    requires 0 <= j <= |w|
  {
    if j == 0 then s else w[j - 1]
  }

  ghost predicate IsWalk(terrain: array2<Tile>, s: Pos, e: Pos, w: seq<Pos>)
    reads terrain
  {
    Node(s, w, |w|) == e &&
    forall j {:trigger Node(s, w, j)} :: 0 <= j < |w| ==> Step(terrain, Node(s, w, j), w[j])
  }

  ghost predicate Reachable(terrain: array2<Tile>, s: Pos, e: Pos)
    reads terrain
  {
    exists w :: IsWalk(terrain, s, e, w)
  }

  lemma {:induction false} WalkPrefix(terrain: array2<Tile>, s: Pos, e: Pos, w: seq<Pos>, k: nat)
    requires IsWalk(terrain, s, e, w) && k <= |w|
    ensures IsWalk(terrain, s, Node(s, w, k), w[..k])
  {
    forall j | 0 <= j < k
      ensures Step(terrain, Node(s, w[..k], j), w[..k][j])
    {
      assert Node(s, w[..k], j) == Node(s, w, j);
    }
  }

  lemma {:induction false} WalkSuffix(terrain: array2<Tile>, s: Pos, e: Pos, w: seq<Pos>, k: nat)
    requires IsWalk(terrain, s, e, w) && k <= |w|
    ensures IsWalk(terrain, Node(s, w, k), e, w[k..])
  {
    var m := Node(s, w, k);
    forall j | 0 <= j < |w| - k
      ensures Step(terrain, Node(m, w[k..], j), w[k..][j])
    {
      assert Node(m, w[k..], j) == Node(s, w, k + j);
      assert Step(terrain, Node(s, w, k + j), w[k + j]);
    }
    assert Node(m, w[k..], |w| - k) == Node(s, w, |w|);
  }

  /** Joining two walks that meet at `m` gives a walk. */
  lemma {:induction false} WalkAppend(terrain: array2<Tile>, s: Pos, m: Pos, e: Pos, u: seq<Pos>, v: seq<Pos>)
    requires IsWalk(terrain, s, m, u) && IsWalk(terrain, m, e, v)
    ensures IsWalk(terrain, s, e, u + v)
  {
    var w := u + v;
    forall j | 0 <= j < |w|
      ensures Step(terrain, Node(s, w, j), w[j])
    {
      if j < |u| {
        assert Node(s, w, j) == Node(s, u, j);
      } else {
        assert Node(s, w, j) == Node(m, v, j - |u|);
        assert w[j] == v[j - |u|];
      }
    }
    if |v| == 0 {
      assert w == u;
    } else {
      assert Node(s, w, |w|) == Node(m, v, |v|);
    }
  }

  /**
   * A walk no longer than any other walk between the same cells never
   * enters a cell twice and never comes back to where it started: cutting
   * out the loop would give a shorter walk.
   */
  lemma ShortestIsSimple(terrain: array2<Tile>, s: Pos, e: Pos, w: seq<Pos>)
    requires IsWalk(terrain, s, e, w)
    requires forall v :: IsWalk(terrain, s, e, v) ==> |w| <= |v|
    ensures NoDup(w) && s !in w
  {
    if s in w {
      var k :| 0 <= k < |w| && w[k] == s;
      WalkSuffix(terrain, s, e, w, k + 1);
      assert false;
    }
    if !NoDup(w) {
      var i, j :| 0 <= i < j < |w| && w[i] == w[j];
      WalkPrefix(terrain, s, e, w, i + 1);
      WalkSuffix(terrain, s, e, w, j + 1);
      assert Node(s, w, i + 1) == Node(s, w, j + 1);
      WalkAppend(terrain, s, w[i], e, w[..i + 1], w[j + 1..]);
      assert false;
    }
  }

  /** A walk that ends somewhere other than where it starts ends on a walkable cell. */
  lemma ReachableEndWalkable(terrain: array2<Tile>, s: Pos, e: Pos)
    requires Reachable(terrain, s, e) && s != e
    ensures Walkable(terrain, e)
  {
    var w :| IsWalk(terrain, s, e, w);
    assert Step(terrain, Node(s, w, |w| - 1), w[|w| - 1]);
  }

  /** All cells of a `w x h` grid. */
  ghost function Cells(w: nat, h: nat): set<Pos>
  {
    set x, y | 0 <= x < w && 0 <= y < h :: (x, y)
  }

  ghost function RowCells(w: nat, y: int): set<Pos>
  {
    set x | 0 <= x < w :: (x, y)
  }

  lemma {:induction false} RowSize(w: nat, y: int)
    ensures |RowCells(w, y)| == w
  {
    if w > 0 {
      assert RowCells(w, y) == RowCells(w - 1, y) + {(w - 1, y)};
      RowSize(w - 1, y);
    }
  }

  /** A `w x h` grid has `w * h` cells. */
  lemma {:induction false} CellsSize(w: nat, h: nat)
    ensures |Cells(w, h)| == w * h
  {
    if h > 0 {
      var before, row := Cells(w, h - 1), RowCells(w, h - 1);
      CellsSplit(w, h);
      CellsSize(w, h - 1);
      RowSize(w, h - 1);
      assert |before + row| == |before| + |row|;
      assert w * (h - 1) + w == w * h;
    } else {
      assert Cells(w, h) == {};
    }
  }

  /** The cells of a grid are those of its first `h - 1` rows plus a disjoint last row. */
  lemma CellsSplit(w: nat, h: nat)
    requires h > 0
    ensures Cells(w, h) == Cells(w, h - 1) + RowCells(w, h - 1)
    ensures Cells(w, h - 1) !! RowCells(w, h - 1)
  {
    forall p | p in Cells(w, h)
      ensures p in Cells(w, h - 1) + RowCells(w, h - 1)
    {
      if p.1 < h - 1 {
        assert p in Cells(w, h - 1);
      } else {
        assert p in RowCells(w, h - 1);
      }
    }
  }

  lemma SubsetSize<T>(a: set<T>, b: set<T>)
    requires a <= b
    ensures |a| <= |b|
  {
    assert b == a + (b - a);
  }
}
