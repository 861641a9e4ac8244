/**
 * The A* pathfinder over the terrain grid: 4-connected moves onto passable
 * in-bounds cells, unit step cost, Manhattan heuristic.  The open set is an
 * insertion-ordered sequence (a JavaScript `Set` iterates in insertion
 * order), the closed set a set of cells, and gScore, fScore and cameFrom maps
 * keyed by cell instead of by "x,y" strings.
 *
 * What is proved of `FindPath`: a returned path is a walk from the start to
 * the goal that no other walk beats in length, and the result is absent
 * exactly when no walk exists.
 */
module Pathfinding {
  import opened Wrappers
  import opened Tiles
  import opened Grid

  /** `heuristic`: Manhattan distance between two cells. */
  function Heuristic(x1: int, y1: int, x2: int, y2: int): (h: nat)
    ensures h == 0 <==> x1 == x2 && y1 == y2
  {
    Abs(x1 - x2) + Abs(y1 - y2)
  }

  /** The heuristic changes by exactly one along every 4-directional step (consistency). */
  lemma HeuristicConsistent(p: Pos, q: Pos, goal: Pos)
    requires Manhattan(p, q) == 1
    ensures var d := Heuristic(p.0, p.1, goal.0, goal.1) - Heuristic(q.0, q.1, goal.0, goal.1); d == 1 || d == -1
  {
  }

  /** Along any walk the heuristic drops by at most the walk's length (admissibility). */
  lemma {:induction false} HeuristicAlongWalk(terrain: array2<Tile>, a: Pos, b: Pos, w: seq<Pos>, goal: Pos)
    requires IsWalk(terrain, a, b, w)
    ensures Heuristic(a.0, a.1, goal.0, goal.1) <= |w| + Heuristic(b.0, b.1, goal.0, goal.1)
    decreases |w|
  {
    if |w| > 0 {
      var m := Node(a, w, |w| - 1);
      WalkPrefix(terrain, a, b, w, |w| - 1);
      HeuristicAlongWalk(terrain, a, m, w[..|w| - 1], goal);
      assert Step(terrain, m, w[|w| - 1]);
      HeuristicConsistent(m, b, goal);
    }
  }

  /** `openSet.delete(x)`: removes `x`, keeping the insertion order of the rest. */
  function Remove(s: seq<Pos>, x: Pos): (r: seq<Pos>)
    ensures forall p :: p in r <==> p in s && p != x
  {
    if s == [] then []
    else if s[0] == x then Remove(s[1..], x)
    else [s[0]] + Remove(s[1..], x)
  }

  lemma {:induction false} RemoveNoDup(s: seq<Pos>, x: Pos)
    requires NoDup(s)
    ensures NoDup(Remove(s, x))
  {
    if s != [] {
      assert NoDup(s[1..]) by {
        forall i, j | 0 <= i < j < |s| - 1 ensures s[1..][i] != s[1..][j] {
          assert s[i + 1] != s[j + 1];
        }
      }
      RemoveNoDup(s[1..], x);
      if s[0] != x {
        var r := Remove(s[1..], x);
        assert s[0] !in s[1..];
        forall i, j | 0 <= i < j < |r| + 1 ensures ([s[0]] + r)[i] != ([s[0]] + r)[j] {
          if i == 0 {
            assert ([s[0]] + r)[j] == r[j - 1];
          }
        }
      }
    }
  }

  /**
   * `getLowestFScore`: the first cell, in insertion order, whose f-score is
   * minimal; absent only for an empty open set.
   */
  method GetLowestFScore(openSet: seq<Pos>, fScore: map<Pos, int>) returns (lowest: Option<Pos>)
    requires forall p :: p in openSet ==> p in fScore
    ensures lowest.None? <==> openSet == []
    ensures lowest.Some? ==> lowest.value in openSet
    ensures lowest.Some? ==> forall q :: q in openSet ==> fScore[lowest.value] <= fScore[q]
    ensures lowest.Some? ==> exists i :: 0 <= i < |openSet| && openSet[i] == lowest.value &&
                                         forall j :: 0 <= j < i ==> fScore[openSet[j]] > fScore[openSet[i]]
  {
    lowest := None;
    var lowestScore := 0;
    ghost var at := 0;
    for i := 0 to |openSet|
      invariant lowest.None? <==> i == 0
      invariant lowest.Some? ==> 0 <= at < i && openSet[at] == lowest.value && lowestScore == fScore[lowest.value]
      invariant lowest.Some? ==> forall j :: 0 <= j < at ==> fScore[openSet[j]] > lowestScore
      invariant lowest.Some? ==> forall j :: 0 <= j < i ==> lowestScore <= fScore[openSet[j]]
    {
      var score := fScore[openSet[i]];
      if lowest.None? || score < lowestScore {
        lowest, lowestScore, at := Some(openSet[i]), score, i;
      }
    }
  }

  /** A walk from inside a set to outside it has a step that leaves the set. */
  lemma ExitIndex(s: Pos, e: Pos, w: seq<Pos>, inside: set<Pos>)
    requires s in inside && e !in inside && Node(s, w, |w|) == e
    ensures exists i :: 0 <= i < |w| && Node(s, w, i) in inside && Node(s, w, i + 1) !in inside
  {
    var i := 0;
    while Node(s, w, i + 1) in inside
      invariant 0 <= i < |w| && Node(s, w, i) in inside
      decreases |w| - i
    {
      i := i + 1;
    }
  }

  lemma SlicePlusOne(s: seq<Pos>, i: nat)
    requires i < |s|
    ensures s[..i + 1] == s[..i] + [s[i]]
  {
  }

  /** `reconstructPath`, as a value: the back-link chain ending at `k`, root excluded. */
  ghost function BackChain(cameFrom: map<Pos, Pos>, g: map<Pos, int>, k: Pos): seq<Pos>
    requires BackLinked(cameFrom, g) && k in g
    decreases g[k]
  {
    if k in cameFrom then BackChain(cameFrom, g, cameFrom[k]) + [k] else []
  }

  /** The cell where the back-link chain from `k` stops. */
  ghost function ChainRoot(cameFrom: map<Pos, Pos>, g: map<Pos, int>, k: Pos): Pos
    requires BackLinked(cameFrom, g) && k in g
    decreases g[k]
  {
    if k in cameFrom then ChainRoot(cameFrom, g, cameFrom[k]) else k
  }

  /** Every back-link goes to a cell whose g-score is one less, and g-scores are non-negative. */
  ghost predicate BackLinked(cameFrom: map<Pos, Pos>, g: map<Pos, int>)
  {
    (forall p :: p in g ==> g[p] >= 0) &&
    forall k :: k in cameFrom ==> k in g && cameFrom[k] in g && g[k] == g[cameFrom[k]] + 1
  }

  class Pathfinder {
    const terrain: array2<Tile>

    constructor (terrain: array2<Tile>)
      ensures this.terrain == terrain
    {
      this.terrain := terrain;
    }

    /** `getNeighbors(x, y)`: the walkable 4-neighbours, left, right, up, down. */
    method GetNeighbors(x: int, y: int) returns (neighbors: seq<Pos>)
      ensures neighbors == Neighbors(terrain, (x, y))
      ensures forall q :: q in neighbors <==> Step(terrain, (x, y), q)
    {
      neighbors := [];
      for i := 0 to |Directions|
        invariant neighbors == WalkableOffsets(terrain, (x, y), Directions[..i])
      {
        var (dx, dy) := Directions[i];
        var newX, newY := x + dx, y + dy;
        if IsValidPosition(terrain, newX, newY) && terrain[newY, newX].passable {
          neighbors := neighbors + [(newX, newY)];
        }
        assert Directions[..i + 1][..i] == Directions[..i];
      }
      assert Directions[..|Directions|] == Directions;
      forall q ensures q in neighbors <==> Step(terrain, (x, y), q) {
        NeighborsAreSteps(terrain, (x, y), q);
      }
    }

    /** `reconstructPath(cameFrom, current)`: follows back-links, prepending each cell. */
    method ReconstructPath(cameFrom: map<Pos, Pos>, current: Pos, ghost g: map<Pos, int>) returns (path: seq<Pos>)
      requires BackLinked(cameFrom, g) && current in g
      ensures path == BackChain(cameFrom, g, current)
    {
      path := [];
      var cur := current;
      while cur in cameFrom
        invariant cur in g
        invariant BackChain(cameFrom, g, current) == BackChain(cameFrom, g, cur) + path
        decreases g[cur]
      {
        path := [cur] + path;
        cur := cameFrom[cur];
      }
    }

    // ---- The search invariant, in pieces ----

    ghost function H(p: Pos, goal: Pos): nat
    {
      Heuristic(p.0, p.1, goal.0, goal.1)
    }

    /** Open cells carry g and f = g + h; closed cells carry g. */
    ghost predicate Scored(goal: Pos, openSet: seq<Pos>, closedSet: set<Pos>, g: map<Pos, int>, f: map<Pos, int>)
    {
      (forall p :: p in openSet ==> p in g && p in f && f[p] == g[p] + H(p, goal)) &&
      (forall p :: p in closedSet ==> p in g)
    }

    /**
     * Back-links point from a cell one step back to a closed cell with g one
     * less; every open or closed cell other than the start has a back-link.
     */
    ghost predicate Linked(start: Pos, openSet: seq<Pos>, closedSet: set<Pos>, cameFrom: map<Pos, Pos>, g: map<Pos, int>)
      reads terrain
    {
      BackLinked(cameFrom, g) && start in g && g[start] == 0 && start !in cameFrom &&
      (forall k :: k in cameFrom ==> cameFrom[k] in closedSet && Step(terrain, cameFrom[k], k)) &&
      (forall p :: p in openSet || p in closedSet ==> p == start || p in cameFrom)
    }

    /**
     * Every closed cell other than `pending` has had its neighbours relaxed:
     * each is closed, or open with g at most one more.
     */
    ghost predicate Expanded(openSet: seq<Pos>, closedSet: set<Pos>, g: map<Pos, int>, pending: set<Pos>)
      reads terrain
    {
      forall c, n :: c in closedSet && c !in pending && Step(terrain, c, n) ==>
        n in closedSet || (n in openSet && n in g && c in g && g[n] <= g[c] + 1)
    }

    /** A closed cell's g is no more than the length of any walk to it from the start. */
    ghost predicate Optimal(start: Pos, closedSet: set<Pos>, g: map<Pos, int>)
      reads terrain
    {
      forall c, w :: c in closedSet && IsWalk(terrain, start, c, w) ==> c in g && g[c] <= |w|
    }

    ghost function Universe(start: Pos): set<Pos>
    {
      (set x, y | 0 <= x < terrain.Length1 && 0 <= y < terrain.Length0 :: (x, y)) + {start}
    }

    ghost predicate SearchInv(start: Pos, goal: Pos, openSet: seq<Pos>, closedSet: set<Pos>,
                              cameFrom: map<Pos, Pos>, g: map<Pos, int>, f: map<Pos, int>, pending: set<Pos>)
      reads terrain
    {
      NoDup(openSet) && (forall p :: p in openSet ==> p !in closedSet) &&
      Scored(goal, openSet, closedSet, g, f) &&
      Linked(start, openSet, closedSet, cameFrom, g) &&
      Expanded(openSet, closedSet, g, pending) &&
      Optimal(start, closedSet, g) &&
      goal !in closedSet &&
      (start in closedSet || (openSet == [start] && closedSet == {} && cameFrom == map[])) &&
      closedSet <= Universe(start)
    }

    /** Open and closed cells are the start or walkable, hence inside the universe. */
    lemma InUniverse(start: Pos, openSet: seq<Pos>, closedSet: set<Pos>, cameFrom: map<Pos, Pos>, g: map<Pos, int>, p: Pos)
      requires Linked(start, openSet, closedSet, cameFrom, g)
      requires p in openSet || p in closedSet
      ensures p in Universe(start)
    {
      if p != start {
        assert Step(terrain, cameFrom[p], p);
        assert (p.0, p.1) in (set x, y | 0 <= x < terrain.Length1 && 0 <= y < terrain.Length0 :: (x, y));
      }
    }

    /**
     * The heart of A* with a consistent heuristic: the open cell of least f
     * already has a g-score no walk from the start can beat.
     */
    lemma {:induction false} SelectedIsOptimal(start: Pos, goal: Pos, openSet: seq<Pos>, closedSet: set<Pos>,
                                              g: map<Pos, int>, f: map<Pos, int>, current: Pos, w: seq<Pos>)
      requires start in closedSet && current !in closedSet
      requires Scored(goal, openSet, closedSet, g, f)
      requires Expanded(openSet, closedSet, g, {})
      requires Optimal(start, closedSet, g)
      requires current in openSet
      requires forall q :: q in openSet ==> f[current] <= f[q]
      requires IsWalk(terrain, start, current, w)
      ensures current in g && g[current] <= |w|
    {
      ExitIndex(start, current, w, closedSet);
      var i :| 0 <= i < |w| && Node(start, w, i) in closedSet && Node(start, w, i + 1) !in closedSet;
      var prev, next := Node(start, w, i), Node(start, w, i + 1);
      assert g[prev] <= i by {
        WalkPrefix(terrain, start, current, w, i);
      }
      assert Step(terrain, prev, next);
      assert next in openSet && g[next] <= i + 1;
      assert H(next, goal) <= |w| - (i + 1) + H(current, goal) by {
        WalkSuffix(terrain, start, current, w, i + 1);
        HeuristicAlongWalk(terrain, next, current, w[i + 1..], goal);
      }
      assert f[current] <= f[next];
    }

    /** With the open set exhausted, every cell reachable from the start is closed. */
    lemma {:induction false} ExhaustedCoversReachable(start: Pos, closedSet: set<Pos>, g: map<Pos, int>, e: Pos, w: seq<Pos>)
      requires start in closedSet && Expanded([], closedSet, g, {})
      requires IsWalk(terrain, start, e, w)
      ensures e in closedSet
      decreases |w|
    {
      if |w| > 0 {
        var m := Node(start, w, |w| - 1);
        WalkPrefix(terrain, start, e, w, |w| - 1);
        ExhaustedCoversReachable(start, closedSet, g, m, w[..|w| - 1]);
        assert Step(terrain, m, e);
      }
    }

    /** The back-link chain of an open or closed cell is a walk from the start of length g. */
    lemma {:induction false} ChainIsWalk(start: Pos, openSet: seq<Pos>, closedSet: set<Pos>,
                                         cameFrom: map<Pos, Pos>, g: map<Pos, int>, k: Pos)
      requires Linked(start, openSet, closedSet, cameFrom, g)
      requires k in openSet || k in closedSet
      requires k in g
      ensures IsWalk(terrain, start, k, BackChain(cameFrom, g, k))
      ensures |BackChain(cameFrom, g, k)| == g[k]
      decreases g[k]
    {
      if k in cameFrom {
        var p := cameFrom[k];
        ChainIsWalk(start, openSet, closedSet, cameFrom, g, p);
        var u := BackChain(cameFrom, g, p);
        assert IsWalk(terrain, p, k, [k]) by {
          assert Node(p, [k], 0) == p;
        }
        WalkAppend(terrain, start, p, k, u, [k]);
      } else {
        assert k == start;
      }
    }

    /** The neighbours in `done` of the cell being expanded are closed or open with g at most one more. */
    ghost predicate Relaxed(openSet: seq<Pos>, closedSet: set<Pos>, g: map<Pos, int>, current: Pos, done: seq<Pos>)
    {
      current in g &&
      forall n :: n in done ==> n in closedSet || (n in openSet && n in g && g[n] <= g[current] + 1)
    }

    /** Moving the selected cell from the open to the closed set keeps the invariant, pending its expansion. */
    lemma CloseCurrent(start: Pos, goal: Pos, openSet: seq<Pos>, closedSet: set<Pos>,
                       cameFrom: map<Pos, Pos>, g: map<Pos, int>, f: map<Pos, int>, current: Pos)
      requires SearchInv(start, goal, openSet, closedSet, cameFrom, g, f, {})
      requires current in openSet && current != goal
      requires forall q :: q in openSet ==> f[current] <= f[q]
      ensures SearchInv(start, goal, Remove(openSet, current), closedSet + {current}, cameFrom, g, f, {current})
      ensures Universe(start) - (closedSet + {current}) < Universe(start) - closedSet
      ensures Relaxed(Remove(openSet, current), closedSet + {current}, g, current, [])
    {
      var open', closed' := Remove(openSet, current), closedSet + {current};
      RemoveNoDup(openSet, current);
      assert Optimal(start, closed', g) by {
        forall c, w | c in closed' && IsWalk(terrain, start, c, w) ensures c in g && g[c] <= |w| {
          if c == current && start in closedSet {
            SelectedIsOptimal(start, goal, openSet, closedSet, g, f, current, w);
          }
        }
      }
      assert Expanded(open', closed', g, {current});
      InUniverse(start, openSet, closedSet, cameFrom, g, current);
      assert Linked(start, open', closed', cameFrom, g);
    }

    /** Recording a strictly better (or first) route to a neighbour keeps the invariant. */
    lemma RelaxNeighbor(start: Pos, goal: Pos, openSet: seq<Pos>, closedSet: set<Pos>,
                        cameFrom: map<Pos, Pos>, g: map<Pos, int>, f: map<Pos, int>,
                        current: Pos, neighbor: Pos, done: seq<Pos>, open': seq<Pos>, tentative: int, h: int)
      requires SearchInv(start, goal, openSet, closedSet, cameFrom, g, f, {current})
      requires current in closedSet && Step(terrain, current, neighbor) && neighbor !in closedSet
      requires Relaxed(openSet, closedSet, g, current, done)
      requires neighbor in openSet ==> neighbor in g && g[current] + 1 < g[neighbor]
      requires open' == if neighbor in openSet then openSet else openSet + [neighbor]
      requires tentative == g[current] + 1 && h == Heuristic(neighbor.0, neighbor.1, goal.0, goal.1)
      ensures SearchInv(start, goal, open', closedSet, cameFrom[neighbor := current],
                        g[neighbor := tentative], f[neighbor := tentative + h], {current})
      ensures Relaxed(open', closedSet, g[neighbor := tentative], current, done + [neighbor])
    {
      var came', g', f' := cameFrom[neighbor := current], g[neighbor := tentative], f[neighbor := tentative + h];
      assert forall p :: p in open' <==> p in openSet || p == neighbor;
      if neighbor !in openSet {
        assert NoDup(open') by {
          forall i, j | 0 <= i < j < |open'| ensures open'[i] != open'[j] {
            if j == |openSet| {
              assert open'[i] == openSet[i];
            }
          }
        }
      }
      RelaxScored(goal, openSet, closedSet, g, f, current, neighbor, open', g', f');
      RelaxLinked(start, openSet, closedSet, cameFrom, g, current, neighbor, open', came', g');
      RelaxExpanded(openSet, closedSet, g, current, neighbor, open', g');
      RelaxOptimal(start, closedSet, g, neighbor, g[current] + 1, g');
      RelaxDone(openSet, closedSet, g, current, neighbor, done, open', g');
    }

    lemma RelaxScored(goal: Pos, openSet: seq<Pos>, closedSet: set<Pos>, g: map<Pos, int>, f: map<Pos, int>,
                      current: Pos, neighbor: Pos, open': seq<Pos>, g': map<Pos, int>, f': map<Pos, int>)
      requires Scored(goal, openSet, closedSet, g, f) && current in closedSet
      requires forall p :: p in open' <==> p in openSet || p == neighbor
      requires g' == g[neighbor := g[current] + 1]
      requires f' == f[neighbor := g[current] + 1 + Heuristic(neighbor.0, neighbor.1, goal.0, goal.1)]
      ensures Scored(goal, open', closedSet, g', f')
    {
    }

    lemma RelaxLinked(start: Pos, openSet: seq<Pos>, closedSet: set<Pos>, cameFrom: map<Pos, Pos>, g: map<Pos, int>,
                      current: Pos, neighbor: Pos, open': seq<Pos>, came': map<Pos, Pos>, g': map<Pos, int>)
      requires Linked(start, openSet, closedSet, cameFrom, g)
      requires current in closedSet && Step(terrain, current, neighbor) && neighbor !in closedSet
      requires forall p :: p in open' <==> p in openSet || p == neighbor
      requires (forall p :: p in openSet ==> p !in closedSet) && start in closedSet
      requires came' == cameFrom[neighbor := current]
      requires g' == g[neighbor := g[current] + 1]
      ensures Linked(start, open', closedSet, came', g')
    {
      assert BackLinked(came', g');
    }

    lemma RelaxExpanded(openSet: seq<Pos>, closedSet: set<Pos>, g: map<Pos, int>,
                        current: Pos, neighbor: Pos, open': seq<Pos>, g': map<Pos, int>)
      requires Expanded(openSet, closedSet, g, {current}) && (forall p :: p in closedSet ==> p in g)
      requires current in closedSet && neighbor !in closedSet
      requires neighbor in openSet ==> neighbor in g && g[current] + 1 < g[neighbor]
      requires forall p :: p in open' <==> p in openSet || p == neighbor
      requires g' == g[neighbor := g[current] + 1]
      ensures Expanded(open', closedSet, g', {current})
    {
    }

    lemma RelaxOptimal(start: Pos, closedSet: set<Pos>, g: map<Pos, int>, neighbor: Pos, v: int, g': map<Pos, int>)
      requires Optimal(start, closedSet, g) && neighbor !in closedSet
      requires g' == g[neighbor := v]
      ensures Optimal(start, closedSet, g')
    {
    }

    lemma RelaxDone(openSet: seq<Pos>, closedSet: set<Pos>, g: map<Pos, int>, current: Pos, neighbor: Pos,
                    done: seq<Pos>, open': seq<Pos>, g': map<Pos, int>)
      requires Relaxed(openSet, closedSet, g, current, done) && current in closedSet && neighbor !in closedSet
      requires neighbor in openSet ==> neighbor in g && g[current] + 1 < g[neighbor]
      requires forall p :: p in open' <==> p in openSet || p == neighbor
      requires g' == g[neighbor := g[current] + 1]
      ensures Relaxed(open', closedSet, g', current, done + [neighbor])
    {
    }

    /** When the goal is the open cell of least f, its back-link chain is a shortest walk to it. */
    lemma GoalChainIsShortest(start: Pos, goal: Pos, openSet: seq<Pos>, closedSet: set<Pos>,
                              cameFrom: map<Pos, Pos>, g: map<Pos, int>, f: map<Pos, int>)
      requires SearchInv(start, goal, openSet, closedSet, cameFrom, g, f, {})
      requires goal in openSet && forall q :: q in openSet ==> f[goal] <= f[q]
      ensures goal in g && BackLinked(cameFrom, g)
      ensures IsWalk(terrain, start, goal, BackChain(cameFrom, g, goal))
      ensures forall w :: IsWalk(terrain, start, goal, w) ==> |BackChain(cameFrom, g, goal)| <= |w|
      ensures start == goal ==> BackChain(cameFrom, g, goal) == []
    {
      var p := BackChain(cameFrom, g, goal);
      ChainIsWalk(start, openSet, closedSet, cameFrom, g, goal);
      forall w | IsWalk(terrain, start, goal, w) ensures |p| <= |w| {
        if start in closedSet {
          SelectedIsOptimal(start, goal, openSet, closedSet, g, f, goal, w);
        }
      }
      if start == goal {
        assert IsWalk(terrain, start, goal, []);
      }
    }

    /** Once every neighbour of the expanded cell is relaxed, nothing is pending. */
    lemma FinishExpansion(start: Pos, goal: Pos, openSet: seq<Pos>, closedSet: set<Pos>,
                          cameFrom: map<Pos, Pos>, g: map<Pos, int>, f: map<Pos, int>, current: Pos)
      requires SearchInv(start, goal, openSet, closedSet, cameFrom, g, f, {current})
      requires Relaxed(openSet, closedSet, g, current, Neighbors(terrain, current))
      ensures SearchInv(start, goal, openSet, closedSet, cameFrom, g, f, {})
    {
      forall n | Step(terrain, current, n)
        ensures n in closedSet || (n in openSet && n in g && g[n] <= g[current] + 1)
      {
        NeighborsAreSteps(terrain, current, n);
      }
    }

    /**
     * The expansion step of `findPath`: each walkable neighbour of the
     * just-closed cell that is not closed gets a route through it when that
     * route is its first or strictly shorter.  Afterwards no closed cell has
     * an unrelaxed neighbour.
     */
    method ExpandCell(ghost start: Pos, goal: Pos, openSet0: seq<Pos>, closedSet: set<Pos>,
                      cameFrom0: map<Pos, Pos>, gScore0: map<Pos, int>, fScore0: map<Pos, int>, current: Pos)
      returns (openSet: seq<Pos>, cameFrom: map<Pos, Pos>, gScore: map<Pos, int>, fScore: map<Pos, int>)
      requires SearchInv(start, goal, openSet0, closedSet, cameFrom0, gScore0, fScore0, {current})
      requires current in closedSet
      requires Relaxed(openSet0, closedSet, gScore0, current, [])
      ensures SearchInv(start, goal, openSet, closedSet, cameFrom, gScore, fScore, {})
    {
      openSet, cameFrom, gScore, fScore := openSet0, cameFrom0, gScore0, fScore0;
      var neighbors := GetNeighbors(current.0, current.1);
      for i := 0 to |neighbors|
        invariant SearchInv(start, goal, openSet, closedSet, cameFrom, gScore, fScore, {current})
        invariant current in closedSet
        invariant Relaxed(openSet, closedSet, gScore, current, neighbors[..i])
      {
        var neighbor := neighbors[i];
        SlicePlusOne(neighbors, i);
        if neighbor in closedSet {
          continue;
        }
        var tentativeGScore := gScore[current] + 1;
        ghost var open0 := openSet;
        if neighbor !in openSet {
          openSet := openSet + [neighbor];
        } else if tentativeGScore >= gScore[neighbor] {
          continue;
        }
        var h := Heuristic(neighbor.0, neighbor.1, goal.0, goal.1);
        RelaxNeighbor(start, goal, open0, closedSet, cameFrom, gScore, fScore, current, neighbor, neighbors[..i],
                      openSet, tentativeGScore, h);
        cameFrom := cameFrom[neighbor := current];
        gScore := gScore[neighbor := tentativeGScore];
        fScore := fScore[neighbor := tentativeGScore + h];
      }
      assert neighbors[..|neighbors|] == neighbors;
      FinishExpansion(start, goal, openSet, closedSet, cameFrom, gScore, fScore, current);
    }

    /**
     * `findPath`: A* from the start to the goal.  A returned path lists the
     * cells after the start up to and including the goal; it is a walk, and
     * no walk is shorter.  The result is absent exactly when the goal cannot
     * be reached.  The terrain is only read.
     */
    method FindPath(startX: int, startY: int, targetX: int, targetY: int) returns (path: Option<seq<Pos>>, ghost rounds: nat)
      ensures (startX, startY) == (targetX, targetY) ==> path == Some([])
      ensures path.Some? ==> IsWalk(terrain, (startX, startY), (targetX, targetY), path.value)
      ensures path.Some? ==> forall w :: IsWalk(terrain, (startX, startY), (targetX, targetY), w) ==> |path.value| <= |w|
      ensures path.Some? ==> NoDup(path.value) && (startX, startY) !in path.value
      ensures path.None? <==> !Reachable(terrain, (startX, startY), (targetX, targetY))
      ensures rounds <= terrain.Length0 * terrain.Length1 + 1
    {
      rounds := 0;
      var start, goal := (startX, startY), (targetX, targetY);
      var openSet: seq<Pos> := [start];
      var closedSet: set<Pos> := {};
      var cameFrom: map<Pos, Pos> := map[];
      var gScore: map<Pos, int> := map[start := 0];
      var fScore: map<Pos, int> := map[start := Heuristic(startX, startY, targetX, targetY)];

      while |openSet| > 0
        invariant SearchInv(start, goal, openSet, closedSet, cameFrom, gScore, fScore, {})
        invariant rounds == |closedSet|
        decreases Universe(start) - closedSet
      {
        rounds := rounds + 1;
        var lowest := GetLowestFScore(openSet, fScore);
        var current := lowest.value;
        if current == goal {
          var p := ReconstructPath(cameFrom, current, gScore);
          GoalChainIsShortest(start, goal, openSet, closedSet, cameFrom, gScore, fScore);
          InUniverse(start, openSet, closedSet, cameFrom, gScore, goal);
          RoundsBound(start, closedSet + {goal});
          ShortestIsSimple(terrain, start, goal, p);
          return Some(p), rounds;
        }
        CloseCurrent(start, goal, openSet, closedSet, cameFrom, gScore, fScore, current);
        openSet := Remove(openSet, current);
        closedSet := closedSet + {current};

        openSet, cameFrom, gScore, fScore := ExpandCell(start, goal, openSet, closedSet, cameFrom, gScore, fScore, current);
      }
      assert start in closedSet;
      forall w | IsWalk(terrain, start, goal, w) ensures false {
        ExhaustedCoversReachable(start, closedSet, gScore, goal, w);
      }
      RoundsBound(start, closedSet);
      return None, rounds;
    }

    /** Every cell the search closes lies in the grid or is the start, so it closes at most `w * h + 1`. */
    lemma RoundsBound(start: Pos, closed: set<Pos>)
      requires closed <= Universe(start)
      ensures |closed| <= terrain.Length0 * terrain.Length1 + 1
    {
      assert Universe(start) == Cells(terrain.Length1, terrain.Length0) + {start};
      CellsSize(terrain.Length1, terrain.Length0);
      SubsetSize(closed, Universe(start));
    }
  }
}
