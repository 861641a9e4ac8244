/**
 * The game's own grid helpers and its keyboard movement state: where the
 * player starts, which tile next to a monster the player walks to, and how
 * held keys turn into a step direction.
 */
module Game {
  import opened Wrappers
  import opened Tiles
  import opened Grid

  /** The four movement directions a key can hold down. */
  datatype Dir = Up | Down | Left | Right

  /** The four held-key flags of the movement record, as a value. */
  datatype Held = Held(up: bool, down: bool, left: bool, right: bool)
  {
    function Get(d: Dir): bool
    {
      match d
      case Up => up
      case Down => down
      case Left => left
      case Right => right
    }

    /** The same flags with the one for `d` set to `b`. */
    function With(d: Dir, b: bool): (h: Held)
      ensures h.Get(d) == b
      ensures forall e :: e != d ==> h.Get(e) == Get(e)
    {
      match d
      case Up => this.(up := b)
      case Down => this.(down := b)
      case Left => this.(left := b)
      case Right => this.(right := b)
    }

    /** Horizontal step: right minus left. */
    function Dx(): (dx: int)
      ensures -1 <= dx <= 1
      ensures dx == 1 <==> right && !left
      ensures dx == -1 <==> left && !right
    {
      (if right then 1 else 0) - (if left then 1 else 0)
    }

    /** Vertical step: down minus up (rows grow downwards). */
    function Dy(): (dy: int)
      ensures -1 <= dy <= 1
      ensures dy == 1 <==> down && !up
      ensures dy == -1 <==> up && !down
    {
      (if down then 1 else 0) - (if up then 1 else 0)
    }
  }

  const Released := Held(false, false, false, false)

  /** The keys the game listens to: arrows and WASD. */
  function KeyDirection(key: string): (d: Option<Dir>)
    ensures d == Some(Up) <==> key == "ArrowUp" || key == "w"
    ensures d == Some(Down) <==> key == "ArrowDown" || key == "s"
    ensures d == Some(Left) <==> key == "ArrowLeft" || key == "a"
    ensures d == Some(Right) <==> key == "ArrowRight" || key == "d"
  {
    if key == "ArrowUp" || key == "w" then Some(Up)
    else if key == "ArrowDown" || key == "s" then Some(Down)
    else if key == "ArrowLeft" || key == "a" then Some(Left)
    else if key == "ArrowRight" || key == "d" then Some(Right)
    else None
  }

  /** Releasing a key that was up before it was pressed restores the flags. */
  lemma ReleaseUndoesPress(h: Held, d: Dir)
    requires !h.Get(d)
    ensures h.With(d, true).With(d, false) == h
  {
  }

  /** With nothing held the player does not move. */
  lemma ReleasedStandsStill()
    ensures Released.Dx() == 0 && Released.Dy() == 0
  {
  }

  /**
   * The first passable cell in row-major order, or (0, 0) when the map has
   * none.
   */
  ghost predicate IsFirstPassable(terrain: array2<Tile>, p: Pos)
    reads terrain
  {
    if exists q :: Walkable(terrain, q) then
      Walkable(terrain, p) && forall q :: Walkable(terrain, q) ==> !RowMajorBefore(q, p)
    else
      p == (0, 0)
  }

  /**
   * A passable cell on the smallest square ring around `t` that holds one,
   * and on that ring the first in row-major order.
   */
  ghost predicate IsNearest(terrain: array2<Tile>, t: Pos, p: Pos)
    reads terrain
  {
    Walkable(terrain, p) &&
    (forall q :: Walkable(terrain, q) ==> Chebyshev(q, t) >= Chebyshev(p, t)) &&
    (forall q :: Walkable(terrain, q) && Chebyshev(q, t) == Chebyshev(p, t) ==> !RowMajorBefore(q, p))
  }

  /** The row-major-first passable cell is determined by the map. */
  lemma FirstPassableUnique(terrain: array2<Tile>, p: Pos, p': Pos)
    requires IsFirstPassable(terrain, p) && IsFirstPassable(terrain, p')
    ensures p == p'
  {
    if exists q :: Walkable(terrain, q) {
      assert !RowMajorBefore(p, p') && !RowMajorBefore(p', p);
    }
  }

  /** The nearest passable cell is determined by the map and the target. */
  lemma NearestUnique(terrain: array2<Tile>, t: Pos, p: Pos, p': Pos)
    requires IsNearest(terrain, t, p) && IsNearest(terrain, t, p')
    ensures p == p'
  {
    assert Chebyshev(p, t) == Chebyshev(p', t);
    assert !RowMajorBefore(p, p') && !RowMajorBefore(p', p);
  }

  function MaxRadius(terrain: array2<Tile>): nat
  {
    Max(terrain.Length0, terrain.Length1)
  }

  /** Seen from a cell of the map, every cell of the map lies on a ring below the search bound. */
  lemma InsideWithinRadius(terrain: array2<Tile>, t: Pos, q: Pos)
    requires IsValidPosition(terrain, t.0, t.1) && IsValidPosition(terrain, q.0, q.1)
    ensures Chebyshev(q, t) < MaxRadius(terrain)
  {
  }

  class Movement {
    var up: bool
    var down: bool
    var left: bool
    var right: bool

    constructor()
      ensures Flags() == Released
    {
      up, down, left, right := false, false, false, false;
    }

    function Flags(): Held
      reads this
    {
      Held(up, down, left, right)
    }
  }

  class Game {
    const terrain: array2<Tile>
    const movement: Movement

    constructor(terrain: array2<Tile>)
      ensures this.terrain == terrain
      ensures fresh(movement) && movement.Flags() == Released
    {
      this.terrain := terrain;
      movement := new Movement();
    }

    /** `handleKeyDown`: a movement key sets its flag; any other key changes nothing. */
    method HandleKeyDown(key: string)
      modifies movement
      ensures KeyDirection(key).Some? ==> movement.Flags() == old(movement.Flags()).With(KeyDirection(key).value, true)
      ensures KeyDirection(key).None? ==> movement.Flags() == old(movement.Flags())
    {
      if key == "ArrowUp" || key == "w" {
        movement.up := true;
      } else if key == "ArrowDown" || key == "s" {
        movement.down := true;
      } else if key == "ArrowLeft" || key == "a" {
        movement.left := true;
      } else if key == "ArrowRight" || key == "d" {
        movement.right := true;
      }
    }

    /** `handleKeyUp`: a movement key clears its flag; any other key changes nothing. */
    method HandleKeyUp(key: string)
      modifies movement
      ensures KeyDirection(key).Some? ==> movement.Flags() == old(movement.Flags()).With(KeyDirection(key).value, false)
      ensures KeyDirection(key).None? ==> movement.Flags() == old(movement.Flags())
    {
      if key == "ArrowUp" || key == "w" {
        movement.up := false;
      } else if key == "ArrowDown" || key == "s" {
        movement.down := false;
      } else if key == "ArrowLeft" || key == "a" {
        movement.left := false;
      } else if key == "ArrowRight" || key == "d" {
        movement.right := false;
      }
    }

    /** `findSafeStartingPosition`: scan rows top to bottom, each left to right. */
    method FindSafeStartingPosition() returns (p: Pos)
      ensures IsFirstPassable(terrain, p)
    {
      var y := 0;
      while y < terrain.Length0
        invariant 0 <= y <= terrain.Length0
        invariant forall q :: Walkable(terrain, q) ==> q.1 >= y
      {
        var x := 0;
        while x < terrain.Length1
          invariant 0 <= x <= terrain.Length1
          invariant forall q :: Walkable(terrain, q) ==> q.1 > y || (q.1 == y && q.0 >= x)
        {
          if terrain[y, x].passable {
            return (x, y);
          }
          x := x + 1;
        }
        y := y + 1;
      }
      return (0, 0);
    }

    /**
     * `findAdjacentTile`: the first of left, right, up, down from the
     * monster's cell that is in bounds and passable, which is the first
     * neighbour the pathfinder would list.
     */
    method FindAdjacentTile(mx: int, my: int) returns (r: Option<Pos>)
      ensures r.None? <==> forall q :: !Step(terrain, (mx, my), q)
      ensures r.Some? ==> Step(terrain, (mx, my), r.value)
      ensures r.Some? ==> |Neighbors(terrain, (mx, my))| > 0 && r.value == Neighbors(terrain, (mx, my))[0]
    {
      var m := (mx, my);
      for i := 0 to |Directions|
        invariant WalkableOffsets(terrain, m, Directions[..i]) == []
      {
        var d := Directions[i];
        var x := mx + d.0;
        var y := my + d.1;
        assert Directions[..i + 1][..i] == Directions[..i];
        if IsValidPosition(terrain, x, y) && terrain[y, x].passable {
          assert WalkableOffsets(terrain, m, Directions[..i + 1]) == [(x, y)];
          WalkableOffsetsAppend(terrain, m, Directions[..i + 1], Directions[i + 1..]);
          assert Directions[..i + 1] + Directions[i + 1..] == Directions;
          NeighborsAreSteps(terrain, m, (x, y));
          return Some((x, y));
        }
      }
      assert Directions[..|Directions|] == Directions;
      forall q
        ensures !Step(terrain, m, q)
      {
        NeighborsAreSteps(terrain, m, q);
      }
      return None;
    }

    /**
     * `findNearestPassableTile`: search square rings of growing radius
     * around the target, each ring row by row; rings stop below
     * max(height, width), after which the row-major scan decides.
     */
    method FindNearestPassableTile(tx: int, ty: int) returns (p: Pos)
      ensures (exists q :: Walkable(terrain, q) && Chebyshev(q, (tx, ty)) < MaxRadius(terrain)) ==>
        IsNearest(terrain, (tx, ty), p)
      ensures (forall q :: Walkable(terrain, q) ==> Chebyshev(q, (tx, ty)) >= MaxRadius(terrain)) ==>
        IsFirstPassable(terrain, p)
    {
      var t := (tx, ty);
      var maxRadius := Max(terrain.Length0, terrain.Length1);
      var r := 0;
      while r < maxRadius
        invariant 0 <= r <= maxRadius
        invariant forall q :: Walkable(terrain, q) ==> Chebyshev(q, t) >= r
      {
        var dy := -r;
        while dy <= r
          invariant -r <= dy <= r + 1
          invariant forall q :: Walkable(terrain, q) && Chebyshev(q, t) == r ==> q.1 - ty >= dy
        {
          var dx := -r;
          while dx <= r
            invariant -r <= dx <= r + 1
            invariant forall q :: Walkable(terrain, q) && Chebyshev(q, t) == r ==>
              q.1 - ty > dy || (q.1 - ty == dy && q.0 - tx >= dx)
          {
            if Abs(dx) == r || Abs(dy) == r {
              var x := tx + dx;
              var y := ty + dy;
              if IsValidPosition(terrain, x, y) && terrain[y, x].passable {
                assert Chebyshev((x, y), t) == r;
                return (x, y);
              }
            }
            dx := dx + 1;
          }
          dy := dy + 1;
        }
        r := r + 1;
      }
      p := FindSafeStartingPosition();
    }
  }
}
