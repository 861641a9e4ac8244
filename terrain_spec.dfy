/**
 * What the terrain generator computes, as pure functions on grids of tile
 * kinds (`g[y][x]`, `h` rows of `w` cells).  The imperative generator is
 * proved to produce exactly these grids; the lemmas here state what the
 * passes promise.
 *
 * Every random draw of the generator is an input: a pond's centre, coin
 * flip and one jitter value per offset of its square, a mountain range's
 * centre, coin flip and size draw.  Square roots are gone: a distance test
 * `sqrt(d2) <= t` with `t >= 0` is the same as `d2 <= t * t`.
 */
module TerrainSpec {
  import opened Tiles
  import Grid

  type KindGrid = seq<seq<Kind>>

  predicate IsGrid(g: KindGrid, w: int, h: int)
  {
    |g| == h && forall y :: 0 <= y < h ==> |g[y]| == w
  }

  predicate InGrid(w: int, h: int, x: int, y: int)
  {
    0 <= x < w && 0 <= y < h
  }

  /** The grid whose cell (x, y) is f(x, y). */
  function Tabulate(w: nat, h: nat, f: (int, int) -> Kind): (g: KindGrid)
    ensures IsGrid(g, w, h)
    ensures forall y, x :: InGrid(w, h, x, y) ==> g[y][x] == f(x, y)
  {
    seq(h, y => seq(w, x => f(x, y)))
  }

  /** The kind at (x, y); off the grid there is no tile, and Plain stands in. */
  function At(g: KindGrid, x: int, y: int): Kind
  {
    if 0 <= y < |g| && 0 <= x < |g[y]| then g[y][x] else Plain
  }

  predicate WaterAt(g: KindGrid, x: int, y: int)
  {
    0 <= y < |g| && 0 <= x < |g[y]| && g[y][x] == Water
  }

  /** Two grids of the same shape that agree cell by cell are equal. */
  lemma GridEq(g: KindGrid, g': KindGrid, w: nat, h: nat)
    requires IsGrid(g, w, h) && IsGrid(g', w, h)
    requires forall y, x :: InGrid(w, h, x, y) ==> g[y][x] == g'[y][x]
    ensures g == g'
  {
    forall y | 0 <= y < h ensures g[y] == g'[y] {
      assert forall x :: 0 <= x < w ==> g[y][x] == g'[y][x];
    }
  }

  /** `generate`'s starting grid: every cell a plain. */
  function PlainGrid(w: nat, h: nat): (g: KindGrid)
    ensures IsGrid(g, w, h)
    ensures forall y, x :: InGrid(w, h, x, y) ==> g[y][x] == Plain
  {
    Tabulate(w, h, (x, y) => Plain)
  }

  /** (x, y) lies in the square of half-side `size` around (cx, cy) that a stamp loops over. */
  predicate InSquare(cx: int, cy: int, size: int, x: int, y: int)
  {
    cx - size <= x <= cx + size && cy - size <= y <= cy + size
  }

  // ---- stamps: a pass over the square of half-side `size` around a centre ----

  /** Offset (dx, dy) comes before offset (x, y) in the stamp loops' row-by-row order. */
  predicate OffsetBefore(dx: int, dy: int, x: int, y: int)
  {
    dy < y || (dy == y && dx < x)
  }

  /**
   * The grid after a stamp: each in-grid cell of the square takes the kind
   * `f` gives for its old kind and its offset from the centre.
   */
  function Stamp(g: KindGrid, w: nat, h: nat, cx: int, cy: int, size: int, f: (Kind, int, int) -> Kind): (r: KindGrid)
    ensures IsGrid(r, w, h)
  {
    Tabulate(w, h, (x, y) => if InSquare(cx, cy, size, x, y) then f(At(g, x, y), x - cx, y - cy) else At(g, x, y))
  }

  /** The grid part-way through a stamp: offsets before (x, y) are done. */
  function StampUpTo(g: KindGrid, w: nat, h: nat, cx: int, cy: int, size: int, f: (Kind, int, int) -> Kind,
                     x: int, y: int): (r: KindGrid)
    ensures IsGrid(r, w, h)
  {
    Tabulate(w, h, (c, r) =>
      if InSquare(cx, cy, size, c, r) && OffsetBefore(c - cx, r - cy, x, y) then f(At(g, c, r), c - cx, r - cy)
      else At(g, c, r))
  }

  /** `g` with cell (x, y) set to `k`. */
  function Set(g: KindGrid, x: int, y: int, k: Kind): (r: KindGrid)
    requires 0 <= y < |g| && 0 <= x < |g[y]|
    ensures |r| == |g| && forall j :: 0 <= j < |g| ==> |r[j]| == |g[j]|
    ensures r[y][x] == k
    ensures forall j, i :: 0 <= j < |g| && 0 <= i < |g[j]| && (i != x || j != y) ==> r[j][i] == g[j][i]
  {
    g[y := g[y][x := k]]
  }

  lemma SetSame(g: KindGrid, x: int, y: int)
    requires 0 <= y < |g| && 0 <= x < |g[y]|
    ensures Set(g, x, y, g[y][x]) == g
  {
    assert g[y][x := g[y][x]] == g[y];
  }

  lemma StampUpToAt(g: KindGrid, w: nat, h: nat, cx: int, cy: int, size: int, f: (Kind, int, int) -> Kind,
                    x: int, y: int, c: int, r: int)
    requires InGrid(w, h, c, r)
    ensures StampUpTo(g, w, h, cx, cy, size, f, x, y)[r][c] ==
      if InSquare(cx, cy, size, c, r) && OffsetBefore(c - cx, r - cy, x, y) then f(At(g, c, r), c - cx, r - cy)
      else At(g, c, r)
  {
  }

  lemma StampStart(g: KindGrid, w: nat, h: nat, cx: int, cy: int, size: int, f: (Kind, int, int) -> Kind)
    requires IsGrid(g, w, h)
    ensures StampUpTo(g, w, h, cx, cy, size, f, -size, -size) == g
  {
    var a := StampUpTo(g, w, h, cx, cy, size, f, -size, -size);
    forall r, c | InGrid(w, h, c, r) ensures a[r][c] == g[r][c] {
      StampUpToAt(g, w, h, cx, cy, size, f, -size, -size, c, r);
    }
    GridEq(a, g, w, h);
  }

  /** One step of the inner loop: the cell at offset (x, y), if on the grid, takes its new kind. */
  lemma StampAdvance(g: KindGrid, w: nat, h: nat, cx: int, cy: int, size: int, f: (Kind, int, int) -> Kind,
                     x: int, y: int)
    requires IsGrid(g, w, h) && -size <= x <= size && -size <= y <= size
    ensures var before := StampUpTo(g, w, h, cx, cy, size, f, x, y);
      var after := StampUpTo(g, w, h, cx, cy, size, f, x + 1, y);
      if InGrid(w, h, cx + x, cy + y) then
        before[cy + y][cx + x] == g[cy + y][cx + x] && after == Set(before, cx + x, cy + y, f(g[cy + y][cx + x], x, y))
      else after == before
  {
    var before := StampUpTo(g, w, h, cx, cy, size, f, x, y);
    var after := StampUpTo(g, w, h, cx, cy, size, f, x + 1, y);
    if InGrid(w, h, cx + x, cy + y) {
      StampUpToAt(g, w, h, cx, cy, size, f, x, y, cx + x, cy + y);
      var updated := Set(before, cx + x, cy + y, f(g[cy + y][cx + x], x, y));
      forall r, c | InGrid(w, h, c, r) ensures after[r][c] == updated[r][c] {
        StampUpToAt(g, w, h, cx, cy, size, f, x, y, c, r);
        StampUpToAt(g, w, h, cx, cy, size, f, x + 1, y, c, r);
      }
      GridEq(after, updated, w, h);
    } else {
      forall r, c | InGrid(w, h, c, r) ensures after[r][c] == before[r][c] {
        StampUpToAt(g, w, h, cx, cy, size, f, x, y, c, r);
        StampUpToAt(g, w, h, cx, cy, size, f, x + 1, y, c, r);
      }
      GridEq(after, before, w, h);
    }
  }

  /** The end of a row of offsets is the start of the next. */
  lemma StampRow(g: KindGrid, w: nat, h: nat, cx: int, cy: int, size: int, f: (Kind, int, int) -> Kind, y: int)
    requires IsGrid(g, w, h)
    ensures StampUpTo(g, w, h, cx, cy, size, f, size + 1, y) == StampUpTo(g, w, h, cx, cy, size, f, -size, y + 1)
  {
    var a, b := StampUpTo(g, w, h, cx, cy, size, f, size + 1, y), StampUpTo(g, w, h, cx, cy, size, f, -size, y + 1);
    forall r, c | InGrid(w, h, c, r) ensures a[r][c] == b[r][c] {
      StampUpToAt(g, w, h, cx, cy, size, f, size + 1, y, c, r);
      StampUpToAt(g, w, h, cx, cy, size, f, -size, y + 1, c, r);
    }
    GridEq(a, b, w, h);
  }

  /** Past the last row of offsets the stamp is complete. */
  lemma StampEnd(g: KindGrid, w: nat, h: nat, cx: int, cy: int, size: int, f: (Kind, int, int) -> Kind, x: int, y: int)
    requires IsGrid(g, w, h) && y > size
    ensures StampUpTo(g, w, h, cx, cy, size, f, x, y) == Stamp(g, w, h, cx, cy, size, f)
  {
    var a, b := StampUpTo(g, w, h, cx, cy, size, f, x, y), Stamp(g, w, h, cx, cy, size, f);
    forall r, c | InGrid(w, h, c, r) ensures a[r][c] == b[r][c] {
      StampUpToAt(g, w, h, cx, cy, size, f, x, y, c, r);
    }
    GridEq(a, b, w, h);
  }

  // ---- createWaterBody ----

  /** How many jitter draws a pond of half-side `size` takes: one per offset of its square. */
  function JitterCount(size: int): nat
  {
    if size < 0 then 0 else (2 * size + 1) * (2 * size + 1)
  }

  /** The draw belonging to offset (dx, dy), counting the square row by row. */
  function JitterIndex(size: int, dx: int, dy: int): int
  {
    (dy + size) * (2 * size + 1) + (dx + size)
  }

  lemma JitterIndexInRange(size: int, dx: int, dy: int)
    requires -size <= dx <= size && -size <= dy <= size
    ensures 0 <= JitterIndex(size, dx, dy) < JitterCount(size)
  {
    var n := 2 * size + 1;
    assert (dy + size) * n <= (n - 1) * n by {
      assert dy + size <= n - 1;
    }
  }

  /** `distance <= size * (0.5 + u * 0.3)`, with the square root squared away. */
  predicate InPond(size: int, u: real, dx: int, dy: int)
  {
    var t := size as real * (0.5 + u * 0.3);
    0.0 <= t && (dx * dx + dy * dy) as real <= t * t
  }

  /** What a pond does to one cell of its square at offset (dx, dy), given the cell's kind `k`. */
  function PondKind(size: int, jitter: seq<real>, k: Kind, dx: int, dy: int): Kind
  {
    var i := JitterIndex(size, dx, dy);
    if 0 <= i < |jitter| && InPond(size, jitter[i], dx, dy) then Water else k
  }

  /** The grid after `createWaterBody(terrain, cx, cy, size)` with the given jitter draws. */
  function PondStamp(g: KindGrid, w: nat, h: nat, cx: int, cy: int, size: int, jitter: seq<real>): (r: KindGrid)
    ensures IsGrid(r, w, h)
  {
    Stamp(g, w, h, cx, cy, size, PondRule(size, jitter))
  }

  function PondRule(size: int, jitter: seq<real>): (Kind, int, int) -> Kind
  {
    (k, dx, dy) => PondKind(size, jitter, k, dx, dy)
  }

  predicate IsDraw(u: real)
  {
    0.0 <= u < 1.0
  }

  predicate PondDraws(size: int, jitter: seq<real>)
  {
    |jitter| == JitterCount(size) && forall i :: 0 <= i < |jitter| ==> IsDraw(jitter[i])
  }

  /** A finished `createWaterBody` sweep is the pond stamp. */
  lemma PondEnd(g: KindGrid, w: nat, h: nat, cx: int, cy: int, size: int, jitter: seq<real>, y: int)
    requires IsGrid(g, w, h) && y > size
    ensures StampUpTo(g, w, h, cx, cy, size, PondRule(size, jitter), -size, y) == PondStamp(g, w, h, cx, cy, size, jitter)
  {
    StampEnd(g, w, h, cx, cy, size, PondRule(size, jitter), -size, y);
  }

  /**
   * A pond writes nothing but water, and nothing outside its square; on the
   * grid, every other cell keeps its kind.
   */
  lemma PondOnlyWritesWater(g: KindGrid, w: nat, h: nat, cx: int, cy: int, size: int, jitter: seq<real>, x: int, y: int)
    requires IsGrid(g, w, h) && InGrid(w, h, x, y)
    ensures var r := PondStamp(g, w, h, cx, cy, size, jitter);
      r[y][x] == g[y][x] || (r[y][x] == Water && InSquare(cx, cy, size, x, y))
  {
  }

  /**
   * The ponds `generate` makes have size 2: the threshold 2 * (0.5 + 0.3u)
   * lies in [1, 1.6), so the centre and its four orthogonal neighbours always
   * turn to water, and no cell at squared distance 4 or more ever does.
   */
  lemma SmallPondShape(g: KindGrid, w: nat, h: nat, cx: int, cy: int, jitter: seq<real>, x: int, y: int)
    requires IsGrid(g, w, h) && InGrid(w, h, x, y) && PondDraws(2, jitter)
    ensures var d2 := (x - cx) * (x - cx) + (y - cy) * (y - cy);
      var r := PondStamp(g, w, h, cx, cy, 2, jitter);
      (d2 <= 1 ==> r[y][x] == Water) && (d2 >= 4 ==> r[y][x] == g[y][x])
  {
    var dx, dy := x - cx, y - cy;
    var d2 := dx * dx + dy * dy;
    if d2 <= 1 {
      SquareBound(dx, dy, 2);
    }
    if InSquare(cx, cy, 2, x, y) {
      JitterIndexInRange(2, dx, dy);
      var u := jitter[JitterIndex(2, dx, dy)];
      var t := 2.0 * (0.5 + u * 0.3);
      assert 1.0 <= t < 1.6;
      assert 1.0 <= t * t < 2.56 by {
        assert t * t >= 1.0 * t;
        assert t * t < 1.6 * t;
      }
      if d2 <= 1 {
        assert InPond(2, u, dx, dy);
      }
      if d2 >= 4 {
        assert !InPond(2, u, dx, dy);
      }
    }
  }

  // ---- addSandAroundWater ----

  /** (nx, ny) is one of the eight cells around (x, y). */
  predicate Adjacent8(x: int, y: int, nx: int, ny: int)
  {
    -1 <= nx - x <= 1 && -1 <= ny - y <= 1 && (nx != x || ny != y)
  }

  /** Some 8-neighbour of (x, y) on the grid is water. */
  predicate NearWater(g: KindGrid, x: int, y: int)
  {
    exists ny, nx | y - 1 <= ny <= y + 1 && x - 1 <= nx <= x + 1 :: Adjacent8(x, y, nx, ny) && WaterAt(g, nx, ny)
  }

  function SandAt(g: KindGrid, x: int, y: int): Kind
  {
    if At(g, x, y) != Water && NearWater(g, x, y) then Sand else At(g, x, y)
  }

  /** The grid `addSandAroundWater` returns: it reads `g` and writes a copy, so sand never spreads from sand. */
  function SandPass(g: KindGrid, w: nat, h: nat): (r: KindGrid)
    ensures IsGrid(r, w, h)
  {
    Tabulate(w, h, (x, y) => SandAt(g, x, y))
  }

  /**
   * What the neighbour loops around one water cell do to the copy: every
   * in-grid cell of the 3 x 3 square except the centre that is not water
   * becomes sand.
   */
  function SandRule(): (Kind, int, int) -> Kind
  {
    (k, dx, dy) => if (dx != 0 || dy != 0) && k != Water then Sand else k
  }

  /** Some 8-neighbour of (c, r) before (x, y) in row-major order is water. */
  predicate WaterBefore(g: KindGrid, c: int, r: int, x: int, y: int)
  {
    exists ny, nx | r - 1 <= ny <= r + 1 && c - 1 <= nx <= c + 1 ::
      Adjacent8(c, r, nx, ny) && WaterAt(g, nx, ny) && OffsetBefore(nx, ny, x, y)
  }

  /** The copy part-way through `addSandAroundWater`: water cells before (x, y) have put their sand down. */
  function SandUpTo(g: KindGrid, w: nat, h: nat, x: int, y: int): (r: KindGrid)
    ensures IsGrid(r, w, h)
  {
    Tabulate(w, h, (c, r) => if At(g, c, r) != Water && WaterBefore(g, c, r, x, y) then Sand else At(g, c, r))
  }

  lemma SandUpToAt(g: KindGrid, w: nat, h: nat, x: int, y: int, c: int, r: int)
    requires InGrid(w, h, c, r)
    ensures SandUpTo(g, w, h, x, y)[r][c] == if At(g, c, r) != Water && WaterBefore(g, c, r, x, y) then Sand else At(g, c, r)
  {
  }

  /**
   * One in-bounds neighbour step of the sand pass: the neighbour becomes sand
   * unless the original grid has water there.
   */
  lemma SandStep(g: KindGrid, w: nat, h: nat, x: int, y: int, dx: int, dy: int)
    requires IsGrid(g, w, h) && InGrid(w, h, x, y) && InGrid(w, h, x + dx, y + dy)
    requires -1 <= dx <= 1 && -1 <= dy <= 1 && (dx != 0 || dy != 0)
    ensures var cur := StampUpTo(SandUpTo(g, w, h, x, y), w, h, x, y, 1, SandRule(), dx, dy);
      StampUpTo(SandUpTo(g, w, h, x, y), w, h, x, y, 1, SandRule(), dx + 1, dy)
        == Set(cur, x + dx, y + dy, if g[y + dy][x + dx] != Water then Sand else cur[y + dy][x + dx])
  {
    var before := SandUpTo(g, w, h, x, y);
    StampAdvance(before, w, h, x, y, 1, SandRule(), dx, dy);
    SandUpToAt(g, w, h, x, y, x + dx, y + dy);
  }

  lemma SandStart(g: KindGrid, w: nat, h: nat)
    requires IsGrid(g, w, h)
    ensures SandUpTo(g, w, h, 0, 0) == g
  {
    var a := SandUpTo(g, w, h, 0, 0);
    forall r, c | InGrid(w, h, c, r) ensures a[r][c] == g[r][c] {
      SandUpToAt(g, w, h, 0, 0, c, r);
    }
    GridEq(a, g, w, h);
  }

  /** Handling source (x, y) adds exactly its own neighbours to the marked ones. */
  lemma WaterBeforeStep(g: KindGrid, c: int, r: int, x: int, y: int)
    ensures WaterBefore(g, c, r, x + 1, y) <==> WaterBefore(g, c, r, x, y) || (Adjacent8(c, r, x, y) && WaterAt(g, x, y))
  {
    if WaterBefore(g, c, r, x + 1, y) && !WaterBefore(g, c, r, x, y) {
      var ny, nx :| r - 1 <= ny <= r + 1 && c - 1 <= nx <= c + 1 &&
        Adjacent8(c, r, nx, ny) && WaterAt(g, nx, ny) && OffsetBefore(nx, ny, x + 1, y);
      assert !OffsetBefore(nx, ny, x, y);
    }
    if Adjacent8(c, r, x, y) && WaterAt(g, x, y) {
      assert OffsetBefore(x, y, x + 1, y);
    }
  }

  /** After a water cell: its sand is down.  After any other cell: nothing changed. */
  lemma SandAdvance(g: KindGrid, w: nat, h: nat, x: int, y: int)
    requires IsGrid(g, w, h) && InGrid(w, h, x, y)
    ensures g[y][x] == Water ==> Stamp(SandUpTo(g, w, h, x, y), w, h, x, y, 1, SandRule()) == SandUpTo(g, w, h, x + 1, y)
    ensures g[y][x] != Water ==> SandUpTo(g, w, h, x + 1, y) == SandUpTo(g, w, h, x, y)
  {
    var before, after := SandUpTo(g, w, h, x, y), SandUpTo(g, w, h, x + 1, y);
    var stamped := Stamp(before, w, h, x, y, 1, SandRule());
    forall r, c | InGrid(w, h, c, r)
      ensures g[y][x] == Water ==> stamped[r][c] == after[r][c]
      ensures g[y][x] != Water ==> after[r][c] == before[r][c]
    {
      SandUpToAt(g, w, h, x, y, c, r);
      SandUpToAt(g, w, h, x + 1, y, c, r);
      WaterBeforeStep(g, c, r, x, y);
    }
    if g[y][x] == Water {
      GridEq(stamped, after, w, h);
    } else {
      GridEq(after, before, w, h);
    }
  }

  /** The end of a row of sources is the start of the next. */
  lemma SandRow(g: KindGrid, w: nat, h: nat, y: int)
    requires IsGrid(g, w, h)
    ensures SandUpTo(g, w, h, w, y) == SandUpTo(g, w, h, 0, y + 1)
  {
    var a, b := SandUpTo(g, w, h, w, y), SandUpTo(g, w, h, 0, y + 1);
    forall r, c | InGrid(w, h, c, r) ensures a[r][c] == b[r][c] {
      SandUpToAt(g, w, h, w, y, c, r);
      SandUpToAt(g, w, h, 0, y + 1, c, r);
      if WaterBefore(g, c, r, w, y) {
        var ny, nx :| r - 1 <= ny <= r + 1 && c - 1 <= nx <= c + 1 &&
          Adjacent8(c, r, nx, ny) && WaterAt(g, nx, ny) && OffsetBefore(nx, ny, w, y);
        assert OffsetBefore(nx, ny, 0, y + 1);
      }
      if WaterBefore(g, c, r, 0, y + 1) {
        var ny, nx :| r - 1 <= ny <= r + 1 && c - 1 <= nx <= c + 1 &&
          Adjacent8(c, r, nx, ny) && WaterAt(g, nx, ny) && OffsetBefore(nx, ny, 0, y + 1);
        assert OffsetBefore(nx, ny, w, y);
      }
    }
    GridEq(a, b, w, h);
  }

  /** After the last row every water cell has put its sand down. */
  lemma SandEnd(g: KindGrid, w: nat, h: nat)
    requires IsGrid(g, w, h)
    ensures SandUpTo(g, w, h, 0, h) == SandPass(g, w, h)
  {
    var a, b := SandUpTo(g, w, h, 0, h), SandPass(g, w, h);
    forall r, c | InGrid(w, h, c, r) ensures a[r][c] == b[r][c] {
      SandUpToAt(g, w, h, 0, h, c, r);
      if NearWater(g, c, r) {
        var ny, nx :| r - 1 <= ny <= r + 1 && c - 1 <= nx <= c + 1 && Adjacent8(c, r, nx, ny) && WaterAt(g, nx, ny);
        assert OffsetBefore(nx, ny, 0, h);
      }
    }
    GridEq(a, b, w, h);
  }

  /** The sand pass keeps every water cell and makes no new one. */
  lemma SandKeepsWater(g: KindGrid, w: nat, h: nat, x: int, y: int)
    requires IsGrid(g, w, h) && InGrid(w, h, x, y)
    ensures SandPass(g, w, h)[y][x] == Water <==> g[y][x] == Water
  {
  }

  /**
   * Every non-water cell next to water (diagonals included) becomes sand;
   * every other cell keeps its kind.
   */
  lemma SandRing(g: KindGrid, w: nat, h: nat, x: int, y: int)
    requires IsGrid(g, w, h) && InGrid(w, h, x, y)
    ensures g[y][x] != Water && NearWater(g, x, y) ==> SandPass(g, w, h)[y][x] == Sand
    ensures !(g[y][x] != Water && NearWater(g, x, y)) ==> SandPass(g, w, h)[y][x] == g[y][x]
  {
  }

  /** Fewer water cells, fewer shore cells. */
  lemma DrierLessShore(g: KindGrid, g': KindGrid, w: nat, h: nat, x: int, y: int)
    requires IsGrid(g, w, h) && IsGrid(g', w, h)
    requires forall y, x :: InGrid(w, h, x, y) && g'[y][x] == Water ==> g[y][x] == Water
    ensures NearWater(g', x, y) ==> NearWater(g, x, y)
  {
    if NearWater(g', x, y) {
      var ny, nx :| y - 1 <= ny <= y + 1 && x - 1 <= nx <= x + 1 && Adjacent8(x, y, nx, ny) && WaterAt(g', nx, ny);
      assert WaterAt(g, nx, ny);
    }
  }

  lemma SameWaterSameShore(g: KindGrid, g': KindGrid, w: nat, h: nat, x: int, y: int)
    requires IsGrid(g, w, h) && IsGrid(g', w, h)
    requires forall y, x :: InGrid(w, h, x, y) ==> (g[y][x] == Water <==> g'[y][x] == Water)
    ensures NearWater(g, x, y) <==> NearWater(g', x, y)
  {
    DrierLessShore(g, g', w, h, x, y);
    DrierLessShore(g', g, w, h, x, y);
  }

  /** Sand does not cascade: a second pass changes nothing. */
  lemma SandIdempotent(g: KindGrid, w: nat, h: nat)
    requires IsGrid(g, w, h)
    ensures SandPass(SandPass(g, w, h), w, h) == SandPass(g, w, h)
  {
    var r := SandPass(g, w, h);
    var rr := SandPass(r, w, h);
    forall y, x | InGrid(w, h, x, y)
      ensures rr[y][x] == r[y][x]
    {
      forall y', x' | InGrid(w, h, x', y') ensures (g[y'][x'] == Water <==> r[y'][x'] == Water) {
        SandKeepsWater(g, w, h, x', y');
      }
      SameWaterSameShore(g, r, w, h, x, y);
    }
    forall y | 0 <= y < h ensures rr[y] == r[y] { }
  }

  /** No plain or hill cell touches water: the shore is sand (or mountain). */
  ghost predicate Shored(g: KindGrid, w: nat, h: nat)
  {
    IsGrid(g, w, h) &&
    forall y, x :: InGrid(w, h, x, y) && (g[y][x] == Plain || g[y][x] == Hill) ==> !NearWater(g, x, y)
  }

  lemma SandPassShores(g: KindGrid, w: nat, h: nat)
    requires IsGrid(g, w, h)
    ensures Shored(SandPass(g, w, h), w, h)
  {
    var r := SandPass(g, w, h);
    forall y, x | InGrid(w, h, x, y) && (r[y][x] == Plain || r[y][x] == Hill)
      ensures !NearWater(r, x, y)
    {
      forall y', x' | InGrid(w, h, x', y') ensures (g[y'][x'] == Water <==> r[y'][x'] == Water) {
        SandKeepsWater(g, w, h, x', y');
      }
      SameWaterSameShore(g, r, w, h, x, y);
    }
  }

  // ---- createMountainRange ----

  /** `2 + Math.floor(Math.random() * 3)`. */
  function MountainSize(u: real): int
  {
    2 + (u * 3.0).Floor
  }

  lemma MountainSizeRange(u: real)
    requires IsDraw(u)
    ensures 2 <= MountainSize(u) <= 4
  {
  }

  /** What a range does to one cell of its square at offset (dx, dy), given the cell's kind `k`. */
  function MountainKind(size: int, k: Kind, dx: int, dy: int): Kind
  {
    var d2 := dx * dx + dy * dy;
    if d2 <= size * size then
      if 4 * d2 <= size * size then Mountain
      else if k == Plain then Hill
      else k
    else k
  }

  /** The grid after `createMountainRange(terrain, cx, cy)` with a range of half-side `size`. */
  function MountainStamp(g: KindGrid, w: nat, h: nat, cx: int, cy: int, size: int): (r: KindGrid)
    ensures IsGrid(r, w, h)
  {
    Stamp(g, w, h, cx, cy, size, MountainRule(size))
  }

  function MountainRule(size: int): (Kind, int, int) -> Kind
  {
    (k, dx, dy) => MountainKind(size, k, dx, dy)
  }

  /** A finished `createMountainRange` sweep is the mountain stamp. */
  lemma RangeEnd(g: KindGrid, w: nat, h: nat, cx: int, cy: int, size: int, y: int)
    requires IsGrid(g, w, h) && y > size
    ensures StampUpTo(g, w, h, cx, cy, size, MountainRule(size), -size, y) == MountainStamp(g, w, h, cx, cy, size)
  {
    StampEnd(g, w, h, cx, cy, size, MountainRule(size), -size, y);
  }

  /**
   * The core (distance at most half the size) is mountain whatever was
   * there; the rest of the disc turns hill exactly where it was plain; the
   * rest of the grid is untouched.
   */
  lemma MountainShape(g: KindGrid, w: nat, h: nat, cx: int, cy: int, size: int, x: int, y: int)
    requires IsGrid(g, w, h) && InGrid(w, h, x, y) && size >= 0
    ensures var d2 := (x - cx) * (x - cx) + (y - cy) * (y - cy);
      var r := MountainStamp(g, w, h, cx, cy, size);
      (4 * d2 <= size * size ==> r[y][x] == Mountain) &&
      (size * size < 4 * d2 && d2 <= size * size ==> r[y][x] == (if g[y][x] == Plain then Hill else g[y][x])) &&
      (size * size < d2 ==> r[y][x] == g[y][x])
  {
    var dx, dy := x - cx, y - cy;
    if dx * dx + dy * dy <= size * size {
      SquareBound(dx, dy, size);
    }
  }

  /** Within the disc means within the square the loops visit. */
  lemma SquareBound(dx: int, dy: int, size: int)
    requires size >= 0 && dx * dx + dy * dy <= size * size
    ensures -size <= dx <= size && -size <= dy <= size
  {
    var ax, ay := Grid.Abs(dx), Grid.Abs(dy);
    assert ax * ax == dx * dx && ay * ay == dy * dy;
    if ax > size {
      SquareGrows(ax, size);
      assert false;
    }
    if ay > size {
      SquareGrows(ay, size);
      assert false;
    }
  }

  lemma SquareGrows(a: nat, b: nat)
    requires a > b
    ensures a * a > b * b
  {
    assert a * a >= a * (b + 1) >= (b + 1) * (b + 1) > b * b;
  }

  /** A mountain range turns no cell into water and no plain or hill into a shore cell: it keeps the shore. */
  lemma MountainKeepsShore(g: KindGrid, w: nat, h: nat, cx: int, cy: int, size: int)
    requires IsGrid(g, w, h) && Shored(g, w, h)
    ensures Shored(MountainStamp(g, w, h, cx, cy, size), w, h)
  {
    var r := MountainStamp(g, w, h, cx, cy, size);
    forall y, x | InGrid(w, h, x, y) && (r[y][x] == Plain || r[y][x] == Hill)
      ensures !NearWater(r, x, y)
    {
      assert g[y][x] == Plain || g[y][x] == Hill;
      DrierLessShore(g, r, w, h, x, y);
    }
  }

  // ---- generate ----

  /** `Math.floor(width * height * 0.025)`: how many pond and how many mountain attempts. */
  function AttemptCount(w: nat, h: nat): nat
  {
    (w * h) / 40
  }

  /** `Math.floor(Math.random() * n)`. */
  function Scale(u: real, n: int): int
  {
    (u * n as real).Floor
  }

  lemma ScaleInRange(u: real, n: int)
    requires IsDraw(u) && n > 0
    ensures 0 <= Scale(u, n) < n
  {
    assert 0.0 <= u * n as real < n as real by {
      assert u * n as real < 1.0 * n as real;
    }
  }

  /** The draws of one water attempt: centre, the 70% coin and the jitter of a size-2 pond. */
  datatype WaterAttempt = WaterAttempt(ux: real, uy: real, coin: real, jitter: seq<real>)

  /** The draws of one mountain attempt: centre, the 60% coin and the size. */
  datatype MountainAttempt = MountainAttempt(ux: real, uy: real, coin: real, sizeDraw: real)

  predicate WaterDraws(a: WaterAttempt)
  {
    IsDraw(a.ux) && IsDraw(a.uy) && IsDraw(a.coin) && PondDraws(2, a.jitter)
  }

  predicate MountainDraws(a: MountainAttempt)
  {
    IsDraw(a.ux) && IsDraw(a.uy) && IsDraw(a.coin) && IsDraw(a.sizeDraw)
  }

  function WaterStep(g: KindGrid, w: nat, h: nat, a: WaterAttempt): (r: KindGrid)
  {
    if a.coin < 0.7 then PondStamp(g, w, h, Scale(a.ux, w), Scale(a.uy, h), 2, a.jitter) else g
  }

  function MountainStep(g: KindGrid, w: nat, h: nat, a: MountainAttempt): (r: KindGrid)
  {
    if a.coin < 0.6 then MountainStamp(g, w, h, Scale(a.ux, w), Scale(a.uy, h), MountainSize(a.sizeDraw)) else g
  }

  /** The water attempts in order. */
  function Ponds(g: KindGrid, w: nat, h: nat, attempts: seq<WaterAttempt>): (r: KindGrid)
    requires IsGrid(g, w, h)
    ensures IsGrid(r, w, h)
  {
    if attempts == [] then g
    else WaterStep(Ponds(g, w, h, attempts[..|attempts| - 1]), w, h, attempts[|attempts| - 1])
  }

  /** The mountain attempts in order. */
  function Ranges(g: KindGrid, w: nat, h: nat, attempts: seq<MountainAttempt>): (r: KindGrid)
    requires IsGrid(g, w, h)
    ensures IsGrid(r, w, h)
  {
    if attempts == [] then g
    else MountainStep(Ranges(g, w, h, attempts[..|attempts| - 1]), w, h, attempts[|attempts| - 1])
  }

  lemma PondsStep(g: KindGrid, w: nat, h: nat, attempts: seq<WaterAttempt>, i: nat)
    requires IsGrid(g, w, h) && i < |attempts|
    ensures Ponds(g, w, h, attempts[..i + 1]) == WaterStep(Ponds(g, w, h, attempts[..i]), w, h, attempts[i])
  {
    assert attempts[..i + 1][..i] == attempts[..i];
  }

  lemma RangesStep(g: KindGrid, w: nat, h: nat, attempts: seq<MountainAttempt>, i: nat)
    requires IsGrid(g, w, h) && i < |attempts|
    ensures Ranges(g, w, h, attempts[..i + 1]) == MountainStep(Ranges(g, w, h, attempts[..i]), w, h, attempts[i])
  {
    assert attempts[..i + 1][..i] == attempts[..i];
  }

  /** `generate`: plains, then all ponds, then the sand border, then all mountain ranges. */
  function Generated(w: nat, h: nat, ponds: seq<WaterAttempt>, ranges: seq<MountainAttempt>): (r: KindGrid)
    ensures IsGrid(r, w, h)
  {
    Ranges(SandPass(Ponds(PlainGrid(w, h), w, h, ponds), w, h), w, h, ranges)
  }

  lemma {:induction false} RangesKeepShore(g: KindGrid, w: nat, h: nat, attempts: seq<MountainAttempt>)
    requires IsGrid(g, w, h) && Shored(g, w, h)
    ensures Shored(Ranges(g, w, h, attempts), w, h)
  {
    if attempts != [] {
      var a := attempts[|attempts| - 1];
      var before := Ranges(g, w, h, attempts[..|attempts| - 1]);
      RangesKeepShore(g, w, h, attempts[..|attempts| - 1]);
      if a.coin < 0.6 {
        MountainKeepsShore(before, w, h, Scale(a.ux, w), Scale(a.uy, h), MountainSize(a.sizeDraw));
      }
    }
  }

  /** On a generated map no plain or hill cell touches water. */
  lemma GeneratedIsShored(w: nat, h: nat, ponds: seq<WaterAttempt>, ranges: seq<MountainAttempt>)
    ensures Shored(Generated(w, h, ponds, ranges), w, h)
  {
    var wet := Ponds(PlainGrid(w, h), w, h, ponds);
    SandPassShores(wet, w, h);
    RangesKeepShore(SandPass(wet, w, h), w, h, ranges);
  }
}
