/**
 * `TerrainGenerator`: builds the tile grid in place.  Each pass is proved to
 * turn the grid's kinds into exactly what the corresponding function of
 * `TerrainSpec` prescribes, and every cell always holds a fresh copy of a
 * catalogue tile, never a catalogue object itself.
 */
module TerrainGeneration {
  import opened Tiles
  import opened TerrainSpec

  class TerrainGenerator {
    const width: nat
    const height: nat
    const terrainTypes: TerrainTypes

    constructor (width: nat, height: nat)
      ensures this.width == width && this.height == height
      ensures Valid() && fresh(terrainTypes)
    {
      this.width := width;
      this.height := height;
      terrainTypes := new TerrainTypes();
    }

    ghost predicate Valid()
    {
      terrainTypes.Valid()
    }

    /** A `height x width` grid of catalogue copies. */
    ghost predicate Shaped(a: array2<Tile>)
      reads a
    {
      a.Length0 == height && a.Length1 == width &&
      forall y, x :: 0 <= y < height && 0 <= x < width ==> a[y, x].Valid() && a[y, x] !in terrainTypes.Objects()
    }

    ghost function KindAt(a: array2<Tile>, x: int, y: int): Kind
      requires Shaped(a) && InGrid(width, height, x, y)
      reads a
    {
      a[y, x].KindOf()
    }

    /** The kinds of the grid's tiles. */
    ghost function Kinds(a: array2<Tile>): (g: KindGrid)
      requires Shaped(a)
      reads a
      ensures IsGrid(g, width, height)
      ensures forall y, x :: InGrid(width, height, x, y) ==> g[y][x] == KindAt(a, x, y)
    {
      seq(height, y requires 0 <= y < height && Shaped(a) reads a =>
        seq(width, x requires 0 <= x < width && 0 <= y < height && Shaped(a) reads a => KindAt(a, x, y)))
    }

    /** `terrain[y][x] = {...this.terrainTypes.K}`: a fresh copy of the template of kind `k` goes into one cell. */
    method Put(terrain: array2<Tile>, x: int, y: int, k: Kind)
      requires Valid() && Shaped(terrain) && InGrid(width, height, x, y)
      modifies terrain
      ensures Shaped(terrain)
      ensures Kinds(terrain) == Set(old(Kinds(terrain)), x, y, k)
    {
      ghost var before := Kinds(terrain);
      var t := terrainTypes.Copy(k);
      terrain[y, x] := t;
      GridEq(Kinds(terrain), Set(before, x, y, k), width, height);
    }

    /** The body of `createWaterBody`'s loops: the cell at offset (x, y), if on the grid, may turn to water. */
    method PondCell(terrain: array2<Tile>, ghost g: KindGrid, centerX: int, centerY: int, size: int, jitter: seq<real>,
                    x: int, y: int)
      requires Valid() && Shaped(terrain) && IsGrid(g, width, height) && |jitter| == JitterCount(size)
      requires -size <= x <= size && -size <= y <= size
      requires Kinds(terrain) == StampUpTo(g, width, height, centerX, centerY, size, PondRule(size, jitter), x, y)
      modifies terrain
      ensures Shaped(terrain)
      ensures Kinds(terrain) == StampUpTo(g, width, height, centerX, centerY, size, PondRule(size, jitter), x + 1, y)
    {
      StampAdvance(g, width, height, centerX, centerY, size, PondRule(size, jitter), x, y);
      var currentX := centerX + x;
      var currentY := centerY + y;
      if currentX >= 0 && currentX < width && currentY >= 0 && currentY < height {
        JitterIndexInRange(size, x, y);
        ghost var before := Kinds(terrain);
        if InPond(size, jitter[JitterIndex(size, x, y)], x, y) {
          Put(terrain, currentX, currentY, Water);
        } else {
          SetSame(before, currentX, currentY);
        }
      }
    }

    /** One row of `createWaterBody`'s offsets. */
    method PondRow(terrain: array2<Tile>, ghost g: KindGrid, centerX: int, centerY: int, size: int, jitter: seq<real>, y: int)
      requires Valid() && Shaped(terrain) && IsGrid(g, width, height) && |jitter| == JitterCount(size)
      requires -size <= y <= size
      requires Kinds(terrain) == StampUpTo(g, width, height, centerX, centerY, size, PondRule(size, jitter), -size, y)
      modifies terrain
      ensures Shaped(terrain)
      ensures Kinds(terrain) == StampUpTo(g, width, height, centerX, centerY, size, PondRule(size, jitter), -size, y + 1)
    {
      var x := -size;
      while x <= size
        invariant -size <= x <= size + 1
        invariant Shaped(terrain)
        invariant Kinds(terrain) == StampUpTo(g, width, height, centerX, centerY, size, PondRule(size, jitter), x, y)
      {
        PondCell(terrain, g, centerX, centerY, size, jitter, x, y);
        x := x + 1;
      }
      StampRow(g, width, height, centerX, centerY, size, PondRule(size, jitter), y);
    }

    /**
     * `createWaterBody`: every in-bounds cell of the square around the centre
     * whose distance is within `size * (0.5 + 0.3u)`, for its own draw `u`,
     * becomes a fresh water tile; nothing else changes.
     */
    method CreateWaterBody(terrain: array2<Tile>, centerX: int, centerY: int, size: int, jitter: seq<real>)
      requires Valid() && Shaped(terrain) && |jitter| == JitterCount(size)
      modifies terrain
      ensures Shaped(terrain)
      ensures Kinds(terrain) == PondStamp(old(Kinds(terrain)), width, height, centerX, centerY, size, jitter)
    {
      ghost var g := Kinds(terrain);
      StampStart(g, width, height, centerX, centerY, size, PondRule(size, jitter));
      var y := -size;
      while y <= size
        invariant -size <= y && (y <= size + 1 || y == -size)
        invariant Shaped(terrain)
        invariant Kinds(terrain) == StampUpTo(g, width, height, centerX, centerY, size, PondRule(size, jitter), -size, y)
      {
        PondRow(terrain, g, centerX, centerY, size, jitter, y);
        y := y + 1;
      }
      PondEnd(g, width, height, centerX, centerY, size, jitter, y);
    }

    /** The body of `createMountainRange`'s loops: the cell at offset (x, y), if on the grid and in the disc, becomes mountain or hill. */
    method RangeCell(terrain: array2<Tile>, ghost g: KindGrid, centerX: int, centerY: int, size: int, x: int, y: int)
      requires Valid() && Shaped(terrain) && IsGrid(g, width, height)
      requires -size <= x <= size && -size <= y <= size
      requires Kinds(terrain) == StampUpTo(g, width, height, centerX, centerY, size, MountainRule(size), x, y)
      modifies terrain
      ensures Shaped(terrain)
      ensures Kinds(terrain) == StampUpTo(g, width, height, centerX, centerY, size, MountainRule(size), x + 1, y)
    {
      StampAdvance(g, width, height, centerX, centerY, size, MountainRule(size), x, y);
      var currentX := centerX + x;
      var currentY := centerY + y;
      if currentX >= 0 && currentX < width && currentY >= 0 && currentY < height {
        RangePut(terrain, currentX, currentY, size, x, y);
      }
    }

    /** One in-bounds cell of a range: mountain in the core, hill over plain in the rest of the disc. */
    method RangePut(terrain: array2<Tile>, currentX: int, currentY: int, size: int, x: int, y: int)
      requires Valid() && Shaped(terrain) && InGrid(width, height, currentX, currentY)
      modifies terrain
      ensures Shaped(terrain)
      ensures Kinds(terrain) == Set(old(Kinds(terrain)), currentX, currentY, MountainKind(size, old(KindAt(terrain, currentX, currentY)), x, y))
    {
      ghost var before := Kinds(terrain);
      var distance2 := x * x + y * y;
      if distance2 <= size * size {
        if 4 * distance2 <= size * size {
          Put(terrain, currentX, currentY, Mountain);
        } else if terrain[currentY, currentX].color == terrainTypes.plain.color {
          Put(terrain, currentX, currentY, Hill);
        } else {
          ColorDeterminesKind(terrain[currentY, currentX].KindOf(), Plain);
          SetSame(before, currentX, currentY);
        }
      } else {
        SetSame(before, currentX, currentY);
      }
    }

    /** One row of `createMountainRange`'s offsets. */
    method RangeRow(terrain: array2<Tile>, ghost g: KindGrid, centerX: int, centerY: int, size: int, y: int)
      requires Valid() && Shaped(terrain) && IsGrid(g, width, height)
      requires -size <= y <= size
      requires Kinds(terrain) == StampUpTo(g, width, height, centerX, centerY, size, MountainRule(size), -size, y)
      modifies terrain
      ensures Shaped(terrain)
      ensures Kinds(terrain) == StampUpTo(g, width, height, centerX, centerY, size, MountainRule(size), -size, y + 1)
    {
      var x := -size;
      while x <= size
        invariant -size <= x <= size + 1
        invariant Shaped(terrain)
        invariant Kinds(terrain) == StampUpTo(g, width, height, centerX, centerY, size, MountainRule(size), x, y)
      {
        RangeCell(terrain, g, centerX, centerY, size, x, y);
        x := x + 1;
      }
      StampRow(g, width, height, centerX, centerY, size, MountainRule(size), y);
    }

    /**
     * `createMountainRange`: a range of size 2 + floor(3u); the cells of its
     * core become fresh mountain tiles whatever they were, the rest of its
     * disc turns plains into hills; nothing else changes.
     */
    method CreateMountainRange(terrain: array2<Tile>, centerX: int, centerY: int, sizeDraw: real)
      requires Valid() && Shaped(terrain)
      modifies terrain
      ensures Shaped(terrain)
      ensures Kinds(terrain) == MountainStamp(old(Kinds(terrain)), width, height, centerX, centerY, MountainSize(sizeDraw))
    {
      var size := MountainSize(sizeDraw);
      ghost var g := Kinds(terrain);
      StampStart(g, width, height, centerX, centerY, size, MountainRule(size));
      var y := -size;
      while y <= size
        invariant -size <= y && (y <= size + 1 || y == -size)
        invariant Shaped(terrain)
        invariant Kinds(terrain) == StampUpTo(g, width, height, centerX, centerY, size, MountainRule(size), -size, y)
      {
        RangeRow(terrain, g, centerX, centerY, size, y);
        y := y + 1;
      }
      RangeEnd(g, width, height, centerX, centerY, size, y);
    }

    /** `JSON.parse(JSON.stringify(terrain))`: a new grid of fresh tiles with the same fields. */
    method DeepCopy(terrain: array2<Tile>) returns (copy: array2<Tile>)
      requires Shaped(terrain)
      ensures fresh(copy) && Shaped(copy) && Kinds(copy) == Kinds(terrain)
    {
      copy := new Tile[height, width]((y, x) requires 0 <= y < terrain.Length0 && 0 <= x < terrain.Length1 reads terrain => terrain[y, x]);
      for y := 0 to height
        invariant Shaped(copy)
        invariant forall r, c :: InGrid(width, height, c, r) ==> KindAt(copy, c, r) == KindAt(terrain, c, r)
      {
        for x := 0 to width
          invariant Shaped(copy)
          invariant forall r, c :: InGrid(width, height, c, r) ==> KindAt(copy, c, r) == KindAt(terrain, c, r)
        {
          var t := copy[y, x].Spread();
          copy[y, x] := t;
        }
      }
      GridEq(Kinds(copy), Kinds(terrain), width, height);
    }

    /**
     * The body of `addSandAroundWater`'s neighbour loops, for the water cell
     * (x, y) and offset (dx, dy): an in-grid neighbour that is not water in
     * the input becomes a fresh sand tile in the copy.
     */
    method SandCell(terrain: array2<Tile>, newTerrain: array2<Tile>, ghost before: KindGrid, x: int, y: int, dx: int, dy: int)
      requires Valid() && Shaped(terrain) && Shaped(newTerrain) && terrain != newTerrain && InGrid(width, height, x, y)
      requires before == SandUpTo(Kinds(terrain), width, height, x, y)
      requires -1 <= dx <= 1 && -1 <= dy <= 1
      requires Kinds(newTerrain) == StampUpTo(before, width, height, x, y, 1, SandRule(), dx, dy)
      modifies newTerrain
      ensures Shaped(newTerrain)
      ensures Kinds(newTerrain) == StampUpTo(before, width, height, x, y, 1, SandRule(), dx + 1, dy)
    {
      var newX := x + dx;
      var newY := y + dy;
      if newX < 0 || newX >= width || newY < 0 || newY >= height || (dx == 0 && dy == 0) {
        StampAdvance(before, width, height, x, y, 1, SandRule(), dx, dy);
        if InGrid(width, height, newX, newY) {
          SetSame(Kinds(newTerrain), newX, newY);
        }
        return;
      }
      SandStep(Kinds(terrain), width, height, x, y, dx, dy);
      SandPut(terrain, newTerrain, newX, newY);
    }

    /** One in-bounds neighbour of a water cell: sand in the copy unless it is water in the original. */
    method SandPut(terrain: array2<Tile>, newTerrain: array2<Tile>, newX: int, newY: int)
      requires Valid() && Shaped(terrain) && Shaped(newTerrain) && terrain != newTerrain && InGrid(width, height, newX, newY)
      modifies newTerrain
      ensures Shaped(newTerrain)
      ensures Kinds(newTerrain) == Set(old(Kinds(newTerrain)), newX, newY,
        if Kinds(terrain)[newY][newX] != Water then Sand else old(Kinds(newTerrain))[newY][newX])
    {
      ColorDeterminesKind(terrain[newY, newX].KindOf(), Water);
      if terrain[newY, newX].color != terrainTypes.water.color {
        Put(newTerrain, newX, newY, Sand);
      } else {
        SetSame(Kinds(newTerrain), newX, newY);
      }
    }

    /** The neighbour loops around the water cell (x, y): the 3 x 3 sand stamp on the copy. */
    method SandAround(terrain: array2<Tile>, newTerrain: array2<Tile>, x: int, y: int)
      requires Valid() && Shaped(terrain) && Shaped(newTerrain) && terrain != newTerrain && InGrid(width, height, x, y)
      requires Kinds(newTerrain) == SandUpTo(Kinds(terrain), width, height, x, y)
      modifies newTerrain
      ensures Shaped(newTerrain)
      ensures Kinds(newTerrain) == Stamp(old(Kinds(newTerrain)), width, height, x, y, 1, SandRule())
    {
      ghost var before := Kinds(newTerrain);
      StampStart(before, width, height, x, y, 1, SandRule());
      for dy := -1 to 2
        invariant Shaped(newTerrain)
        invariant Kinds(newTerrain) == StampUpTo(before, width, height, x, y, 1, SandRule(), -1, dy)
      {
        for dx := -1 to 2
          invariant Shaped(newTerrain)
          invariant Kinds(newTerrain) == StampUpTo(before, width, height, x, y, 1, SandRule(), dx, dy)
        {
          SandCell(terrain, newTerrain, before, x, y, dx, dy);
        }
        StampRow(before, width, height, x, y, 1, SandRule(), dy);
      }
      StampEnd(before, width, height, x, y, 1, SandRule(), -1, 2);
    }

    /**
     * `addSandAroundWater`: a new grid in which every cell that is not water
     * but has a water cell among its eight neighbours in the input is sand,
     * and every other cell is a copy of the input's.  The input is only read.
     */
    method AddSandAroundWater(terrain: array2<Tile>) returns (newTerrain: array2<Tile>)
      requires Valid() && Shaped(terrain)
      ensures fresh(newTerrain) && Shaped(newTerrain)
      ensures Kinds(newTerrain) == SandPass(Kinds(terrain), width, height)
    {
      newTerrain := DeepCopy(terrain);
      ghost var g := Kinds(terrain);
      SandStart(g, width, height);
      for y := 0 to height
        invariant Shaped(newTerrain)
        invariant Kinds(newTerrain) == SandUpTo(g, width, height, 0, y)
      {
        for x := 0 to width
          invariant Shaped(newTerrain)
          invariant Kinds(newTerrain) == SandUpTo(g, width, height, x, y)
        {
          SandAdvance(g, width, height, x, y);
          ColorDeterminesKind(terrain[y, x].KindOf(), Water);
          if terrain[y, x].color == terrainTypes.water.color {
            SandAround(terrain, newTerrain, x, y);
          }
        }
        SandRow(g, width, height, y);
      }
      SandEnd(g, width, height);
    }

    /** `generate`'s first statement: a `height x width` grid of fresh plain tiles. */
    method PlainTerrain() returns (terrain: array2<Tile>)
      requires Valid()
      ensures fresh(terrain) && Shaped(terrain)
      ensures Kinds(terrain) == PlainGrid(width, height)
    {
      var plain := terrainTypes.Copy(Plain);
      terrain := new Tile[height, width]((y, x) => plain);
      for y := 0 to height
        invariant Shaped(terrain)
        invariant forall r, c :: InGrid(width, height, c, r) ==> KindAt(terrain, c, r) == Plain
      {
        for x := 0 to width
          invariant Shaped(terrain)
          invariant forall r, c :: InGrid(width, height, c, r) ==> KindAt(terrain, c, r) == Plain
        {
          var t := terrainTypes.Copy(Plain);
          terrain[y, x] := t;
        }
      }
      GridEq(Kinds(terrain), PlainGrid(width, height), width, height);
    }

    /**
     * `generate`: a grid of fresh plain tiles; `(width * height) / 40` water
     * attempts, each a size-2 pond when its coin is below 0.7; the sand
     * border; then as many mountain attempts, each a range when its coin is
     * below 0.6.  The result has exactly the kinds `Generated` prescribes.
     */
    method Generate(ponds: seq<WaterAttempt>, ranges: seq<MountainAttempt>) returns (terrain: array2<Tile>)
      requires Valid()
      requires |ponds| == AttemptCount(width, height) && |ranges| == AttemptCount(width, height)
      requires forall i :: 0 <= i < |ponds| ==> WaterDraws(ponds[i])
      requires forall i :: 0 <= i < |ranges| ==> MountainDraws(ranges[i])
      ensures fresh(terrain) && Shaped(terrain)
      ensures Kinds(terrain) == Generated(width, height, ponds, ranges)
    {
      terrain := PlainTerrain();
      var waterPoints := (width * height) / 40;
      for i := 0 to waterPoints
        invariant fresh(terrain) && Shaped(terrain)
        invariant Kinds(terrain) == Ponds(PlainGrid(width, height), width, height, ponds[..i])
      {
        PondsStep(PlainGrid(width, height), width, height, ponds, i);
        var x := Scale(ponds[i].ux, width);
        var y := Scale(ponds[i].uy, height);
        if ponds[i].coin < 0.7 {
          CreateWaterBody(terrain, x, y, 2, ponds[i].jitter);
        }
      }
      assert ponds[..waterPoints] == ponds;

      terrain := AddSandAroundWater(terrain);

      ghost var shore := Kinds(terrain);
      var mountainPoints := (width * height) / 40;
      for i := 0 to mountainPoints
        invariant fresh(terrain) && Shaped(terrain)
        invariant Kinds(terrain) == Ranges(shore, width, height, ranges[..i])
      {
        RangesStep(shore, width, height, ranges, i);
        var x := Scale(ranges[i].ux, width);
        var y := Scale(ranges[i].uy, height);
        if ranges[i].coin < 0.6 {
          CreateMountainRange(terrain, x, y, ranges[i].sizeDraw);
        }
      }
      assert ranges[..mountainPoints] == ranges;
    }
  }
}
