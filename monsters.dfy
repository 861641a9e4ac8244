/**
 * The monster manager: the catalogue of ten monster types, where monsters
 * spawn, how tough the terrain around a spawn point lets them be, and the
 * lookups the game and the combat system make.
 */
module Monsters {
  import opened Wrappers
  import opened Tiles
  import opened Grid
  import opened TerrainSpec

  datatype MonsterType = MonsterType(name: string, power: nat, health: nat, xp: nat)

  /** The catalogue, weakest first; a level cap of n allows the first n entries. */
  const MonsterTypes: seq<MonsterType> := [
    MonsterType("Rat", 5, 20, 25),
    MonsterType("Cow", 8, 40, 35),
    MonsterType("Skeleton", 12, 30, 50),
    MonsterType("Imp", 15, 45, 75),
    MonsterType("Ghost", 18, 50, 100),
    MonsterType("Demon", 22, 70, 150),
    MonsterType("Wizard", 25, 60, 200),
    MonsterType("Phoenix", 30, 80, 300),
    MonsterType("Dragon (Small)", 35, 100, 400),
    MonsterType("Dragon (Large)", 50, 150, 1000)
  ]

  const SpawnCount: nat := 20

  /** `terrainTypes[name]`: the catalogue object stored under an upper-case name, if any. */
  function Catalogue(types: TerrainTypes, name: string): Option<Tile>
  {
    if name == "PLAIN" then Some(types.plain)
    else if name == "HILL" then Some(types.hill)
    else if name == "MOUNTAIN" then Some(types.mountain)
    else if name == "WATER" then Some(types.water)
    else if name == "SAND" then Some(types.sand)
    else None
  }

  /** The terrain kind an upper-case catalogue name stands for, if any. */
  function KindNamed(name: string): Option<Kind>
  {
    if name == "PLAIN" then Some(Plain)
    else if name == "HILL" then Some(Hill)
    else if name == "MOUNTAIN" then Some(Mountain)
    else if name == "WATER" then Some(Water)
    else if name == "SAND" then Some(Sand)
    else None
  }

  /** What a terrain test looks for: one particular object, any tile of a kind, or nothing at all. */
  datatype Target = SameObject(tile: Tile) | SameKind(kind: Kind) | Nothing

  predicate Hits(t: Tile, target: Target)
  {
    match target
    case SameObject(o) => t == o
    case SameKind(k) => t.color == ColorOf(k)
    case Nothing => false
  }

  /** `=== this.terrainTypes[name]`: object identity with the catalogue entry. */
  function ByIdentity(types: TerrainTypes, name: string): Target
  {
    match Catalogue(types, name)
    case Some(t) => SameObject(t)
    case None => Nothing
  }

  /** The comparison the level cap is meant to make: same kind of terrain. */
  function ByKind(name: string): Target
  {
    match KindNamed(name)
    case Some(k) => SameKind(k)
    case None => Nothing
  }

  /** The three tests of the level cap: mountain, hill and swamp. */
  datatype CapTests = CapTests(mountain: Target, hill: Target, swamp: Target)

  function AsWrittenTests(types: TerrainTypes): CapTests
  {
    CapTests(ByIdentity(types, "MOUNTAIN"), ByIdentity(types, "HILL"), ByIdentity(types, "SWAMP"))
  }

  const KindTests := CapTests(ByKind("MOUNTAIN"), ByKind("HILL"), ByKind("SWAMP"))

  /** `Math.floor(Math.random() * maxLevel)` indexes one of the first `maxLevel` types. */
  lemma TypeIndexInRange(u: real, cap: int)
    requires IsDraw(u) && 1 <= cap <= |MonsterTypes|
    ensures 0 <= Scale(u, cap) < cap
  {
    ScaleInRange(u, cap);
  }

  /** The draws one spawn consumes: candidate positions until one is free, then the level draw. */
  datatype SpawnDraw = SpawnDraw(positions: seq<(real, real)>, level: real)

  predicate DrawOk(d: SpawnDraw)
  {
    IsDraw(d.level) && forall i :: 0 <= i < |d.positions| ==> IsDraw(d.positions[i].0) && IsDraw(d.positions[i].1)
  }

  class Monster {
    const name: string
    const power: nat
    const health: nat
    const xp: nat
    const x: int
    const y: int
    var currentHealth: int

    /** `{...type, x, y, currentHealth: type.health}`. */
    constructor(t: MonsterType, x: int, y: int)
      ensures Type() == t && Pos() == (x, y)
      ensures currentHealth == t.health
    {
      name, power, health, xp := t.name, t.power, t.health, t.xp;
      this.x, this.y := x, y;
      currentHealth := t.health;
    }

    function Type(): MonsterType
    {
      MonsterType(name, power, health, xp)
    }

    function Pos(): Pos
    {
      (x, y)
    }
  }

  /** The first monster of `ms` standing on (x, y), if any (`Array.prototype.find`). */
  function FirstAt(ms: seq<Monster>, x: int, y: int): (r: Option<Monster>)
    ensures r.None? <==> forall i :: 0 <= i < |ms| ==> ms[i].Pos() != (x, y)
    ensures r.Some? ==> exists i :: (0 <= i < |ms| && ms[i] == r.value && ms[i].Pos() == (x, y) &&
      forall j :: 0 <= j < i ==> ms[j].Pos() != (x, y))
  {
    if ms == [] then None
    else if ms[0].Pos() == (x, y) then Some(ms[0])
    else
      var r := FirstAt(ms[1..], x, y);
      if r.Some? then
        var i :| 0 <= i < |ms[1..]| && ms[1..][i] == r.value && ms[1..][i].Pos() == (x, y) &&
          forall j :: 0 <= j < i ==> ms[1..][j].Pos() != (x, y);
        assert ms[i + 1] == r.value;
        r
      else r
  }

  /** `findIndex(m => m === monster)`: the first index holding that very object, or -1. */
  function FindIndex(ms: seq<Monster>, m: Monster): (i: int)
    ensures -1 <= i < |ms|
    ensures i == -1 <==> m !in ms
    ensures 0 <= i ==> ms[i] == m && m !in ms[..i]
  {
    if ms == [] then -1
    else if ms[0] == m then 0
    else
      var j := FindIndex(ms[1..], m);
      if j == -1 then -1
      else
        assert ms[..j + 1] == [ms[0]] + ms[1..][..j];
        j + 1
  }

  /** No two monsters stand on the same cell. */
  predicate NoStacking(ms: seq<Monster>)
  {
    forall i, j :: 0 <= i < j < |ms| ==> ms[i].Pos() != ms[j].Pos()
  }

  /** Dropping one monster keeps the rest apart, and the dropped one is gone. */
  lemma DropKeepsApart(ms: seq<Monster>, i: int)
    requires NoStacking(ms) && 0 <= i < |ms|
    ensures NoStacking(ms[..i] + ms[i + 1..])
    ensures ms[i] !in ms[..i] + ms[i + 1..]
    ensures forall m :: m in ms[..i] + ms[i + 1..] ==> m in ms
  {
    var rest := ms[..i] + ms[i + 1..];
    forall j | 0 <= j < |rest|
      ensures rest[j] == if j < i then ms[j] else ms[j + 1]
    {
    }
    forall j | 0 <= j < |rest|
      ensures rest[j] != ms[i]
    {
      if j >= i {
        assert ms[j + 1].Pos() != ms[i].Pos();
      }
    }
  }

  /**
   * Newly placed monsters: each at full health, and, when the map is made of
   * copied tiles, each one of the three weakest types.
   */
  ghost predicate Recruited(ms: seq<Monster>, copied: bool)
    reads ms
  {
    forall j :: 0 <= j < |ms| ==> ms[j].currentHealth == ms[j].health && (copied ==> ms[j].Type() in MonsterTypes[..3])
  }

  lemma RecruitedAppend(ms: seq<Monster>, m: Monster, copied: bool)
    requires Recruited(ms, copied)
    requires m.currentHealth == m.health && (copied ==> m.Type() in MonsterTypes[..3])
    ensures Recruited(ms + [m], copied)
  {
    forall j | 0 <= j < |ms + [m]|
      ensures (ms + [m])[j] == if j < |ms| then ms[j] else m
    {
    }
  }

  class MonsterManager {
    const terrain: array2<Tile>
    const terrainTypes: TerrainTypes
    var monsters: seq<Monster>

    /**
     * Every monster stands alone on a passable cell and carries the stats
     * of a catalogue type.
     */
    predicate Valid()
      reads this, terrain
    {
      terrainTypes.Valid() &&
      NoStacking(monsters) &&
      (forall i :: 0 <= i < |monsters| ==> Walkable(terrain, monsters[i].Pos())) &&
      (forall i :: 0 <= i < |monsters| ==> monsters[i].Type() in MonsterTypes)
    }

    /** Starts with no monsters, then runs `spawnMonsters` with the given draws. */
    constructor(terrain: array2<Tile>, terrainTypes: TerrainTypes, draws: seq<SpawnDraw>)
      requires terrainTypes.Valid() && |draws| == SpawnCount
      requires forall i :: 0 <= i < |draws| ==> DrawOk(draws[i])
      ensures this.terrain == terrain && this.terrainTypes == terrainTypes
      ensures Valid() && |monsters| <= SpawnCount
      ensures forall i :: 0 <= i < |monsters| ==> fresh(monsters[i])
      ensures Recruited(monsters, CopiedTiles())
      ensures SpawnedInOrder(monsters, 0, draws)
      ensures |monsters| < SpawnCount ==>
        forall j :: 0 <= j < |draws[|monsters|].positions| ==> !Free(Candidate(draws[|monsters|].positions[j]))
    {
      this.terrain, this.terrainTypes := terrain, terrainTypes;
      monsters := [];
      new;
      var _ := SpawnMonsters(draws);
      assert monsters[0..] == monsters;
      assert Recruited(monsters, CopiedTiles());
      assert SpawnedInOrder(monsters, 0, draws);
      assert |monsters| < SpawnCount ==>
        forall j :: 0 <= j < |draws[|monsters|].positions| ==> !Free(Candidate(draws[|monsters|].positions[j]));
    }

    /** `isPositionOccupied`. */
    predicate IsPositionOccupied(x: int, y: int)
      reads this
    {
      exists i :: 0 <= i < |monsters| && monsters[i].Pos() == (x, y)
    }

    /** `getMonsterAt`: the first monster on the cell (positions are whole cells, so flooring is the identity). */
    function GetMonsterAt(x: int, y: int): (r: Option<Monster>)
      reads this
      ensures r.Some? ==> r.value in monsters && r.value.Pos() == (x, y)
      ensures r.None? <==> !IsPositionOccupied(x, y)
    {
      FirstAt(monsters, x, y)
    }

    /** With no stacking, the monster found on a cell is the only one there. */
    lemma MonsterAtIsUnique(x: int, y: int, m: Monster)
      requires NoStacking(monsters)
      requires m in monsters && m.Pos() == (x, y)
      ensures GetMonsterAt(x, y) == Some(m)
    {
      var r := FirstAt(monsters, x, y);
      var i :| 0 <= i < |monsters| && monsters[i] == r.value && monsters[i].Pos() == (x, y);
      var k :| 0 <= k < |monsters| && monsters[k] == m;
      assert i == k;
    }

    /** A cell a new monster may take: passable and not taken. */
    predicate Free(p: Pos)
      reads this, terrain
    {
      FreeAmong(monsters, p)
    }

    /** The cell one pair of draws names: `floor(u * (width - 2)) + 1`, likewise for rows. */
    function Candidate(d: (real, real)): Pos
    {
      (Scale(d.0, terrain.Length1 - 2) + 1, Scale(d.1, terrain.Length0 - 2) + 1)
    }

    /** On a map at least three cells wide and tall, candidates avoid the border. */
    lemma CandidateInterior(d: (real, real))
      requires IsDraw(d.0) && IsDraw(d.1)
      ensures terrain.Length1 >= 3 ==> 1 <= Candidate(d).0 <= terrain.Length1 - 2
      ensures terrain.Length0 >= 3 ==> 1 <= Candidate(d).1 <= terrain.Length0 - 2
    {
      if terrain.Length1 >= 3 {
        ScaleInRange(d.0, terrain.Length1 - 2);
      }
      if terrain.Length0 >= 3 {
        ScaleInRange(d.1, terrain.Length0 - 2);
      }
    }

    /**
     * `getRandomPassablePosition`: the first candidate that is free. The
     * source retries forever; here the retries are the given draws, and
     * running out of them yields None.
     */
    method GetRandomPassablePosition(draws: seq<(real, real)>) returns (r: Option<Pos>)
      requires forall i :: 0 <= i < |draws| ==> IsDraw(draws[i].0) && IsDraw(draws[i].1)
      ensures r.None? <==> forall i :: 0 <= i < |draws| ==> !Free(Candidate(draws[i]))
      ensures r.Some? ==> Free(r.value)
      ensures r.Some? ==> exists i :: (0 <= i < |draws| && Candidate(draws[i]) == r.value &&
        forall j :: 0 <= j < i ==> !Free(Candidate(draws[j])))
      ensures r.Some? && terrain.Length1 >= 3 ==> 1 <= r.value.0 <= terrain.Length1 - 2
      ensures r.Some? && terrain.Length0 >= 3 ==> 1 <= r.value.1 <= terrain.Length0 - 2
    {
      for i := 0 to |draws|
        invariant forall j :: 0 <= j < i ==> !Free(Candidate(draws[j]))
      {
        var p := Candidate(draws[i]);
        if IsValidPosition(terrain, p.0, p.1) && terrain[p.1, p.0].passable && !IsPositionOccupied(p.0, p.1) {
          CandidateInterior(draws[i]);
          return Some(p);
        }
      }
      return None;
    }

    /** A tile meeting the test on an in-bounds cell. */
    predicate TileHits(p: Pos, target: Target)
      reads terrain
    {
      IsValidPosition(terrain, p.0, p.1) && Hits(terrain[p.1, p.0], target)
    }

    /** Some cell of the 3x3 block around `pos` (itself included) meets the test. */
    ghost predicate Near(pos: Pos, target: Target)
      reads terrain
    {
      exists q :: Chebyshev(q, pos) <= 1 && TileHits(q, target)
    }

    /** The level cap `getMonsterTypeForPosition` picks, for a given set of terrain tests. */
    ghost function Cap(pos: Pos, tests: CapTests): int
      reads terrain
    {
      if TileHits(pos, tests.mountain) || Near(pos, tests.mountain) then 10
      else if TileHits(pos, tests.hill) || Near(pos, tests.hill) then 7
      else if TileHits(pos, tests.swamp) then 5
      else 3
    }

    /** `isNearTerrainType`: scan the 3x3 block row by row. */
    method IsNearTerrainType(pos: Pos, target: Target) returns (near: bool)
      ensures near == Near(pos, target)
    {
      for dy := -1 to 2
        invariant forall q :: TileHits(q, target) && Chebyshev(q, pos) <= 1 ==> q.1 - pos.1 >= dy
      {
        for dx := -1 to 2
          invariant forall q :: TileHits(q, target) && Chebyshev(q, pos) <= 1 ==>
            q.1 - pos.1 > dy || (q.1 - pos.1 == dy && q.0 - pos.0 >= dx)
        {
          var x, y := pos.0 + dx, pos.1 + dy;
          if 0 <= y < terrain.Length0 && 0 <= x < terrain.Length1 && Hits(terrain[y, x], target) {
            assert Chebyshev((x, y), pos) <= 1 && TileHits((x, y), target);
            return true;
          }
        }
      }
      return false;
    }

    /** The `if` chain of `getMonsterTypeForPosition`, for the given tests. */
    method LevelCapWith(pos: Pos, tests: CapTests) returns (cap: int)
      requires IsValidPosition(terrain, pos.0, pos.1)
      ensures cap == Cap(pos, tests)
    {
      var near := false;
      if !Hits(terrain[pos.1, pos.0], tests.mountain) {
        near := IsNearTerrainType(pos, tests.mountain);
      }
      if Hits(terrain[pos.1, pos.0], tests.mountain) || near {
        return 10;
      }
      near := false;
      if !Hits(terrain[pos.1, pos.0], tests.hill) {
        near := IsNearTerrainType(pos, tests.hill);
      }
      if Hits(terrain[pos.1, pos.0], tests.hill) || near {
        return 7;
      }
      if Hits(terrain[pos.1, pos.0], tests.swamp) {
        return 5;
      }
      return 3;
    }

    /** The level cap as the source computes it, comparing tiles to catalogue objects by identity. */
    method LevelCapAsWritten(pos: Pos) returns (cap: int)
      requires IsValidPosition(terrain, pos.0, pos.1)
      ensures cap == Cap(pos, AsWrittenTests(terrainTypes))
    {
      cap := LevelCapWith(pos, AsWrittenTests(terrainTypes));
    }

    /** The level cap as intended, comparing tiles by kind. */
    method LevelCap(pos: Pos) returns (cap: int)
      requires IsValidPosition(terrain, pos.0, pos.1)
      ensures cap == Cap(pos, KindTests)
    {
      cap := LevelCapWith(pos, KindTests);
    }

    /** No tile of the map is one of the catalogue objects themselves: the generator copies them. */
    predicate CopiedTiles()
      reads terrain
    {
      forall y, x :: 0 <= y < terrain.Length0 && 0 <= x < terrain.Length1 ==> terrain[y, x] !in terrainTypes.Objects()
    }

    /**
     * Compared by identity against the catalogue, a map of copied tiles
     * never matches, so every spawn is capped at the three weakest types.
     */
    lemma AsWrittenCapIsThree(pos: Pos)
      requires CopiedTiles()
      ensures Cap(pos, AsWrittenTests(terrainTypes)) == 3
    {
      var tests := AsWrittenTests(terrainTypes);
      forall q: Pos | IsValidPosition(terrain, q.0, q.1)
        ensures !TileHits(q, tests.mountain) && !TileHits(q, tests.hill) && !TileHits(q, tests.swamp)
      {
        assert terrain[q.1, q.0] !in terrainTypes.Objects();
      }
    }

    /**
     * Compared by kind: 10 next to a mountain, otherwise 7 next to a hill,
     * otherwise 3; no tile is a swamp, so 5 never occurs.
     */
    lemma CapByTerrain(pos: Pos)
      ensures Cap(pos, KindTests) == 10 <==> Near(pos, SameKind(Mountain))
      ensures Cap(pos, KindTests) == 7 <==> !Near(pos, SameKind(Mountain)) && Near(pos, SameKind(Hill))
      ensures Cap(pos, KindTests) == 3 <==> !Near(pos, SameKind(Mountain)) && !Near(pos, SameKind(Hill))
      ensures Cap(pos, KindTests) != 5
    {
      if TileHits(pos, SameKind(Mountain)) {
        assert Chebyshev(pos, pos) == 0;
      }
      if TileHits(pos, SameKind(Hill)) {
        assert Chebyshev(pos, pos) == 0;
      }
    }

    /**
     * `getMonsterTypeForPosition`: a type drawn uniformly below the cap that
     * the given terrain tests produce (the source uses `AsWrittenTests`).
     */
    method GetMonsterTypeForPosition(pos: Pos, tests: CapTests, u: real) returns (t: MonsterType)
      requires IsValidPosition(terrain, pos.0, pos.1) && IsDraw(u)
      ensures 3 <= Cap(pos, tests) <= |MonsterTypes|
      ensures t == MonsterTypes[Scale(u, Cap(pos, tests))]
      ensures t in MonsterTypes[..Cap(pos, tests)]
    {
      var cap := LevelCapWith(pos, tests);
      TypeIndexInRange(u, cap);
      t := MonsterTypes[Scale(u, cap)];
    }

    /** As written, a map of copied tiles only ever spawns a rat, a cow or a skeleton. */
    lemma AsWrittenSpawnsWeakest(pos: Pos, u: real)
      requires CopiedTiles() && IsDraw(u)
      ensures MonsterTypes[Scale(u, Cap(pos, AsWrittenTests(terrainTypes)))] in MonsterTypes[..3]
    {
      AsWrittenCapIsThree(pos);
      TypeIndexInRange(u, 3);
    }

    /** Compared by kind, a draw of 0.9 or more next to a mountain picks the large dragon. */
    lemma ByKindNearMountainTop(pos: Pos, u: real)
      requires Near(pos, SameKind(Mountain)) && 0.9 <= u < 1.0
      ensures MonsterTypes[Scale(u, Cap(pos, KindTests))] == MonsterTypes[9]
    {
      CapByTerrain(pos);
      assert 9.0 <= u * 10 as real < 10.0;
    }

    /** A cell free with the list `ms`: passable, and none of `ms` stands there. */
    predicate FreeAmong(ms: seq<Monster>, p: Pos)
      reads terrain
    {
      Walkable(terrain, p) && forall k :: 0 <= k < |ms| ==> ms[k].Pos() != p
    }

    /**
     * `m` is what one spawn with the draw `d` places when the list is `ms`:
     * it stands on the first candidate of `d` free with `ms`, and has the type
     * the code picks for that cell.
     */
    ghost predicate SpawnedBy(ms: seq<Monster>, d: SpawnDraw, m: Monster)
      requires DrawOk(d)
      reads terrain
    {
      (exists i :: 0 <= i < |d.positions| && Candidate(d.positions[i]) == m.Pos() && FreeAmong(ms, m.Pos()) &&
        forall j :: 0 <= j < i ==> !FreeAmong(ms, Candidate(d.positions[j]))) &&
      m.Type() == MonsterTypes[Scale(d.level, Cap(m.Pos(), AsWrittenTests(terrainTypes)))]
    }

    /** A spawned monster keeps off the border of a map at least three cells wide and tall. */
    lemma SpawnedInterior(ms: seq<Monster>, d: SpawnDraw, m: Monster)
      requires DrawOk(d) && SpawnedBy(ms, d, m)
      ensures terrain.Length1 >= 3 ==> 1 <= m.x <= terrain.Length1 - 2
      ensures terrain.Length0 >= 3 ==> 1 <= m.y <= terrain.Length0 - 2
    {
      var i :| 0 <= i < |d.positions| && Candidate(d.positions[i]) == m.Pos();
      CandidateInterior(d.positions[i]);
    }

    /**
     * Each of `ms[start..]` was placed by the spawn with its own draw, on the
     * list of the monsters before it.
     */
    ghost predicate SpawnedInOrder(ms: seq<Monster>, start: nat, draws: seq<SpawnDraw>)
      requires forall i :: 0 <= i < |draws| ==> DrawOk(draws[i])
      reads terrain
    {
      start <= |ms| <= start + |draws| &&
      forall i :: start <= i < |ms| ==> PlacedAt(ms, start, draws, i)
    }

    /** `ms[i]` was placed by the draw of its turn, `draws[i - start]`, on the monsters before it. */
    ghost predicate PlacedAt(ms: seq<Monster>, start: nat, draws: seq<SpawnDraw>, i: int)
      requires forall i :: 0 <= i < |draws| ==> DrawOk(draws[i])
      reads terrain
    {
      start <= i < |ms| && i - start < |draws| && SpawnedBy(ms[..i], draws[i - start], ms[i])
    }

    lemma SpawnedInOrderAppend(ms: seq<Monster>, start: nat, draws: seq<SpawnDraw>, m: Monster)
      requires forall i :: 0 <= i < |draws| ==> DrawOk(draws[i])
      requires SpawnedInOrder(ms, start, draws) && |ms| < start + |draws|
      requires SpawnedBy(ms, draws[|ms| - start], m)
      ensures SpawnedInOrder(ms + [m], start, draws)
    {
      var ms' := ms + [m];
      forall i | start <= i < |ms'|
        ensures PlacedAt(ms', start, draws, i)
      {
        assert i < |ms| ==> PlacedAt(ms, start, draws, i);
        if i < |ms| {
          assert ms'[..i] == ms[..i] && ms'[i] == ms[i];
        } else {
          assert ms'[..i] == ms;
        }
      }
    }

    /** One more spawn in order keeps the earlier list and both facts about the newly placed monsters. */
    lemma SpawnStep(ms: seq<Monster>, start: nat, draws: seq<SpawnDraw>, m: Monster)
      requires forall i :: 0 <= i < |draws| ==> DrawOk(draws[i])
      requires start <= |ms| < start + |draws|
      requires Recruited(ms[start..], CopiedTiles()) && SpawnedInOrder(ms, start, draws)
      requires m.currentHealth == m.health && (CopiedTiles() ==> m.Type() in MonsterTypes[..3])
      requires SpawnedBy(ms, draws[|ms| - start], m)
      ensures (ms + [m])[..start] == ms[..start]
      ensures Recruited((ms + [m])[start..], CopiedTiles()) && SpawnedInOrder(ms + [m], start, draws)
    {
      RecruitedAppend(ms[start..], m, CopiedTiles());
      SpawnedInOrderAppend(ms, start, draws, m);
      assert (ms + [m])[start..] == ms[start..] + [m];
    }

    /**
     * One spawn, as `spawnMonsters` and `removeMonster` both do it: take the
     * first free candidate, pick the type for it and append a fresh monster
     * at full health.
     */
    method Spawn(d: SpawnDraw) returns (placed: bool)
      requires Valid() && DrawOk(d)
      modifies this
      ensures Valid()
      ensures placed <==> exists i :: 0 <= i < |d.positions| && old(Free(Candidate(d.positions[i])))
      ensures !placed ==> monsters == old(monsters)
      ensures placed ==> |monsters| == |old(monsters)| + 1 && monsters == old(monsters) + [monsters[|monsters| - 1]]
      ensures placed ==> fresh(monsters[|monsters| - 1])
      ensures placed ==> monsters[|monsters| - 1].currentHealth == monsters[|monsters| - 1].health
      ensures placed ==> var m := monsters[|monsters| - 1]; var p := m.Pos();
        old(Free(p)) && SpawnedBy(old(monsters), d, m)
      ensures placed && CopiedTiles() ==> monsters[|monsters| - 1].Type() in MonsterTypes[..3]
    {
      var pos := GetRandomPassablePosition(d.positions);
      if pos.None? {
        return false;
      }
      var p := pos.value;
      var t := GetMonsterTypeForPosition(p, AsWrittenTests(terrainTypes), d.level);
      if CopiedTiles() {
        AsWrittenSpawnsWeakest(p, d.level);
      }
      var m := new Monster(t, p.0, p.1);
      assert SpawnedBy(monsters, d, m);
      monsters := monsters + [m];
      return true;
    }

    /** `spawnMonsters`: twenty spawns, one draw each; an exhausted draw stops the run. */
    method SpawnMonsters(draws: seq<SpawnDraw>) returns (complete: bool)
      requires Valid() && |draws| == SpawnCount
      requires forall i :: 0 <= i < |draws| ==> DrawOk(draws[i])
      modifies this
      ensures Valid()
      ensures old(|monsters|) <= |monsters| <= old(|monsters|) + SpawnCount
      ensures complete ==> |monsters| == old(|monsters|) + SpawnCount
      ensures monsters[..old(|monsters|)] == old(monsters)
      ensures forall i :: old(|monsters|) <= i < |monsters| ==> fresh(monsters[i])
      ensures Recruited(monsters[old(|monsters|)..], CopiedTiles())
      ensures SpawnedInOrder(monsters, old(|monsters|), draws)
      ensures !complete ==> var k := |monsters| - old(|monsters|);
        k < SpawnCount && forall j :: 0 <= j < |draws[k].positions| ==> !Free(Candidate(draws[k].positions[j]))
    {
      for i := 0 to SpawnCount
        invariant Valid()
        invariant |monsters| == old(|monsters|) + i
        invariant monsters[..old(|monsters|)] == old(monsters)
        invariant forall j :: old(|monsters|) <= j < |monsters| ==> fresh(monsters[j])
        invariant Recruited(monsters[old(|monsters|)..], CopiedTiles())
        invariant SpawnedInOrder(monsters, old(|monsters|), draws)
      {
        ghost var before := monsters;
        var placed := Spawn(draws[i]);
        if !placed {
          assert |monsters| - old(|monsters|) == i;
          return false;
        }
        SpawnStep(before, old(|monsters|), draws, monsters[|before|]);
      }
      return true;
    }

    /**
     * What `removeMonster(monster)` leaves when the list was `before` and its
     * respawn uses the draw `d`: a monster not in the list changes nothing;
     * otherwise the others keep their order, and either one new monster at
     * full health follows them, placed as a spawn on that shorter list, or
     * no candidate of `d` was free and the list is just shorter.
     */
    ghost predicate RemovedFrom(before: seq<Monster>, monster: Monster, d: SpawnDraw)
      requires DrawOk(d)
      reads this, terrain, monsters
    {
      if monster !in before then monsters == before
      else
        var i := FindIndex(before, monster);
        var rest := before[..i] + before[i + 1..];
        monster !in monsters &&
        if |monsters| == |rest| then
          monsters == rest && forall j :: 0 <= j < |d.positions| ==> !Free(Candidate(d.positions[j]))
        else
          |monsters| == |rest| + 1 && monsters[..|rest|] == rest &&
          var m := monsters[|rest|];
          m !in before && m.currentHealth == m.health && SpawnedBy(rest, d, m)
    }

    /**
     * `removeMonster`: take the monster out if it is in the list, and spawn
     * a replacement; a monster not in the list changes nothing.
     */
    method RemoveMonster(monster: Monster, d: SpawnDraw) returns (respawned: bool)
      requires Valid() && DrawOk(d)
      modifies this
      ensures Valid()
      ensures RemovedFrom(old(monsters), monster, d)
      ensures monster !in monsters
      ensures respawned <==> monster in old(monsters) && |monsters| == |old(monsters)|
      ensures respawned ==> fresh(monsters[|monsters| - 1])
    {
      var index := FindIndex(monsters, monster);
      if index == -1 {
        return false;
      }
      respawned := Respawn(index, d);
    }

    /** The body of `removeMonster` once the monster is found at `index`: splice it out, then spawn once. */
    method Respawn(index: int, d: SpawnDraw) returns (respawned: bool)
      requires Valid() && DrawOk(d) && 0 <= index < |monsters|
      modifies this
      ensures Valid()
      ensures old(monsters[index]) !in monsters
      ensures var rest := old(monsters[..index] + monsters[index + 1..]);
        if respawned then
          |monsters| == |rest| + 1 && monsters[..|rest|] == rest &&
          var m := monsters[|rest|];
          fresh(m) && m.currentHealth == m.health && SpawnedBy(rest, d, m)
        else
          monsters == rest && forall j :: 0 <= j < |d.positions| ==> !Free(Candidate(d.positions[j]))
    {
      Splice(index);
      ghost var rest := monsters;
      respawned := Spawn(d);
      assert monsters[..|rest|] == rest;
    }

    /** `this.monsters.splice(index, 1)`: drop the entry at `index`. */
    method Splice(index: int)
      requires Valid() && 0 <= index < |monsters|
      modifies this
      ensures Valid()
      ensures monsters == old(monsters[..index] + monsters[index + 1..])
      ensures old(monsters[index]) !in monsters
    {
      DropKeepsApart(monsters, index);
      monsters := monsters[..index] + monsters[index + 1..];
    }
  }
}
