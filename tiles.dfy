/**
 * The terrain catalogue of the generator: five tile templates, each a
 * (color, passable, speedMultiplier) triple.  Tiles are objects, as in the
 * game: the generator stores fresh copies in the grid, never the catalogue
 * objects themselves, and some callers compare tiles by identity.
 */
module Tiles {

  /** The five terrain types; the colour of a tile identifies its type. */
  datatype Kind = Plain | Hill | Mountain | Water | Sand

  const PlainColor: string := "#90EE90"
  const HillColor: string := "#4C9A4C"
  const MountainColor: string := "#808080"
  const WaterColor: string := "#4169E1"
  const SandColor: string := "#DEB887"

  function ColorOf(k: Kind): string
  {
    match k
    case Plain => PlainColor
    case Hill => HillColor
    case Mountain => MountainColor
    case Water => WaterColor
    case Sand => SandColor
  }

  /** Only water blocks movement; a mountain is slow but walkable. */
  function PassableOf(k: Kind): bool
  {
    k != Water
  }

  function SpeedOf(k: Kind): real
  {
    match k
    case Plain => 1.0
    case Hill => 0.8
    case Mountain => 0.2
    case Water => 0.0
    case Sand => 0.9
  }

  /** The colour of a tile determines its kind: no two catalogue entries share a colour. */
  lemma ColorDeterminesKind(k1: Kind, k2: Kind)
    ensures ColorOf(k1) == ColorOf(k2) <==> k1 == k2
  {
  }

  /** A tile object: the game never changes a tile's fields, it replaces the whole tile. */
  class Tile {
    const color: string
    const passable: bool
    const speedMultiplier: real

    constructor (color: string, passable: bool, speedMultiplier: real)
      ensures this.color == color && this.passable == passable
      ensures this.speedMultiplier == speedMultiplier
    {
      this.color := color;
      this.passable := passable;
      this.speedMultiplier := speedMultiplier;
    }

    /** This tile carries exactly the catalogue triple of kind `k`. */
    predicate IsA(k: Kind)
    {
      color == ColorOf(k) && passable == PassableOf(k) && speedMultiplier == SpeedOf(k)
    }

    /** This tile is a copy of one of the five catalogue templates. */
    predicate Valid()
    {
      IsA(Plain) || IsA(Hill) || IsA(Mountain) || IsA(Water) || IsA(Sand)
    }

    function KindOf(): (k: Kind)
      requires Valid()
      ensures IsA(k)
    {
      if IsA(Plain) then Plain
      else if IsA(Hill) then Hill
      else if IsA(Mountain) then Mountain
      else if IsA(Water) then Water
      else Sand
    }

    /** Water is the only tile that blocks movement; a mountain is walkable at a fifth of the speed. */
    lemma OnlyWaterBlocks()
      requires Valid()
      ensures !passable <==> KindOf() == Water
      ensures KindOf() == Mountain ==> passable && speedMultiplier == 0.2
    {
    }

    /** `{...tile}`: a fresh object with the same three fields. */
    method Spread() returns (copy: Tile)
      ensures fresh(copy)
      ensures copy.color == color && copy.passable == passable
      ensures copy.speedMultiplier == speedMultiplier
    {
      copy := new Tile(color, passable, speedMultiplier);
    }
  }

  /** `this.terrainTypes`: the catalogue objects, built once by the generator's constructor. */
  class TerrainTypes {
    const plain: Tile
    const hill: Tile
    const mountain: Tile
    const water: Tile
    const sand: Tile

    constructor ()
      ensures plain.IsA(Plain) && hill.IsA(Hill) && mountain.IsA(Mountain)
      ensures water.IsA(Water) && sand.IsA(Sand)
      ensures fresh(plain) && fresh(hill) && fresh(mountain) && fresh(water) && fresh(sand)
    {
      plain := new Tile(PlainColor, true, 1.0);
      hill := new Tile(HillColor, true, 0.8);
      mountain := new Tile(MountainColor, true, 0.2);
      water := new Tile(WaterColor, false, 0.0);
      sand := new Tile(SandColor, true, 0.9);
    }

    function Template(k: Kind): Tile
    {
      match k
      case Plain => plain
      case Hill => hill
      case Mountain => mountain
      case Water => water
      case Sand => sand
    }

    /** The catalogue objects themselves (as opposed to copies of them). */
    function Objects(): set<Tile>
    {
      {plain, hill, mountain, water, sand}
    }

    predicate Valid()
    {
      plain.IsA(Plain) && hill.IsA(Hill) && mountain.IsA(Mountain) && water.IsA(Water) && sand.IsA(Sand)
    }

    /** `{...this.terrainTypes.K}`: a fresh copy of the template of kind `k`. */
    method Copy(k: Kind) returns (t: Tile)
      requires Valid()
      ensures fresh(t) && t.IsA(k) && t.Valid() && t.KindOf() == k
    {
      t := Template(k).Spread();
    }
  }
}
