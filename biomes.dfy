/**
 * The biome map of crates/rg_worldgen/src/biomes.rs: every cell of the
 * island's height map is classified as ocean, plains or forest from its
 * height and the biome noise at the cell.  The noise map is a parameter.
 */
module Biomes {
  import opened Wrappers
  import opened Grids

  /** `Biome`, a `u8` enum. */
  datatype Biome = Ocean | Plains | Forest

  /** The enum's `u8` discriminant. */
  function BiomeByte(b: Biome): (v: bv8)
    ensures v <= 2
  {
    match b
    case Ocean => 0
    case Plains => 1
    case Forest => 2
  }

  /** The discriminants are distinct, so the byte names the biome. */
  lemma BiomeByteInjective(a: Biome, b: Biome)
    ensures BiomeByte(a) == BiomeByte(b) ==> a == b
  {
  }

  /** The classification of one cell. */
  function Classify(height: real, noise: real): (b: Biome)
    ensures b == Ocean <==> height < 0.0
    ensures b == Forest <==> height >= 0.0 && noise > 0.5
  {
    if height < 0.0 then Ocean
    else if noise > 0.5 then Forest
    else Plains
  }

  /**
   * The third case of `Classify`: a cell at or above sea level whose noise
   * is at most one half is plains, and only such a cell.
   */
  lemma ClassifySpec(height: real, noise: real)
    ensures Classify(height, noise) == Plains <==> height >= 0.0 && noise <= 0.5
  {
  }

  /**
   * Raising the noise never turns forest into plains, and the noise never
   * decides whether a cell is ocean.
   */
  lemma ClassifyMonotoneInNoise(height: real, n1: real, n2: real)
    requires n1 <= n2
    ensures Classify(height, n1) == Forest ==> Classify(height, n2) == Forest
    ensures Classify(height, n1) == Ocean <==> Classify(height, n2) == Ocean
  {
  }

  /**
   * `generate_biome_map`: a grid of the height map's size, built with
   * `par_from_fn`, whose cell c is the class of the height at c and the
   * noise at c.  The height map starts at the zero origin.
   */
  function GenerateBiomeMap(heights: GridValue<real>, noise: IVec2 -> real): (r: GridValue<Biome>)
    requires heights.origin == Zero
    ensures r.size == heights.size && r.origin == Zero
    ensures forall c | Contains(heights, c) :: Get(r, c) == Some(Classify(At(heights, c), noise(c)))
    ensures forall c :: Contains(r, c) <==> Contains(heights, c)
  {
    forall i: nat | i < heights.size.Area() ensures Contains(heights, CellAt(Zero, heights.size, i)) {
      CellAtInBounds(heights, i);
    }
    var f := (c: IVec2) requires Contains(heights, c) => Classify(At(heights, c), noise(c));
    var r := ParFromFnWithOrigin(heights.size, Zero, f);
    assert r == FromFnWithOrigin(heights.size, Zero, f);
    forall c | Contains(heights, c) ensures Get(r, c) == Some(Classify(At(heights, c), noise(c))) {
      FromFnGet(heights.size, Zero, f, c);
    }
    r
  }

  /** Every cell below sea level is ocean in the biome map, and no other cell is. */
  lemma OceanIsBelowSeaLevel(heights: GridValue<real>, noise: IVec2 -> real, c: IVec2)
    requires heights.origin == Zero && Contains(heights, c)
    ensures Get(GenerateBiomeMap(heights, noise), c) == Some(Ocean) <==> At(heights, c) < 0.0
  {
    ClassifySpec(At(heights, c), noise(c));
  }
}
