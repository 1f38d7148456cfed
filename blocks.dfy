/**
 * The block registry's ids and the ordered list of resource block types
 * (scripts/blocks.js). Textures, materials and colours are rendering data and
 * are not modelled; the per-axis resource scales are folded into the noise
 * oracle (see Rules.Noise).
 */
module Blocks {
  const Empty: int := 0
  const Grass: int := 1
  const Dirt: int := 2
  const Stone: int := 3
  const CoalOre: int := 4
  const IronOre: int := 5
  const Tree: int := 6
  const Leaves: int := 7
  const Sand: int := 8
  const RuneOre: int := 9
  const DiamondOre: int := 10
  const Cloud: int := 11

  /** Number of registered block types, the empty one included. */
  const BlockTypeCount: int := 12

  predicate IsBlockId(id: int) {
    0 <= id < BlockTypeCount
  }

  /** The `resources` list, in the order generateResources applies it. */
  const Resources: seq<int> := [Stone, CoalOre, IronOre, RuneOre, DiamondOre]

  /** The `scarcity` threshold of each entry of Resources, in the same order. */
  const Scarcity: seq<real> := [0.3, 0.95, 0.95, 0.97, 0.99]
}
