/** Block identifiers and the build range, from `include/mc/world/chunk.hpp`. */
module Blocks {

  /** The stored form of a block: any 16-bit value; only a few of them are named. */
  newtype BlockId = n: int | 0 <= n < 0x1_0000

  const AIR: BlockId := 0
  const SAND: BlockId := 6
  const GRAVEL: BlockId := 7

  const MIN_BUILD_Y := -64
  const MAX_BUILD_Y := 320
  const HEIGHT := 384
}
