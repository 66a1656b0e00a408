/** Positions of blocks and nodes, and which blocks lie within the map. */
module Positions {
  datatype Pos = Pos(x: int, y: int, z: int)

  const MAX_BLOCK := 31007 / 16  // MAX_MAP_GENERATION_LIMIT / MAP_BLOCKSIZE

  /** blockpos_over_max_limit. */
  predicate OverLimit(p: Pos) {
    p.x < -MAX_BLOCK || p.x > MAX_BLOCK || p.y < -MAX_BLOCK || p.y > MAX_BLOCK || p.z < -MAX_BLOCK || p.z > MAX_BLOCK
  }

  /** A block is within the limit exactly if its corner node is within the limit of map generation. */
  lemma WithinLimit(p: Pos)
    ensures !OverLimit(p) <==>
            -31007 <= 16 * p.x <= 31007 && -31007 <= 16 * p.y <= 31007 && -31007 <= 16 * p.z <= 31007
  {
  }
}
