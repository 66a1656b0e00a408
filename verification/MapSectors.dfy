/** Map blocks and sectors. A sector remembers the block it looked up last. */
module MapSectors {
  import opened Positions

  datatype P2 = P2(x: int, z: int)

  function Column(p: Pos): P2 { P2(p.x, p.z) }

  lemma SomeHeight(heights: set<int>)
    ensures heights == {} || exists y :: y in heights
  {
    if !exists y :: y in heights {
      assert heights == {};
    }
  }

  class MapBlock {
    const pos: Pos
    var refs: nat
    var modified: bool
    var timer: real
    var orphan: bool

    constructor (pos: Pos)
      ensures this.pos == pos && refs == 0 && modified && timer == 0.0 && !orphan
    {
      this.pos, refs, modified, timer, orphan := pos, 0, true, 0.0, false;
    }
  }

  class MapSector {
    const pos: P2
    var blocks: map<int, MapBlock>
    var cache: MapBlock?
    var cacheY: int

    ghost predicate Valid()
      reads this
    {
      && (forall y :: y in blocks ==> blocks[y].pos == Pos(pos.x, y, pos.z))
      && (cache != null ==> cacheY in blocks && blocks[cacheY] == cache)
    }

    /** The plain lookup. */
    ghost function Lookup(y: int): MapBlock?
      reads this
    {
      if y in blocks then blocks[y] else null
    }

    ghost function All(): set<MapBlock>
      reads this
    {
      set y | y in blocks :: blocks[y]
    }

    constructor (pos: P2)
      ensures Valid() && this.pos == pos && blocks == map[]
    {
      this.pos, blocks, cache, cacheY := pos, map[], null, 0;
    }

    /** getBlockBuffered: the cache answers as the lookup would. */
    method GetBlockBuffered(y: int) returns (block: MapBlock?)
      requires Valid()
      modifies this`cache, this`cacheY
      ensures Valid() && block == Lookup(y)
    {
      if cache != null && y == cacheY {
        return cache;
      }
      block := if y in blocks then blocks[y] else null;
      cacheY := y;
      cache := block;
    }

    /** getBlocks. */
    method GetBlocks() returns (list: set<MapBlock>)
      ensures list == All()
    {
      list := {};
      var todo := blocks.Keys;
      while todo != {}
        invariant todo <= blocks.Keys && list == set y | y in blocks && y !in todo :: blocks[y]
      {
        SomeHeight(todo);
        var y :| y in todo;
        todo := todo - {y};
        list := list + {blocks[y]};
      }
    }

    /** createBlankBlock: null stands for the exception over the limit. */
    method CreateBlankBlock(y: int) returns (block: MapBlock?)
      requires Valid() && y !in blocks
      modifies this
      ensures Valid()
      ensures OverLimit(Pos(0, y, 0)) <==> block == null
      ensures block == null ==> blocks == old(blocks)
      ensures block != null ==> fresh(block) && blocks == old(blocks)[y := block]
    {
      var none := GetBlockBuffered(y);
      assert none == null;
      if OverLimit(Pos(0, y, 0)) {
        return null;
      }
      block := new MapBlock(Pos(pos.x, y, pos.z));
      blocks := blocks[y := block];
    }

    /** insertBlock: fails if there is a block already. */
    method InsertBlock(block: MapBlock) returns (ok: bool)
      requires Valid() && Column(block.pos) == pos
      modifies this
      ensures Valid() && ok == (block.pos.y !in old(blocks))
      ensures blocks == if ok then old(blocks)[block.pos.y := block] else old(blocks)
    {
      var block2 := GetBlockBuffered(block.pos.y);
      if block2 != null {
        return false;
      }
      blocks := blocks[block.pos.y := block];
      ok := true;
    }

    /** detachBlock: takes the block out of the sector and marks it as orphan. */
    method DetachBlock(block: MapBlock)
      requires Valid() && block.pos.y in blocks && blocks[block.pos.y] == block
      modifies this, block`orphan
      ensures Valid() && blocks == old(blocks) - {block.pos.y} && block.orphan
    {
      cache := null;
      blocks := blocks - {block.pos.y};
      block.orphan := true;
    }
  }
}
