/** The loaded part of the map: sectors under their positions, and the unloading of blocks long unused. */
module MapResidency {
  import opened MapSectors
  import opened Positions

  class Map {
    var sectors: map<P2, MapSector>
    var cache: MapSector?
    var cacheP: P2

    ghost predicate Valid()
      reads this, sectors.Values
    {
      && (forall p :: p in sectors ==> sectors[p].pos == p && sectors[p].Valid())
      && (cache != null ==> cacheP in sectors && sectors[cacheP] == cache)
    }

    /** The block at a position, by plain lookups. */
    ghost function Lookup(p: Pos): MapBlock?
      reads this, sectors.Values
    {
      if Column(p) in sectors then sectors[Column(p)].Lookup(p.y) else null
    }

    /** All loaded blocks. */
    ghost function Resident(): set<MapBlock>
      reads this, sectors.Values
    {
      set p, y | p in sectors && y in sectors[p].blocks :: sectors[p].blocks[y]
    }

    /** A loaded block is what the lookup finds at its position. */
    lemma ResidentIsFound(b: MapBlock)
      requires Valid()
      ensures b in Resident() <==> Lookup(b.pos) == b
    {
      if b in Resident() {
        var p, y :| p in sectors && y in sectors[p].blocks && sectors[p].blocks[y] == b;
        assert sectors[p].Valid();
      }
    }

    constructor ()
      ensures Valid() && sectors == map[]
    {
      sectors, cache, cacheP := map[], null, P2(0, 0);
    }

    /** getSectorNoGenerateNoLock. */
    method GetSectorNoGenerate(p: P2) returns (sector: MapSector?)
      requires Valid()
      modifies this`cache, this`cacheP
      ensures Valid() && sector == if p in sectors then sectors[p] else null
    {
      if cache != null && p == cacheP {
        return cache;
      }
      if p !in sectors {
        return null;
      }
      sector := sectors[p];
      cacheP := p;
      cache := sector;
    }

    /** getBlockNoCreateNoEx: through both caches, and yet the plain lookup. */
    method GetBlockNoCreateNoEx(p: Pos) returns (block: MapBlock?)
      requires Valid()
      modifies this`cache, this`cacheP, sectors.Values
      ensures Valid() && block == Lookup(p) && block == old(Lookup(p)) && Resident() == old(Resident())
    {
      var sector := GetSectorNoGenerate(Column(p));
      if sector == null {
        return null;
      }
      block := sector.GetBlockBuffered(p.y);
      assert forall q :: q in sectors ==> sectors[q].blocks == old(sectors[q].blocks);
    }

    /** deleteSectors: drops the cached sector if it is one of them. */
    method DeleteSectors(list: seq<P2>)
      requires Valid() && forall i :: 0 <= i < |list| ==> list[i] in sectors
      requires forall i, j :: 0 <= i < j < |list| ==> list[i] != list[j]
      modifies this
      ensures Valid() && sectors == old(sectors) - (set i | 0 <= i < |list| :: list[i])
    {
      hide Valid;
      for n := 0 to |list|
        invariant Valid() && sectors == old(sectors) - (set i | 0 <= i < n :: list[i])
      {
        DeleteSector(list[n]);
      }
    }

    method DeleteSector(p: P2)
      requires Valid() && p in sectors
      modifies this
      ensures Valid() && sectors == old(sectors) - {p}
    {
      if cache == sectors[p] {
        cache := null;
      }
      sectors := sectors - {p};
    }

    /** Removes a block from its sector. */
    method DeleteBlock(block: MapBlock)
      requires Valid() && block in Resident()
      modifies sectors.Values, block`orphan
      ensures sectors == old(sectors)
      ensures Valid() && Resident() == old(Resident()) - {block} && block.orphan
    {
      ResidentIsFound(block);
      var sector := sectors[Column(block.pos)];
      ghost var before := Resident();
      sector.DetachBlock(block);
      forall b ensures b in Resident() <==> b in before && b != block {
        if b in before && b != block {
          var p, y :| p in sectors && y in old(sectors[p].blocks) && old(sectors[p].blocks)[y] == b;
          assert sectors[p].blocks[y] == b;
        }
        if b in Resident() {
          var p, y :| p in sectors && y in sectors[p].blocks && sectors[p].blocks[y] == b;
          assert old(sectors[p].blocks)[y] == b;
        }
      }
    }

    /** Ages the blocks of one sector and puts them in the queue. */
    method AgeSector(sector: MapSector, dtime: real) returns (queue: set<MapBlock>)
      requires sector.Valid()
      modifies sector.All()
      ensures queue == sector.All()
      ensures forall b :: b in queue ==> b.timer == old(b.timer) + dtime && Kept(b, old(b.refs), old(b.modified), old(b.orphan))
    {
      var todo := sector.blocks.Keys;
      queue := {};
      while todo != {}
        invariant todo <= sector.blocks.Keys
        invariant queue == set y | y in sector.blocks && y !in todo :: sector.blocks[y]
        invariant forall b :: b in sector.All() ==>
                    b.timer == old(b.timer) + (if b in queue then dtime else 0.0)
                    && Kept(b, old(b.refs), old(b.modified), old(b.orphan))
      {
        SomeHeight(todo);
        var y :| y in todo;
        todo := todo - {y};
        var block := sector.blocks[y];
        block.timer := block.timer + dtime;
        queue := queue + {block};
      }
    }

    /** The part of a block that ageing leaves alone. */
    static ghost predicate Kept(b: MapBlock, refs: nat, modified: bool, orphan: bool)
      reads b
    {
      b.refs == refs && b.modified == modified && b.orphan == orphan
    }

    /** The blocks of the sectors at some positions. */
    ghost function BlocksAt(at: set<P2>): set<MapBlock>
      reads this, sectors.Values
    {
      set p, y | p in sectors && p in at && y in sectors[p].blocks :: sectors[p].blocks[y]
    }

    /** Ages all blocks; the queue holds each of them once. */
    method AgeBlocks(dtime: real) returns (queue: set<MapBlock>)
      requires Valid()
      modifies Resident()
      ensures Valid() && queue == Resident() == old(Resident())
      ensures forall b :: b in queue ==> b.timer == old(b.timer) + dtime && Kept(b, old(b.refs), old(b.modified), old(b.orphan))
    {
      hide BlocksAt, Valid;
      ghost var all := Resident();
      var todo := sectors.Keys;
      queue := {};
      BlocksAtAll();
      while todo != {}
        invariant Valid() && Resident() == all && todo <= sectors.Keys && queue == BlocksAt(sectors.Keys - todo)
        invariant forall b :: b in all ==>
                    b.timer == old(b.timer) + (if b in queue then dtime else 0.0)
                    && Kept(b, old(b.refs), old(b.modified), old(b.orphan))
      {
        var p :| p in todo;
        SectorValid(p);
        BlocksAtMore(sectors.Keys - todo, p);
        assert sectors.Keys - todo + {p} == sectors.Keys - (todo - {p});
        todo := todo - {p};
        var more := AgeSector(sectors[p], dtime);
        queue := queue + more;
      }
      BlocksAtAll();
      assert sectors.Keys - {} == sectors.Keys;
    }

    lemma BlocksAtAll()
      ensures BlocksAt(sectors.Keys) == Resident() && BlocksAt(sectors.Keys - sectors.Keys) == {}
    {
    }

    lemma SectorValid(p: P2)
      requires Valid() && p in sectors
      ensures sectors[p].Valid()
    {
    }

    /** A block is found in its own column only. */
    lemma OnlyAt(at: set<P2>, b: MapBlock, y: int)
      requires Valid() && Column(b.pos) !in at
      ensures b !in BlocksAt(at)
    {
      forall q, z | q in sectors && q in at && z in sectors[q].blocks ensures sectors[q].blocks[z] != b {
        assert sectors[q].Valid();
      }
    }

    lemma BlocksAtMore(at: set<P2>, p: P2)
      requires Valid() && p in sectors && p !in at
      ensures BlocksAt(at + {p}) == BlocksAt(at) + sectors[p].All()
      ensures BlocksAt(at) !! sectors[p].All() && sectors[p].All() <= Resident()
    {
      forall b | b in sectors[p].All() ensures b in Resident() && b !in BlocksAt(at) && b in BlocksAt(at + {p}) {
        var y :| y in sectors[p].blocks && sectors[p].blocks[y] == b;
        assert sectors[p].Valid();
        OnlyAt(at, b, y);
      }
    }

    /** Saves a block if it has to be saved, and unloads it unless that failed. */
    method Evict(block: MapBlock, maySave: bool, saves: Pos -> bool) returns (done: bool)
      requires Valid() && block in Resident()
      modifies sectors.Values, block`orphan, block`modified
      ensures sectors == old(sectors)
      ensures Valid() && done == !(old(block.modified) && maySave && !saves(block.pos))
      ensures Resident() == if done then old(Resident()) - {block} else old(Resident())
      ensures block.modified == (old(block.modified) && !(maySave && done))
      ensures block.orphan == (done || old(block.orphan))
    {
      if block.modified && maySave {
        if !saves(block.pos) {
          return false;
        }
        block.modified := false;
      }
      DeleteBlock(block);
      return true;
    }

    /** Takes the block of greatest usage timer; among equals any of them. */
    static method Top(queue: set<MapBlock>) returns (top: MapBlock)
      requires queue != {}
      ensures top in queue && forall b :: b in queue ==> b.timer <= top.timer
    {
      top :| top in queue;
      var rest := queue - {top};
      while rest != {}
        invariant rest <= queue && top in queue
        invariant forall b :: b in queue && b !in rest ==> b.timer <= top.timer
      {
        var b :| b in rest;
        rest := rest - {b};
        if top.timer < b.timer {
          top := b;
        }
      }
    }

    /** What has become of the blocks: the fields of those not gone are as in `was`. */
    static ghost predicate Handled(was: map<MapBlock, Fields>, gone: seq<MapBlock>, locked: set<MapBlock>, failed: set<MapBlock>,
                                   maySave: bool, saves: Pos -> bool)
      reads was.Keys
    {
      && (forall b :: b in was ==> b.timer == was[b].timer && b.refs == was[b].refs)
      && (forall i :: 0 <= i < |gone| ==> gone[i] in was && gone[i].refs == 0 && (maySave ==> !gone[i].modified))
      && (forall b :: b in locked ==> b in was && b.refs != 0)
      && (forall b :: b in failed ==> b in was && b.refs == 0 && b.modified && maySave && !saves(b.pos))
      && (forall b :: b in was && b !in gone ==> b.modified == was[b].modified)
    }

    /** One turn of the loop: the top block is passed over, unloaded, or kept because it could not be saved. */
    method Handle(block: MapBlock, maySave: bool, saves: Pos -> bool, unloaded: seq<Pos>,
                  ghost was: map<MapBlock, Fields>, ghost gone: seq<MapBlock>, ghost locked: set<MapBlock>,
                  ghost failed: set<MapBlock>)
      returns (unloaded1: seq<Pos>, ghost gone1: seq<MapBlock>, ghost locked1: set<MapBlock>, ghost failed1: set<MapBlock>,
               ghost fate: Fate)
      requires Valid() && block in Resident() && block in was && block !in gone && block !in failed && block !in locked
      requires Handled(was, gone, locked, failed, maySave, saves) && unloaded == PositionsOf(gone)
      modifies sectors.Values, block`orphan, block`modified
      ensures Valid() && Handled(was, gone1, locked1, failed1, maySave, saves) && unloaded1 == PositionsOf(gone1)
      ensures sectors == old(sectors)
      ensures gone1 == if fate.Gone? then gone + [block] else gone
      ensures locked1 == if fate.Locked? then locked + {block} else locked
      ensures failed1 == if fate.Failed? then failed + {block} else failed
      ensures Resident() == if fate.Gone? then old(Resident()) - {block} else old(Resident())
    {
      hide Valid, Resident, PositionsOf;
      PositionsSnoc(gone, block);
      unloaded1, gone1, locked1, failed1 := unloaded, gone, locked, failed;
      if block.refs != 0 {
        locked1, fate := locked + {block}, Locked;
      } else {
        var done := Evict(block, maySave, saves);
        if done {
          unloaded1 := unloaded + [block.pos];
          gone1, fate := gone + [block], Gone;
        } else {
          failed1, fate := failed + {block}, Failed;
        }
      }
    }

    /** What holds throughout the loop. */
    ghost predicate Draining(was: map<MapBlock, Fields>, unloaded: seq<Pos>, gone: seq<MapBlock>, queue: set<MapBlock>,
                             locked: set<MapBlock>, failed: set<MapBlock>, maySave: bool, saves: Pos -> bool)
      reads this, sectors.Values, was.Keys
    {
      && Valid() && Parts(was.Keys, queue, gone, locked, failed) && Ordered(was, gone, queue)
      && Handled(was, gone, locked, failed, maySave, saves)
      && Resident() == Rest(queue, locked, failed) && unloaded == PositionsOf(gone)
    }

    /** One turn of the loop, for the top block. */
    method Turn(block: MapBlock, maySave: bool, saves: Pos -> bool, unloaded: seq<Pos>, ghost was: map<MapBlock, Fields>,
                ghost queue: set<MapBlock>, ghost gone: seq<MapBlock>, ghost locked: set<MapBlock>, ghost failed: set<MapBlock>)
      returns (unloaded1: seq<Pos>, ghost gone1: seq<MapBlock>, ghost locked1: set<MapBlock>, ghost failed1: set<MapBlock>)
      requires Draining(was, unloaded, gone, queue, locked, failed, maySave, saves)
      requires block in queue && queue <= was.Keys && forall b :: b in queue ==> was[b].timer <= was[block].timer
      modifies sectors.Values, block`orphan, block`modified
      ensures Draining(was, unloaded1, gone1, queue - {block}, locked1, failed1, maySave, saves)
      ensures sectors == old(sectors)
    {
      hide Valid, Resident, Parts, Ordered, Handled, Rest, PositionsOf;
      ghost var fate;
      PartsMove(was.Keys, queue, gone, locked, failed, block);
      OrderedMove(was, gone, queue, block);
      unloaded1, gone1, locked1, failed1, fate := Handle(block, maySave, saves, unloaded, was, gone, locked, failed);
    }

    /** The loop of timerUpdate with a limit on the loaded blocks. */
    method Drain(all: set<MapBlock>, timeout: real, max: nat, maySave: bool, saves: Pos -> bool, ghost was: map<MapBlock, Fields>)
      returns (unloaded: seq<Pos>, ghost gone: seq<MapBlock>, ghost queue: set<MapBlock>, ghost locked: set<MapBlock>,
               ghost failed: set<MapBlock>, ghost taken: seq<MapBlock>)
      requires Valid() && all == Resident() == was.Keys && Handled(was, [], {}, {}, maySave, saves)
      modifies sectors.Values, all
      ensures Draining(was, unloaded, gone, queue, locked, failed, maySave, saves)
      ensures |queue| <= max && queue <= all && forall b :: b in queue ==> was[b].timer <= timeout
      ensures Taken(was, queue, taken, timeout, max)
    {
      hide *;
      var blocks := all;
      unloaded := [];
      gone, locked, failed, taken := [], {}, {}, [];
      Start(was, maySave, saves);
      NothingTaken(was, timeout, max);
      while blocks != {}
        invariant blocks <= all && sectors == old(sectors)
        invariant Draining(was, unloaded, gone, blocks, locked, failed, maySave, saves)
        invariant Taken(was, blocks, taken, timeout, max)
      {
        var block := Top(blocks);
        QueueKnown(was, unloaded, gone, blocks, locked, failed, maySave, saves);
        if |blocks| <= max && block.timer <= timeout {
          break;
        }
        ghost var before := blocks;
        TakenMore(was, blocks, taken, timeout, max, block);
        blocks, taken := blocks - {block}, taken + [block];
        unloaded, gone, locked, failed := Turn(block, maySave, saves, unloaded, was, before, gone, locked, failed);
      }
      queue := blocks;
      QueueKnown(was, unloaded, gone, queue, locked, failed, maySave, saves);
    }

    lemma Start(was: map<MapBlock, Fields>, maySave: bool, saves: Pos -> bool)
      requires Valid() && Resident() == was.Keys && Handled(was, [], {}, {}, maySave, saves)
      ensures Draining(was, [], [], was.Keys, {}, {}, maySave, saves)
    {
    }

    lemma QueueKnown(was: map<MapBlock, Fields>, unloaded: seq<Pos>, gone: seq<MapBlock>, queue: set<MapBlock>,
                     locked: set<MapBlock>, failed: set<MapBlock>, maySave: bool, saves: Pos -> bool)
      requires Draining(was, unloaded, gone, queue, locked, failed, maySave, saves)
      ensures forall b :: b in queue ==> b in was && b.timer == was[b].timer
    {
    }

    /** The positions of the sectors without blocks. */
    method EmptySectors() returns (list: seq<P2>)
      requires Valid()
      ensures forall i :: 0 <= i < |list| ==> list[i] in sectors && sectors[list[i]].blocks == map[]
      ensures forall p :: p in sectors && sectors[p].blocks == map[] ==> p in list
      ensures forall i, j :: 0 <= i < j < |list| ==> list[i] != list[j]
    {
      list := [];
      var todo := sectors.Keys;
      while todo != {}
        invariant todo <= sectors.Keys
        invariant forall i :: 0 <= i < |list| ==> list[i] in sectors && list[i] !in todo && sectors[list[i]].blocks == map[]
        invariant forall p :: p in sectors && p !in todo && sectors[p].blocks == map[] ==> p in list
        invariant forall i, j :: 0 <= i < j < |list| ==> list[i] != list[j]
      {
        var p :| p in todo;
        todo := todo - {p};
        if sectors[p].blocks == map[] {
          list := list + [p];
        }
      }
    }

    /** The end of timerUpdate: the sectors without blocks go, the blocks stay. */
    method DropEmptySectors()
      requires Valid()
      modifies this
      ensures Valid() && Resident() == old(Resident())
      ensures forall p :: p in sectors ==> sectors[p].blocks != map[]
    {
      var list := EmptySectors();
      ghost var before := Resident();
      DeleteSectors(list);
      forall b ensures b in Resident() <==> b in before {
        if b in before {
          var p, y :| p in old(sectors) && y in old(sectors)[p].blocks && old(sectors)[p].blocks[y] == b;
          assert p in sectors;
        }
      }
    }

    /** timerUpdate with a limit on the loaded blocks. `was` tells what the blocks were like after ageing. */
    method TimerUpdate(dtime: real, timeout: real, max: nat, maySave: bool, saves: Pos -> bool)
      returns (unloaded: seq<Pos>, ghost was: map<MapBlock, Fields>, ghost gone: seq<MapBlock>,
               ghost left: set<MapBlock>, ghost locked: set<MapBlock>, ghost failed: set<MapBlock>,
               ghost taken: seq<MapBlock>)
      requires Valid()
      modifies this, sectors.Values, Resident()
      ensures Valid() && forall p :: p in sectors ==> sectors[p].blocks != map[]
      ensures was.Keys == old(Resident())
      ensures forall b :: b in was ==> was[b] == Fields(old(b.timer) + dtime, old(b.refs), old(b.modified))
      // every block is gone or still loaded: in use, not to be saved, or within the limits
      ensures Parts(was.Keys, left, gone, locked, failed) && Resident() == Rest(left, locked, failed)
      ensures |Resident()| <= max + |locked| + |failed| && forall b :: b in left ==> was[b].timer <= timeout
      // those that are not left were taken longest unused first, each because it was over the timeout or the limit
      ensures Taken(was, left, taken, timeout, max)
      ensures |old(Resident())| <= max && (forall b :: b in old(Resident()) ==> old(b.timer) + dtime <= timeout) ==>
                unloaded == [] && Resident() == old(Resident())
      // only unused blocks without unsaved changes are gone, those unused longest first
      ensures Handled(was, gone, locked, failed, maySave, saves) && Ordered(was, gone, left)
      // exactly their positions are reported, and no lookup finds them any more
      ensures unloaded == PositionsOf(gone) && forall i :: 0 <= i < |gone| ==> Lookup(gone[i].pos) == null
    {
      hide Valid, Resident, Parts, Ordered, Handled, Rest, DifferentPositions, Lookup, PositionsOf;
      OnePerPosition();
      var queue := AgeBlocks(dtime);
      was := map b | b in queue :: Fields(b.timer, b.refs, b.modified);
      AllHandled(was, maySave, saves);
      unloaded, gone, left, locked, failed, taken := Drain(queue, timeout, max, maySave, saves, was);
      DropEmptySectors();
      PartsAre(queue, left, gone, locked, failed);
      NotFound(queue, gone);
      NothingToTake(was, left, gone, locked, failed, taken, timeout, max);
    }

    static lemma AllHandled(was: map<MapBlock, Fields>, maySave: bool, saves: Pos -> bool)
      requires forall b :: b in was ==> was[b] == Fields(b.timer, b.refs, b.modified)
      ensures Handled(was, [], {}, {}, maySave, saves)
    {
    }

    /** Different loaded blocks are at different positions. */
    lemma OnePerPosition()
      requires Valid()
      ensures DifferentPositions(Resident())
    {
      forall b, c | b in Resident() && c in Resident() && b.pos == c.pos ensures b == c {
        ResidentIsFound(b);
        ResidentIsFound(c);
      }
    }

    lemma FoundIsResident(p: Pos)
      requires Valid()
      ensures Lookup(p) != null ==> Lookup(p) in Resident() && Lookup(p).pos == p
    {
      if Column(p) in sectors {
        assert sectors[Column(p)].Valid();
      }
    }

    /** Blocks that are no longer loaded are not found. */
    lemma NotFound(all: set<MapBlock>, gone: seq<MapBlock>)
      requires Valid() && DifferentPositions(all) && Resident() <= all
      requires forall i :: 0 <= i < |gone| ==> gone[i] in all && gone[i] !in Resident()
      ensures forall i :: 0 <= i < |gone| ==> Lookup(gone[i].pos) == null
    {
      forall i | 0 <= i < |gone| ensures Lookup(gone[i].pos) == null {
        FoundIsResident(gone[i].pos);
      }
    }
  }

  ghost predicate DifferentPositions(all: set<MapBlock>) {
    forall b, c :: b in all && c in all && b.pos == c.pos ==> b == c
  }

  // What the loop makes of a block.
  datatype Fate = Gone | Locked | Failed

  // What a block was like when the unloading began.
  datatype Fields = Fields(timer: real, refs: nat, modified: bool)

  /** The blocks that are still loaded. */
  ghost function Rest(queue: set<MapBlock>, locked: set<MapBlock>, failed: set<MapBlock>): set<MapBlock> {
    queue + locked + failed
  }

  /** Every block is in the queue, gone, locked or failed, and only once. */
  ghost predicate Parts(all: set<MapBlock>, queue: set<MapBlock>, gone: seq<MapBlock>, locked: set<MapBlock>,
                        failed: set<MapBlock>) {
    && all == queue + locked + failed + Elements(gone)
    && queue !! locked && queue !! failed && locked !! failed
    && (forall b :: b in gone ==> b !in queue && b !in locked && b !in failed)
    && (forall i, j :: 0 <= i < j < |gone| ==> gone[i] != gone[j])
  }

  /** Blocks are gone in the order of their timers, and before all that are still queued. */
  ghost predicate Ordered(was: map<MapBlock, Fields>, gone: seq<MapBlock>, queue: set<MapBlock>) {
    && queue <= was.Keys && (forall i :: 0 <= i < |gone| ==> gone[i] in was)
    && (forall i, j :: 0 <= i < j < |gone| ==> was[gone[i]].timer >= was[gone[j]].timer)
    && (forall i, b :: 0 <= i < |gone| && b in queue ==> was[gone[i]].timer >= was[b].timer)
  }

  /** All but the queue were taken, in the order of their timers, each when the queue was over the limit or the block over
      the timeout. */
  ghost predicate Taken(was: map<MapBlock, Fields>, queue: set<MapBlock>, taken: seq<MapBlock>, timeout: real, max: nat) {
    Ordered(was, taken, queue) && TakenFrom(was.Keys, queue, taken) && Deserved(was, taken, timeout, max)
  }

  /** Those taken are all that are not queued any more, once each. */
  ghost predicate TakenFrom(all: set<MapBlock>, queue: set<MapBlock>, taken: seq<MapBlock>) {
    && all == queue + Elements(taken) && queue !! Elements(taken) && |queue| + |taken| == |all|
    && forall i, j :: 0 <= i < j < |taken| ==> taken[i] != taken[j]
  }

  ghost predicate Deserved(was: map<MapBlock, Fields>, taken: seq<MapBlock>, timeout: real, max: nat) {
    forall k :: 0 <= k < |taken| ==> taken[k] in was && (was[taken[k]].timer > timeout || |was| - k > max)
  }

  lemma NothingTaken(was: map<MapBlock, Fields>, timeout: real, max: nat)
    ensures Taken(was, was.Keys, [], timeout, max)
  {
    assert Elements([]) == {};
  }

  lemma TakenMore(was: map<MapBlock, Fields>, queue: set<MapBlock>, taken: seq<MapBlock>, timeout: real, max: nat, top: MapBlock)
    requires Taken(was, queue, taken, timeout, max) && queue <= was.Keys
    requires top in queue && forall b :: b in queue ==> was[b].timer <= was[top].timer
    requires |queue| > max || was[top].timer > timeout
    ensures Taken(was, queue - {top}, taken + [top], timeout, max)
  {
    hide Ordered, TakenFrom;
    OrderedMove(was, taken, queue, top);
    TakenFromMore(was.Keys, queue, taken, top);
    TakenCount(was, queue, taken);
  }

  lemma TakenCount(was: map<MapBlock, Fields>, queue: set<MapBlock>, taken: seq<MapBlock>)
    requires TakenFrom(was.Keys, queue, taken)
    ensures |queue| == |was| - |taken|
  {
    hide Elements;
  }

  lemma TakenFromMore(all: set<MapBlock>, queue: set<MapBlock>, taken: seq<MapBlock>, top: MapBlock)
    requires TakenFrom(all, queue, taken) && top in queue
    ensures TakenFrom(all, queue - {top}, taken + [top])
  {
    assert Elements(taken + [top]) == Elements(taken) + {top};
    assert forall i :: 0 <= i < |taken| ==> taken[i] in Elements(taken);
  }

  lemma NoElements(s: seq<MapBlock>)
    ensures Elements(s) == {} ==> s == []
  {
    if s != [] {
      assert s[0] in Elements(s);
    }
  }

  /** With no block over the timeout and no more than the limit, none is taken, and so none is gone, locked or failed. */
  lemma NothingToTake(was: map<MapBlock, Fields>, queue: set<MapBlock>, gone: seq<MapBlock>, locked: set<MapBlock>,
                      failed: set<MapBlock>, taken: seq<MapBlock>, timeout: real, max: nat)
    requires Taken(was, queue, taken, timeout, max) && Parts(was.Keys, queue, gone, locked, failed)
    ensures |was| <= max && (forall b :: b in was ==> was[b].timer <= timeout) ==>
              gone == [] && Rest(queue, locked, failed) == was.Keys
  {
    if |was| <= max && forall b :: b in was ==> was[b].timer <= timeout {
      assert |taken| == 0;
      assert taken == [] && Elements([]) == {} && queue == was.Keys;
      GoneWasTaken(was.Keys, queue, gone, locked, failed);
      NoElements(gone);
    }
  }

  lemma GoneWasTaken(all: set<MapBlock>, queue: set<MapBlock>, gone: seq<MapBlock>, locked: set<MapBlock>, failed: set<MapBlock>)
    requires Parts(all, queue, gone, locked, failed) && queue == all
    ensures Elements(gone) == {}
  {
  }

  lemma PartsAre(all: set<MapBlock>, queue: set<MapBlock>, gone: seq<MapBlock>, locked: set<MapBlock>, failed: set<MapBlock>)
    requires Parts(all, queue, gone, locked, failed)
    ensures queue <= all && locked <= all && failed <= all && Rest(queue, locked, failed) <= all
    ensures forall i :: 0 <= i < |gone| ==> gone[i] in all && gone[i] !in Rest(queue, locked, failed)
    ensures forall b :: b in queue || b in locked || b in failed ==> b !in gone
    ensures |Rest(queue, locked, failed)| == |queue| + |locked| + |failed|
  {
  }

  /** A queued block joins one of the other parts. */
  lemma PartsMove(all: set<MapBlock>, queue: set<MapBlock>, gone: seq<MapBlock>, locked: set<MapBlock>,
                  failed: set<MapBlock>, b: MapBlock)
    requires Parts(all, queue, gone, locked, failed) && b in queue
    ensures Parts(all, queue - {b}, gone + [b], locked, failed)
    ensures Parts(all, queue - {b}, gone, locked + {b}, failed)
    ensures Parts(all, queue - {b}, gone, locked, failed + {b})
    ensures b in all && b !in locked && b !in failed && b !in gone
    ensures b in Rest(queue, locked, failed)
    ensures Rest(queue, locked, failed) - {b} == Rest(queue - {b}, locked, failed)
    ensures Rest(queue - {b}, locked + {b}, failed) == Rest(queue, locked, failed) == Rest(queue - {b}, locked, failed + {b})
  {
    assert Elements(gone + [b]) == Elements(gone) + {b};
  }

  lemma OrderedMove(was: map<MapBlock, Fields>, gone: seq<MapBlock>, queue: set<MapBlock>, top: MapBlock)
    requires Ordered(was, gone, queue) && top in queue && forall b :: b in queue ==> was[b].timer <= was[top].timer
    ensures Ordered(was, gone + [top], queue - {top}) && Ordered(was, gone, queue - {top})
  {
  }

  ghost function Elements(s: seq<MapBlock>): set<MapBlock> { set b | b in s }

  lemma PositionsSnoc(s: seq<MapBlock>, b: MapBlock)
    ensures PositionsOf(s + [b]) == PositionsOf(s) + [b.pos]
  {
  }

  function PositionsOf(s: seq<MapBlock>): (r: seq<Pos>)
    ensures |r| == |s| && forall i :: 0 <= i < |r| ==> r[i] == s[i].pos
  {
    seq(|s|, i requires 0 <= i < |s| => s[i].pos)
  }
}
