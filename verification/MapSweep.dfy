/** timerUpdate without a limit on the loaded blocks, where a failed save does not always keep a block. */
module MapSweep {
  import opened MapResidency
  import opened MapSectors
  import opened Positions

  // What the call is given: the time that has passed, the timeout, and what saving does.
  datatype Setting = Setting(dtime: real, timeout: real, maySave: bool, saves: Pos -> bool)

  /** Nobody uses the block, and nobody has for longer than the timeout. */
  predicate Expired(g: Setting, f: Fields) { f.refs == 0 && f.timer + g.dtime > g.timeout }

  /** The block has changes to be saved, and that fails. */
  predicate Unsaved(g: Setting, f: Fields, p: Pos) { f.modified && g.maySave && !g.saves(p) }

  ghost function Snapshot(m: Map): map<MapBlock, Fields>
    reads m, m.sectors.Values, m.Resident()
  {
    map b | b in m.Resident() :: Fields(b.timer, b.refs, b.modified)
  }

  /** The blocks of a column. */
  ghost function InColumn(all: set<MapBlock>, p: P2): set<MapBlock> {
    set b | b in all && Column(b.pos) == p
  }

  /** All blocks of a column have expired. */
  ghost predicate Deserted(g: Setting, was: map<MapBlock, Fields>, p: P2) {
    forall b :: b in was && Column(b.pos) == p ==> Expired(g, was[b])
  }

  /** The blocks of `done` were looked at; those of `gone` left. */
  ghost predicate Swept(m: Map, g: Setting, was: map<MapBlock, Fields>, done: set<MapBlock>, gone: seq<MapBlock>,
                        unloaded: seq<Pos>)
    reads m, m.sectors.Values, was.Keys
  {
    && m.Valid() && done <= was.Keys && m.Resident() == was.Keys - Elements(gone) && unloaded == PositionsOf(gone)
    && Selected(g, was, done, gone) && Touched(g, was, done, gone)
  }

  /** Exactly the expired ones that need no saving or were saved have left, each once. */
  ghost predicate Selected(g: Setting, was: map<MapBlock, Fields>, done: set<MapBlock>, gone: seq<MapBlock>) {
    && Elements(gone) == (set b | b in done && b in was && Expired(g, was[b]) && !Unsaved(g, was[b], b.pos))
    && (forall i, j :: 0 <= i < j < |gone| ==> gone[i] != gone[j])
  }

  /** What has become of the blocks themselves. */
  ghost predicate Touched(g: Setting, was: map<MapBlock, Fields>, done: set<MapBlock>, gone: seq<MapBlock>)
    reads was.Keys
  {
    forall b :: b in was ==>
      && b.refs == was[b].refs && b.timer == was[b].timer + (if b in done then g.dtime else 0.0)
      && b.modified == (was[b].modified && !(b in gone && g.maySave))
  }

  lemma SelectedMore(g: Setting, was: map<MapBlock, Fields>, done: set<MapBlock>, gone: seq<MapBlock>, block: MapBlock)
    requires Selected(g, was, done, gone) && block in was && block !in done
    ensures block !in Elements(gone) && block !in gone
    ensures Elements(gone + [block]) == Elements(gone) + {block}
    ensures PositionsOf(gone + [block]) == PositionsOf(gone) + [block.pos]
    ensures var leaves := Expired(g, was[block]) && !Unsaved(g, was[block], block.pos);
            Selected(g, was, done + {block}, if leaves then gone + [block] else gone)
  {
    assert block !in Elements(gone);
    assert Elements(gone + [block]) == Elements(gone) + {block};
    PositionsSnoc(gone, block);
  }

  /** One block: ages, and is saved and unloaded if it has expired. */
  method SweepBlock(m: Map, block: MapBlock, g: Setting, unloaded: seq<Pos>,
                    ghost was: map<MapBlock, Fields>, ghost done: set<MapBlock>, ghost gone: seq<MapBlock>)
    returns (expired: bool, unloaded1: seq<Pos>, ghost gone1: seq<MapBlock>)
    requires Swept(m, g, was, done, gone, unloaded) && block in was && block !in done
    modifies m.sectors.Values, block`timer, block`orphan, block`modified
    ensures Swept(m, g, was, done + {block}, gone1, unloaded1) && m.sectors == old(m.sectors)
    ensures expired == Expired(g, was[block])
  {
    hide Selected, Elements, PositionsOf, Map.Valid, Map.Resident;
    unloaded1, gone1 := unloaded, gone;
    SelectedMore(g, was, done, gone, block);
    block.timer := block.timer + g.dtime;
    expired := block.refs == 0 && block.timer > g.timeout;
    if expired {
      var done1 := m.Evict(block, g.maySave, g.saves);
      if done1 {
        unloaded1, gone1 := unloaded + [block.pos], gone + [block];
      }
    }
  }

  /** Before a column is swept, its sector holds all its blocks. */
  lemma ColumnIsSector(m: Map, g: Setting, was: map<MapBlock, Fields>, done: set<MapBlock>, gone: seq<MapBlock>,
                       unloaded: seq<Pos>, p: P2)
    requires Swept(m, g, was, done, gone, unloaded) && p in m.sectors && InColumn(done, p) == {}
    ensures m.sectors[p].All() == InColumn(was.Keys, p) <= was.Keys && m.sectors[p].All() !! done
  {
    forall b | b in m.sectors[p].All() ensures b in InColumn(was.Keys, p) {
      var y :| y in m.sectors[p].blocks && m.sectors[p].blocks[y] == b;
      assert b in m.Resident();
    }
    forall b | b in InColumn(was.Keys, p) ensures b in m.sectors[p].All() && b !in done {
      assert b !in InColumn(done, p);
      assert b in m.Resident();
      m.ResidentIsFound(b);
    }
  }

  /** The blocks of one sector; `emptied` if all of them have expired. */
  method SweepSector(m: Map, p: P2, g: Setting, unloaded: seq<Pos>,
                     ghost was: map<MapBlock, Fields>, ghost done: set<MapBlock>, ghost gone: seq<MapBlock>)
    returns (emptied: bool, unloaded1: seq<Pos>, ghost gone1: seq<MapBlock>)
    requires Swept(m, g, was, done, gone, unloaded) && p in m.sectors && InColumn(done, p) == {}
    modifies m.sectors.Values, was.Keys
    ensures Swept(m, g, was, done + InColumn(was.Keys, p), gone1, unloaded1) && m.sectors == old(m.sectors)
    ensures emptied <==> Deserted(g, was, p)
  {
    ColumnIsSector(m, g, was, done, gone, unloaded, p);
    hide Swept, Looked, AllExpired, InColumn;
    var blocks := m.sectors[p].GetBlocks();
    var todo := blocks;
    emptied, unloaded1, gone1 := true, unloaded, gone;
    LookedStart(g, was, done, blocks);
    while todo != {}
      invariant todo <= blocks && m.sectors == old(m.sectors)
      invariant Swept(m, g, was, Looked(done, blocks, todo), gone1, unloaded1)
      invariant emptied <==> AllExpired(g, was, blocks - todo)
    {
      var block :| block in todo;
      LookedMore(g, was, done, blocks, todo, block);
      ghost var before := Looked(done, blocks, todo);
      todo := todo - {block};
      var expired;
      expired, unloaded1, gone1 := SweepBlock(m, block, g, unloaded1, was, before, gone1);
      if !expired {
        emptied := false;
      }
    }
    LookedEnd(g, was, done, blocks, p);
  }

  /** What was looked at when only `todo` is left of some blocks. */
  ghost function Looked(done: set<MapBlock>, blocks: set<MapBlock>, todo: set<MapBlock>): set<MapBlock> {
    done + (blocks - todo)
  }

  ghost predicate AllExpired(g: Setting, was: map<MapBlock, Fields>, blocks: set<MapBlock>) {
    forall b :: b in blocks && b in was ==> Expired(g, was[b])
  }

  lemma LookedStart(g: Setting, was: map<MapBlock, Fields>, done: set<MapBlock>, blocks: set<MapBlock>)
    ensures Looked(done, blocks, blocks) == done && AllExpired(g, was, blocks - blocks)
  {
  }

  lemma LookedMore(g: Setting, was: map<MapBlock, Fields>, done: set<MapBlock>, blocks: set<MapBlock>, todo: set<MapBlock>,
                   block: MapBlock)
    requires block in todo && todo <= blocks <= was.Keys && blocks !! done
    ensures block in was && block !in Looked(done, blocks, todo)
    ensures Looked(done, blocks, todo - {block}) == Looked(done, blocks, todo) + {block}
    ensures AllExpired(g, was, blocks - (todo - {block})) <==>
            AllExpired(g, was, blocks - todo) && Expired(g, was[block])
  {
    assert blocks - (todo - {block}) == (blocks - todo) + {block};
  }

  lemma LookedEnd(g: Setting, was: map<MapBlock, Fields>, done: set<MapBlock>, blocks: set<MapBlock>, p: P2)
    requires blocks == InColumn(was.Keys, p)
    ensures Looked(done, blocks, {}) == done + blocks
    ensures AllExpired(g, was, blocks - {}) <==> Deserted(g, was, p)
  {
    assert blocks - {} == blocks;
  }

  /** The block is loaded in the end: it has not expired, or it could not be saved and its column is not deserted. */
  ghost predicate Stays(g: Setting, was: map<MapBlock, Fields>, b: MapBlock)
    requires b in was
  {
    !Expired(g, was[b]) || (Unsaved(g, was[b], b.pos) && !Deserted(g, was, Column(b.pos)))
  }

  /** Deletes the sectors of deserted columns, whatever blocks they still have. */
  method DropDeserted(m: Map, g: Setting, list: seq<P2>, ghost was: map<MapBlock, Fields>, ghost gone: seq<MapBlock>,
                      ghost unloaded: seq<Pos>)
    requires Swept(m, g, was, was.Keys, gone, unloaded)
    requires Listed(g, was, list, m.sectors.Keys)
    modifies m
    ensures m.Valid() && Selected(g, was, was.Keys, gone) && Touched(g, was, was.Keys, gone) && unloaded == PositionsOf(gone)
    ensures m.Resident() == set b | b in was && Stays(g, was, b)
  {
    ghost var before := m.Resident();
    forall b | b in before ensures Column(b.pos) in m.sectors {
      m.ResidentIsFound(b);
    }
    m.DeleteSectors(list);
    forall b ensures b in m.Resident() <==> b in before && Column(b.pos) !in list {
      if b in before && Column(b.pos) !in list {
        var p, y :| p in old(m.sectors) && y in old(m.sectors)[p].blocks && old(m.sectors)[p].blocks[y] == b;
        assert p in m.sectors;
      }
      if b in m.Resident() {
        m.ResidentIsFound(b);
      }
    }
    forall b ensures b in m.Resident() <==> b in was && Stays(g, was, b) {
      assert b in before <==> b in was && b !in Elements(gone);
    }
  }

  /** timerUpdate without a limit. `was` tells what the blocks were like before. */
  method SweepAll(m: Map, g: Setting) returns (unloaded: seq<Pos>, ghost was: map<MapBlock, Fields>, ghost gone: seq<MapBlock>)
    requires m.Valid()
    modifies m, m.sectors.Values, m.Resident()
    ensures m.Valid() && was == old(Snapshot(m))
    ensures Selected(g, was, was.Keys, gone) && Touched(g, was, was.Keys, gone) && unloaded == PositionsOf(gone)
    ensures m.Resident() == set b | b in was && Stays(g, was, b)
    // blocks that go unsaved and unreported are exactly those that could not be saved in a column where all have expired
    ensures forall b :: b in was ==>
              (b !in m.Resident() && b !in gone <==>
                 Expired(g, was[b]) && Unsaved(g, was[b], b.pos) && Deserted(g, was, Column(b.pos)))
  {
    was := Snapshot(m);
    var list;
    list, unloaded, gone := SweepSectors(m, g, was);
    DropDeserted(m, g, list, was, gone, unloaded);
    LeftOrStayed(g, was, gone);
  }

  lemma LeftOrStayed(g: Setting, was: map<MapBlock, Fields>, gone: seq<MapBlock>)
    requires Selected(g, was, was.Keys, gone)
    ensures forall b :: b in was ==>
              (!Stays(g, was, b) && b !in gone <==>
                 Expired(g, was[b]) && Unsaved(g, was[b], b.pos) && Deserted(g, was, Column(b.pos)))
  {
    forall b | b in was ensures b in gone <==> Expired(g, was[b]) && !Unsaved(g, was[b], b.pos) {
      assert b in gone <==> b in Elements(gone);
    }
  }

  /** The blocks of the columns that are not to be swept any more. */
  ghost function Behind(all: set<MapBlock>, todo: set<P2>): set<MapBlock> {
    set b | b in all && Column(b.pos) !in todo
  }

  lemma BehindMore(all: set<MapBlock>, todo: set<P2>, p: P2)
    requires p in todo
    ensures Behind(all, todo - {p}) == Behind(all, todo) + InColumn(all, p) && InColumn(Behind(all, todo), p) == {}
  {
  }

  /** Some columns, each once, are the deserted ones. */
  ghost predicate Listed(g: Setting, was: map<MapBlock, Fields>, list: seq<P2>, columns: set<P2>) {
    && (forall p :: p in list <==> p in columns && Deserted(g, was, p))
    && (forall i, j :: 0 <= i < j < |list| ==> list[i] != list[j])
  }

  lemma ListedMore(g: Setting, was: map<MapBlock, Fields>, list: seq<P2>, columns: set<P2>, p: P2)
    requires Listed(g, was, list, columns) && p !in columns
    ensures Listed(g, was, if Deserted(g, was, p) then list + [p] else list, columns + {p})
  {
    hide Deserted;
  }

  /** The loop over the sectors; the deserted ones are to be deleted. */
  method SweepSectors(m: Map, g: Setting, ghost was: map<MapBlock, Fields>)
    returns (list: seq<P2>, unloaded: seq<Pos>, ghost gone: seq<MapBlock>)
    requires m.Valid() && was == Snapshot(m)
    modifies m.sectors.Values, was.Keys
    ensures Swept(m, g, was, was.Keys, gone, unloaded) && m.sectors == old(m.sectors)
    ensures Listed(g, was, list, m.sectors.Keys)
  {
    hide Swept, Deserted, Listed, Behind, InColumn;
    NothingSwept(m, g, was);
    list, unloaded, gone := [], [], [];
    var todo := m.sectors.Keys;
    assert m.sectors.Keys - todo == {};
    while todo != {}
      invariant todo <= m.sectors.Keys && m.sectors == old(m.sectors)
      invariant Swept(m, g, was, Behind(was.Keys, todo), gone, unloaded)
      invariant Listed(g, was, list, m.sectors.Keys - todo)
    {
      var p :| p in todo;
      BehindMore(was.Keys, todo, p);
      ListedMore(g, was, list, m.sectors.Keys - todo, p);
      ghost var done := Behind(was.Keys, todo);
      LeftMore(m.sectors.Keys, todo, p);
      todo := todo - {p};
      var emptied;
      emptied, unloaded, gone := SweepSector(m, p, g, unloaded, was, done, gone);
      if emptied {
        list := list + [p];
      }
    }
    BehindAll(was.Keys);
    assert m.sectors.Keys - {} == m.sectors.Keys;
  }

  lemma BehindAll(all: set<MapBlock>)
    ensures Behind(all, {}) == all
  {
  }

  lemma LeftMore(all: set<P2>, todo: set<P2>, p: P2)
    requires p in todo && todo <= all
    ensures all - (todo - {p}) == all - todo + {p}
  {
  }

  lemma NothingSwept(m: Map, g: Setting, was: map<MapBlock, Fields>)
    requires m.Valid() && was == Snapshot(m)
    ensures Swept(m, g, was, Behind(was.Keys, m.sectors.Keys), [], []) && Listed(g, was, [], {})
  {
    forall b | b in was ensures Column(b.pos) in m.sectors {
      m.ResidentIsFound(b);
    }
  }

  method OneBlock() returns (m: Map, block: MapBlock)
    ensures fresh(m) && fresh(block) && m.Valid() && m.Resident() == {block} && fresh(m.sectors.Values)
    ensures block.modified && block.refs == 0 && block.timer == 0.0
  {
    m := new Map();
    block := new MapBlock(Pos(0, 0, 0));
    var sector := new MapSector(P2(0, 0));
    var ok := sector.InsertBlock(block);
    m.sectors := map[P2(0, 0) := sector];
    assert m.sectors[P2(0, 0)].blocks[0] == block;
  }

  /** A block with changes that cannot be saved, alone on the map: it is dropped all the same, and not reported. */
  method LostBlock() returns (m: Map, block: MapBlock, unloaded: seq<Pos>)
    ensures fresh(m) && fresh(block) && m.Valid()
    ensures block.modified && block.refs == 0 && block !in m.Resident() && unloaded == []
  {
    hide Map.Valid, Map.Resident, Selected, Elements, PositionsOf;
    m, block := OneBlock();
    var g := Setting(1.0, 0.0, true, (p: Pos) => false);
    ghost var was, gone;
    unloaded, was, gone := SweepAll(m, g);
    assert was == map[block := Fields(0.0, 0, true)];
    assert Unsaved(g, was[block], block.pos);
    NobodySaved(g, was, gone);
  }

  lemma NobodySaved(g: Setting, was: map<MapBlock, Fields>, gone: seq<MapBlock>)
    requires Selected(g, was, was.Keys, gone) && forall b :: b in was ==> Unsaved(g, was[b], b.pos)
    ensures gone == [] && PositionsOf(gone) == []
  {
    assert Elements(gone) == {};
    NoElements(gone);
  }
}
