/** Legal moves in plain coordinates, on ground of any shape. */
module PathHills {
  import opened PathMoves

  /** Everything is loaded, walkable up to a height, and free above. */
  ghost predicate Hills(a: Area, height: (int, int) -> int) {
    forall p :: !a.node(p).ignore && (a.node(p).walkable <==> p.y < height(p.x, p.z))
  }

  /** From one column of nodes to one of the four beside it. */
  predicate Neighbors(p: V3, q: V3) {
    || (q.z == p.z && (q.x == p.x + 1 || q.x == p.x - 1))
    || (q.x == p.x && (q.z == p.z + 1 || q.z == p.z - 1))
  }

  /** On any map, connections are the legal moves to the four sides, at the cost of the move. */
  lemma EdgesAreMoves(a: Area, p: V3, q: V3, c: int)
    ensures Edge(a, p, q, c) <==> Neighbors(p, q) && Move(a, p, V3(q.x - p.x, 0, q.z - p.z), c, q.y - p.y)
  {
    var d := V3(q.x - p.x, 0, q.z - p.z);
    if k :| 0 <= k < 4 && Leads(a, p, k, c, q) {
      assert DIRS[k] == d;
    }
    if Neighbors(p, q) && Move(a, p, d, c, q.y - p.y) {
      var k := if d.x == 1 then 0 else if d.x == -1 then 1 else if d.z == 1 then 2 else 3;
      assert Leads(a, p, k, c, q);
    }
  }

  /** One stands on top of the ground, below and before the upper limits. */
  lemma HillsSearchable(a: Area, height: (int, int) -> int, p: V3)
    requires Hills(a, height)
    ensures Searchable(a, p) <==>
            && p.y == height(p.x, p.z)
            && a.lo.x <= p.x < a.hi.x && a.lo.y <= p.y < a.hi.y && a.lo.z <= p.z < a.hi.z
  {
    var below := V3(p.x, p.y - 1, p.z);
    assert a.node(below).walkable <==> below.y < height(p.x, p.z);
  }

  /** A step goes to one of the four sides: on the level for 1; for 2 down by no more than the drop, except to the very
      bottom of the search limits, or up by no more than the jump. */
  lemma HillsEdges(a: Area, height: (int, int) -> int, p: V3, q: V3, c: int)
    requires Hills(a, height) && Searchable(a, p) && Searchable(a, q)
    ensures Edge(a, p, q, c) <==>
            && Neighbors(p, q)
            && (|| (c == 1 && q.y == p.y)
                || (c == 2 && a.lo.y < q.y < p.y <= q.y + a.maxDrop)
                || (c == 2 && p.y < q.y <= p.y + a.maxJump))
  {
    EdgesAreMoves(a, p, q, c);
    HillsSearchable(a, height, p);
    HillsSearchable(a, height, q);
    var beside := V3(q.x, p.y, q.z);
    if Neighbors(p, q) {
      var y := q.y - p.y;
      assert Add(p, V3(q.x - p.x, 0, q.z - p.z)) == beside;
      if y <= 0 {
        assert Drops(a, beside, -y) <==> (y < 0 ==> a.lo.y < q.y);
      } else {
        forall i | 0 <= i < y ensures a.Solid(Up(beside, i)) {
        }
        assert Jumps(a, p, beside, y);
      }
    }
  }

  /** On level ground every place that one can stand on is reached from every other. */
  lemma {:induction false} LevelReachable(a: Area, level: int, s: V3, t: V3)
    requires Hills(a, (x, z) => level) && Searchable(a, s) && Searchable(a, t)
    ensures Reachable(a, s, t)
    decreases if t.x < s.x then s.x - t.x else t.x - s.x, if t.z < s.z then s.z - t.z else t.z - s.z
  {
    var h := (x, z) => level;
    HillsSearchable(a, h, s);
    HillsSearchable(a, h, t);
    if s == t {
      ReachSelf(a, s);
    } else {
      // the last node but one
      var p := if t.x < s.x then V3(t.x + 1, t.y, t.z) else if s.x < t.x then V3(t.x - 1, t.y, t.z)
               else if t.z < s.z then V3(t.x, t.y, t.z + 1) else V3(t.x, t.y, t.z - 1);
      HillsSearchable(a, h, p);
      LevelReachable(a, level, s, p);
      HillsEdges(a, h, p, t, 1);
      ReachStep(a, s, p, t);
    }
  }
}
