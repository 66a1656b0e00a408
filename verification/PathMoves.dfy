/** Legal moves of the pathfinder: what calcCost computes, and what it means. */
module PathMoves {
  datatype V3 = V3(x: int, y: int, z: int)

  function Add(a: V3, b: V3): V3 { V3(a.x + b.x, a.y + b.y, a.z + b.z) }
  function Neg(a: V3): V3 { V3(-a.x, -a.y, -a.z) }
  function Up(a: V3, n: int): V3 { V3(a.x, a.y + n, a.z) }
  function Down(a: V3, n: int): V3 { V3(a.x, a.y - n, a.z) }

  datatype MapNode = MapNode(ignore: bool, walkable: bool)

  /** The map, the search limits, and how far a path may jump and drop. */
  datatype Area = Area(node: V3 -> MapNode, lo: V3, hi: V3, maxJump: nat, maxDrop: nat) {
    predicate Inside(p: V3) {
      lo.x <= p.x <= hi.x && lo.y <= p.y <= hi.y && lo.z <= p.z <= hi.z
    }

    /** isValidIndex of the index of `p`; the upper limits are excluded. */
    predicate InRange(p: V3) {
      lo.x <= p.x < hi.x && lo.y <= p.y < hi.y && lo.z <= p.z < hi.z
    }

    predicate Solid(p: V3) { !node(p).ignore && node(p).walkable }
    predicate Free(p: V3) { !node(p).ignore && !node(p).walkable }

    /** initNode: a free node on top of a walkable one. */
    predicate OnSurface(p: V3) { Free(p) && Solid(Down(p, 1)) }
  }

  datatype PathCost = PathCost(valid: bool, value: int, yChange: int, updated: bool)

  const NO_COST := PathCost(false, 0, 0, false)
  const NO_MOVE := PathCost(false, 0, 0, true)

  // The four cardinal directions.
  const DIRS := [V3(1, 0, 0), V3(-1, 0, 0), V3(0, 0, 1), V3(0, 0, -1)]

  /** A drop of `d` nodes beside `p` onto a surface. */
  ghost predicate Drops(a: Area, beside: V3, d: int) {
    && 0 <= d
    && (forall i :: 0 <= i <= d ==> a.Free(Down(beside, i)))
    && a.Solid(Down(beside, d + 1))
    && (d > 0 ==> a.lo.y < beside.y - d)
  }

  /** A jump of `u` nodes over the wall beside `p`, with nothing in the way above `p`.
      Where the wall ends the map need not be loaded. */
  ghost predicate Jumps(a: Area, p: V3, beside: V3, u: int) {
    && 0 < u
    && (forall i :: 0 <= i < u ==> a.Solid(Up(beside, i)))
    && !a.node(Up(beside, u)).walkable
    && (forall i :: 0 <= i <= u ==> a.Free(Up(p, i)))
    && beside.y + u <= a.hi.y
  }

  /** The legal moves from `p` towards `dir`, with their cost and change of height. */
  ghost predicate Move(a: Area, p: V3, dir: V3, value: int, yChange: int) {
    var beside := Add(p, dir);
    && a.Inside(beside)
    && (|| (value == 1 && yChange == 0 && Drops(a, beside, 0))
        || (value == 2 && yChange < 0 && Drops(a, beside, -yChange) && -yChange <= a.maxDrop)
        || (value == 2 && yChange > 0 && Jumps(a, p, beside, yChange) && yChange <= a.maxJump))
  }

  /** What calcCost answers: the one legal move, if there is any. */
  ghost predicate IsCost(a: Area, p: V3, dir: V3, c: PathCost) {
    && c.updated
    && (c.valid ==> Move(a, p, dir, c.value, c.yChange))
    && (!c.valid ==> c == NO_MOVE && forall v, y :: !Move(a, p, dir, v, y))
  }

  /** Where the walk down from a free cell ends is the only place to drop to. */
  lemma OnlyDrop(a: Area, p: V3, dir: V3, d: int, v: int, y: int)
    requires 0 <= d && Move(a, p, dir, v, y)
    requires forall i :: 0 <= i <= d ==> a.Free(Down(Add(p, dir), i))
    requires var end := Down(Add(p, dir), d + 1); !a.Free(end) || end.y <= a.lo.y
    ensures y == -d && a.Solid(Down(Add(p, dir), d + 1)) && (d > 0 ==> a.lo.y < Add(p, dir).y - d)
  {
    var b := Add(p, dir);
    assert Up(b, 0) == Down(b, 0);
    assert a.Free(Down(b, 0));
    assert y > 0 ==> a.Solid(Up(b, 0));
    assert 0 <= -y < d ==> a.Free(Down(b, -y + 1));
    assert d < -y ==> a.Free(Down(b, d + 1));
  }

  /** Where the wall beside ends is the only place to jump to. */
  lemma OnlyJump(a: Area, p: V3, dir: V3, u: int, v: int, y: int)
    requires 0 < u && Move(a, p, dir, v, y)
    requires forall i :: 0 <= i < u ==> a.Solid(Up(Add(p, dir), i))
    requires var end := Up(Add(p, dir), u); !a.Solid(end) || end.y >= a.hi.y
    ensures y == u
  {
    var b := Add(p, dir);
    assert Up(b, 0) == Down(b, 0);
    assert a.Solid(Up(b, 0));
    assert y <= 0 ==> a.Free(Down(b, 0));
    assert u < y ==> a.Solid(Up(b, u));
    assert 0 < y < u ==> a.Solid(Up(b, y));
  }

  /** No two moves go the same way. */
  lemma MoveUnique(a: Area, p: V3, dir: V3, v1: int, y1: int, v2: int, y2: int)
    requires Move(a, p, dir, v1, y1) && Move(a, p, dir, v2, y2)
    ensures v1 == v2 && y1 == y2
  {
    var b := Add(p, dir);
    if y1 <= 0 {
      OnlyDrop(a, p, dir, -y1, v2, y2);
    } else {
      OnlyJump(a, p, dir, y1, v2, y2);
    }
  }

  method CalcCost(a: Area, pos: V3, dir: V3) returns (c: PathCost)
    ensures IsCost(a, pos, dir, c)
  {
    c := NO_MOVE;
    var pos2 := Add(pos, dir);
    if !a.Inside(pos2) {
      return;
    }
    if a.node(pos2).ignore {
      ForbiddenBeside(a, pos, dir);
      return;
    }
    if !a.node(pos2).walkable {
      var below := Down(pos2, 1);
      assert Down(pos2, 0) == pos2;
      if a.node(below).ignore {
        forall v, y ensures !Move(a, pos, dir, v, y) {
          if Move(a, pos, dir, v, y) { OnlyDrop(a, pos, dir, 0, v, y); }
        }
        return;
      }
      if a.node(below).walkable {
        c := PathCost(true, 1, 0, true);
        return;
      }
      c := CalcDrop(a, pos, dir);
    } else {
      c := CalcJump(a, pos, dir);
    }
  }

  lemma ForbiddenBeside(a: Area, p: V3, dir: V3)
    requires a.node(Add(p, dir)).ignore
    ensures forall v, y :: !Move(a, p, dir, v, y)
  {
    var b := Add(p, dir);
    assert Up(b, 0) == b == Down(b, 0);
    forall v, y ensures !Move(a, p, dir, v, y) {
      assert Move(a, p, dir, v, y) ==> a.Free(Down(b, 0)) || a.Solid(Up(b, 0));
    }
  }

  /** The walk down to the first surface below. */
  method CalcDrop(a: Area, pos: V3, dir: V3) returns (c: PathCost)
    requires a.Inside(Add(pos, dir)) && a.Free(Add(pos, dir)) && a.Free(Down(Add(pos, dir), 1))
    ensures IsCost(a, pos, dir, c)
  {
    c := NO_MOVE;
    var pos2 := Add(pos, dir);
    var test := Down(pos2, 1);
    ghost var d := 0;
    assert Down(pos2, 0) == pos2;
    while !a.node(test).ignore && !a.node(test).walkable && test.y > a.lo.y
      invariant 0 <= d && test == Down(pos2, d + 1)
      invariant forall i :: 0 <= i <= d ==> a.Free(Down(pos2, i))
      decreases test.y - a.lo.y
    {
      test := Down(test, 1);
      d := d + 1;
    }
    if test.y >= a.lo.y && !a.node(test).ignore && a.node(test).walkable && pos2.y - test.y - 1 <= a.maxDrop {
      assert d > 0 && Drops(a, pos2, d);
      c := PathCost(true, 2, test.y - pos2.y + 1, true);
    } else {
      forall v, y ensures !Move(a, pos, dir, v, y) {
        if Move(a, pos, dir, v, y) { OnlyDrop(a, pos, dir, d, v, y); }
      }
    }
  }

  /** The walk up to the top of the wall beside. */
  method CalcJump(a: Area, pos: V3, dir: V3) returns (c: PathCost)
    requires a.Inside(Add(pos, dir)) && a.Solid(Add(pos, dir))
    ensures IsCost(a, pos, dir, c)
  {
    c := NO_MOVE;
    var pos2 := Add(pos, dir);
    var target, jump := pos2, pos;
    var headbanger := false;
    ghost var u := 0;
    while !a.node(target).ignore && a.node(target).walkable && target.y < a.hi.y
      invariant 0 <= u && target == Up(pos2, u) && jump == Up(pos, u) && target.y <= a.hi.y
      invariant forall i :: 0 <= i < u ==> a.Solid(Up(pos2, i)) && a.Free(Up(pos, i))
      invariant !headbanger
      decreases a.hi.y - target.y
    {
      if a.node(jump).ignore || a.node(jump).walkable {
        headbanger := true;
        break;
      }
      target, jump := Up(target, 1), Up(jump, 1);
      u := u + 1;
    }
    if a.node(jump).ignore || a.node(jump).walkable {
      headbanger := true;
    }
    if !headbanger && target.y <= a.hi.y && !a.node(target).walkable && target.y - pos2.y <= a.maxJump {
      c := PathCost(true, 2, target.y - pos2.y, true);
      assert u > 0 by {
        assert Up(pos2, 0) == pos2;
      }
      assert Jumps(a, pos, pos2, u);
    } else {
      forall v, y ensures !Move(a, pos, dir, v, y) {
        if Move(a, pos, dir, v, y) { NoJump(a, pos, dir, u, headbanger, v, y); }
      }
    }
  }

  lemma NoJump(a: Area, p: V3, dir: V3, u: int, headbanger: bool, v: int, y: int)
    requires 0 <= u && Move(a, p, dir, v, y) && a.Solid(Add(p, dir))
    requires forall i :: 0 <= i < u ==> a.Solid(Up(Add(p, dir), i))
    requires headbanger ==> !a.Free(Up(p, u)) 
    requires !headbanger ==> !a.Solid(Up(Add(p, dir), u)) || Up(Add(p, dir), u).y >= a.hi.y
    ensures !headbanger && y == u && !a.node(Up(Add(p, dir), u)).walkable && u <= a.maxJump
  {
    var b := Add(p, dir);
    assert Up(b, 0) == b == Down(b, 0);
    assert y <= 0 ==> a.Free(Down(b, 0));
    assert u <= y ==> a.Free(Up(p, u));
    assert 0 < y < u ==> a.Solid(Up(b, y));
    assert 0 < y && u < y ==> a.Solid(Up(b, u));
  }

  /** A legal move from `p` to `q` of cost `c`. */
  ghost predicate Edge(a: Area, p: V3, q: V3, c: int) {
    exists k :: 0 <= k < 4 && Leads(a, p, k, c, q)
  }

  ghost predicate Leads(a: Area, p: V3, k: nat, c: int, q: V3)
    requires k < 4
  {
    && Move(a, p, DIRS[k], c, q.y - p.y)
    && q == Up(Add(p, DIRS[k]), q.y - p.y)
  }

  /** Every legal move stays within the search limits, goes somewhere else, and costs 1 or 2. */
  lemma MoveInside(a: Area, p: V3, k: nat, c: int, q: V3)
    requires k < 4 && Leads(a, p, k, c, q)
    ensures a.Inside(q) && 1 <= c <= 2 && q != p
  {
  }

  /** A node the search may step on. */
  predicate Searchable(a: Area, p: V3) {
    a.InRange(p) && a.OnSurface(p)
  }

  ghost predicate IsPath(a: Area, path: seq<V3>, s: V3, t: V3) {
    && path != [] && path[0] == s && path[|path| - 1] == t
    && (forall i :: 0 <= i < |path| ==> Searchable(a, path[i]))
    && (forall i :: 0 <= i < |path| - 1 ==> Connected(a, path[i], path[i + 1]))
  }

  ghost predicate Connected(a: Area, p: V3, q: V3) {
    exists c :: Edge(a, p, q, c)
  }

  ghost predicate Reachable(a: Area, s: V3, t: V3) {
    exists path :: IsPath(a, path, s, t)
  }

  lemma ReachSelf(a: Area, s: V3)
    requires Searchable(a, s)
    ensures Reachable(a, s, s)
  {
    assert IsPath(a, [s], s, s);
  }

  lemma ReachStep(a: Area, s: V3, p: V3, q: V3)
    requires Reachable(a, s, p) && Connected(a, p, q) && Searchable(a, q)
    ensures Reachable(a, s, q)
  {
    var path :| IsPath(a, path, s, p);
    var longer := path + [q];
    forall i | 0 <= i < |longer| - 1 ensures Connected(a, longer[i], longer[i + 1]) {
      if i < |path| - 1 { assert Connected(a, path[i], path[i + 1]); }
    }
    assert IsPath(a, longer, s, q);
  }

  /** A set closed under moves holds everything that can be reached from inside. */
  lemma {:induction false} ClosedHoldsPath(a: Area, closed: set<V3>, path: seq<V3>, s: V3, t: V3)
    requires IsPath(a, path, s, t) && s in closed
    requires forall p, q :: p in closed && Connected(a, p, q) && Searchable(a, q) ==> q in closed
    ensures t in closed
    decreases |path|
  {
    if |path| > 1 {
      assert Connected(a, path[0], path[1]) && Searchable(a, path[1]);
      var rest := path[1..];
      forall i | 0 <= i < |rest| - 1 ensures Connected(a, rest[i], rest[i + 1]) {
        assert Connected(a, path[i + 1], path[i + 2]);
      }
      ClosedHoldsPath(a, closed, rest, path[1], t);
    }
  }
}
