/** How long legal paths are, and an area with a long one. */
module PathLength {
  import opened PathMoves
  import Matching

  /** The positions within the limits. */
  ghost function Cells(a: Area): set<V3> {
    set x, y, z | a.lo.x <= x <= a.hi.x && a.lo.y <= y <= a.hi.y && a.lo.z <= z <= a.hi.z :: V3(x, y, z)
  }

  lemma InCells(a: Area, p: V3)
    requires a.Inside(p)
    ensures p in Cells(a)
  {
    assert p == V3(p.x, p.y, p.z);
  }

  /** The nodes a path can go by. */
  ghost function Ground(a: Area): set<V3> {
    set p | p in Cells(a) && Searchable(a, p)
  }

  ghost predicate Distinct(path: seq<V3>) {
    forall i, j :: 0 <= i < j < |path| ==> path[i] != path[j]
  }

  ghost function NodesOf(path: seq<V3>): set<V3> {
    set p | p in path
  }

  /** No node leads to a later one than the next. */
  ghost predicate Direct(a: Area, path: seq<V3>) {
    forall i, j :: 0 <= i && i + 1 < j < |path| ==> !Connected(a, path[i], path[j])
  }

  /** Some path without shortcuts has more than `n` nodes. */
  ghost predicate LongPath(a: Area, s: V3, t: V3, n: int) {
    exists path :: IsPath(a, path, s, t) && Direct(a, path) && |path| > n
  }

  lemma PlaceOf(path: seq<V3>, p: V3) returns (k: nat)
    requires p in NodesOf(path)
    ensures k < |path| && path[k] == p
  {
    k :| k < |path| && path[k] == p;
  }

  lemma NodesMore(path: seq<V3>, p: V3)
    ensures NodesOf(path + [p]) == NodesOf(path) + {p}
  {
  }

  lemma {:induction false} DistinctSize(path: seq<V3>)
    requires Distinct(path)
    ensures |NodesOf(path)| == |path|
  {
    if path == [] {
    } else {
      var n := |path| - 1;
      DistinctSize(path[..n]);
      assert NodesOf(path) == NodesOf(path[..n]) + {path[n]} by {
        assert path == path[..n] + [path[n]];
      }
    }
  }

  /** Paths that meet no node twice are no longer than there are nodes to step on, even with one to spare. */
  lemma PathFits(a: Area, path: seq<V3>, spare: set<V3>)
    requires Distinct(path) && spare <= Ground(a)
    requires forall i :: 0 <= i < |path| ==> Searchable(a, path[i]) && path[i] !in spare
    ensures |path| + |spare| <= |Ground(a)|
  {
    DistinctSize(path);
    forall p | p in NodesOf(path) ensures p in Ground(a) {
      InCells(a, p);
    }
    assert NodesOf(path) !! spare;
    Matching.SubsetSize(NodesOf(path) + spare, Ground(a));
  }

  function Abs(n: int): nat { if n < 0 then -n else n }

  /** The distance as seen from above. */
  function Apart(p: V3, q: V3): nat { Abs(p.x - q.x) + Abs(p.z - q.z) }

  /** Each move goes one node to a side, whatever it does to the height. */
  lemma {:induction false} PathSpans(a: Area, path: seq<V3>, s: V3, t: V3)
    requires IsPath(a, path, s, t)
    ensures Apart(s, t) < |path|
    decreases |path|
  {
    if |path| > 1 {
      assert Connected(a, path[0], path[1]);
      var rest := path[1..];
      forall i | 0 <= i < |rest| - 1 ensures Connected(a, rest[i], rest[i + 1]) {
        assert Connected(a, path[i + 1], path[i + 2]);
      }
      PathSpans(a, rest, path[1], t);
    }
  }

  /** A row of `n + 1` nodes to stand on. */
  function Corridor(n: nat): Area {
    Area((p: V3) => MapNode(false, p.y <= 0), V3(0, 0, 0), V3(n + 1, 2, 1), 1, 1)
  }

  lemma CorridorReachable(n: nat)
    ensures Reachable(Corridor(n), V3(0, 1, 0), V3(n, 1, 0))
  {
    var a := Corridor(n);
    var path := seq(n + 1, i => V3(i, 1, 0));
    forall i | 0 <= i < n ensures Connected(a, path[i], path[i + 1]) {
      var beside := path[i + 1];
      assert Down(beside, 0) == beside && Add(path[i], DIRS[0]) == beside;
      assert Drops(a, beside, 0);
      assert Leads(a, path[i], 0, 1, path[i + 1]);
      assert Edge(a, path[i], path[i + 1], 1);
    }
    assert IsPath(a, path, V3(0, 1, 0), V3(n, 1, 0));
  }
}
