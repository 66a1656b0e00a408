/** The Hopcroft-Karp matcher behind shapeless recipes with group slots. */
module HopcroftKarp {
  import opened Matching

  const INF: nat := 0xFFFF         // UINT16_MAX, stands for "not reached"
  const GROUPS_MAX: nat := 30000   // SHAPELESS_GROUPS_MAX

  /** `pu` and `pv` are mutually inverse along edges of `g`; `|g|` is the dummy node. */
  ghost predicate Matched(g: Graph, pu: seq<nat>, pv: seq<nat>) {
    && |pu| == |pv| == |g| + 1
    && (forall u :: 0 <= u < |g| && pu[u] != |g| ==>
          pu[u] < |g| && Edge(g, u, pu[u]) && pv[pu[u]] == u)
    && (forall v :: 0 <= v < |g| && pv[v] != |g| ==> pv[v] < |g| && pu[pv[v]] == v)
  }

  ghost function MatchedSet(g: Graph, pu: seq<nat>): set<nat>
    requires |pu| == |g| + 1
  {
    set u: nat | u < |g| && pu[u] != |g|
  }

  /** The alternating step from `y` over right node `v` to its partner `x`, one layer further. */
  ghost predicate Climbs(g: Graph, pv: seq<nat>, d: seq<nat>, y: nat, v: nat, x: nat)
    requires |pv| == |d| == |g| + 1 && ValidGraph(g) && x <= |g|
  {
    Edge(g, y, v) && pv[v] == x && d[x] == d[y] + 1
  }

  ghost predicate HasParent(g: Graph, pv: seq<nat>, d: seq<nat>, x: nat)
    requires |pv| == |d| == |g| + 1 && ValidGraph(g) && x <= |g|
  {
    exists y: nat, v: nat :: Climbs(g, pv, d, y, v, x)
  }

  /** The layering a breadth-first search leaves in `d`. */
  ghost predicate Layered(g: Graph, pu: seq<nat>, pv: seq<nat>, d: seq<nat>)
    requires ValidGraph(g)
  {
    && |pu| == |pv| == |d| == |g| + 1 < INF
    && (forall x :: 0 <= x <= |g| ==> d[x] <= |g| || d[x] == INF)
    && (forall u :: 0 <= u < |g| ==> (d[u] == 0 <==> pu[u] == |g|))
    && d[|g|] != 0
    && (forall x {:trigger HasParent(g, pv, d, x)} :: 0 <= x <= |g| && d[x] != 0 && d[x] != INF ==> HasParent(g, pv, d, x))
  }

  /** Nothing unreached lies one step beyond `u`. */
  ghost predicate Expanded(g: Graph, pv: seq<nat>, d: seq<nat>, u: nat)
    requires |pv| == |d| == |g| + 1 && ValidGraph(g)
    requires forall v :: 0 <= v < |g| ==> pv[v] <= |g|
  {
    forall v: nat :: Edge(g, u, v) ==> d[pv[v]] != INF
  }

  ghost function Reached(g: Graph, d: seq<nat>): set<nat>
    requires |d| == |g| + 1
  {
    set u: nat | u < |g| && d[u] != INF
  }

  /** `d` is `d0` with some nodes given up by the depth-first walk; never the dummy. */
  ghost predicate Pruned(n: nat, d0: seq<nat>, d: seq<nat>) {
    && |d0| == |d| == n + 1
    && (forall x :: 0 <= x <= n ==> d[x] == d0[x] || d[x] == INF)
    && (forall x :: 0 <= x <= n ==> d0[x] <= n || d0[x] == INF)
    && d[n] == d0[n]
  }

  /** Everything one layer beyond `x` was given up. */
  ghost predicate Hopeless(g: Graph, pv: seq<nat>, d0: seq<nat>, d: seq<nat>, x: nat)
    requires |pv| == |d0| == |d| == |g| + 1 && ValidGraph(g)
  {
    forall v, y :: 0 <= y <= |g| && Climbs(g, pv, d0, x, v, y) ==> d[y] == INF
  }

  /** A node is given up only when it is hopeless. */
  ghost predicate DeadClosed(g: Graph, pv: seq<nat>, d0: seq<nat>, d: seq<nat>)
    requires |pv| == |d0| == |d| == |g| + 1 && ValidGraph(g)
  {
    forall x :: 0 <= x < |g| && d[x] == INF && d0[x] != INF ==> Hopeless(g, pv, d0, d, x)
  }

  /** If all free nodes were given up, so was every layered node, up to the dummy. */
  lemma {:induction false} DeadSpreads(g: Graph, pu: seq<nat>, pv: seq<nat>, d0: seq<nat>, d: seq<nat>, x: nat)
    requires ValidGraph(g) && Layered(g, pu, pv, d0) && Pruned(|g|, d0, d)
    requires DeadClosed(g, pv, d0, d)
    requires forall u :: 0 <= u < |g| && pu[u] == |g| ==> d[u] == INF
    requires x <= |g| && d0[x] != INF
    ensures d[x] == INF
    decreases d0[x]
  {
    if d0[x] > 0 {
      assert HasParent(g, pv, d0, x);
      var y: nat, v: nat :| Climbs(g, pv, d0, y, v, x);
      DeadSpreads(g, pu, pv, d0, d, y);
      assert Hopeless(g, pv, d0, d, y);
    }
  }

  /** A round in which every attempt from a free node fails contradicts that the dummy was layered. */
  lemma SomeAttemptSucceeds(g: Graph, pu: seq<nat>, pv: seq<nat>, d0: seq<nat>, d: seq<nat>)
    requires ValidGraph(g) && Layered(g, pu, pv, d0) && Pruned(|g|, d0, d)
    requires DeadClosed(g, pv, d0, d) && d0[|g|] != INF
    ensures exists u :: 0 <= u < |g| && pu[u] == |g| && d[u] != INF
  {
    if forall u :: 0 <= u < |g| && pu[u] == |g| ==> d[u] == INF {
      DeadSpreads(g, pu, pv, d0, d, |g|);
      assert false;
    }
  }

  /** When the search cannot reach the dummy, the nodes it did reach violate Hall's condition. */
  lemma ReachedViolatesHall(g: Graph, pu: seq<nat>, pv: seq<nat>, d: seq<nat>, free: nat)
    requires ValidGraph(g) && Matched(g, pu, pv) && Layered(g, pu, pv, d) && d[|g|] == INF
    requires forall u :: u in Reached(g, d) ==> Expanded(g, pv, d, u)
    requires free < |g| && pu[free] == |g|
    ensures HallViolator(g, Reached(g, d))
  {
    var reached := Reached(g, d);
    var next := Neighbours(g, reached);
    forall v | v in next
      ensures v < |g| && pv[v] in reached && pv[v] != free && pu[pv[v]] == v
    {
      var u :| u in reached && Edge(g, u, v);
      assert Expanded(g, pv, d, u);
    }
    InjectiveImageSize(next, pv);
    var image := set v | v in next :: pv[v];
    assert image <= reached - {free};
    SubsetSize(image, reached - {free});
  }

  /** What holds of the distances while the search runs. */
  ghost predicate Search(g: Graph, pu: seq<nat>, pv: seq<nat>, d: seq<nat>, reached: set<nat>)
    requires ValidGraph(g)
  {
    && |pu| == |pv| == |d| == |g| + 1 < INF
    && (forall x :: x in reached <==> 0 <= x <= |g| && d[x] != INF)
    && |reached| <= |g| + 1
    && (forall x :: x in reached ==> d[x] < |reached|)
    && (forall u :: 0 <= u < |g| ==> (d[u] == 0 <==> pu[u] == |g|))
    && d[|g|] != 0
    && (forall x {:trigger HasParent(g, pv, d, x)} :: x in reached && d[x] != 0 ==> HasParent(g, pv, d, x))
  }

  lemma InitialSearch(g: Graph, pu: seq<nat>, pv: seq<nat>, d: seq<nat>, reached: set<nat>)
    requires ValidGraph(g) && |pu| == |pv| == |d| == |g| + 1 < INF
    requires forall x :: x in reached <==> 0 <= x < |g| && pu[x] == |g|
    requires forall x :: 0 <= x < |g| ==> d[x] == if pu[x] == |g| then 0 else INF
    requires d[|g|] == INF
    ensures Search(g, pu, pv, d, reached)
  {
    RangeSize(reached, |g|);
    forall x | x in reached
      ensures d[x] < |reached|
    {
      assert d[x] == 0 && reached != {};
    }
  }

  /** Reaching one more node leaves the others their parents. */
  lemma ParentStays(g: Graph, pv: seq<nat>, d: seq<nat>, b: nat, k: nat, x: nat)
    requires |pv| == |d| == |g| + 1 && ValidGraph(g)
    requires b <= |g| && d[b] == INF && x <= |g| && d[x] <= INF && x != b && HasParent(g, pv, d, x)
    ensures HasParent(g, pv, d[b := k], x)
  {
    var y: nat, w: nat :| Climbs(g, pv, d, y, w, x);
    assert Climbs(g, pv, d[b := k], y, w, x);
  }

  /** Reaching one more node keeps the search invariant. */
  lemma Reach(g: Graph, pu: seq<nat>, pv: seq<nat>, d: seq<nat>, reached: set<nat>, u: nat, v: nat)
    requires ValidGraph(g) && Search(g, pu, pv, d, reached)
    requires u in reached && Edge(g, u, v) && pv[v] <= |g| && d[pv[v]] == INF
    requires pv[v] < |g| ==> pu[pv[v]] != |g|
    ensures Search(g, pu, pv, d[pv[v] := d[u] + 1], reached + {pv[v]})
  {
    hide HasParent, Climbs;
    var b := pv[v];
    var d1 := d[b := d[u] + 1];
    var more := reached + {b};
    RangeSize(more, |g| + 1);
    assert |more| == |reached| + 1;
    assert d1[b] != INF;
    forall x | x in more && d1[x] != 0
      ensures HasParent(g, pv, d1, x)
    {
      if x == b {
        ParentOf(g, pv, d1, u, v);
      } else {
        ParentStays(g, pv, d, b, d[u] + 1, x);
      }
    }
  }

  lemma ParentOf(g: Graph, pv: seq<nat>, d: seq<nat>, u: nat, v: nat)
    requires |pv| == |d| == |g| + 1 && ValidGraph(g) && Edge(g, u, v) && pv[v] <= |g| && d[pv[v]] == d[u] + 1
    ensures HasParent(g, pv, d, pv[v])
  {
    assert Climbs(g, pv, d, u, v, pv[v]);
  }

  lemma Partner(g: Graph, pu: seq<nat>, pv: seq<nat>, u: nat, v: nat)
    requires ValidGraph(g) && Matched(g, pu, pv) && Edge(g, u, v)
    ensures |pu| == |pv| == |g| + 1 && v < |g| && pv[v] <= |g| && (pv[v] < |g| ==> pu[pv[v]] == v)
    ensures pu[u] < |g| ==> pv[pu[u]] == u
  {
  }

  /** Right node `v` does not lead from `u` to a node of the next layer that may still be walked. */
  ghost predicate Passed(g: Graph, pv: seq<nat>, d0: seq<nat>, d: seq<nat>, u: nat, v: nat)
    requires ValidGraph(g) && |pv| == |d0| == |d| == |g| + 1
  {
    forall y :: 0 <= y <= |g| && Climbs(g, pv, d0, u, v, y) ==> d[y] == INF
  }

  lemma PassedOver(g: Graph, pv: seq<nat>, d0: seq<nat>, d: seq<nat>, u: nat, v: nat)
    requires ValidGraph(g) && |pv| == |g| + 1 < INF && Pruned(|g|, d0, d) && u < |g| && v < |g| && pv[v] <= |g|
    requires d[u] != INF && d[pv[v]] != d[u] + 1
    ensures Passed(g, pv, d0, d, u, v)
  {
  }

  /** A node all of whose edges were passed over is given up. */
  lemma GiveUp(g: Graph, pv: seq<nat>, d0: seq<nat>, d: seq<nat>, u: nat)
    requires ValidGraph(g) && |pv| == |d0| == |d| == |g| + 1 && u < |g|
    requires forall j :: 0 <= j < |g[u]| ==> Passed(g, pv, d0, d, u, g[u][j])
    ensures DeadClosed(g, pv, d0, d) ==> DeadClosed(g, pv, d0, d[u := INF])
  {
  }

  /** `u` has a new partner; `free`, its former one, still points at it. All else is matched. */
  ghost predicate Rerouted(g: Graph, u: nat, free: nat, pu: seq<nat>, pv: seq<nat>)
    requires |pu| == |pv| == |g| + 1 && u < |g| && free <= |g|
  {
    && pu[u] != |g|
    && (free < |g| ==> pv[free] == u)
    && Matched(g, pu, pv[free := |g|])
  }

  /** Taking over right node `v` after its former partner found another one. */
  lemma SwapEdge(g: Graph, u: nat, v: nat, pu: seq<nat>, pv: seq<nat>, pu1: seq<nat>, pv1: seq<nat>)
    requires ValidGraph(g) && Matched(g, pu, pv) && |pu1| == |pv1| == |g| + 1
    requires Edge(g, u, v) && pv[v] != u
    requires pv[v] == |g| ==> pu1 == pu && pv1 == pv
    requires pv[v] < |g| ==>
               && Rerouted(g, pv[v], v, pu1, pv1)
               && MatchedSet(g, pu1) == MatchedSet(g, pu) + {pv[v]}
    requires pu[u] < |g| ==> pv1[pu[u]] == u
    ensures Rerouted(g, u, pu[u], pu1[u := v], pv1[v := u])
    ensures MatchedSet(g, pu1[u := v]) == MatchedSet(g, pu) + {u}
  {
    var n, back := |g|, pv[v];
    FreeStays(g, u, v, pu, pv, pu1, pv1);
    SwapKeepsMatched(g, u, v, pu1, pv1);
    assert MatchedSet(g, pu1) == MatchedSet(g, pu) by {
      assert back < n ==> back in MatchedSet(g, pu);
    }
    assert MatchedSet(g, pu1[u := v]) == MatchedSet(g, pu1) + {u};
  }

  /** Rerouting the partner of `v` has left the partner of `u` alone. */
  lemma FreeStays(g: Graph, u: nat, v: nat, pu: seq<nat>, pv: seq<nat>, pu1: seq<nat>, pv1: seq<nat>)
    requires ValidGraph(g) && Matched(g, pu, pv) && |pu1| == |pv1| == |g| + 1
    requires Edge(g, u, v) && pv[v] != u
    requires pv[v] == |g| ==> pu1 == pu && pv1 == pv
    requires pv[v] < |g| ==>
               && Rerouted(g, pv[v], v, pu1, pv1)
               && MatchedSet(g, pu1) == MatchedSet(g, pu) + {pv[v]}
    requires pu[u] < |g| ==> pv1[pu[u]] == u
    ensures pu1[u] == pu[u] != v && Matched(g, pu1, pv1[v := |g|])
  {
    var n, free, back := |g|, pu[u], pv[v];
    var cut := pv1[v := n];
    assert free != v;
    assert pu1[u] == free by {
      if back < n && free < n {
        assert cut[free] == u;
      } else if back < n {
        assert u !in MatchedSet(g, pu) && u != back;
        assert u !in MatchedSet(g, pu1);
      }
    }
    assert Matched(g, pu1, cut);
  }

  lemma SwapKeepsMatched(g: Graph, u: nat, v: nat, pu1: seq<nat>, pv1: seq<nat>)
    requires ValidGraph(g) && |pu1| == |pv1| == |g| + 1 && Edge(g, u, v)
    requires pu1[u] != v && Matched(g, pu1, pv1[v := |g|]) && (pu1[u] < |g| ==> pv1[pu1[u]] == u)
    ensures Rerouted(g, u, pu1[u], pu1[u := v], pv1[v := u])
  {
    var n, free, cut := |g|, pu1[u], pv1[v := |g|];
    var pu2, pv2 := pu1[u := v], pv1[v := u][free := n];
    forall x | 0 <= x < n && pu2[x] != n
      ensures pu2[x] < n && Edge(g, x, pu2[x]) && pv2[pu2[x]] == x
    {
      if x != u {
        assert pu1[x] != v && pu1[x] != free by {
          assert cut[pu1[x]] == x;
        }
      }
    }
    forall y | 0 <= y < n && pv2[y] != n
      ensures pv2[y] < n && pu2[pv2[y]] == y
    {
      if y != v {
        assert cut[y] == pv2[y];
        assert pu1[cut[y]] == y;
      }
    }
  }

  /** Rerouting a free node leaves no dangling partner. */
  lemma FreeRerouted(g: Graph, u: nat, pu: seq<nat>, pv: seq<nat>)
    requires |pu| == |pv| == |g| + 1 && u < |g| && Rerouted(g, u, |g|, pu, pv)
    ensures Matched(g, pu, pv)
  {
    var cut := pv[|g| := |g|];
    forall v | 0 <= v < |g| && pv[v] != |g|
      ensures pv[v] < |g| && pu[pv[v]] == v
    {
      assert cut[v] == pv[v];
    }
    forall x | 0 <= x < |g| && pu[x] != |g|
      ensures pu[x] < |g| && Edge(g, x, pu[x]) && pv[pu[x]] == x
    {
      assert cut[pu[x]] == pv[pu[x]];
    }
  }

  lemma AllReached(g: Graph, pu: seq<nat>, pv: seq<nat>, d: seq<nat>, reached: set<nat>, u: nat)
    requires ValidGraph(g) && Search(g, pu, pv, d, reached) && u < |g|
    requires forall v :: 0 <= v < |g| ==> pv[v] <= |g|
    requires forall v :: v in g[u] ==> v < |g| && pv[v] in reached
    ensures Expanded(g, pv, d, u)
  {
  }

  lemma ExpandedStays(g: Graph, pv: seq<nat>, d: seq<nat>, d1: seq<nat>, u: nat)
    requires |pv| == |d| == |d1| == |g| + 1 && ValidGraph(g)
    requires forall v :: 0 <= v < |g| ==> pv[v] <= |g|
    requires forall x :: 0 <= x <= |g| && d[x] != INF ==> d1[x] == d[x]
    requires Expanded(g, pv, d, u)
    ensures Expanded(g, pv, d1, u)
  {
  }

  /** With every left node matched, the pairing is a perfect matching. */
  lemma AllMatched(g: Graph, pu: seq<nat>, pv: seq<nat>)
    requires ValidGraph(g) && Matched(g, pu, pv) && |MatchedSet(g, pu)| == |g|
    ensures PerfectMatching(g, pu[..|g|])
  {
    RangeSize(MatchedSet(g, pu), |g|);
    forall u | 0 <= u < |g|
      ensures pu[u] < |g| && Edge(g, u, pu[u]) && pv[pu[u]] == u
    {
      assert u in MatchedSet(g, pu);
    }
  }

  class Matcher {
    const graph: Graph
    const pairU: array<nat>  // the right partner of each left node, or the dummy
    const pairV: array<nat>  // the left partner of each right node, or the dummy
    const dist: array<nat>   // breadth-first distance of each left node and of the dummy
    var queue: seq<nat>

    ghost predicate Shape()
      reads this
    {
      && ValidGraph(graph) && |graph| <= GROUPS_MAX
      && pairU.Length == pairV.Length == dist.Length == |graph| + 1
      && pairU != pairV && pairU != dist && pairV != dist
    }

    ghost predicate Valid()
      reads this, pairU, pairV
    {
      Shape() && Matched(graph, pairU[..], pairV[..])
    }

    /** Everyone starts out paired with the dummy. */
    constructor (g: Graph)
      requires ValidGraph(g) && |g| <= GROUPS_MAX
      ensures Valid() && graph == g && queue == []
      ensures fresh(pairU) && fresh(pairV) && fresh(dist)
      ensures MatchedSet(g, pairU[..]) == {}
    {
      graph := g;
      pairU := new nat[|g| + 1](_ => |g|);
      pairV := new nat[|g| + 1](_ => |g|);
      dist := new nat[|g| + 1](_ => INF);
      queue := [];
    }

    /** Layers the left nodes by alternating distance from the free ones, until the dummy is met. */
    method Bfs() returns (found: bool)
      requires Valid() && queue == []
      modifies this`queue, dist
      ensures Valid() && queue == []
      ensures Layered(graph, pairU[..], pairV[..], dist[..])
      ensures found <==> dist[|graph|] != INF
      ensures !found ==> AllExpanded(dist[..])
    {
      hide HasParent, Climbs, Expanded;
      var n := |graph|;
      ghost var pu, pv := pairU[..], pairV[..];
      ghost var reached := EnqueueFree();
      while queue != []
        invariant Valid() && pu == pairU[..] && pv == pairV[..]
        invariant Search(graph, pu, pv, dist[..], reached) && (forall x :: x in queue ==> x in reached)
        invariant dist[n] == INF ==> forall u :: u in reached && u !in queue ==> Expanded(graph, pv, dist[..], u)
        decreases n + 1 - |reached|, |queue|
      {
        reached := Visit(pu, pv, reached);
      }
      found := dist[n] != INF;
    }

    /** Takes a node from the queue and walks its edges, unless it is as far as the dummy. */
    method Visit(ghost pu: seq<nat>, ghost pv: seq<nat>, ghost reached: set<nat>) returns (ghost more: set<nat>)
      requires Valid() && pu == pairU[..] && pv == pairV[..] && queue != []
      requires Search(graph, pu, pv, dist[..], reached) && (forall x :: x in queue ==> x in reached)
      requires dist[|graph|] == INF ==> forall u :: u in reached && u !in queue ==> Expanded(graph, pv, dist[..], u)
      modifies this`queue, dist
      ensures Search(graph, pu, pv, dist[..], more) && (forall x :: x in queue ==> x in more)
      ensures dist[|graph|] == INF ==> forall u :: u in more && u !in queue ==> Expanded(graph, pv, dist[..], u)
      ensures |more| > |reached| || (more == reached && |queue| < |old(queue)|)
    {
      hide HasParent, Climbs, Expanded;
      var u := queue[0];
      assert u in queue;
      queue := queue[1..];
      ghost var d := dist[..];
      more := reached;
      if dist[u] < dist[|graph|] {
        more := Relax(u, pu, pv, reached);
      }
      forall x | 0 <= x < |graph| && Expanded(graph, pv, d, x)
        ensures Expanded(graph, pv, dist[..], x)
      {
        ExpandedStays(graph, pv, d, dist[..], x);
      }
    }

    ghost predicate AllExpanded(d: seq<nat>)
      reads this, pairU, pairV
      requires Valid() && |d| == |graph| + 1
    {
      forall u :: u in Reached(graph, d) ==> Expanded(graph, pairV[..], d, u)
    }

    /** Puts the free left nodes at distance 0 and in the queue, all others at infinity. */
    method EnqueueFree() returns (ghost reached: set<nat>)
      requires Valid() && queue == []
      modifies this`queue, dist
      ensures Search(graph, pairU[..], pairV[..], dist[..], reached)
      ensures forall x :: x in queue <==> x in reached
    {
      var n := |graph|;
      ghost var pu := pairU[..];
      for u := 0 to n
        invariant pu == pairU[..] && Valid()
        invariant forall x :: 0 <= x < u ==> dist[x] == if pu[x] == n then 0 else INF
        invariant forall x :: x in queue <==> 0 <= x < u && pu[x] == n
      {
        if pairU[u] == n {
          dist[u] := 0;
          queue := queue + [u];
        } else {
          dist[u] := INF;
        }
      }
      dist[n] := INF;
      reached := set x: nat | x < n && pu[x] == n;
      InitialSearch(graph, pu, pairV[..], dist[..], reached);
    }

    /** Walks all edges of `u`, reaching what was unreached. */
    method Relax(u: nat, ghost pu: seq<nat>, ghost pv: seq<nat>, ghost reached: set<nat>)
      returns (ghost more: set<nat>)
      requires Valid() && pu == pairU[..] && pv == pairV[..]
      requires Search(graph, pu, pv, dist[..], reached)
      requires forall x :: x in queue ==> x in reached
      requires u < |graph| && u in reached
      modifies this`queue, dist
      ensures Search(graph, pu, pv, dist[..], more) && reached <= more
      ensures forall x :: x in queue ==> x in more
      ensures forall x :: x in reached ==> dist[x] == old(dist[x])
      ensures Expanded(graph, pv, dist[..], u)
      ensures forall x :: x in more ==> x in reached || x in queue
      ensures old(queue) <= queue
      ensures |more| > |reached| || (more == reached && queue == old(queue))
    {
      assert forall x :: x in reached ==> 0 <= x <= |graph|;
      hide HasParent, Search, Expanded, Matched;
      more := reached;
      for k := 0 to |graph[u]|
        invariant pu == pairU[..] && pv == pairV[..]
        invariant Search(graph, pu, pv, dist[..], more) && reached <= more
        invariant forall x :: x in queue ==> x in more
        invariant forall x :: x in reached ==> dist[x] == old(dist[x])
        invariant forall x :: x in more ==> x in reached || x in queue
        invariant old(queue) <= queue
        invariant |more| > |reached| || (more == reached && queue == old(queue))
        invariant forall v :: v in graph[u][..k] ==> v < |graph| && pv[v] in more
      {
        assert Edge(graph, u, graph[u][k]);
        more := Walk(u, graph[u][k], pu, pv, more);
        assert graph[u][..k + 1] == graph[u][..k] + [graph[u][k]];
      }
      assert graph[u] == graph[u][..|graph[u]|];
      AllReached(graph, pu, pv, dist[..], more, u);
    }

    /** Walks one edge of `u`. */
    method Walk(u: nat, v: nat, ghost pu: seq<nat>, ghost pv: seq<nat>, ghost reached: set<nat>)
      returns (ghost more: set<nat>)
      requires Valid() && pu == pairU[..] && pv == pairV[..]
      requires Search(graph, pu, pv, dist[..], reached)
      requires Edge(graph, u, v) && u in reached
      modifies this`queue, dist
      ensures v < |graph| && more == reached + {pv[v]} && Search(graph, pu, pv, dist[..], more)
      ensures forall x :: x in reached ==> dist[x] == old(dist[x])
      ensures queue == if more == reached then old(queue) else old(queue) + [pv[v]]
    {
      var back := pairV[v];
      more := reached + {back};
      if dist[back] == INF {
        Reach(graph, pu, pv, dist[..], reached, u, v);
        dist[back] := dist[u] + 1;
        queue := queue + [back];
      }
    }

    /** Looks for an augmenting path from `u` along the layers; on success swaps the edges along it. */
    method Dfs(u: nat, ghost d0: seq<nat>) returns (ok: bool)
      requires Valid() && Pruned(|graph|, d0, dist[..])
      requires u <= |graph| && dist[u] != INF
      modifies pairU, pairV, dist
      ensures Shape() && Pruned(|graph|, d0, dist[..])
      // only layers above u are touched, and u itself only to give it up
      ensures forall x :: 0 <= x <= |graph| ==>
                dist[x] == old(dist[x]) || (dist[x] == INF && (d0[x] > d0[u] || (x == u && !ok)))
      ensures forall v :: 0 <= v < |graph| ==> pairV[v] == old(pairV[v]) || d0[old(pairV[v])] > d0[u]
      ensures !ok ==> u < |graph| && dist[u] == INF
      ensures !ok || u == |graph| ==> pairU[..] == old(pairU[..]) && pairV[..] == old(pairV[..])
      ensures !ok && old(DeadClosed(graph, pairV[..], d0, dist[..])) ==> DeadClosed(graph, pairV[..], d0, dist[..])
      ensures ok && u < |graph| ==> Rerouted(graph, u, old(pairU[u]), pairU[..], pairV[..])
      ensures ok && u < |graph| ==> MatchedSet(graph, pairU[..]) == MatchedSet(graph, old(pairU[..])) + {u}
      decreases INF - dist[u]
    {
      hide MatchedSet, Rerouted, Climbs, Matched, DeadClosed;
      var n := |graph|;
      if u == n {
        return true;
      }
      ghost var pu, pv := pairU[..], pairV[..];
      ghost var free := pu[u];
      for k := 0 to |graph[u]|
        invariant Valid() && Pruned(n, d0, dist[..])
        invariant pairU[..] == pu && pairV[..] == pv
        invariant forall x :: 0 <= x <= n ==> dist[x] == old(dist[x]) || (dist[x] == INF && d0[x] > d0[u])
        invariant old(DeadClosed(graph, pairV[..], d0, dist[..])) ==> DeadClosed(graph, pv, d0, dist[..])
        invariant forall j :: 0 <= j < k ==> Passed(graph, pv, d0, dist[..], u, graph[u][j])
      {
        var v := graph[u][k];
        assert Edge(graph, u, v);
        Partner(graph, pu, pv, u, v);
        var back := pairV[v];
        if dist[back] != dist[u] + 1 {
          PassedOver(graph, pv, d0, dist[..], u, v);
          continue;
        }
        var reached := Dfs(back, d0);
        if reached {
          ghost var pu1, pv1 := pairU[..], pairV[..];
          pairV[v] := u;
          pairU[u] := v;
          SwapEdge(graph, u, v, pu, pv, pu1, pv1);
          return true;
        }
        PassedOver(graph, pv, d0, dist[..], u, v);
      }
      GiveUp(graph, pv, d0, dist[..], u);
      dist[u] := INF;
      return false;
    }
  }

  // The pairing and the distances that the last search leaves.
  datatype Outcome = Outcome(pairU: seq<nat>, pairV: seq<nat>, dist: seq<nat>) {
    /** The search reached whatever it could, but not the dummy. */
    ghost predicate Exhausted(g: Graph)
      requires ValidGraph(g)
    {
      && |pairU| == |pairV| == |dist| == |g| + 1
      && Matched(g, pairU, pairV) && Layered(g, pairU, pairV, dist) && dist[|g|] == INF
      && forall u :: u in Reached(g, dist) ==> Expanded(g, pairV, dist, u)
    }
  }

  /** Whether all left nodes can be matched at once; if not, those the last search reached are too many. */
  ghost predicate Growing(sizes: seq<nat>) {
    sizes != [] && forall i, j :: 0 <= i < j < |sizes| ==> sizes[i] < sizes[j]
  }

  method CanMatchAll(g: Graph) returns (all: bool, ghost last: Outcome, ghost sizes: seq<nat>)
    requires ValidGraph(g) && |g| <= GROUPS_MAX
    ensures all <==> exists p :: PerfectMatching(g, p)
    ensures last.Exhausted(g)
    ensures all ==> PerfectMatching(g, last.pairU[..|g|])
    ensures !all ==> HallViolator(g, Reached(g, last.dist))
    // how many are matched at first and after each round: there are at most as many rounds as left nodes
    ensures Growing(sizes) && sizes[0] == 0 && sizes[|sizes| - 1] == |MatchedSet(g, last.pairU)| && |sizes| <= |g| + 1
  {
    var n := |g|;
    var matcher := new Matcher(g);
    var numMatched := 0;
    sizes := [0];
    var found := matcher.Bfs();
    while found
      invariant matcher.Valid() && matcher.graph == g && matcher.queue == []
      invariant fresh(matcher) && fresh(matcher.pairU) && fresh(matcher.pairV) && fresh(matcher.dist)
      invariant Layered(g, matcher.pairU[..], matcher.pairV[..], matcher.dist[..])
      invariant numMatched == |MatchedSet(g, matcher.pairU[..])|
      invariant Growing(sizes) && sizes[0] == 0 && sizes[|sizes| - 1] == numMatched && |sizes| <= numMatched + 1 <= n + 1
      invariant found <==> matcher.dist[n] != INF
      invariant !found ==> matcher.AllExpanded(matcher.dist[..])
      decreases n - numMatched
    {
      numMatched := Round(matcher, numMatched);
      sizes := sizes + [numMatched];
      found := matcher.Bfs();
    }
    all := numMatched == n;
    last := Outcome(matcher.pairU[..], matcher.pairV[..], matcher.dist[..]);
    if all {
      AllMatched(g, last.pairU, last.pairV);
    } else {
      MissingElement(MatchedSet(g, last.pairU), n);
      ghost var u :| 0 <= u < n && u !in MatchedSet(g, last.pairU);
      ReachedViolatesHall(g, last.pairU, last.pairV, last.dist, u);
      forall p ensures !PerfectMatching(g, p) { ViolatorRefutesMatching(g, Reached(g, last.dist), p); }
    }
  }

  lemma NothingDead(g: Graph, pv: seq<nat>, d: seq<nat>)
    requires |pv| == |d| == |g| + 1 && ValidGraph(g)
    ensures DeadClosed(g, pv, d, d)
  {
  }

  /** One round of attempts from every node still free; at least one of them succeeds. */
  method Round(matcher: Matcher, before: nat) returns (numMatched: nat)
    requires matcher.Valid()
    requires Layered(matcher.graph, matcher.pairU[..], matcher.pairV[..], matcher.dist[..])
    requires matcher.dist[|matcher.graph|] != INF
    requires before == |MatchedSet(matcher.graph, matcher.pairU[..])|
    modifies matcher.pairU, matcher.pairV, matcher.dist
    ensures matcher.Valid()
    ensures numMatched == |MatchedSet(matcher.graph, matcher.pairU[..])|
    ensures before < numMatched <= |matcher.graph|
    ensures MatchedSet(matcher.graph, old(matcher.pairU[..])) < MatchedSet(matcher.graph, matcher.pairU[..])
  {
    hide HasParent, Hopeless, DeadClosed, Rerouted, Climbs, Matched;
    var g, n := matcher.graph, |matcher.graph|;
    ghost var d0, pu0, pv0 := matcher.dist[..], matcher.pairU[..], matcher.pairV[..];
    NothingDead(g, pv0, d0);
    numMatched := before;
    for u := 0 to n
      invariant matcher.Valid() && Pruned(n, d0, matcher.dist[..])
      invariant MatchedSet(g, pu0) <= MatchedSet(g, matcher.pairU[..])
      invariant numMatched == |MatchedSet(g, matcher.pairU[..])|
      invariant forall x :: u <= x < n && d0[x] == 0 ==> matcher.dist[x] == 0
      invariant before <= numMatched
      invariant before == numMatched ==>
                  && matcher.pairU[..] == pu0 && matcher.pairV[..] == pv0
                  && DeadClosed(g, pv0, d0, matcher.dist[..])
                  && forall x :: 0 <= x < u && pu0[x] == n ==> matcher.dist[x] == INF
    {
      if matcher.pairU[u] == n {
        assert u !in MatchedSet(g, pu0);
        var ok := matcher.Dfs(u, d0);
        if ok {
          FreeRerouted(g, u, matcher.pairU[..], matcher.pairV[..]);
          numMatched := numMatched + 1;
        }
      }
    }
    RangeSize(MatchedSet(g, matcher.pairU[..]), n);
    assert MatchedSet(g, matcher.pairU[..]) == MatchedSet(g, pu0) ==> numMatched == before;
    if numMatched == before {
      SomeAttemptSucceeds(g, pu0, pv0, d0, matcher.dist[..]);
      assert false;
    }
  }
}
