/** The A* search and the walk back from its end, for every order in which the queue may yield nodes. */
module PathSearch {
  import opened PathMoves
  import opened PathLength
  import Matching

  datatype GridNode = GridNode(
    valid: bool,
    source: bool,
    target: bool,
    totalcost: int,
    estimated: int,
    sourcedir: V3,
    directions: seq<PathCost>,
    isClosed: bool,
    isOpen: bool)

  // The grid nodes accessed so far.
  type Grid = map<V3, GridNode>

  ghost predicate NodeOk(a: Area, p: V3, n: GridNode) {
    && n.valid == a.OnSurface(p)
    && |n.directions| == 4
    && (forall k :: 0 <= k < 4 && n.directions[k].updated ==> IsCost(a, p, DIRS[k], n.directions[k]))
  }

  // What the shape of the search tree rests on: the moves, the facts about nodes, and where one may step.
  datatype Rules = Rules(edge: (V3, V3, int) -> bool, ok: (V3, GridNode) -> bool, step: V3 -> bool)

  /** Moves lead elsewhere and cost something. */
  ghost predicate Costly(r: Rules) {
    forall p, q, c :: r.edge(p, q, c) ==> 1 <= c <= 2 && p != q
  }

  /** `r` are the rules of area `a`. */
  ghost predicate RulesOf(a: Area, r: Rules): (b: bool)
    ensures b ==> Costly(r)
  {
    && (forall p, q, c {:trigger Edge(a, p, q, c)} :: r.edge(p, q, c) == Edge(a, p, q, c))
    && (forall p, n {:trigger NodeOk(a, p, n)} :: r.ok(p, n) == NodeOk(a, p, n))
    && (forall p {:trigger Searchable(a, p)} :: r.step(p) == Searchable(a, p))
    && Costly(r)
  }

  ghost function AreaRules(a: Area): (r: Rules)
    ensures RulesOf(a, r)
  {
    var r := Rules((p, q, c) => Edge(a, p, q, c), (p, n) => NodeOk(a, p, n), p => Searchable(a, p));
    assert forall p, q, c :: r.edge(p, q, c) ==> 1 <= c <= 2 && p != q;
    r
  }

  /** The node `p` was reached from an expanded one, by a legal move whose cost it added. */
  ghost predicate Linked(r: Rules, m: Grid, expanded: set<V3>, p: V3) {
    && p in m
    && var from := Add(p, m[p].sourcedir);
    from in m && from in expanded && r.edge(from, p, m[p].totalcost - m[from].totalcost)
  }

  /** What the search maintains of the grid: `pushed` nodes hang together in a tree of `expanded` ones. */
  ghost predicate Tree(r: Rules, m: Grid, source: V3, pushed: set<V3>, expanded: set<V3>) {
    && (forall p :: p in m ==> r.ok(p, m[p]) && (m[p].source <==> p == source))
    && source in pushed && expanded <= pushed && pushed <= m.Keys
    && (forall p {:trigger Linked(r, m, expanded, p)} :: p in pushed && p != source ==> Linked(r, m, expanded, p))
    && (forall p :: p in m && p != source ==> (m[p].isOpen || m[p].isClosed <==> p in pushed))
    && m[source].totalcost == 0
    && (expanded != {} ==> m[source].isClosed)
    && (forall p :: p in expanded ==> r.step(p) && m[p].isClosed && m[p].totalcost >= 0)
  }

  /** Every pushed node waits in the queue once, was expanded, or cannot be stepped on. */
  ghost predicate Queued(a: Area, queue: multiset<V3>, pushed: set<V3>, expanded: set<V3>) {
    && (forall p :: p in queue ==> queue[p] == 1 && p in pushed && p !in expanded)
    && (forall p :: p in pushed ==> p in queue || p in expanded || !Searchable(a, p))
  }

  lemma QueueTakes(a: Area, queue: multiset<V3>, pushed: set<V3>, expanded: set<V3>, p: V3)
    requires Queued(a, queue, pushed, expanded) && p in queue
    ensures p in pushed && p !in expanded && |queue - multiset{p}| < |queue|
    ensures Queued(a, queue - multiset{p}, pushed, if Searchable(a, p) then expanded + {p} else expanded)
  {
  }

  lemma QueueGrows(a: Area, queue: multiset<V3>, pushed: set<V3>, expanded: set<V3>, p: V3)
    requires Queued(a, queue, pushed, expanded) && p !in pushed && p !in expanded
    ensures Queued(a, queue + multiset{p}, pushed + {p}, expanded)
  {
  }

  /** Nodes pushed before keep their back pointers, those pushed since hang under `p`. */
  ghost predicate Hung(m: Grid, m1: Grid, pushed: set<V3>, more: set<V3>, p: V3) {
    && (forall q :: q in pushed ==> q in m && q in m1 && m1[q].sourcedir == m[q].sourcedir)
    && (forall q :: q in more && q !in pushed ==> q in m1 && Add(q, m1[q].sourcedir) == p)
  }

  lemma HungTwice(m: Grid, m1: Grid, m2: Grid, pushed: set<V3>, more: set<V3>, most: set<V3>, p: V3)
    requires Hung(m, m1, pushed, more, p) && Hung(m1, m2, more, most, p) && pushed <= more <= most
    ensures Hung(m, m2, pushed, most, p)
  {
  }

  /** In the order of expansion, the first node that leads to `q` is the one it hangs under. */
  ghost predicate FirstFound(r: Rules, m: Grid, order: seq<V3>, q: V3) {
    q in m && exists j :: FoundBy(r, m, order, q, j)
  }

  ghost predicate FoundBy(r: Rules, m: Grid, order: seq<V3>, q: V3, j: int)
    requires q in m
  {
    0 <= j < |order| && order[j] == Add(q, m[q].sourcedir) && forall i, c :: 0 <= i < j ==> !r.edge(order[i], q, c)
  }

  /** `order` is an order of expansion in which every pushed node hangs under the first that leads to it. */
  ghost predicate InOrder(r: Rules, m: Grid, source: V3, pushed: set<V3>, order: seq<V3>) {
    && (forall q :: q in pushed && q != source ==> FirstFound(r, m, order, q))
    && (forall k :: 0 <= k < |order| && order[k] != source ==> FirstFound(r, m, order[..k], order[k]))
  }

  lemma FoundStill(r: Rules, m: Grid, m1: Grid, order: seq<V3>, p: V3, q: V3)
    requires FirstFound(r, m, order, q) && q in m1 && m1[q].sourcedir == m[q].sourcedir
    ensures FirstFound(r, m1, order + [p], q) && FirstFound(r, m1, order, q)
  {
    var j :| FoundBy(r, m, order, q, j);
    assert FoundBy(r, m1, order, q, j) && FoundBy(r, m1, order + [p], q, j);
  }

  /** What is new among the neighbours of `p` is led to by nothing that was expanded before. */
  lemma NewlyFound(a: Area, r: Rules, m: Grid, pushed: set<V3>, order: seq<V3>, p: V3, q: V3)
    requires RulesOf(a, r) && q in m && Add(q, m[q].sourcedir) == p && q !in pushed
    requires forall i :: 0 <= i < |order| ==> Covered(a, pushed, order[i], 4)
    ensures FirstFound(r, m, order + [p], q)
  {
    forall i, c | 0 <= i < |order| ensures !r.edge((order + [p])[i], q, c) {
      assert Covered(a, pushed, order[i], 4);
      assert !Edge(a, order[i], q, c);
    }
    assert FoundBy(r, m, order + [p], q, |order|);
  }

  lemma OrderKept(r: Rules, m: Grid, m1: Grid, source: V3, pushed: set<V3>, order: seq<V3>, p: V3)
    requires InOrder(r, m, source, pushed, order) && Hung(m, m1, pushed, pushed, p)
    requires NodesOf(order) <= pushed
    ensures InOrder(r, m1, source, pushed, order)
  {
    hide FirstFound;
    forall q | q in pushed && q != source ensures FirstFound(r, m1, order, q) {
      FoundStill(r, m, m1, order, p, q);
    }
    forall k | 0 <= k < |order| && order[k] != source ensures FirstFound(r, m1, order[..k], order[k]) {
      assert order[k] in NodesOf(order);
      FoundStill(r, m, m1, order[..k], p, order[k]);
    }
  }

  /** Expanding `p` next extends the order. */
  lemma OrderGrows(a: Area, r: Rules, m: Grid, m1: Grid, source: V3,
                   pushed: set<V3>, more: set<V3>, order: seq<V3>, p: V3)
    requires RulesOf(a, r) && InOrder(r, m, source, pushed, order) && Hung(m, m1, pushed, more, p)
    requires NodesOf(order) <= pushed && p in pushed && source in pushed
    requires forall i :: 0 <= i < |order| ==> Covered(a, pushed, order[i], 4)
    ensures InOrder(r, m1, source, more, order + [p])
  {
    hide FirstFound, Covered, RulesOf;
    var longer := order + [p];
    forall q | q in more && q != source ensures FirstFound(r, m1, longer, q) {
      if q in pushed {
        FoundStill(r, m, m1, order, p, q);
      } else {
        NewlyFound(a, r, m1, pushed, order, p, q);
      }
    }
    forall k | 0 <= k < |longer| && longer[k] != source ensures FirstFound(r, m1, longer[..k], longer[k]) {
      assert longer[..k] == order[..k];
      if k < |order| {
        assert order[k] in NodesOf(order);
        FoundStill(r, m, m1, order[..k], p, order[k]);
      } else {
        assert order[..k] == order;
        FoundStill(r, m, m1, order, p, p);
      }
    }
  }

  /** All moves from `p` in the first `k` directions lead to nodes that were pushed. */
  ghost predicate Covered(a: Area, pushed: set<V3>, p: V3, k: nat)
    requires k <= 4
  {
    forall i, c, q :: 0 <= i < k && Leads(a, p, i, c, q) ==> q in pushed
  }

  ghost function Universe(a: Area, source: V3): set<V3> {
    {source} + Cells(a)
  }

  lemma InUniverse(a: Area, source: V3, p: V3)
    requires p == source || a.Inside(p)
    ensures p in Universe(a, source)
  {
    if a.Inside(p) {
      InCells(a, p);
    }
  }

  /** Links survive any change of the grid that spares what they look at. */
  lemma LinksSurvive(r: Rules, m: Grid, m1: Grid, expanded: set<V3>, more: set<V3>, p: V3)
    requires Linked(r, m, expanded, p) && p in m1 && expanded <= more
    requires m1[p].sourcedir == m[p].sourcedir && m1[p].totalcost == m[p].totalcost
    requires forall q :: q in expanded && q in m ==> q in m1 && m1[q].totalcost == m[q].totalcost
    ensures Linked(r, m1, more, p)
  {
  }

  /** Changing what the tree does not look at keeps it. */
  lemma TreeSameLinks(r: Rules, m: Grid, m1: Grid, source: V3, pushed: set<V3>, expanded: set<V3>, p: V3)
    requires Tree(r, m, source, pushed, expanded) && p in m && p in m1
    requires m1 == m[p := m1[p]] && r.ok(p, m1[p])
    requires m1[p].totalcost == m[p].totalcost && m1[p].sourcedir == m[p].sourcedir && m1[p].source == m[p].source
    requires m1[p].isClosed == m[p].isClosed && m1[p].isOpen == m[p].isOpen
    ensures Tree(r, m1, source, pushed, expanded)
  {
    forall q | q in pushed && q != source ensures Linked(r, m1, expanded, q) {
      assert Linked(r, m, expanded, q);
      LinksSurvive(r, m, m1, expanded, expanded, q);
    }
  }

  /** A node accessed for the first time is no part of the tree. */
  lemma TreeGrows(r: Rules, m: Grid, p: V3, n: GridNode, source: V3, pushed: set<V3>, expanded: set<V3>)
    requires Tree(r, m, source, pushed, expanded) && p !in m && r.ok(p, n)
    requires !n.source && !n.isOpen && !n.isClosed
    ensures Tree(r, m[p := n], source, pushed, expanded)
  {
    forall q | q in pushed && q != source ensures Linked(r, m[p := n], expanded, q) {
      assert Linked(r, m, expanded, q);
      LinksSurvive(r, m, m[p := n], expanded, expanded, q);
    }
  }

  /** Closing a popped node that can be stepped on makes it part of the tree's inside. */
  lemma TreeExpands(r: Rules, m: Grid, m1: Grid, source: V3, pushed: set<V3>, expanded: set<V3>, p: V3)
    requires Tree(r, m, source, pushed, expanded) && p in pushed && p in m && p in m1
    requires m1 == m[p := m1[p]] && m1[p] == m[p].(isClosed := true, isOpen := false)
    requires r.ok(p, m1[p])
    requires Costly(r)
    ensures Tree(r, m1, source, pushed, expanded)
    ensures r.step(p) ==> Tree(r, m1, source, pushed, expanded + {p})
  {
    assert p == source || Linked(r, m, expanded, p);
    forall q | q in pushed && q != source ensures Linked(r, m1, expanded, q) && Linked(r, m1, expanded + {p}, q) {
      assert Linked(r, m, expanded, q);
      LinksSurvive(r, m, m1, expanded, expanded, q);
      LinksSurvive(r, m, m1, expanded, expanded + {p}, q);
    }
  }

  /** Opening a node that was not pushed before hangs it under the current one. */
  lemma TreeOpens(r: Rules, m: Grid, m1: Grid, source: V3, pushed: set<V3>, expanded: set<V3>, p: V3, q: V3, c: int)
    requires Tree(r, m, source, pushed, expanded) && p in expanded && p in m && q in m && q in m1
    requires r.edge(p, q, c) && p != q && !m[q].isOpen && !m[q].isClosed
    requires m1 == m[q := m1[q]] && r.ok(q, m1[q]) && m1[q].isOpen && m1[q].source == m[q].source
    requires m1[q].totalcost == m[p].totalcost + c && Add(q, m1[q].sourcedir) == p
    ensures q !in pushed && Tree(r, m1, source, pushed + {q}, expanded)
  {
    assert q !in pushed;
    forall x | x in pushed && x != source ensures Linked(r, m1, expanded, x) {
      assert Linked(r, m, expanded, x);
      LinksSurvive(r, m, m1, expanded, expanded, x);
    }
    assert Linked(r, m1, expanded, q);
  }

  const MAX_WAYPOINTS := 700

  /** From each node of the walk to the one before it there is a legal move, which costs what `totalcost` drops by. */
  ghost predicate Backtrack(a: Area, m: Grid, path: seq<V3>) {
    && (forall i :: 0 <= i < |path| ==> path[i] in m)
    && (forall i :: 0 <= i < |path| - 1 ==> BackStep(a, m, path[i], path[i + 1]))
  }

  ghost predicate BackStep(a: Area, m: Grid, p: V3, from: V3) {
    && p in m && from in m && m[from].totalcost < m[p].totalcost
    && Edge(a, from, p, m[p].totalcost - m[from].totalcost)
  }

  /** The walk along the back pointers, from `p` to the source. */
  ghost function WalkBack(r: Rules, m: Grid, source: V3, pushed: set<V3>, expanded: set<V3>, p: V3): (walk: seq<V3>)
    requires Costly(r) && Tree(r, m, source, pushed, expanded) && p in expanded
    ensures walk != [] && walk[0] == p && walk[|walk| - 1] == source
    ensures forall i :: 0 <= i < |walk| ==> walk[i] in expanded && walk[i] in m && (walk[i] == source ==> i == |walk| - 1)
    decreases m[p].totalcost
  {
    if p == source then [p]
    else
      assert Linked(r, m, expanded, p);
      [p] + WalkBack(r, m, source, pushed, expanded, Add(p, m[p].sourcedir))
  }

  /** The walk back goes by legal moves. */
  lemma {:induction false} WalkBacktracks(a: Area, r: Rules, m: Grid, source: V3, pushed: set<V3>, expanded: set<V3>, p: V3)
    requires RulesOf(a, r) && Tree(r, m, source, pushed, expanded) && p in expanded
    ensures Backtrack(a, m, WalkBack(r, m, source, pushed, expanded, p))
    decreases m[p].totalcost
  {
    if p != source {
      assert Linked(r, m, expanded, p);
      var from := Add(p, m[p].sourcedir);
      WalkBacktracks(a, r, m, source, pushed, expanded, from);
      var rest, walk := WalkBack(r, m, source, pushed, expanded, from), WalkBack(r, m, source, pushed, expanded, p);
      forall i | 0 <= i < |walk| - 1 ensures BackStep(a, m, walk[i], walk[i + 1]) {
        if i > 0 { assert BackStep(a, m, rest[i - 1], rest[i]); }
      }
    }
  }

  /** One step of the walk back, as the nodes tell it. */
  lemma WalkStep(a: Area, r: Rules, m: Grid, source: V3, pushed: set<V3>, expanded: set<V3>, p: V3)
    requires RulesOf(a, r) && Tree(r, m, source, pushed, expanded) && p in expanded
    ensures p in m && m[p].valid && Searchable(a, p) && (m[p].source <==> p == source)
    ensures p == source ==> WalkBack(r, m, source, pushed, expanded, p) == [p] && m[p].totalcost == 0
    ensures p != source ==>
              && Add(p, m[p].sourcedir) in expanded
              && WalkBack(r, m, source, pushed, expanded, p) ==
                   [p] + WalkBack(r, m, source, pushed, expanded, Add(p, m[p].sourcedir))
  {
    assert p in m && r.ok(p, m[p]) && r.step(p);
    assert NodeOk(a, p, m[p]) && Searchable(a, p);
    assert p == source || Linked(r, m, expanded, p);
  }

  /** What a walk back promises up to any of its nodes. */
  lemma WalkSoFar(a: Area, r: Rules, m: Grid, source: V3, pushed: set<V3>, expanded: set<V3>, p: V3, n: nat)
    requires RulesOf(a, r) && Tree(r, m, source, pushed, expanded) && p in expanded
    requires 0 < n <= |WalkBack(r, m, source, pushed, expanded, p)|
    ensures var walk := WalkBack(r, m, source, pushed, expanded, p);
            var path := walk[..n];
            && Backtrack(a, m, path)
            && (forall i :: 0 <= i < n ==> path[i] in expanded && path[i] in m && Searchable(a, path[i]))
            && (path[n - 1] == source <==> n == |walk|)
            && (n == |walk| ==> path == walk && CostsSum(a, path, m[p].totalcost))
  {
    hide RulesOf, Tree, Backtrack, CostsSum, Searchable, WalkBack;
    var walk := WalkBack(r, m, source, pushed, expanded, p);
    WalkBacktracks(a, r, m, source, pushed, expanded, p);
    BacktrackPrefix(a, m, walk, n);
    forall i | 0 <= i < n ensures Searchable(a, walk[i]) {
      WalkStep(a, r, m, source, pushed, expanded, walk[i]);
    }
    if n == |walk| {
      assert walk[..n] == walk;
      WalkStep(a, r, m, source, pushed, expanded, source);
      CostsAddUp(a, m, walk);
    }
  }

  ghost predicate NoEdge(r: Rules, p: V3, q: V3) {
    forall c :: !r.edge(p, q, c)
  }

  /** The node that the walk back goes to next, by its place in the order of expansion. */
  lemma FinderOf(r: Rules, m: Grid, source: V3, pushed: set<V3>, expanded: set<V3>, order: seq<V3>, k: nat)
    returns (j: nat)
    requires Costly(r) && Tree(r, m, source, pushed, expanded) && InOrder(r, m, source, pushed, order)
    requires k < |order| && order[k] in expanded && order[k] != source
    ensures j < k && order[j] in expanded
    ensures forall i :: 0 <= i < j ==> NoEdge(r, order[i], order[k])
    ensures WalkBack(r, m, source, pushed, expanded, order[k]) ==
            [order[k]] + WalkBack(r, m, source, pushed, expanded, order[j])
  {
    var p := order[k];
    assert FirstFound(r, m, order[..k], p);
    j :| FoundBy(r, m, order[..k], p, j);
    assert Linked(r, m, expanded, p);
    forall i | 0 <= i < j ensures NoEdge(r, order[i], p) {
      assert order[..k][i] == order[i];
    }
  }

  lemma SourceWalk(r: Rules, m: Grid, source: V3, pushed: set<V3>, expanded: set<V3>)
    requires Costly(r) && Tree(r, m, source, pushed, expanded) && source in expanded
    ensures WalkBack(r, m, source, pushed, expanded, source) == [source]
  {
  }

  /** On the walk back from a node, only the next one leads to it: those behind were expanded earlier. */
  lemma {:induction false} WalkIsDirect(r: Rules, m: Grid, source: V3,
                                        pushed: set<V3>, expanded: set<V3>, order: seq<V3>, k: nat)
    requires Costly(r) && Tree(r, m, source, pushed, expanded)
    requires NodesOf(order) == expanded && InOrder(r, m, source, pushed, order)
    requires k < |order| && order[k] in expanded
    ensures var walk := WalkBack(r, m, source, pushed, expanded, order[k]);
            && (forall j :: 1 <= j < |walk| ==> walk[j] in order[..k])
            && (forall i, j :: 0 <= i && i + 1 < j < |walk| ==> NoEdge(r, walk[j], walk[i]))
    decreases k
  {
    hide Tree, InOrder;
    var p := order[k];
    if p == source {
      SourceWalk(r, m, source, pushed, expanded);
    } else {
      var j := FinderOf(r, m, source, pushed, expanded, order, k);
      WalkIsDirect(r, m, source, pushed, expanded, order, j);
      var walk, rest := WalkBack(r, m, source, pushed, expanded, p), WalkBack(r, m, source, pushed, expanded, order[j]);
      forall i | 1 <= i < |walk| ensures walk[i] in order[..k] && (i > 1 ==> NoEdge(r, walk[i], p)) {
        if i > 1 {
          var n :| 0 <= n < j && order[..j][n] == rest[i - 1];
          assert order[..k][n] == order[n];
        }
        assert order[..k][j] == order[j];
      }
    }
  }

  lemma BacktrackPrefix(a: Area, m: Grid, path: seq<V3>, n: nat)
    requires Backtrack(a, m, path) && n <= |path|
    ensures Backtrack(a, m, path[..n])
  {
    forall i | 0 <= i < n - 1 ensures BackStep(a, m, path[..n][i], path[..n][i + 1]) {
      assert BackStep(a, m, path[i], path[i + 1]);
    }
  }

  /** Costs fall along a walk back, so it meets no node twice. */
  lemma {:induction false} CostsFall(a: Area, m: Grid, path: seq<V3>, i: nat, j: nat)
    requires Backtrack(a, m, path) && i < j < |path|
    ensures m[path[j]].totalcost < m[path[i]].totalcost
    decreases j - i
  {
    assert BackStep(a, m, path[j - 1], path[j]);
    if i < j - 1 {
      CostsFall(a, m, path, i, j - 1);
    }
  }

  /** `total` is the sum of the costs of the moves along the walk, from its last node to its first. */
  ghost predicate CostsSum(a: Area, path: seq<V3>, total: int)
    decreases |path|
  {
    if |path| <= 1 then total == 0
    else exists c :: Edge(a, path[1], path[0], c) && CostsSum(a, path[1..], total - c)
  }

  lemma {:induction false} CostsAddUp(a: Area, m: Grid, path: seq<V3>)
    requires path != [] && Backtrack(a, m, path)
    ensures CostsSum(a, path, m[path[0]].totalcost - m[path[|path| - 1]].totalcost)
    decreases |path|
  {
    if |path| > 1 {
      assert BackStep(a, m, path[0], path[1]);
      var rest := path[1..];
      forall i | 0 <= i < |rest| - 1 ensures BackStep(a, m, rest[i], rest[i + 1]) {
        assert BackStep(a, m, path[i + 1], path[i + 2]);
      }
      CostsAddUp(a, m, rest);
    }
  }

  function Reverse(path: seq<V3>): (r: seq<V3>)
    ensures |r| == |path| && forall i :: 0 <= i < |r| ==> r[i] == path[|path| - 1 - i]
  {
    seq(|path|, i requires 0 <= i < |path| => path[|path| - 1 - i])
  }

  /** Read from its end, a walk is a path of legal moves. */
  lemma WalkIsPath(a: Area, m: Grid, path: seq<V3>, source: V3)
    requires path != [] && Backtrack(a, m, path) && path[|path| - 1] == source
    requires forall i :: 0 <= i < |path| ==> Searchable(a, path[i])
    ensures IsPath(a, Reverse(path), source, path[0])
  {
    var p, n := Reverse(path), |path|;
    forall i | 0 <= i < n - 1 ensures Connected(a, p[i], p[i + 1]) {
      assert BackStep(a, m, path[n - 2 - i], path[n - 1 - i]);
    }
  }

  /** The nodes of a walk back are distinct, span the distance, and fit on the ground. */
  lemma WalkLength(a: Area, m: Grid, walk: seq<V3>, source: V3)
    requires walk != [] && Backtrack(a, m, walk)
    requires forall i :: 0 <= i < |walk| ==> Searchable(a, walk[i])
    ensures Distinct(Reverse(walk))
    ensures walk[|walk| - 1] == source ==> Apart(source, walk[0]) < |walk|
    ensures source !in walk && Searchable(a, source) ==> |walk| < |Ground(a)|
  {
    var path := Reverse(walk);
    forall i, j | 0 <= i < j < |path| ensures path[i] != path[j] {
      CostsFall(a, m, walk, |walk| - 1 - j, |walk| - 1 - i);
    }
    if walk[|walk| - 1] == source {
      WalkIsPath(a, m, walk, source);
      PathSpans(a, path, source, walk[0]);
    }
    if source !in walk && Searchable(a, source) {
      InCells(a, source);
      PathFits(a, path, {source});
    }
  }

  /** What the search leaves makes a walk back of `n` nodes, read from its end, a path. */
  lemma WalkMakesPath(a: Area, r: Rules, m: Grid, source: V3, pushed: set<V3>, expanded: set<V3>, order: seq<V3>,
                      end: V3, walk: seq<V3>)
    requires RulesOf(a, r) && Tree(r, m, source, pushed, expanded)
    requires NodesOf(order) == expanded && InOrder(r, m, source, pushed, order) && end in expanded && walk != []
    requires walk <= WalkBack(r, m, source, pushed, expanded, end)
    ensures var path := Reverse(walk);
            && IsPath(a, path, path[0], end) && Distinct(path) && Direct(a, path)
            && (path[0] == source || source !in path)
            && (path[0] == source ==> Apart(source, end) < |path|)
            && (path[0] != source ==> |path| < |Ground(a)|)
  {
    hide Tree, RulesOf, InOrder, NodesOf, WalkBack, Searchable, Backtrack, Ground, Apart;
    WalkSoFar(a, r, m, source, pushed, expanded, end, |walk|);
    var whole := WalkBack(r, m, source, pushed, expanded, end);
    assert walk == whole[..|walk|];
    WalkIsPath(a, m, walk, walk[|walk| - 1]);
    WalkStep(a, r, m, source, pushed, expanded, whole[|whole| - 1]);
    WalkLength(a, m, walk, source);
    var k := PlaceOf(order, end);
    WalkIsDirect(r, m, source, pushed, expanded, order, k);
    ReverseDirect(a, r, walk);
  }

  lemma LongWalk(a: Area, r: Rules, m: Grid, source: V3, pushed: set<V3>, expanded: set<V3>, order: seq<V3>, end: V3)
    requires RulesOf(a, r) && Tree(r, m, source, pushed, expanded)
    requires NodesOf(order) == expanded && InOrder(r, m, source, pushed, order) && end in expanded
    ensures var walk := WalkBack(r, m, source, pushed, expanded, end); LongPath(a, source, end, |walk| - 1)
  {
    hide Tree, RulesOf, InOrder, NodesOf, WalkBack, IsPath;
    var walk := WalkBack(r, m, source, pushed, expanded, end);
    WalkMakesPath(a, r, m, source, pushed, expanded, order, end, walk);
    assert IsPath(a, Reverse(walk), source, end);
  }

  lemma ReverseDirect(a: Area, r: Rules, walk: seq<V3>)
    requires RulesOf(a, r) && forall i, j :: 0 <= i && i + 1 < j < |walk| ==> NoEdge(r, walk[j], walk[i])
    ensures Direct(a, Reverse(walk))
  {
    var path, n := Reverse(walk), |walk|;
    forall i, j | 0 <= i && i + 1 < j < n ensures !Connected(a, path[i], path[j]) {
      assert NoEdge(r, walk[n - 1 - i], walk[n - 1 - j]);
      assert forall c :: Edge(a, path[i], path[j], c) == r.edge(path[i], path[j], c);
    }
  }

  class Pathfinder {
    const area: Area
    const prefetch: bool
    var nodes: Grid
    var openList: multiset<V3>

    constructor (area: Area, prefetch: bool)
      ensures this.area == area && nodes == map[] && openList == multiset{}
    {
      this.area, this.prefetch := area, prefetch;
      nodes, openList := map[], multiset{};
    }

    /** buildPath: walks back from the end until the source, giving up after 699 nodes. */
    method BuildPath(end: V3, ghost r: Rules, ghost source: V3, ghost pushed: set<V3>, ghost expanded: set<V3>)
      returns (ok: bool, path: seq<V3>)
      requires RulesOf(area, r) && Tree(r, nodes, source, pushed, expanded) && end in expanded
      ensures path != [] && path[0] == end
      ensures forall i :: 0 <= i < |path| ==> path[i] in expanded && path[i] in nodes && Searchable(area, path[i])
      ensures Backtrack(area, nodes, path)
      // as far as the limit allows, it is the walk along the back pointers, which are legal moves to the source
      ensures var walk := WalkBack(r, nodes, source, pushed, expanded, end);
              && ok == (|walk| <= 699)
              && path == if ok then walk else walk[..699]
      // it ends at the source exactly if there are few enough of them, and then the costs of all moves add up
      ensures ok <==> path[|path| - 1] == source
      ensures ok ==> CostsSum(area, path, nodes[end].totalcost)
    {
      hide WalkBack, Tree, RulesOf, Backtrack, CostsSum, Searchable;
      path := [];
      var pos := end;
      var waypoints := 2;  // the loop condition has incremented it once
      ghost var walk := WalkBack(r, nodes, source, pushed, expanded, end);
      while true
        invariant 2 <= waypoints <= MAX_WAYPOINTS + 1 && |path| == waypoints - 2
        invariant pos in expanded && walk == path + WalkBack(r, nodes, source, pushed, expanded, pos)
        decreases MAX_WAYPOINTS + 1 - waypoints
      {
        WalkStep(area, r, nodes, source, pushed, expanded, pos);
        if waypoints > MAX_WAYPOINTS {
          WalkSoFar(area, r, nodes, source, pushed, expanded, end, |path|);
          return false, path;
        }
        if !nodes[pos].valid {
          return false, path;
        }
        path := path + [pos];
        if nodes[pos].source {
          WalkSoFar(area, r, nodes, source, pushed, expanded, end, |path|);
          return true, path;
        }
        pos := Add(pos, nodes[pos].sourcedir);
        waypoints := waypoints + 1;
      }
    }

    /** initNode: with prefetching, the costs of a valid node are computed at once. */
    method InitNode(p: V3) returns (n: GridNode)
      ensures NodeOk(area, p, n) && !n.source && !n.isOpen && !n.isClosed
      ensures forall k :: 0 <= k < 4 ==> (n.directions[k].updated <==> n.valid && prefetch)
    {
      n := GridNode(area.OnSurface(p), false, false, -1, -1, V3(0, 0, 0), [NO_COST, NO_COST, NO_COST, NO_COST], false, false);
      if n.valid && prefetch {
        var c0 := CalcCost(area, p, DIRS[0]);
        var c1 := CalcCost(area, p, DIRS[1]);
        var c2 := CalcCost(area, p, DIRS[2]);
        var c3 := CalcCost(area, p, DIRS[3]);
        n := n.(directions := [c0, c1, c2, c3]);
      }
    }

    /** MapGridNodeContainer::access. */
    method Access(p: V3)
      modifies this`nodes
      ensures p in nodes
      ensures p !in old(nodes) ==> NodeOk(area, p, nodes[p])
      ensures if p in old(nodes) then nodes == old(nodes)
              else nodes == old(nodes)[p := nodes[p]] && !nodes[p].source && !nodes[p].isOpen && !nodes[p].isClosed
    {
      if p !in nodes {
        var n := InitNode(p);
        nodes := nodes[p := n];
      }
    }

    /** One direction of an expanded node: opens the neighbour there unless it was reached before. */
    method VisitNeighbor(current: V3, k: nat, destination: V3,
                         ghost r: Rules, ghost source: V3, ghost pushed: set<V3>, ghost expanded: set<V3>)
      returns (ghost more: set<V3>)
      requires RulesOf(area, r) && Tree(r, nodes, source, pushed, expanded) && current in expanded && k < 4
      requires Queued(area, openList, pushed, expanded) && pushed <= Universe(area, source)
      modifies this`nodes, this`openList
      ensures Tree(r, nodes, source, more, expanded)
      ensures Queued(area, openList, more, expanded) && pushed <= more <= Universe(area, source)
      ensures more == pushed ==> openList == old(openList)
      ensures forall c, q :: Leads(area, current, k, c, q) ==> q in more
      ensures Hung(old(nodes), nodes, pushed, more, current)
    {
      hide Queued, Universe, Edge, Hung, NodeOk, RulesOf;
      var cost := CostToward(current, k, r, source, pushed, expanded);
      var dir := V3(DIRS[k].x, cost.yChange, DIRS[k].z);
      var neighbor := Add(current, dir);
      ghost var costed := nodes;
      AccessBeside(neighbor, current, r, source, pushed, expanded);
      HungTwice(old(nodes), costed, nodes, pushed, pushed, pushed, current);
      more := pushed;
      if cost.valid {
        TheOneNeighbor(area, current, k, cost, neighbor);
        if !nodes[neighbor].isClosed && !nodes[neighbor].isOpen {
          ghost var before := nodes;
          Open(current, neighbor, dir, cost.value, destination, r, source, pushed, expanded);
          more := pushed + {neighbor};
          HungTwice(old(nodes), before, nodes, pushed, pushed, more, current);
        }
      }
    }

    /** Accessing a node leaves the search tree as it is. */
    method AccessBeside(p: V3, current: V3, ghost r: Rules, ghost source: V3, ghost pushed: set<V3>, ghost expanded: set<V3>)
      requires RulesOf(area, r) && Tree(r, nodes, source, pushed, expanded)
      modifies this`nodes
      ensures p in nodes && Tree(r, nodes, source, pushed, expanded) && Hung(old(nodes), nodes, pushed, pushed, current)
    {
      ghost var before := nodes;
      Access(p);
      if p !in before {
        TreeGrows(r, before, p, nodes[p], source, pushed, expanded);
      }
    }

    /** Hangs a node under the one it is entered from and queues it. */
    method Open(current: V3, neighbor: V3, dir: V3, cost: int, destination: V3,
                ghost r: Rules, ghost source: V3, ghost pushed: set<V3>, ghost expanded: set<V3>)
      requires RulesOf(area, r) && Tree(r, nodes, source, pushed, expanded) && current in expanded
      requires Edge(area, current, neighbor, cost) && neighbor == Add(current, dir) && area.Inside(neighbor)
      requires neighbor in nodes && !nodes[neighbor].isClosed && !nodes[neighbor].isOpen
      requires Queued(area, openList, pushed, expanded) && pushed <= Universe(area, source)
      modifies this`nodes, this`openList
      ensures neighbor !in pushed && openList == old(openList) + multiset{neighbor}
      ensures Tree(r, nodes, source, pushed + {neighbor}, expanded)
      ensures Queued(area, openList, pushed + {neighbor}, expanded) && pushed + {neighbor} <= Universe(area, source)
      ensures Hung(old(nodes), nodes, pushed, pushed + {neighbor}, current)
      ensures neighbor in nodes && nodes[neighbor].estimated == nodes[neighbor].totalcost + Apart(neighbor, destination)
    {
      ghost var before := nodes;
      var n, total := nodes[neighbor], nodes[current].totalcost + cost;
      var reached := n.(sourcedir := Neg(dir), totalcost := total,
                        estimated := total + Apart(neighbor, destination), isOpen := true);
      assert NodeOk(area, neighbor, n);
      assert NodeOk(area, neighbor, reached);
      nodes := nodes[neighbor := reached];
      TreeOpens(r, before, nodes, source, pushed, expanded, current, neighbor, cost);
      QueueGrows(area, openList, pushed, expanded, neighbor);
      InUniverse(area, source, neighbor);
      openList := openList + multiset{neighbor};
    }

    /** Opens the neighbours of an expanded node. */
    method Expand(current: V3, destination: V3,
                  ghost r: Rules, ghost source: V3, ghost pushed: set<V3>, ghost expanded: set<V3>)
      returns (ghost more: set<V3>)
      requires RulesOf(area, r) && Tree(r, nodes, source, pushed, expanded) && current in expanded
      requires Queued(area, openList, pushed, expanded) && pushed <= Universe(area, source)
      modifies this`nodes, this`openList
      ensures Tree(r, nodes, source, more, expanded)
      ensures Queued(area, openList, more, expanded) && pushed <= more <= Universe(area, source)
      ensures more == pushed ==> openList == old(openList)
      ensures Covered(area, more, current, 4) && Hung(old(nodes), nodes, pushed, more, current)
    {
      more := pushed;
      for k := 0 to 4
        invariant Hung(old(nodes), nodes, pushed, more, current)
        invariant Tree(r, nodes, source, more, expanded)
        invariant Queued(area, openList, more, expanded) && pushed <= more <= Universe(area, source)
        invariant more == pushed ==> openList == old(openList)
        invariant Covered(area, more, current, k)
      {
        ghost var before, grid := more, nodes;
        more := VisitNeighbor(current, k, destination, r, source, more, expanded);
        CoveredNext(area, before, more, current, k);
        HungTwice(old(nodes), grid, nodes, pushed, before, more, current);
      }
    }

    /** The A* search; any element of the queue may be its top. */
    method UpdateCostHeuristic(source: V3, destination: V3, ghost r: Rules)
      returns (found: bool, ghost pushed: set<V3>, ghost expanded: set<V3>, ghost order: seq<V3>)
      requires RulesOf(area, r) && openList == multiset{} && Untouched(source)
      modifies this`nodes, this`openList
      ensures found <==> Reachable(area, source, destination)
      ensures Tree(r, nodes, source, pushed, expanded)
      ensures NodesOf(order) == expanded && InOrder(r, nodes, source, pushed, order)
      ensures found ==> destination in expanded
    {
      Start(source, destination, r);
      pushed, expanded, order := {source}, {}, [];
      found := false;
      InUniverse(area, source, source);
      while openList != multiset{}
        invariant Searching(r, source, destination, pushed, expanded, order)
        decreases |Universe(area, source)| - |pushed|, |openList|
      {
        var current :| current in openList;
        found, pushed, expanded, order := Settle(current, destination, r, source, pushed, expanded, order);
        if found {
          return;
        }
      }
      NothingMissed(area, r, nodes, source, pushed, expanded, destination);
    }

    /** getPath, once both ends are on the ground: a path, or nothing if there is none. */
    method GetPath(source: V3, destination: V3) returns (path: seq<V3>)
      requires nodes == map[] && openList == multiset{}
      modifies this`nodes, this`openList
      ensures path != [] <==> Reachable(area, source, destination)
      ensures path != [] ==> IsPath(area, path, path[0], destination)
      // no node is met twice, and none leads to a later one than the next
      ensures |path| <= 699 && Distinct(path) && Direct(area, path)
      // a walk back that is too long leaves a path that starts on the way
      ensures path != [] ==> path[0] == source || (|path| == 699 && source !in path)
      // which takes a path without shortcuts that is too long
      ensures path != [] && path[0] != source ==> LongPath(area, source, destination, 699)
      // so it happens whenever the ends are too far apart, and never if there are few enough nodes to step on
      ensures Apart(source, destination) >= 699 && path != [] ==> path[0] != source
      ensures |Ground(area)| <= 699 && path != [] ==> path[0] == source
    {
      hide Tree, RulesOf, InOrder, NodesOf, WalkBack, Searchable, Backtrack, Ground, Apart, IsPath, Reachable;
      path := [];
      ghost var r := AreaRules(area);
      Access(source);
      Access(destination);
      if !nodes[source].valid || !nodes[destination].valid {
        if Reachable(area, source, destination) {
          EndsOnSurface(area, source, destination);
          assert false;
        }
        return;
      }
      assert NodeOk(area, source, nodes[source]) && NodeOk(area, destination, nodes[destination]);
      nodes := nodes[destination := nodes[destination].(target := true)];
      nodes := nodes[source := nodes[source].(source := true, totalcost := 0)];
      assert NodeOk(area, source, nodes[source]) && NodeOk(area, destination, nodes[destination]);
      var found, pushed, expanded, order := UpdateCostHeuristic(source, destination, r);
      if found {
        var ok, walk := BuildPath(destination, r, source, pushed, expanded);
        WalkMakesPath(area, r, nodes, source, pushed, expanded, order, destination, walk);
        path := Reverse(walk);
        if !ok {
          LongWalk(area, r, nodes, source, pushed, expanded, order, destination);
        }
      }
    }

    /** The search invariant. */
    ghost predicate Searching(r: Rules, source: V3, destination: V3, pushed: set<V3>, expanded: set<V3>, order: seq<V3>)
      reads this
    {
      && Tree(r, nodes, source, pushed, expanded)
      && Queued(area, openList, pushed, expanded) && pushed <= Universe(area, source)
      && destination !in expanded && Explored(area, source, pushed, expanded)
      && NodesOf(order) == expanded && InOrder(r, nodes, source, pushed, order)
    }

    /** One iteration: takes a node from the queue, closes it, and expands it unless it is the destination. */
    method Settle(current: V3, destination: V3, ghost r: Rules, ghost source: V3,
                  ghost pushed: set<V3>, ghost expanded: set<V3>, ghost order: seq<V3>)
      returns (found: bool, ghost pushed1: set<V3>, ghost expanded1: set<V3>, ghost order1: seq<V3>)
      requires RulesOf(area, r) && Searching(r, source, destination, pushed, expanded, order) && current in openList
      modifies this`nodes, this`openList
      ensures !found ==> Searching(r, source, destination, pushed1, expanded1, order1)
      ensures NodesOf(order1) == expanded1 && InOrder(r, nodes, source, pushed1, order1)
      ensures |pushed| <= |Universe(area, source)|
      ensures |pushed1| > |pushed| || (pushed1 == pushed && |openList| < |old(openList)|)
      ensures Tree(r, nodes, source, pushed1, expanded1)
      ensures found ==> destination in expanded1 && Reachable(area, source, destination)
      ensures found ==> destination in nodes && nodes[destination].target
    {
      hide Tree, RulesOf, Explored, Covered, Universe, Reachable, InOrder, NodesOf, Hung, Queued;
      Matching.SubsetSize(pushed, Universe(area, source));
      ghost var before := nodes;
      QueueTakes(area, openList, pushed, expanded, current);
      openList := openList - multiset{current};
      pushed1, expanded1, order1, found := pushed, expanded, order, false;
      if !area.InRange(current) {
        return;
      }
      var valid := Close(current, r, source, pushed, expanded);
      if !valid {
        OrderKept(r, before, nodes, source, pushed, order, current);
        return;
      }
      LeafReachable(area, r, nodes, source, pushed, expanded, current);
      expanded1, order1 := expanded + {current}, order + [current];
      NodesMore(order, current);
      AllCovered(area, source, pushed, expanded, order);
      ghost var closed := nodes;
      if current == destination {
        MarkTarget(current, r, source, pushed, expanded1);
        HungTwice(before, closed, nodes, pushed, pushed, pushed, current);
        OrderGrows(area, r, before, nodes, source, pushed, pushed, order, current);
        found := true;
        return;
      }
      pushed1 := Expand(current, destination, r, source, pushed, expanded1);
      HungTwice(before, closed, nodes, pushed, pushed, pushed1, current);
      OrderGrows(area, r, before, nodes, source, pushed, pushed1, order, current);
      assert expanded1 - {current} == expanded;
      ExploredMore(area, source, pushed, pushed1, expanded1, current);
      if pushed1 != pushed {
        ProperSubsetSize(pushed, pushed1);
      }
    }

    /** Marks the destination as met. */
    method MarkTarget(current: V3, ghost r: Rules, ghost source: V3, ghost pushed: set<V3>, ghost expanded: set<V3>)
      requires RulesOf(area, r) && Tree(r, nodes, source, pushed, expanded) && current in expanded
      modifies this`nodes
      ensures Tree(r, nodes, source, pushed, expanded)
      ensures current in nodes && current in old(nodes) && nodes == old(nodes)[current := old(nodes)[current].(target := true)]
      ensures Hung(old(nodes), nodes, pushed, pushed, current)
    {
      ghost var before := nodes;
      assert NodeOk(area, current, nodes[current]);
      var n := nodes[current].(target := true);
      assert NodeOk(area, current, n);
      nodes := nodes[current := n];
      TreeSameLinks(r, before, nodes, source, pushed, expanded, current);
    }

    /** No search has run yet; the source may have been marked. */
    ghost predicate Untouched(source: V3)
      reads this
    {
      forall p :: p in nodes ==>
        NodeOk(area, p, nodes[p]) && (nodes[p].source ==> p == source) && !nodes[p].isOpen && !nodes[p].isClosed
    }

    /** Marks the source and queues it. */
    method Start(source: V3, destination: V3, ghost r: Rules)
      requires RulesOf(area, r) && openList == multiset{} && Untouched(source)
      modifies this`nodes, this`openList
      ensures Tree(r, nodes, source, {source}, {})
      ensures openList == multiset{source}
    {
      Access(source);
      assert NodeOk(area, source, nodes[source]);
      // the estimate measures from the destination itself
      var n := nodes[source].(source := true, totalcost := 0, estimated := Apart(destination, destination));
      assert NodeOk(area, source, n);
      nodes := nodes[source := n];
      openList := multiset{source};
      forall p | p in nodes ensures r.ok(p, nodes[p]) {
        assert NodeOk(area, p, nodes[p]);
      }
    }

    /** Moves a popped node to the closed list; the answer is whether it can be stepped on. */
    method Close(current: V3, ghost r: Rules, ghost source: V3, ghost pushed: set<V3>, ghost expanded: set<V3>)
      returns (valid: bool)
      requires RulesOf(area, r) && Tree(r, nodes, source, pushed, expanded) && current in pushed && area.InRange(current)
      modifies this`nodes
      ensures valid == Searchable(area, current)
      ensures Tree(r, nodes, source, pushed, if valid then expanded + {current} else expanded)
      ensures Tree(r, nodes, source, pushed, expanded) && Hung(old(nodes), nodes, pushed, pushed, current)
    {
      ghost var before := nodes;
      assert NodeOk(area, current, nodes[current]);
      var n := nodes[current].(isClosed := true, isOpen := false);
      assert NodeOk(area, current, n);
      nodes := nodes[current := n];
      TreeExpands(r, before, nodes, source, pushed, expanded, current);
      valid := n.valid;
      assert Searchable(area, current) == valid;
    }

    /** The cost in one direction, computed when it was not yet. */
    method CostToward(current: V3, k: nat,
                      ghost r: Rules, ghost source: V3, ghost pushed: set<V3>, ghost expanded: set<V3>)
      returns (cost: PathCost)
      requires RulesOf(area, r) && Tree(r, nodes, source, pushed, expanded) && current in nodes && k < 4
      modifies this`nodes
      ensures Tree(r, nodes, source, pushed, expanded) && nodes.Keys == old(nodes.Keys)
      ensures IsCost(area, current, DIRS[k], cost) && Hung(old(nodes), nodes, pushed, pushed, current)
      ensures current in nodes && |nodes[current].directions| == 4 && nodes[current].directions[k] == cost
    {
      assert NodeOk(area, current, nodes[current]);
      cost := nodes[current].directions[k];
      if !cost.updated {
        cost := CalcCost(area, current, DIRS[k]);
        ghost var before := nodes;
        var costed := nodes[current].(directions := nodes[current].directions[k := cost]);
        assert NodeOk(area, current, costed);
        nodes := nodes[current := costed];
        TreeSameLinks(r, before, nodes, source, pushed, expanded, current);
      }
    }
  }

  /** Expanded nodes were reached, and all their moves followed up. */
  ghost predicate Explored(a: Area, source: V3, pushed: set<V3>, expanded: set<V3>) {
    && (forall p {:trigger Covered(a, pushed, p, 4)} :: p in expanded ==> Covered(a, pushed, p, 4))
    && (forall p {:trigger Reachable(a, source, p)} :: p in expanded ==> Reachable(a, source, p))
  }

  lemma AllCovered(a: Area, source: V3, pushed: set<V3>, expanded: set<V3>, order: seq<V3>)
    requires Explored(a, source, pushed, expanded) && NodesOf(order) == expanded
    ensures forall i :: 0 <= i < |order| ==> Covered(a, pushed, order[i], 4)
  {
    forall i | 0 <= i < |order| ensures Covered(a, pushed, order[i], 4) {
      assert order[i] in NodesOf(order);
    }
  }

  lemma CoveredNext(a: Area, pushed: set<V3>, more: set<V3>, p: V3, k: nat)
    requires k < 4 && Covered(a, pushed, p, k) && pushed <= more
    requires forall c, q :: Leads(a, p, k, c, q) ==> q in more
    ensures Covered(a, more, p, k + 1)
  {
  }

  lemma CoveredMore(a: Area, pushed: set<V3>, more: set<V3>, p: V3)
    requires Covered(a, pushed, p, 4) && pushed <= more
    ensures Covered(a, more, p, 4)
  {
  }

  lemma ExploredMore(a: Area, source: V3, pushed: set<V3>, more: set<V3>, expanded: set<V3>, p: V3)
    requires Explored(a, source, pushed, expanded - {p}) && pushed <= more
    requires Covered(a, more, p, 4) && Reachable(a, source, p)
    ensures Explored(a, source, more, expanded)
  {
    forall q | q in expanded ensures Covered(a, more, q, 4) {
      if q != p {
        assert Covered(a, pushed, q, 4);
        CoveredMore(a, pushed, more, q);
      }
    }
  }

  lemma ProperSubsetSize<T>(a: set<T>, b: set<T>)
    requires a < b
    ensures |a| < |b|
  {
    var x :| x in b && x !in a;
    Matching.SubsetSize(a, b - {x});
  }

  /** A pushed node that can be stepped on can be reached. */
  lemma LeafReachable(a: Area, r: Rules, m: Grid, source: V3, pushed: set<V3>, expanded: set<V3>, p: V3)
    requires RulesOf(a, r) && Tree(r, m, source, pushed, expanded) && Explored(a, source, pushed, expanded)
    requires p in pushed && Searchable(a, p)
    ensures Reachable(a, source, p)
  {
    if p == source {
      ReachSelf(a, source);
    } else {
      assert Linked(r, m, expanded, p);
      var from := Add(p, m[p].sourcedir);
      assert Edge(a, from, p, m[p].totalcost - m[from].totalcost);
      assert Connected(a, from, p);
      ReachStep(a, source, from, p);
    }
  }

  lemma EndsOnSurface(a: Area, s: V3, t: V3)
    requires Reachable(a, s, t)
    ensures a.OnSurface(s) && a.OnSurface(t)
  {
    var path :| IsPath(a, path, s, t);
    assert Searchable(a, path[0]) && Searchable(a, path[|path| - 1]);
  }

  /** With the queue empty, what was not expanded cannot be reached. */
  lemma NothingMissed(a: Area, r: Rules, m: Grid, source: V3, pushed: set<V3>, expanded: set<V3>, t: V3)
    requires Tree(r, m, source, pushed, expanded) && Explored(a, source, pushed, expanded)
    requires Queued(a, multiset{}, pushed, expanded) && t !in expanded
    ensures !Reachable(a, source, t)
  {
    if path :| IsPath(a, path, source, t) {
      assert Searchable(a, path[0]);
      forall p, q | p in expanded && Connected(a, p, q) && Searchable(a, q) ensures q in expanded {
        var c :| Edge(a, p, q, c);
        var k :| 0 <= k < 4 && Leads(a, p, k, c, q);
        assert Covered(a, pushed, p, 4);
      }
      ClosedHoldsPath(a, expanded, path, source, t);
    }
  }

  /** A valid cost leads to one place only. */
  lemma TheOneNeighbor(a: Area, p: V3, k: nat, cost: PathCost, q: V3)
    requires k < 4 && IsCost(a, p, DIRS[k], cost) && cost.valid
    requires q == Add(p, V3(DIRS[k].x, cost.yChange, DIRS[k].z))
    ensures Edge(a, p, q, cost.value) && a.Inside(q) && p != q
    ensures forall c, x :: Leads(a, p, k, c, x) ==> x == q
  {
    assert Leads(a, p, k, cost.value, q);
    MoveInside(a, p, k, cost.value, q);
    forall c, x | Leads(a, p, k, c, x) ensures x == q {
      MoveUnique(a, p, DIRS[k], cost.value, cost.yChange, c, x.y - p.y);
    }
  }

  /** Along a corridor of 701 nodes the path found starts on the way. */
  method CutPath() returns (path: seq<V3>)
    ensures |path| == 699 && path[0] != V3(0, 1, 0)
    ensures IsPath(Corridor(700), path, path[0], V3(700, 1, 0))
    ensures Reachable(Corridor(700), V3(0, 1, 0), V3(700, 1, 0))
  {
    hide IsPath, Reachable, Ground;
    var finder := new Pathfinder(Corridor(700), false);
    CorridorReachable(700);
    path := finder.GetPath(V3(0, 1, 0), V3(700, 1, 0));
  }
}
