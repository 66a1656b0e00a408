/** Bipartite matching: what the shapeless recipe check asks of its matcher. */
module Matching {
  // graph[u] lists the right nodes adjacent to left node u; there are |graph| nodes on each side.
  type Graph = seq<seq<nat>>

  ghost predicate Edge(g: Graph, u: nat, v: nat) {
    u < |g| && v in g[u]
  }

  ghost predicate ValidGraph(g: Graph) {
    forall u: nat, v: nat :: Edge(g, u, v) ==> v < |g|
  }

  ghost predicate Injective(m: seq<nat>) {
    forall i, j :: 0 <= i < j < |m| ==> m[i] != m[j]
  }

  /** `m` assigns every left node a right neighbour of its own. */
  ghost predicate PerfectMatching(g: Graph, m: seq<nat>) {
    && |m| == |g|
    && (forall u :: 0 <= u < |m| ==> Edge(g, u, m[u]))
    && Injective(m)
  }

  ghost function Neighbours(g: Graph, s: set<nat>): set<nat> {
    set u, v | u in s && u < |g| && v in g[u] && Edge(g, u, v) :: v
  }

  /** A set of left nodes with too few neighbours to be matched. */
  ghost predicate HallViolator(g: Graph, s: set<nat>) {
    && (forall u :: u in s ==> u < |g|)
    && |Neighbours(g, s)| < |s|
  }

  /** An injective image has as many elements as its source. */
  lemma {:induction false} InjectiveImageSize(s: set<nat>, f: seq<nat>)
    requires forall x :: x in s ==> x < |f|
    requires forall x, y :: x in s && y in s && f[x] == f[y] ==> x == y
    ensures |set x | x in s :: f[x]| == |s|
    decreases s
  {
    if s != {} {
      var x :| x in s;
      var rest := s - {x};
      InjectiveImageSize(rest, f);
      assert (set y | y in s :: f[y]) == (set y | y in rest :: f[y]) + {f[x]};
    }
  }

  lemma {:induction false} SubsetSize<T>(a: set<T>, b: set<T>)
    requires a <= b
    ensures |a| <= |b|
    decreases a
  {
    if a != {} {
      var x :| x in a;
      SubsetSize(a - {x}, b - {x});
    }
  }

  lemma {:induction false} RangeSize(s: set<nat>, n: nat)
    requires forall x :: x in s ==> x < n
    ensures |s| <= n
    ensures |s| == n ==> forall x :: 0 <= x < n ==> x in s
    decreases n
  {
    if n == 0 {
      assert s == {};
    } else {
      var rest := s - {n - 1};
      RangeSize(rest, n - 1);
      if n - 1 in s {
        assert s == rest + {n - 1};
      } else {
        assert rest == s;
      }
    }
  }

  lemma {:induction false} MissingElement(s: set<nat>, n: nat)
    requires |s| < n
    ensures exists x :: 0 <= x < n && x !in s
    decreases n
  {
    if n - 1 in s {
      MissingElement(s - {n - 1}, n - 1);
    }
  }

  /** The easy half of Hall's theorem: a violator rules every perfect matching out. */
  lemma ViolatorRefutesMatching(g: Graph, s: set<nat>, m: seq<nat>)
    requires HallViolator(g, s)
    ensures !PerfectMatching(g, m)
  {
    if PerfectMatching(g, m) {
      InjectiveImageSize(s, m);
      var image := set x | x in s :: m[x];
      assert image <= Neighbours(g, s);
      SubsetSize(image, Neighbours(g, s));
      assert false;
    }
  }
}
