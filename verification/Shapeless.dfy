/** CraftDefinitionShapeless::check: items and recipe slots in one-to-one correspondence. */
module Shapeless {
  import opened Items
  import opened Names
  import opened Multisets
  import opened Matching
  import HopcroftKarp

  /** Every item goes to a slot of its own that it satisfies, and every slot gets one. */
  ghost predicate Assignment(db: ItemDefs, items: seq<string>, slots: seq<string>, m: seq<nat>) {
    && |items| == |slots|
    && Permutes(m, |slots|)
    && forall i :: 0 <= i < |items| ==> Satisfies(db, items[i], slots[m[i]])
  }

  // The same as a list of (item, slot) pairs, which forgets the order of both sides.
  type Pairs = seq<(string, string)>

  ghost function Firsts(p: Pairs): seq<string> { seq(|p|, i requires 0 <= i < |p| => p[i].0) }
  ghost function Seconds(p: Pairs): seq<string> { seq(|p|, i requires 0 <= i < |p| => p[i].1) }

  ghost predicate Pairing(db: ItemDefs, items: multiset<string>, slots: multiset<string>, p: Pairs) {
    && multiset(Firsts(p)) == items
    && multiset(Seconds(p)) == slots
    && forall i :: 0 <= i < |p| ==> Satisfies(db, p[i].0, p[i].1)
  }

  lemma AssignmentPairs(db: ItemDefs, items: seq<string>, slots: seq<string>, m: seq<nat>) returns (p: Pairs)
    requires Assignment(db, items, slots, m)
    ensures Pairing(db, multiset(items), multiset(slots), p)
  {
    p := seq(|items|, i requires 0 <= i < |items| => (items[i], slots[m[i]]));
    assert Firsts(p) == items;
    PermutedContents(slots, m, Seconds(p));
  }

  lemma PairsAssignment(db: ItemDefs, items: seq<string>, slots: seq<string>, p: Pairs) returns (m: seq<nat>)
    requires Pairing(db, multiset(items), multiset(slots), p)
    ensures Assignment(db, items, slots, m)
  {
    var f := SameContentsPermute(items, Firsts(p));
    var g := SameContentsPermute(Seconds(p), slots);
    m := seq(|items|, i requires 0 <= i < |items| => g[f[i]]);
    forall i | 0 <= i < |items|
      ensures Satisfies(db, items[i], slots[m[i]])
    {
      assert Firsts(p)[f[i]] == items[i] && Seconds(p)[f[i]] == slots[m[i]];
    }
    forall i, j | 0 <= i < j < |items|
      ensures m[i] != m[j]
    {
      assert f[i] != f[j];
    }
  }

  // Splitting a recipe into group slots and exact ones (std::partition_copy).
  function OnlyGroups(s: seq<string>): seq<string> {
    if s == [] then [] else (if IsGroup(s[0]) then [s[0]] else []) + OnlyGroups(s[1..])
  }

  function NoGroups(s: seq<string>): seq<string> {
    if s == [] then [] else (if IsGroup(s[0]) then [] else [s[0]]) + NoGroups(s[1..])
  }

  lemma {:induction false} PartitionContents(s: seq<string>)
    ensures multiset(s) == multiset(OnlyGroups(s)) + multiset(NoGroups(s))
    ensures forall x :: x in OnlyGroups(s) ==> IsGroup(x)
    ensures forall x :: x in NoGroups(s) ==> !IsGroup(x) && x in s
    ensures |s| == |OnlyGroups(s)| + |NoGroups(s)|
  {
    if s != [] {
      PartitionContents(s[1..]);
      assert s == [s[0]] + s[1..];
    }
  }

  lemma {:induction false} NoGroupsSorted(s: seq<string>)
    requires Sorted(s)
    ensures Sorted(NoGroups(s))
  {
    if s != [] {
      NoGroupsSorted(s[1..]);
      PartitionContents(s[1..]);
      var r := NoGroups(s[1..]);
      forall j | 0 <= j < |r| ensures !Less(r[j], s[0]) {
        assert r[j] in s[1..];
        var k :| 0 <= k < |s[1..]| && s[1..][k] == r[j];
      }
    }
  }

  lemma ExactSatisfies(db: ItemDefs, name: string, slot: string)
    requires Satisfies(db, name, slot) && !IsGroup(slot)
    ensures name == slot
  {
  }

  /** A pairing splits by the kind of its slots; exact slots take items of their own name. */
  lemma {:induction false} SplitPairs(db: ItemDefs, p: Pairs) returns (q: Pairs, exact: seq<string>)
    requires forall i :: 0 <= i < |p| ==> Satisfies(db, p[i].0, p[i].1)
    ensures forall i :: 0 <= i < |q| ==> Satisfies(db, q[i].0, q[i].1) && IsGroup(q[i].1)
    ensures forall x :: x in exact ==> !IsGroup(x)
    ensures multiset(Firsts(p)) == multiset(Firsts(q)) + multiset(exact)
    ensures multiset(Seconds(p)) == multiset(Seconds(q)) + multiset(exact)
  {
    hide Satisfies;
    if p == [] {
      q, exact := [], [];
    } else {
      var q1, exact1 := SplitPairs(db, p[1..]);
      assert Firsts(p) == [p[0].0] + Firsts(p[1..]);
      assert Seconds(p) == [p[0].1] + Seconds(p[1..]);
      if IsGroup(p[0].1) {
        q, exact := [p[0]] + q1, exact1;
        assert Firsts(q) == [p[0].0] + Firsts(q1);
        assert Seconds(q) == [p[0].1] + Seconds(q1);
      } else {
        ExactSatisfies(db, p[0].0, p[0].1);
        q, exact := q1, [p[0].1] + exact1;
      }
    }
  }

  /** Multisets split into group and non-group names in one way only. */
  lemma UniqueSplit(a: multiset<string>, b: multiset<string>, c: multiset<string>, d: multiset<string>)
    requires a + b == c + d
    requires forall x :: (x in a || x in c) ==> IsGroup(x)
    requires forall x :: (x in b || x in d) ==> !IsGroup(x)
    ensures a == c && b == d
  {
    forall x ensures a[x] == c[x] && b[x] == d[x] {
      assert (a + b)[x] == (c + d)[x];
    }
  }

  /** The prefilter never changes the answer. */
  lemma PrefilterComplete(db: ItemDefs, items: multiset<string>, slots: multiset<string>,
                          groups: multiset<string>, exact: multiset<string>, p: Pairs) returns (q: Pairs)
    requires slots == groups + exact
    requires (forall x :: x in groups ==> IsGroup(x)) && (forall x :: x in exact ==> !IsGroup(x))
    requires Pairing(db, items, slots, p)
    ensures exact <= items && Pairing(db, items - exact, groups, q)
  {
    var taken;
    q, taken := SplitPairs(db, p);
    forall x | x in Seconds(q) ensures IsGroup(x) {
      var i :| 0 <= i < |Seconds(q)| && Seconds(q)[i] == x;
    }
    UniqueSplit(multiset(Seconds(q)), multiset(taken), groups, exact);
  }

  lemma PrefilterSound(db: ItemDefs, items: multiset<string>, groups: multiset<string>, exact: seq<string>, q: Pairs)
    returns (p: Pairs)
    requires multiset(exact) <= items && Pairing(db, items - multiset(exact), groups, q)
    ensures Pairing(db, items, groups + multiset(exact), p)
  {
    p := q + seq(|exact|, i requires 0 <= i < |exact| => (exact[i], exact[i]));
    assert Firsts(p) == Firsts(q) + exact;
    assert Seconds(p) == Seconds(q) + exact;
  }

  /** bip_graph: for each item the group slots it satisfies. */
  ghost predicate IsGraphOf(db: ItemDefs, items: seq<string>, slots: seq<string>, g: Graph) {
    && |g| == |items| == |slots|
    && forall i, j :: 0 <= i < |g| && 0 <= j < |slots| ==> (j in g[i] <==> Satisfies(db, items[i], slots[j]))
  }

  lemma GraphAssignment(db: ItemDefs, items: seq<string>, slots: seq<string>, g: Graph, m: seq<nat>)
    requires IsGraphOf(db, items, slots, g) && ValidGraph(g)
    ensures PerfectMatching(g, m) <==> Assignment(db, items, slots, m)
  {
    if PerfectMatching(g, m) {
      forall i | 0 <= i < |items|
        ensures m[i] < |slots| && Satisfies(db, items[i], slots[m[i]])
      {
        assert Edge(g, i, m[i]);
      }
    }
    if Assignment(db, items, slots, m) {
      forall i | 0 <= i < |items| ensures Edge(g, i, m[i]) {
        assert m[i] in g[i];
      }
    }
  }

  lemma {:induction false} FilledNamesSnoc(items: seq<ItemStack>, x: ItemStack)
    ensures FilledNames(items + [x]) == FilledNames(items) + if x.name == "" then [] else [x.name]
  {
    if items == [] {
    } else {
      assert (items + [x])[1..] == items[1..] + [x];
      FilledNamesSnoc(items[1..], x);
    }
  }

  /** Filters empty items out of an input. */
  method FilterEmpty(items: seq<ItemStack>) returns (filtered: seq<string>)
    ensures filtered == FilledNames(items)
  {
    filtered := [];
    for i := 0 to |items|
      invariant filtered == FilledNames(items[..i])
    {
      FilledNamesSnoc(items[..i], items[i]);
      assert items[..i + 1] == items[..i] + [items[i]];
      if items[i].name != "" {
        filtered := filtered + [items[i].name];
      }
    }
    assert items[..|items|] == items;
  }

  const SHAPELESS_GROUPS_MAX := HopcroftKarp.GROUPS_MAX

  /** What the check decides: the filled stacks and the recipe slots correspond one to one. */
  ghost predicate ShapelessMatches(db: ItemDefs, input: CraftInput, recipe: seq<string>) {
    && input.kind.Normal?
    && |OnlyGroups(recipe)| <= 30000
    && exists m :: Assignment(db, FilledNames(input.items), recipe, m)
  }

  /** Which group slots each item satisfies. */
  method BuildGraph(db: ItemDefs, items: seq<string>, slots: seq<string>) returns (g: Graph)
    requires |items| == |slots|
    ensures IsGraphOf(db, items, slots, g) && ValidGraph(g)
  {
    g := [];
    for i := 0 to |items|
      invariant |g| == i
      invariant forall u, v :: 0 <= u < i && v in g[u] ==> v < |slots|
      invariant forall u, v :: 0 <= u < i && 0 <= v < |slots| ==> (v in g[u] <==> Satisfies(db, items[u], slots[v]))
    {
      var neighbors: seq<nat> := [];
      for j := 0 to |slots|
        invariant forall v :: v in neighbors ==> v < j
        invariant forall v :: 0 <= v < j ==> (v in neighbors <==> Satisfies(db, items[i], slots[v]))
      {
        var ok := InputItemMatchesRecipe(db, items[i], slots[j]);
        if ok {
          neighbors := neighbors + [j];
        }
      }
      g := g + [neighbors];
    }
  }

  method ShapelessCheck(db: ItemDefs, input: CraftInput, recipe: seq<string>, hashInited: bool, recipeNames: seq<string>)
    returns (ok: bool)
    // initHash caches the sorted names
    requires hashInited ==> recipeNames == Sort(recipe)
    ensures ok <==> ShapelessMatches(db, input, recipe)
  {
    if !input.kind.Normal? {
      return false;
    }
    var filtered := FilterEmpty(input.items);
    ghost var names := filtered;
    if |filtered| != |recipe| {
      return false;
    }
    filtered := Sort(filtered);
    var recipeCopy := if hashInited then recipeNames else Sort(recipe);
    var groups, exact := OnlyGroups(recipeCopy), NoGroups(recipeCopy);
    var forGroup := SetDifference(filtered, exact);
    PrefilterDecides(db, names, recipe);
    if |filtered| - |forGroup| != |exact| {
      return false;
    }
    if |groups| > SHAPELESS_GROUPS_MAX {
      return false;
    }
    var graph := BuildGraph(db, forGroup, groups);
    ghost var last, sizes;
    ok, last, sizes := HopcroftKarp.CanMatchAll(graph);
    forall p ensures PerfectMatching(graph, p) <==> Assignment(db, forGroup, groups, p) {
      GraphAssignment(db, forGroup, groups, graph, p);
    }
  }

  lemma SameGroups(a: seq<string>, b: seq<string>)
    requires multiset(a) == multiset(b)
    ensures multiset(OnlyGroups(a)) == multiset(OnlyGroups(b))
    ensures |OnlyGroups(a)| == |OnlyGroups(b)|
  {
    PartitionContents(a);
    PartitionContents(b);
    UniqueSplit(multiset(OnlyGroups(a)), multiset(NoGroups(a)), multiset(OnlyGroups(b)), multiset(NoGroups(b)));
    assert |OnlyGroups(a)| == |multiset(OnlyGroups(a))|;
    assert |OnlyGroups(b)| == |multiset(OnlyGroups(b))|;
  }

  /** What is left after the sorted merge decides, and has as many items as there are group slots. */
  lemma PrefilterDecides(db: ItemDefs, items: seq<string>, recipe: seq<string>)
    requires |items| == |recipe|
    ensures var sorted, slots := Sort(items), Sort(recipe);
            var groups, exact := OnlyGroups(slots), NoGroups(slots);
            var rest := SetDifference(sorted, exact);
            && |groups| == |OnlyGroups(recipe)|
            && (|sorted| - |rest| == |exact| ==> |rest| == |groups|)
            && |sorted| == |items|
            && ((exists m :: Assignment(db, items, recipe, m)) <==>
                |sorted| - |rest| == |exact| && exists m :: Assignment(db, rest, groups, m))
  {
    var sorted, slots := Sort(items), Sort(recipe);
    var groups, exact := OnlyGroups(slots), NoGroups(slots);
    var rest := SetDifference(sorted, exact);
    SortSorted(items);
    SortSorted(recipe);
    NoGroupsSorted(slots);
    PartitionContents(slots);
    SetDifferenceContents(sorted, exact);
    SameGroups(slots, recipe);
    Sizes(items, sorted);
    Sizes(recipe, slots);
    RemainderSize(sorted, exact, rest);
    if m :| Assignment(db, items, recipe, m) {
      var p := AssignmentPairs(db, items, recipe, m);
      var q := PrefilterComplete(db, multiset(items), multiset(recipe), multiset(groups), multiset(exact), p);
      var m1 := PairsAssignment(db, rest, groups, q);
    }
    if |sorted| - |rest| == |exact| {
      if m1 :| Assignment(db, rest, groups, m1) {
        var q := AssignmentPairs(db, rest, groups, m1);
        var p := PrefilterSound(db, multiset(items), multiset(groups), exact, q);
        var m := PairsAssignment(db, items, recipe, p);
      }
    }
  }

  lemma Sizes(a: seq<string>, b: seq<string>)
    requires multiset(a) == multiset(b)
    ensures |a| == |b|
  {
    assert |a| == |multiset(a)| && |b| == |multiset(b)|;
  }

  lemma RemainderSize(all: seq<string>, out: seq<string>, rest: seq<string>)
    requires multiset(rest) == multiset(all) - multiset(out)
    ensures |all| - |rest| == |out| <==> multiset(out) <= multiset(all)
  {
    var a, b := multiset(all), multiset(out);
    assert |a| == |all| && |b| == |out| && |multiset(rest)| == |rest|;
    assert |a - b| == |a| - |a * b|;
    assert |b - a| == |b| - |b * a| && a * b == b * a;
    if b <= a {
      assert b - a == multiset{};
    } else {
      var x :| b[x] > a[x];
      assert (b - a)[x] > 0;
    }
  }
}
