/** CCraftDefManager: recipes filed under hashes, and why looking a hash up equals scanning them all. */
module CraftIndex {
  import opened Options
  import opened Items
  import opened CraftDefs
  import CraftHash
  import Shaped

  /** The recipe applies and what it makes exists. */
  ghost predicate Usable(gd: GameDef, input: CraftInput, def: CraftDef) {
    Matches(gd, def, input) && OutputKnown(gd, def, input)
  }

  function Rank(best: Option<CraftDef>): nat {
    if best.None? then 0 else Priority(best.value)
  }

  /** The linear scan, from the latest recipe to the first, keeping what has a strictly higher priority. */
  ghost function Scan(gd: GameDef, input: CraftInput, defs: seq<CraftDef>, best: Option<CraftDef>): Option<CraftDef> {
    if defs == [] then best
    else
      var last := defs[|defs| - 1];
      Scan(gd, input, defs[..|defs| - 1], if Usable(gd, input, last) && Priority(last) > Rank(best) then Some(last) else best)
  }

  /** The latest usable recipe of one priority. */
  ghost function Latest(gd: GameDef, input: CraftInput, defs: seq<CraftDef>, p: nat): Option<CraftDef> {
    if defs == [] then None
    else
      var last := defs[|defs| - 1];
      if Usable(gd, input, last) && Priority(last) == p then Some(last)
      else Latest(gd, input, defs[..|defs| - 1], p)
  }

  /** The registration at i is usable, of the priority, and the last such. */
  ghost predicate LatestAt(gd: GameDef, input: CraftInput, defs: seq<CraftDef>, p: nat, i: int) {
    && 0 <= i < |defs| && Usable(gd, input, defs[i]) && Priority(defs[i]) == p
    && forall j :: i < j < |defs| && Usable(gd, input, defs[j]) ==> Priority(defs[j]) != p
  }

  lemma {:induction false} LatestIsLatest(gd: GameDef, input: CraftInput, defs: seq<CraftDef>, p: nat)
    ensures match Latest(gd, input, defs, p)
            case None => forall d :: d in defs && Usable(gd, input, d) ==> Priority(d) != p
            case Some(def) => exists i :: LatestAt(gd, input, defs, p, i) && defs[i] == def
    decreases |defs|
  {
    hide Usable, Priority;
    if defs != [] {
      var n := |defs| - 1;
      if Usable(gd, input, defs[n]) && Priority(defs[n]) == p {
        assert LatestAt(gd, input, defs, p, n);
      } else {
        LatestIsLatest(gd, input, defs[..n], p);
        assert defs == defs[..n] + [defs[n]];
        if Latest(gd, input, defs[..n], p).Some? {
          var i :| LatestAt(gd, input, defs[..n], p, i) && defs[..n][i] == Latest(gd, input, defs, p).value;
          LatestStays(gd, input, defs[..n], defs[n], p, i);
        }
      }
    }
  }

  lemma LatestStays(gd: GameDef, input: CraftInput, defs: seq<CraftDef>, d: CraftDef, p: nat, i: int)
    requires LatestAt(gd, input, defs, p, i) && !(Usable(gd, input, d) && Priority(d) == p)
    ensures LatestAt(gd, input, defs + [d], p, i)
  {
    hide Usable, Priority;
  }

  /** `r` is the latest usable recipe of the highest priority above that of `best`, or `best` if there is none. */
  ghost predicate IsPick(gd: GameDef, input: CraftInput, defs: seq<CraftDef>, best: Option<CraftDef>, r: Option<CraftDef>) {
    && (forall p :: p > Rank(r) ==> p <= Rank(best) || Latest(gd, input, defs, p).None?)
    && Rank(r) >= Rank(best)
    && (Rank(r) == Rank(best) ==> r == best)
    && (Rank(r) > Rank(best) ==> r == Latest(gd, input, defs, Rank(r)))
  }

  lemma {:induction false} ScanPicks(gd: GameDef, input: CraftInput, defs: seq<CraftDef>, best: Option<CraftDef>)
    ensures IsPick(gd, input, defs, best, Scan(gd, input, defs, best))
    decreases |defs|
  {
    if defs != [] {
      var n := |defs| - 1;
      var last := defs[n];
      var next := if Usable(gd, input, last) && Priority(last) > Rank(best) then Some(last) else best;
      ScanPicks(gd, input, defs[..n], next);
      var r := Scan(gd, input, defs, best);
      forall p ensures Latest(gd, input, defs, p) ==
                       if Usable(gd, input, last) && Priority(last) == p then Some(last) else Latest(gd, input, defs[..n], p)
      {
      }
    }
  }

  /** The pick is determined by the latest recipes of the priorities. */
  lemma PickUnique(gd: GameDef, input: CraftInput, a: seq<CraftDef>, b: seq<CraftDef>)
    requires forall p :: Latest(gd, input, a, p) == Latest(gd, input, b, p)
    ensures Scan(gd, input, a, None) == Scan(gd, input, b, None)
  {
    ScanPicks(gd, input, a, None);
    ScanPicks(gd, input, b, None);
    var x, y := Scan(gd, input, a, None), Scan(gd, input, b, None);
    LatestIsLatest(gd, input, a, Rank(x));
    LatestIsLatest(gd, input, b, Rank(y));
  }

  /** The registration at i is the latest usable one of the highest priority. */
  ghost predicate BestAt(gd: GameDef, input: CraftInput, defs: seq<CraftDef>, i: int) {
    && 0 <= i < |defs| && Usable(gd, input, defs[i])
    && forall j :: 0 <= j < |defs| && Usable(gd, input, defs[j]) ==>
         Priority(defs[j]) < Priority(defs[i]) || (Priority(defs[j]) == Priority(defs[i]) && j <= i)
  }

  /** What a lookup should find. */
  ghost predicate IsBest(gd: GameDef, input: CraftInput, defs: seq<CraftDef>, r: Option<CraftDef>) {
    match r
    case None => forall d :: d in defs ==> !Usable(gd, input, d)
    case Some(def) => exists i :: BestAt(gd, input, defs, i) && defs[i] == def
  }

  /** The scan finds it, */
  lemma ScanIsBest(gd: GameDef, input: CraftInput, defs: seq<CraftDef>)
    ensures IsBest(gd, input, defs, Scan(gd, input, defs, None))
  {
    ScanPicks(gd, input, defs, None);
    var r := Scan(gd, input, defs, None);
    forall d | d in defs && Usable(gd, input, d) ensures Priority(d) <= Rank(r) {
      LatestIsLatest(gd, input, defs, Priority(d));
    }
    if r.Some? {
      LatestIsLatest(gd, input, defs, Rank(r));
      var i :| LatestAt(gd, input, defs, Rank(r), i) && defs[i] == r.value;
      assert BestAt(gd, input, defs, i);
    }
  }

  /** and nothing else is it. */
  lemma BestIsUnique(gd: GameDef, input: CraftInput, defs: seq<CraftDef>, r: Option<CraftDef>, r1: Option<CraftDef>)
    requires IsBest(gd, input, defs, r) && IsBest(gd, input, defs, r1)
    ensures r == r1
  {
    if r.Some? {
      var i :| BestAt(gd, input, defs, i) && defs[i] == r.value;
      assert defs[i] in defs;
    }
    if r1.Some? {
      var i :| BestAt(gd, input, defs, i) && defs[i] == r1.value;
      assert defs[i] in defs;
    }
  }

  ghost function Filter(defs: seq<CraftDef>, keep: CraftDef -> bool): seq<CraftDef> {
    if defs == [] then []
    else
      var n := |defs| - 1;
      Filter(defs[..n], keep) + if keep(defs[n]) then [defs[n]] else []
  }

  lemma FilterSnoc(defs: seq<CraftDef>, d: CraftDef, keep: CraftDef -> bool)
    ensures Filter(defs + [d], keep) == Filter(defs, keep) + if keep(d) then [d] else []
  {
    assert (defs + [d])[..|defs|] == defs;
  }

  lemma {:induction false} FilterKeeps(defs: seq<CraftDef>, keep: CraftDef -> bool)
    ensures forall d :: d in Filter(defs, keep) ==> d in defs
  {
    if defs != [] {
      FilterKeeps(defs[..|defs| - 1], keep);
    }
  }

  lemma {:induction false} FilterConcat(a: seq<CraftDef>, b: seq<CraftDef>, keep: CraftDef -> bool)
    ensures Filter(a + b, keep) == Filter(a, keep) + Filter(b, keep)
    decreases |b|
  {
    if b == [] {
      assert a + b == a;
    } else {
      var n := |b| - 1;
      assert (a + b)[..|a| + n] == a + b[..n];
      FilterConcat(a, b[..n], keep);
    }
  }

  /** Two conditions in a row, and two others that come to the same. */
  lemma {:induction false} FilterTwice(defs: seq<CraftDef>, keep: CraftDef -> bool, then1: CraftDef -> bool,
                                       wide: CraftDef -> bool, then2: CraftDef -> bool)
    requires forall d :: d in defs ==> (keep(d) && then1(d) <==> wide(d) && then2(d))
    ensures Filter(Filter(defs, keep), then1) == Filter(Filter(defs, wide), then2)
    decreases |defs|
  {
    if defs != [] {
      var n := |defs| - 1;
      assert defs[n] in defs;
      FilterTwice(defs[..n], keep, then1, wide, then2);
      FilterSnoc(Filter(defs[..n], keep), defs[n], then1);
      FilterSnoc(Filter(defs[..n], wide), defs[n], then2);
      assert Filter(defs[..n], keep) + [] == Filter(defs[..n], keep);
      assert Filter(defs[..n], wide) + [] == Filter(defs[..n], wide);
    }
  }

  /** Filtering that only loses unusable recipes does not change a scan. */
  lemma {:induction false} ScanFiltered(gd: GameDef, input: CraftInput, defs: seq<CraftDef>,
                                        keep: CraftDef -> bool, best: Option<CraftDef>)
    requires forall d :: d in defs && Usable(gd, input, d) ==> keep(d)
    ensures Scan(gd, input, Filter(defs, keep), best) == Scan(gd, input, defs, best)
    decreases |defs|
  {
    if defs != [] {
      var n := |defs| - 1;
      var last := defs[n];
      var next := if Usable(gd, input, last) && Priority(last) > Rank(best) then Some(last) else best;
      assert last in defs;
      ScanFiltered(gd, input, defs[..n], keep, best);
      ScanFiltered(gd, input, defs[..n], keep, next);
      ScanSnoc(gd, input, Filter(defs[..n], keep), last, best);
    }
  }

  lemma ScanSnoc(gd: GameDef, input: CraftInput, defs: seq<CraftDef>, d: CraftDef, best: Option<CraftDef>)
    ensures Scan(gd, input, defs + [d], best) ==
            Scan(gd, input, defs, if Usable(gd, input, d) && Priority(d) > Rank(best) then Some(d) else best)
    ensures Scan(gd, input, defs + [], best) == Scan(gd, input, defs, best)
  {
    assert (defs + [d])[..|defs|] == defs;
    assert defs + [] == defs;
  }

  lemma {:induction false} ScanConcat(gd: GameDef, input: CraftInput, a: seq<CraftDef>, b: seq<CraftDef>, best: Option<CraftDef>)
    ensures Scan(gd, input, a + b, best) == Scan(gd, input, a, Scan(gd, input, b, best))
    decreases |b|
  {
    if b == [] {
      assert a + b == a;
    } else {
      var n := |b| - 1;
      assert (a + b)[..|a| + n] == a + b[..n];
      ScanConcat(gd, input, a, b[..n], if Usable(gd, input, b[n]) && Priority(b[n]) > Rank(best) then Some(b[n]) else best);
    }
  }

  lemma {:induction false} LatestConcat(gd: GameDef, input: CraftInput, a: seq<CraftDef>, b: seq<CraftDef>, p: nat)
    ensures Latest(gd, input, a + b, p) ==
            if Latest(gd, input, b, p).Some? then Latest(gd, input, b, p) else Latest(gd, input, a, p)
    decreases |b|
  {
    if b == [] {
      assert a + b == a;
    } else {
      var n := |b| - 1;
      assert (a + b)[..|a| + n] == a + b[..n];
      LatestConcat(gd, input, a, b[..n], p);
    }
  }

  lemma {:induction false} LatestFiltered(gd: GameDef, input: CraftInput, defs: seq<CraftDef>, keep: CraftDef -> bool, p: nat)
    ensures (forall d :: d in defs && Usable(gd, input, d) && Priority(d) == p ==> keep(d)) ==>
              Latest(gd, input, Filter(defs, keep), p) == Latest(gd, input, defs, p)
    ensures (forall d :: d in defs && Usable(gd, input, d) && Priority(d) == p ==> !keep(d)) ==>
              Latest(gd, input, Filter(defs, keep), p) == None
    decreases |defs|
  {
    if defs != [] {
      var n := |defs| - 1;
      LatestFiltered(gd, input, defs[..n], keep, p);
      assert defs[n] in defs && forall d :: d in defs[..n] ==> d in defs;
      var f := Filter(defs[..n], keep);
      assert (f + [defs[n]])[..|f|] == f;
      assert f + [] == f;
    }
  }

  ghost function InLayer(gd: GameDef, kind: HashType): CraftDef -> bool {
    d => HashTypeOf(gd, d) == kind
  }

  ghost function InBucket(gd: GameDef, kind: HashType, h: nat): CraftDef -> bool {
    d => HashTypeOf(gd, d) == kind && HashOf(gd, d) == h
  }

  /** What the layers hold of the filed recipes, in the order in which a lookup gives way. */
  ghost function LayerOrder(gd: GameDef, hashed: seq<CraftDef>): seq<CraftDef> {
    Filter(hashed, InLayer(gd, Count)) + Filter(hashed, InLayer(gd, ItemNames))
  }

  /** No recipe leaves a slot to the hand. */
  ghost predicate SlotsNeedItems(gd: GameDef, defs: seq<CraftDef>) {
    forall d :: d in defs ==> !SparesSlot(gd, d)
  }

  ghost function Passing(gd: GameDef, input: CraftInput): CraftDef -> bool {
    d => Passes(gd, d, input)
  }

  /** What a lookup gets to see of the filed recipes: it passes, and is filed under the hash of the input. */
  ghost function Found(gd: GameDef, input: CraftInput): CraftDef -> bool {
    d => Passes(gd, d, input) && HashOf(gd, d) == InputHash(gd, HashTypeOf(gd, d), input)
  }

  /** Everything that is usable is found, if no slot can be left to the hand. */
  lemma FoundIsUsable(gd: GameDef, input: CraftInput, def: CraftDef)
    requires !SparesSlot(gd, def) && Shaped.Named(input.items) && Matches(gd, def, input)
    ensures Found(gd, input)(def) && Passing(gd, input)(def)
  {
    UnsparedEdge(gd, def);
    PassesUnlessSpared(gd, def, input);
    CraftHash.MatchIsProbed(gd, def, input);
  }

  /** Then what is found is scanned as if it were all. */
  lemma FoundScan(gd: GameDef, input: CraftInput, waiting: seq<CraftDef>, hashed: seq<CraftDef>)
    requires SlotsNeedItems(gd, hashed + waiting) && Shaped.Named(input.items)
    ensures Scan(gd, input, Filter(waiting, Passing(gd, input)) + Filter(LayerOrder(gd, hashed), Found(gd, input)), None) ==
            Scan(gd, input, waiting + LayerOrder(gd, hashed), None)
  {
    hide SparesSlot, Matches, OutputKnown, Found, Passing, HashTypeOf;
    PartsNeedItems(gd, hashed, waiting);
    var order := LayerOrder(gd, hashed);
    forall d | d in order ensures d in hashed {
      FilterKeeps(hashed, InLayer(gd, Count));
      FilterKeeps(hashed, InLayer(gd, ItemNames));
    }
    forall d | (d in waiting || d in order) && Usable(gd, input, d) ensures Found(gd, input)(d) && Passing(gd, input)(d) {
      FoundIsUsable(gd, input, d);
    }
    ScanFiltered(gd, input, order, Found(gd, input), None);
    ScanFiltered(gd, input, waiting, Passing(gd, input), Scan(gd, input, order, None));
    ScanConcat(gd, input, waiting, order, None);
    ScanConcat(gd, input, Filter(waiting, Passing(gd, input)), Filter(order, Found(gd, input)), None);
  }

  /** Item strings and the names in them agree on what is a group. */
  ghost predicate GroupsAgree(gd: GameDef, def: CraftDef) {
    match def
    case ShapedDef(_, _, recipe) => forall i :: 0 <= i < |recipe| ==> (IsGroup(recipe[i]) <==> IsGroup(gd.stackName(recipe[i])))
    case ShapelessDef(_, recipe) => forall i :: 0 <= i < |recipe| ==> (IsGroup(recipe[i]) <==> IsGroup(gd.stackName(recipe[i])))
    case ToolRepairDef(_) => true
    case CookingDef(_, cooked) => IsGroup(cooked) <==> IsGroup(gd.stackName(cooked))
    case FuelDef(burnt) => IsGroup(burnt) <==> IsGroup(gd.stackName(burnt))
  }

  lemma SameGroupItems(gd: GameDef, recipe: seq<string>)
    requires forall i :: 0 <= i < |recipe| ==> (IsGroup(recipe[i]) <==> IsGroup(gd.stackName(recipe[i])))
    ensures HasGroupItem(recipe) <==> HasGroupItem(gd.RecipeNames(recipe))
  {
    var names := gd.RecipeNames(recipe);
    if HasGroupItem(recipe) {
      var s :| s in recipe && IsGroup(s);
      var i :| 0 <= i < |recipe| && recipe[i] == s;
      assert names[i] in names;
    }
    if HasGroupItem(names) {
      var s :| s in names && IsGroup(s);
      var i :| 0 <= i < |names| && names[i] == s;
      assert recipe[i] in recipe;
    }
  }

  /** Among recipes for the grid or the furnace the priority decides the layer. */
  lemma PriorityDecidesLayer(gd: GameDef, input: CraftInput, def: CraftDef)
    requires Matches(gd, def, input) && !input.kind.Fuel? && GroupsAgree(gd, def)
    ensures HashTypeOf(gd, def) == if Priority(def) == 3 || Priority(def) == 5 then ItemNames else Count
  {
    match def
    case ShapedDef(_, _, recipe) => SameGroupItems(gd, recipe);
    case ShapelessDef(_, recipe) => SameGroupItems(gd, recipe);
    case ToolRepairDef(_) =>
    case CookingDef(_, _) =>
    case FuelDef(_) =>
  }

  /** The layers give way in the same order as the registrations. */
  lemma LayersKeepOrder(gd: GameDef, input: CraftInput, defs: seq<CraftDef>)
    requires !input.kind.Fuel? && forall d :: d in defs ==> GroupsAgree(gd, d)
    ensures Scan(gd, input, LayerOrder(gd, defs), None) == Scan(gd, input, defs, None)
  {
    var names, counts := Filter(defs, InLayer(gd, ItemNames)), Filter(defs, InLayer(gd, Count));
    forall p ensures Latest(gd, input, LayerOrder(gd, defs), p) == Latest(gd, input, defs, p) {
      LatestConcat(gd, input, counts, names, p);
      LatestFiltered(gd, input, defs, InLayer(gd, ItemNames), p);
      LatestFiltered(gd, input, defs, InLayer(gd, Count), p);
      forall d | d in defs && Usable(gd, input, d) && Priority(d) == p
        ensures InLayer(gd, ItemNames)(d) <==> (p == 3 || p == 5)
        ensures InLayer(gd, Count)(d) <==> !(p == 3 || p == 5)
      {
        PriorityDecidesLayer(gd, input, d);
      }
    }
    PickUnique(gd, input, LayerOrder(gd, defs), defs);
  }

  ghost predicate UsableAt(gd: GameDef, input: CraftInput, defs: seq<CraftDef>, kind: HashType, i: int) {
    0 <= i < |defs| && Usable(gd, input, defs[i]) && HashTypeOf(gd, defs[i]) == kind
  }

  /** Some usable group fuel was registered after every usable exact one, of which there is at least one. */
  ghost predicate GroupFuelComesLast(gd: GameDef, input: CraftInput, defs: seq<CraftDef>) {
    && (exists i :: UsableAt(gd, input, defs, ItemNames, i))
    && exists j :: UsableAt(gd, input, defs, Count, j) && forall i :: UsableAt(gd, input, defs, ItemNames, i) ==> i < j
  }

  lemma OnlyFuel(gd: GameDef, input: CraftInput, def: CraftDef)
    requires input.kind.Fuel? && Usable(gd, input, def)
    ensures Priority(def) == 3 && (HashTypeOf(gd, def) == Count || HashTypeOf(gd, def) == ItemNames)
  {
  }

  lemma GroupFuelIsLatest(gd: GameDef, input: CraftInput, defs: seq<CraftDef>)
    requires input.kind.Fuel?
    ensures GroupFuelComesLast(gd, input, defs) <==>
            && (exists d :: d in defs && Usable(gd, input, d) && HashTypeOf(gd, d) == ItemNames)
            && Latest(gd, input, defs, 3).Some? && HashTypeOf(gd, Latest(gd, input, defs, 3).value) == Count
  {
    hide Usable, Priority, HashTypeOf;
    LatestIsLatest(gd, input, defs, 3);
    forall i | 0 <= i < |defs| && Usable(gd, input, defs[i])
      ensures Priority(defs[i]) == 3 && (HashTypeOf(gd, defs[i]) == Count || HashTypeOf(gd, defs[i]) == ItemNames)
    {
      OnlyFuel(gd, input, defs[i]);
    }
    if exists d :: d in defs && Usable(gd, input, d) && HashTypeOf(gd, d) == ItemNames {
      var d :| d in defs && Usable(gd, input, d) && HashTypeOf(gd, d) == ItemNames;
      var i :| 0 <= i < |defs| && defs[i] == d;
      assert UsableAt(gd, input, defs, ItemNames, i);
      var def := Latest(gd, input, defs, 3).value;
      var j :| LatestAt(gd, input, defs, 3, j) && defs[j] == def;
      assert UsableAt(gd, input, defs, HashTypeOf(gd, def), j);
    }
  }

  /** For fuels the lookup prefers exact recipes, which the scan does only when no group fuel comes last. */
  lemma FuelOrder(gd: GameDef, input: CraftInput, defs: seq<CraftDef>)
    requires input.kind.Fuel?
    ensures Scan(gd, input, LayerOrder(gd, defs), None) == Scan(gd, input, defs, None) <==>
            !GroupFuelComesLast(gd, input, defs)
  {
    var names, counts := Filter(defs, InLayer(gd, ItemNames)), Filter(defs, InLayer(gd, Count));
    hide GroupFuelComesLast;
    GroupFuelIsLatest(gd, input, defs);
    OnlyFuels(gd, input, defs);
    OnlyFuels(gd, input, LayerOrder(gd, defs));
    LatestConcat(gd, input, counts, names, 3);
    LatestOfLayer(gd, input, defs, ItemNames);
    LatestOfLayer(gd, input, defs, Count);
    LatestIsLatest(gd, input, defs, 3);
  }

  lemma OnlyFuels(gd: GameDef, input: CraftInput, defs: seq<CraftDef>)
    requires input.kind.Fuel?
    ensures Scan(gd, input, defs, None) == Latest(gd, input, defs, 3)
  {
    ScanPicks(gd, input, defs, None);
    var r := Scan(gd, input, defs, None);
    LatestIsLatest(gd, input, defs, Rank(r));
    LatestIsLatest(gd, input, defs, 3);
  }

  /** The latest usable fuel of a layer: the latest of all if that is in the layer, and some usable one if any is. */
  lemma {:induction false} LatestOfLayer(gd: GameDef, input: CraftInput, defs: seq<CraftDef>, kind: HashType)
    requires input.kind.Fuel? && kind != Unhashed
    ensures var r := Latest(gd, input, Filter(defs, InLayer(gd, kind)), 3);
            && (r.None? <==> forall d :: d in defs && Usable(gd, input, d) ==> HashTypeOf(gd, d) != kind)
            && (r.Some? ==> HashTypeOf(gd, r.value) == kind)
            && (Latest(gd, input, defs, 3).Some? && HashTypeOf(gd, Latest(gd, input, defs, 3).value) == kind ==>
                  r == Latest(gd, input, defs, 3))
    decreases |defs|
  {
    if defs != [] {
      var n := |defs| - 1;
      LatestOfLayer(gd, input, defs[..n], kind);
      assert defs == defs[..n] + [defs[n]];
      var f := Filter(defs[..n], InLayer(gd, kind));
      assert (f + [defs[n]])[..|f|] == f;
      assert f + [] == f;
    }
  }

  lemma TwoFuels(gd: GameDef, input: CraftInput, exact: CraftDef, group: CraftDef)
    requires input.kind.Fuel?
    requires Usable(gd, input, exact) && Priority(exact) == 3 && HashTypeOf(gd, exact) == ItemNames
    requires Usable(gd, input, group) && Priority(group) == 3 && HashTypeOf(gd, group) == Count
    ensures Scan(gd, input, [exact, group], None) == Some(group)
    ensures Scan(gd, input, LayerOrder(gd, [exact, group]), None) == Some(exact)
  {
    var keep0, keep1 := InLayer(gd, ItemNames), InLayer(gd, Count);
    assert [exact, group] == [] + [exact] + [group] && [] + [exact] == [exact];
    FilterSnoc([], exact, keep0);
    FilterSnoc([exact], group, keep0);
    FilterSnoc([], exact, keep1);
    FilterSnoc([exact], group, keep1);
    assert LayerOrder(gd, [exact, group]) == [group, exact];
    OnlyFuels(gd, input, [exact, group]);
    OnlyFuels(gd, input, [group, exact]);
  }

  /** The lookup of a fuel can differ from the scan: an exact fuel beats a group fuel registered after it. */
  lemma FuelCounterexample() returns (gd: GameDef, input: CraftInput, defs: seq<CraftDef>)
    ensures input.kind.Fuel? && Shaped.Named(input.items)
    ensures defs == [FuelDef("c"), FuelDef("group:g")]
    ensures Scan(gd, input, defs, None) == Some(FuelDef("group:g"))
    ensures Scan(gd, input, LayerOrder(gd, defs), None) == Some(FuelDef("c"))
  {
    var hand, coal := ItemDef(map[], false, 1), ItemDef(map["g" := 1], false, 99);
    var db := ItemDefs(map["" := hand, "c" := coal], map[]);
    gd := GameDef(db, s => s, s => |s|);
    input := CraftInput(Fuel, 1, [ItemStack("c", 1, 0, map[])]);
    defs := [FuelDef("c"), FuelDef("group:g")];
    assert FilledNames(input.items) == ["c"] by {
      assert input.items[1..] == [];
    }
    assert Satisfies(db, "c", "group:g") by {
      assert "group:g"[6..] == "g" && FirstComma("g") == 1 && "g"[..1] == "g";
      assert Split("g") == ["g"];
    }
    TwoFuels(gd, input, defs[0], defs[1]);
  }

  /** What passes in the probed bucket is what is found in the layer. */
  lemma BucketFinds(gd: GameDef, input: CraftInput, hashed: seq<CraftDef>, kind: HashType)
    ensures Filter(Filter(hashed, InBucket(gd, kind, InputHash(gd, kind, input))), Passing(gd, input)) ==
            Filter(Filter(hashed, InLayer(gd, kind)), Found(gd, input))
  {
    hide Passes, HashTypeOf, HashOf, InputHash;
    FilterTwice(hashed, InBucket(gd, kind, InputHash(gd, kind, input)), Passing(gd, input),
                InLayer(gd, kind), Found(gd, input));
  }

  /** Probing the layers one after another equals one scan of what is found in all of them. */
  lemma ThreeLayers(gd: GameDef, input: CraftInput, waiting: seq<CraftDef>, hashed: seq<CraftDef>,
                    best0: Option<CraftDef>, best1: Option<CraftDef>)
    requires best0 == Scan(gd, input, Filter(Filter(hashed, InBucket(gd, ItemNames, InputHash(gd, ItemNames, input))),
                                             Passing(gd, input)), None)
    requires best1 == Scan(gd, input, Filter(Filter(hashed, InBucket(gd, Count, InputHash(gd, Count, input))),
                                             Passing(gd, input)), best0)
    ensures Scan(gd, input, Filter(waiting, Passing(gd, input)), best1) ==
            Scan(gd, input, Filter(waiting, Passing(gd, input)) + Filter(LayerOrder(gd, hashed), Found(gd, input)), None)
  {
    hide Found, Passing;
    BucketFinds(gd, input, hashed, ItemNames);
    BucketFinds(gd, input, hashed, Count);
    var counts, names := Filter(hashed, InLayer(gd, Count)), Filter(hashed, InLayer(gd, ItemNames));
    FilterConcat(counts, names, Found(gd, input));
    ScanConcat(gd, input, Filter(counts, Found(gd, input)), Filter(names, Found(gd, input)), None);
    ScanConcat(gd, input, Filter(waiting, Passing(gd, input)), Filter(counts + names, Found(gd, input)), None);
  }

  lemma PartsNeedItems(gd: GameDef, a: seq<CraftDef>, b: seq<CraftDef>)
    requires SlotsNeedItems(gd, a + b)
    ensures SlotsNeedItems(gd, a) && SlotsNeedItems(gd, b)
  {
    hide SparesSlot;
    assert (forall d :: d in a ==> d in a + b) && forall d :: d in b ==> d in a + b;
  }

  lemma UnsparedEdge(gd: GameDef, def: CraftDef)
    requires !SparesSlot(gd, def)
    ensures !SparesEdge(gd, def)
  {
    if SparesEdge(gd, def) {
      Shaped.SatisfiesBlank(gd.db);
      hide Satisfies, Shaped.GridOf, Shaped.SparesEdge, Shaped.SparesSlot, Shaped.SatisfiesIn, Shaped.BlankForBlank;
      Shaped.SparedEdgeHasSlot(Shaped.SatisfiesIn(gd.db), Shaped.GridOf(gd.RecipeNames(def.recipe), def.width));
    }
  }

  lemma PassesUnlessSpared(gd: GameDef, def: CraftDef, input: CraftInput)
    requires !SparesEdge(gd, def)
    ensures Passes(gd, def, input) <==> Matches(gd, def, input)
  {
    if def.ShapedDef? {
      Shaped.BoxedUnlessSpared(gd.db, input, gd.RecipeNames(def.recipe), def.width);
    }
  }

  /** A recipe that spares a slot is missed by the index on some input for which a scan finds it. */
  lemma SparedSlotIsMissed(gd: GameDef, def: CraftDef) returns (input: CraftInput)
    requires SparesSlot(gd, def) && gd.db.IsKnown(gd.stackName(def.output))
    ensures Shaped.Named(input.items) && Scan(gd, input, [def], None) == Some(def)
    ensures forall kind :: Filter([def], InBucket(gd, kind, InputHash(gd, kind, input))) == []
  {
    input := CraftHash.UnprobedInput(gd, def);
    forall kind ensures Filter([def], InBucket(gd, kind, InputHash(gd, kind, input))) == [] {
      FilterSnoc([], def, InBucket(gd, kind, InputHash(gd, kind, input)));
      assert [] + [def] == [def];
    }
  }

  /** What one recipe does to the scan of those that pass. */
  lemma PassingStep(gd: GameDef, input: CraftInput, defs: seq<CraftDef>, i: nat, best: Option<CraftDef>, ok: bool)
    requires i < |defs| && (ok ==> Matches(gd, defs[i], input))
    requires ok == Passes(gd, defs[i], input)
    ensures var d := defs[i];
            Scan(gd, input, Filter(defs[..i + 1], Passing(gd, input)), best) ==
            Scan(gd, input, Filter(defs[..i], Passing(gd, input)),
                 if ok && OutputKnown(gd, d, input) && Priority(d) > Rank(best) then Some(d) else best)
  {
    hide Passes, Matches, OutputKnown, Priority, Filter, Scan;
    var d, passing := defs[i], Passing(gd, input);
    assert defs[..i + 1] == defs[..i] + [d];
    FilterSnoc(defs[..i], d, passing);
    ScanSnoc(gd, input, Filter(defs[..i], passing), d, best);
  }

  lemma PassesMatches(gd: GameDef, def: CraftDef, input: CraftInput)
    ensures Passes(gd, def, input) ==> Matches(gd, def, input)
  {
    if def.ShapedDef? {
      Shaped.BoxedMatches(gd.db, input, gd.RecipeNames(def.recipe), def.width);
    }
  }

  lemma NothingScanned(gd: GameDef, input: CraftInput, defs: seq<CraftDef>, best: Option<CraftDef>)
    ensures Scan(gd, input, Filter(defs[..0], Passing(gd, input)), best) == best
  {
  }

  /** CCraftDefManager. */
  class CraftManager {
    const gd: GameDef
    // one table per hash type; unhashed recipes wait under hash 0 of the last
    var layers: seq<map<nat, seq<CraftDef>>>
    ghost var hashed: seq<CraftDef>   // in the order of their registration
    ghost var waiting: seq<CraftDef>

    static const KINDS := [ItemNames, Count, Unhashed]

    static function Index(kind: HashType): nat {
      match kind case ItemNames => 0 case Count => 1 case Unhashed => 2
    }

    static function Bucket(layer: map<nat, seq<CraftDef>>, h: nat): seq<CraftDef> {
      if h in layer then layer[h] else []
    }

    static ghost predicate Files(gd: GameDef, layer: map<nat, seq<CraftDef>>, kind: HashType, defs: seq<CraftDef>) {
      forall h :: Bucket(layer, h) == Filter(defs, InBucket(gd, kind, h))
    }

    ghost predicate Valid()
      reads this
    {
      && |layers| == 3
      && Files(gd, layers[0], ItemNames, hashed) && Files(gd, layers[1], Count, hashed)
      && Bucket(layers[2], 0) == waiting && forall h :: h != 0 ==> Bucket(layers[2], h) == []
    }

    constructor (gd: GameDef)
      ensures Valid() && this.gd == gd && hashed == [] && waiting == []
    {
      this.gd := gd;
      layers := [map[], map[], map[]];
      hashed, waiting := [], [];
    }

    /** registerCraft. */
    method RegisterCraft(def: CraftDef)
      requires Valid()
      modifies this
      ensures Valid() && waiting == old(waiting) + [def] && hashed == old(hashed)
    {
      layers := layers[2 := layers[2][0 := Bucket(layers[2], 0) + [def]]];
      waiting := waiting + [def];
      assert forall h :: h != 0 ==> Bucket(layers[2], h) == old(Bucket(layers[2], h));
    }

    /** initHashes: files what is waiting under its hash. */
    method InitHashes()
      requires Valid()
      modifies this
      ensures Valid() && waiting == [] && hashed == old(hashed) + old(waiting)
    {
      hide Files;
      var unhashed := Bucket(layers[2], 0);
      ghost var before := hashed;
      for i := 0 to |unhashed|
        invariant Valid() && waiting == unhashed == old(waiting)
        invariant hashed == before + unhashed[..i]
      {
        var def := unhashed[i];
        FileAway(def);
        assert unhashed[..i + 1] == unhashed[..i] + [def];
      }
      ghost var last := layers[2];
      layers := layers[2 := layers[2][0 := []]];
      waiting := [];
      assert forall h :: h != 0 ==> Bucket(layers[2], h) == Bucket(last, h);
      assert unhashed[..|unhashed|] == unhashed;
    }

    method FileAway(def: CraftDef)
      requires Valid()
      modifies this
      ensures Valid() && waiting == old(waiting) && hashed == old(hashed) + [def]
    {
      var t, h := Index(HashTypeOf(gd, def)), HashOf(gd, def);
      AddFiles(gd, layers[0], hashed, def, ItemNames);
      AddFiles(gd, layers[1], hashed, def, Count);
      assert t != 2;
      layers := layers[t := layers[t][h := Bucket(layers[t], h) + [def]]];
      hashed := hashed + [def];
    }

    static lemma AddFiles(gd: GameDef, layer: map<nat, seq<CraftDef>>, defs: seq<CraftDef>, def: CraftDef, kind: HashType)
      requires Files(gd, layer, kind, defs)
      ensures HashTypeOf(gd, def) == kind ==>
                Files(gd, layer[HashOf(gd, def) := Bucket(layer, HashOf(gd, def)) + [def]], kind, defs + [def])
      ensures HashTypeOf(gd, def) != kind ==> Files(gd, layer, kind, defs + [def])
    {
      forall h ensures Filter(defs + [def], InBucket(gd, kind, h)) ==
                       Filter(defs, InBucket(gd, kind, h)) + if InBucket(gd, kind, h)(def) then [def] else []
      {
        FilterSnoc(defs, def, InBucket(gd, kind, h));
      }
    }

    /** getCraftResult: of the recipes that pass and, unless they wait, are filed under the hash of the input, the best;
        waiting ones of equal priority give way to filed ones, and those to ones without groups.
        If no slot can be left to the hand, it is the best of all. */
    method GetCraftResult(input: CraftInput) returns (best: Option<CraftDef>)
      requires Valid()
      ensures FilledStacks(input.items) == [] ==> best == None
      ensures FilledStacks(input.items) != [] ==>
                best == Scan(gd, input, Filter(waiting, Passing(gd, input))
                                        + Filter(LayerOrder(gd, hashed), Found(gd, input)), None)
      ensures FilledStacks(input.items) != [] && SlotsNeedItems(gd, hashed + waiting) && Shaped.Named(input.items) ==>
                best == Scan(gd, input, waiting + LayerOrder(gd, hashed), None)
    {
      if |FilledStacks(input.items)| == 0 {
        return None;
      }
      assert InputHash(gd, Unhashed, input) == 0;
      hide SlotsNeedItems, Shaped.Named, InputHash, Bucket, LayerOrder, Scan;
      best := Probe(input, 0, None);
      ghost var best0 := best;
      best := Probe(input, 1, best);
      ghost var best1 := best;
      best := Probe(input, 2, best);
      ThreeLayers(gd, input, waiting, hashed, best0, best1);
      if SlotsNeedItems(gd, hashed + waiting) && Shaped.Named(input.items) {
        FoundScan(gd, input, waiting, hashed);
      }
    }

    /** Walks one bucket from back to front. */
    method Probe(input: CraftInput, t: nat, start: Option<CraftDef>) returns (best: Option<CraftDef>)
      requires Valid() && t < 3
      ensures best == Scan(gd, input, Filter(Bucket(layers[t], InputHash(gd, KINDS[t], input)), Passing(gd, input)), start)
    {
      hide SparesEdge, Matches, OutputKnown, Priority, InputHash, Passes, Passing, Filter, Scan;
      var bucket := Bucket(layers[t], InputHash(gd, KINDS[t], input));
      best := start;
      var i := |bucket|;
      assert bucket[..i] == bucket;
      while i > 0
        invariant 0 <= i <= |bucket|
        invariant Scan(gd, input, Filter(bucket[..i], Passing(gd, input)), best) ==
                  Scan(gd, input, Filter(bucket, Passing(gd, input)), start)
      {
        i := i - 1;
        var def := bucket[i];
        ghost var before := best;
        if Priority(def) > Rank(best) {
          var applies := Check(gd, def, input);
          if applies {
            var made := GetOutput(gd, def, input);
            if gd.db.IsKnown(made) {
              best := Some(def);
            }
          }
          PassingStep(gd, input, bucket, i, before, applies);
        } else {
          PassesMatches(gd, def, input);
          PassingStep(gd, input, bucket, i, before, Passes(gd, def, input));
        }
      }
      NothingScanned(gd, input, bucket, best);
    }
  }

  /** After registration and hashing, a lookup finds the best of what it gets to see; if no slot can be left to the hand,
      that is what it should find, except for fuels when a group fuel comes last. */
  method RegisterAndLookUp(gd: GameDef, defs: seq<CraftDef>, input: CraftInput) returns (best: Option<CraftDef>)
    ensures FilledStacks(input.items) == [] ==> best == None
    ensures FilledStacks(input.items) != [] ==> IsBest(gd, input, Filter(LayerOrder(gd, defs), Found(gd, input)), best)
    ensures FilledStacks(input.items) != [] && SlotsNeedItems(gd, defs) && Shaped.Named(input.items) ==>
              (input.kind.Fuel? || forall d :: d in defs ==> GroupsAgree(gd, d)) ==>
                (IsBest(gd, input, defs, best) <==> !(input.kind.Fuel? && GroupFuelComesLast(gd, input, defs)))
  {
    hide IsBest, GroupFuelComesLast, SlotsNeedItems, GroupsAgree, LayerOrder, Found, Passing, Shaped.Named, Scan, Filter,
      CraftManager.Files;
    var manager := new CraftManager(gd);
    for i := 0 to |defs|
      invariant manager.Valid() && manager.gd == gd && fresh(manager)
      invariant manager.waiting == defs[..i] && manager.hashed == []
    {
      manager.RegisterCraft(defs[i]);
    }
    manager.InitHashes();
    assert manager.hashed == defs && manager.hashed + manager.waiting == defs;
    best := manager.GetCraftResult(input);
    if |FilledStacks(input.items)| > 0 {
      NothingWaits(gd, input, defs, best);
    }
  }

  lemma NothingWaits(gd: GameDef, input: CraftInput, defs: seq<CraftDef>, best: Option<CraftDef>)
    requires best == Scan(gd, input, Filter([], Passing(gd, input)) + Filter(LayerOrder(gd, defs), Found(gd, input)), None)
    requires SlotsNeedItems(gd, defs) && Shaped.Named(input.items) ==>
               best == Scan(gd, input, [] + LayerOrder(gd, defs), None)
    ensures IsBest(gd, input, Filter(LayerOrder(gd, defs), Found(gd, input)), best)
    ensures SlotsNeedItems(gd, defs) && Shaped.Named(input.items) ==>
              (input.kind.Fuel? || forall d :: d in defs ==> GroupsAgree(gd, d)) ==>
                (IsBest(gd, input, defs, best) <==> !(input.kind.Fuel? && GroupFuelComesLast(gd, input, defs)))
  {
    hide IsBest, GroupFuelComesLast, SlotsNeedItems, GroupsAgree, LayerOrder, Found, Passing, Shaped.Named, Scan;
    var seen := Filter(LayerOrder(gd, defs), Found(gd, input));
    assert Filter([], Passing(gd, input)) + seen == seen;
    ScanIsBest(gd, input, seen);
    assert [] + LayerOrder(gd, defs) == LayerOrder(gd, defs);
    if input.kind.Fuel? || forall d :: d in defs ==> GroupsAgree(gd, d) {
      LookedUp(gd, input, defs);
    }
  }

  /** What the layers yield compared with what the registrations do. */
  lemma LookedUp(gd: GameDef, input: CraftInput, defs: seq<CraftDef>)
    requires !input.kind.Fuel? ==> forall d :: d in defs ==> GroupsAgree(gd, d)
    ensures IsBest(gd, input, defs, Scan(gd, input, LayerOrder(gd, defs), None)) <==>
            !(input.kind.Fuel? && GroupFuelComesLast(gd, input, defs))
  {
    ScanIsBest(gd, input, defs);
    if input.kind.Fuel? {
      FuelOrder(gd, input, defs);
    } else {
      LayersKeepOrder(gd, input, defs);
    }
    if IsBest(gd, input, defs, Scan(gd, input, LayerOrder(gd, defs), None)) {
      BestIsUnique(gd, input, defs, Scan(gd, input, defs, None), Scan(gd, input, LayerOrder(gd, defs), None));
    }
  }
}
