/** Every recipe that matches an input is filed under the hash that is probed for that input. */
module CraftHash {
  import opened Items
  import opened Names
  import opened Multisets
  import opened CraftDefs
  import Flat
  import Matching
  import Shaped
  import Shapeless

  // A property of names.
  type Kind = string -> bool

  ghost function Exactly(v: string): Kind { n => n == v }
  ghost function Filled(): Kind { n => n != "" }

  ghost function Places(s: seq<string>, p: Kind): set<nat> {
    set i: nat | i < |s| && p(s[i])
  }

  lemma {:induction false} OccurrencesArePlaces(s: seq<string>, v: string)
    ensures multiset(s)[v] == |Places(s, Exactly(v))|
    decreases |s|
  {
    if s == [] {
      assert Places(s, Exactly(v)) == {};
    } else {
      var rest := s[..|s| - 1];
      assert s == rest + [s[|s| - 1]];
      OccurrencesArePlaces(rest, v);
      PlacesSnoc(rest, s[|s| - 1], Exactly(v));
    }
  }

  lemma PlacesSnoc(s: seq<string>, x: string, p: Kind)
    ensures |Places(s + [x], p)| == |Places(s, p)| + if p(x) then 1 else 0
  {
    var more := s + [x];
    if p(x) {
      assert Places(more, p) == Places(s, p) + {|s|};
    } else {
      assert Places(more, p) == Places(s, p);
    }
  }

  lemma {:induction false} NonEmptySnoc(s: seq<string>, x: string)
    ensures NonEmpty(s + [x]) == NonEmpty(s) + if x == "" then [] else [x]
  {
    if s != [] {
      assert (s + [x])[1..] == s[1..] + [x];
      NonEmptySnoc(s[1..], x);
    }
  }

  lemma {:induction false} NonEmptyPlaces(s: seq<string>)
    ensures |NonEmpty(s)| == |Places(s, Filled())|
    decreases |s|
  {
    if s == [] {
      assert Places(s, Filled()) == {};
    } else {
      var rest := s[..|s| - 1];
      assert s == rest + [s[|s| - 1]];
      NonEmptyPlaces(rest);
      NonEmptySnoc(rest, s[|s| - 1]);
      PlacesSnoc(rest, s[|s| - 1], Filled());
    }
  }

  ghost function Target(aw: nat, bw: nat, dx: int, dy: int, i: nat): nat
    requires bw > 0
  {
    var x, y := i % bw + dx, i / bw + dy;
    if x >= 0 && y >= 0 then Flat.Rows(aw, y) + x else 0
  }

  lemma TargetCell(a: seq<string>, aw: nat, b: seq<string>, bw: nat, dx: int, dy: int, p: Kind, i: nat)
    requires aw > 0 && bw > 0 && !p("") && i in Places(b, p)
    requires forall x, y :: p(Shaped.Cell(b, bw, x, y)) ==> p(Shaped.Cell(a, aw, x + dx, y + dy))
    ensures 0 <= i % bw + dx < aw && 0 <= i / bw + dy
    ensures Target(aw, bw, dx, dy, i) in Places(a, p)
  {
    var x, y := i % bw, i / bw;
    Flat.RowsIsProduct(bw, y);
    assert Shaped.Cell(b, bw, x, y) == b[i];
    assert p(Shaped.Cell(a, aw, x + dx, y + dy));
  }

  lemma SameTarget(a: seq<string>, aw: nat, b: seq<string>, bw: nat, dx: int, dy: int, p: Kind, i: nat, j: nat)
    requires aw > 0 && bw > 0 && !p("") && i in Places(b, p) && j in Places(b, p)
    requires forall x, y :: p(Shaped.Cell(b, bw, x, y)) ==> p(Shaped.Cell(a, aw, x + dx, y + dy))
    requires Target(aw, bw, dx, dy, i) == Target(aw, bw, dx, dy, j)
    ensures i == j
  {
    TargetCell(a, aw, b, bw, dx, dy, p, i);
    TargetCell(a, aw, b, bw, dx, dy, p, j);
    Shaped.RowMajorUnique(aw, i % bw + dx, i / bw + dy, j % bw + dx, j / bw + dy);
    Flat.RowsIsProduct(bw, i / bw);
  }

  /** A translation carries the cells of a kind into cells of that kind, one to one. */
  lemma TranslationInjects(a: seq<string>, aw: nat, b: seq<string>, bw: nat, dx: int, dy: int, p: Kind)
    requires aw > 0 && bw > 0 && !p("")
    requires forall x, y :: p(Shaped.Cell(b, bw, x, y)) ==> p(Shaped.Cell(a, aw, x + dx, y + dy))
    ensures |Places(b, p)| <= |Places(a, p)|
  {
    var f := seq(|b|, i requires 0 <= i < |b| => Target(aw, bw, dx, dy, i));
    forall i | i in Places(b, p)
      ensures f[i] in Places(a, p)
    {
      TargetCell(a, aw, b, bw, dx, dy, p, i);
    }
    forall i, j | i in Places(b, p) && j in Places(b, p) && f[i] == f[j]
      ensures i == j
    {
      SameTarget(a, aw, b, bw, dx, dy, p, i, j);
    }
    Matching.InjectiveImageSize(Places(b, p), f);
    var image := set i | i in Places(b, p) :: f[i];
    Matching.SubsetSize(image, Places(a, p));
  }

  lemma TranslationBijects(a: seq<string>, aw: nat, b: seq<string>, bw: nat, dx: int, dy: int, p: Kind)
    requires aw > 0 && bw > 0 && !p("")
    requires forall x, y :: p(Shaped.Cell(b, bw, x, y)) <==> p(Shaped.Cell(a, aw, x + dx, y + dy))
    ensures |Places(b, p)| == |Places(a, p)|
  {
    TranslationInjects(a, aw, b, bw, dx, dy, p);
    forall x, y | p(Shaped.Cell(a, aw, x, y))
      ensures p(Shaped.Cell(b, bw, x + (-dx), y + (-dy)))
    {
      var u, v := x + (-dx), y + (-dy);
      assert u + dx == x && v + dy == y;
      assert p(Shaped.Cell(b, bw, u, v)) <==> p(Shaped.Cell(a, aw, u + dx, v + dy));
    }
    TranslationInjects(b, bw, a, aw, -dx, -dy, p);
  }

  /** Two sequences of names agree on what is not empty. */
  ghost predicate SameFilled(a: seq<string>, b: seq<string>) {
    forall v :: v != "" ==> multiset(a)[v] == multiset(b)[v]
  }

  lemma {:induction false} NonEmptyContents(s: seq<string>)
    ensures multiset(NonEmpty(s))[""] == 0
    ensures forall v :: v != "" ==> multiset(NonEmpty(s))[v] == multiset(s)[v]
  {
    if s != [] {
      NonEmptyContents(s[1..]);
      assert s == [s[0]] + s[1..];
    }
  }

  lemma {:induction false} NonEmptySorted(s: seq<string>)
    requires Sorted(s)
    ensures Sorted(NonEmpty(s))
  {
    if s != [] {
      NonEmptySorted(s[1..]);
      NonEmptyContents(s[1..]);
      var r := NonEmpty(s[1..]);
      forall j | 0 <= j < |r| ensures !Less(r[j], s[0]) {
        assert r[j] in multiset(r);
        assert r[j] in multiset(s[1..]);
        var k :| 0 <= k < |s[1..]| && s[1..][k] == r[j];
      }
    }
  }

  /** Grids that agree on what is not empty have the same hash of either kind. */
  lemma SameGridHash(gd: GameDef, kind: HashType, a: seq<string>, b: seq<string>)
    requires SameFilled(a, b)
    ensures GridHash(gd, kind, Sort(a)) == GridHash(gd, kind, Sort(b))
  {
    hide NonEmpty, Sort, JoinLines, Sorted;
    SortSorted(a);
    SortSorted(b);
    NonEmptySorted(Sort(a));
    NonEmptySorted(Sort(b));
    NonEmptyContents(Sort(a));
    NonEmptyContents(Sort(b));
    var x, y := NonEmpty(Sort(a)), NonEmpty(Sort(b));
    forall v ensures multiset(x)[v] == multiset(y)[v] {
    }
    SortedUnique(x, y);
  }

  lemma {:induction false} FilledIsNonEmpty(items: seq<ItemStack>)
    ensures FilledNames(items) == NonEmpty(Shaped.Names(items))
  {
    if items != [] {
      FilledIsNonEmpty(items[1..]);
      assert Shaped.Names(items)[1..] == Shaped.Names(items[1..]);
    }
  }

  lemma SortedCount(names: seq<string>)
    ensures multiset(NonEmpty(Sort(names))) == multiset(NonEmpty(names))
    ensures |NonEmpty(Sort(names))| == |NonEmpty(names)|
  {
    hide NonEmpty, Sort;
    NonEmptyContents(names);
    NonEmptyContents(Sort(names));
    var x, y := NonEmpty(Sort(names)), NonEmpty(names);
    assert multiset(x) == multiset(y);
    assert |x| == |multiset(x)| && |y| == |multiset(y)|;
  }

  /** A covered grid has a name in a cell exactly when the recipe has, unless the recipe can spare a slot. */
  lemma CoveredCell(sat: Shaped.Relation, inp: Shaped.Grid, rec: Shaped.Grid, dx: int, dy: int, x: int, y: int)
    requires Shaped.BlankForBlank(sat) && Shaped.Covers(sat, inp, rec, dx, dy)
    requires !Shaped.Blank(inp) && !Shaped.SparesSlot(sat, rec)
    ensures rec(x, y) != "" <==> inp(x + dx, y + dy) != ""
  {
    assert Shaped.CellFits(sat, inp, rec, dx, dy, x, y);
    if rec(x, y) != "" && inp(x + dx, y + dy) == "" {
      Shaped.MetElsewhere(sat, inp, rec, dx, dy, (x, y));
    }
  }

  /** A recipe and an input that it covers, of any widths. */
  ghost predicate Covered(gd: GameDef, inp: seq<string>, iw: nat, rec: seq<string>, rw: nat, dx: int, dy: int) {
    && iw > 0 && rw > 0 && !Shaped.Blank(Shaped.GridOf(inp, iw))
    && !Shaped.SparesSlot(Shaped.SatisfiesIn(gd.db), Shaped.GridOf(rec, rw))
    && Shaped.Covers(Shaped.SatisfiesIn(gd.db), Shaped.GridOf(inp, iw), Shaped.GridOf(rec, rw), dx, dy)
  }

  /** Without group slots the covered grid holds exactly the recipe's names. */
  lemma ShapedSameNames(gd: GameDef, inp: seq<string>, iw: nat, rec: seq<string>, rw: nat, dx: int, dy: int)
    requires Covered(gd, inp, iw, rec, rw, dx, dy) && !HasGroupItem(rec)
    ensures SameFilled(inp, rec)
  {
    hide Covered;
    forall v | v != "" ensures multiset(inp)[v] == multiset(rec)[v] {
      OccurrencesArePlaces(inp, v);
      OccurrencesArePlaces(rec, v);
      SameNamePlaces(gd, inp, iw, rec, rw, dx, dy, v);
    }
  }

  lemma SameNamePlaces(gd: GameDef, inp: seq<string>, iw: nat, rec: seq<string>, rw: nat, dx: int, dy: int, v: string)
    requires Covered(gd, inp, iw, rec, rw, dx, dy) && !HasGroupItem(rec) && v != ""
    ensures |Places(inp, Exactly(v))| == |Places(rec, Exactly(v))|
  {
    var p := Exactly(v);
    var a, b := Shaped.GridOf(inp, iw), Shaped.GridOf(rec, rw);
    forall x, y
      ensures p(Shaped.Cell(rec, rw, x, y)) <==> p(Shaped.Cell(inp, iw, x + dx, y + dy))
    {
      CoveredCell(Shaped.SatisfiesIn(gd.db), a, b, dx, dy, x, y);
      assert Shaped.CellFits(Shaped.SatisfiesIn(gd.db), a, b, dx, dy, x, y);
      assert b(x, y) == "" || b(x, y) in rec;
    }
    TranslationBijects(inp, iw, rec, rw, dx, dy, p);
  }

  /** In any case it holds as many filled cells. */
  lemma ShapedSameCount(gd: GameDef, inp: seq<string>, iw: nat, rec: seq<string>, rw: nat, dx: int, dy: int)
    requires Covered(gd, inp, iw, rec, rw, dx, dy)
    ensures |NonEmpty(inp)| == |NonEmpty(rec)|
  {
    hide NonEmpty, Places;
    NonEmptyPlaces(inp);
    NonEmptyPlaces(rec);
    assert forall x, y :: Filled()(Shaped.Cell(rec, rw, x, y)) <==> Filled()(Shaped.Cell(inp, iw, x + dx, y + dy)) by {
      FilledTogether(gd, inp, iw, rec, rw, dx, dy);
    }
    TranslationBijects(inp, iw, rec, rw, dx, dy, Filled());
  }

  lemma FilledTogether(gd: GameDef, inp: seq<string>, iw: nat, rec: seq<string>, rw: nat, dx: int, dy: int)
    requires Covered(gd, inp, iw, rec, rw, dx, dy)
    ensures forall x, y :: Shaped.Cell(rec, rw, x, y) != "" <==> Shaped.Cell(inp, iw, x + dx, y + dy) != ""
  {
    forall x, y
      ensures Shaped.Cell(rec, rw, x, y) != "" <==> Shaped.Cell(inp, iw, x + dx, y + dy) != ""
    {
      CoveredCell(Shaped.SatisfiesIn(gd.db), Shaped.GridOf(inp, iw), Shaped.GridOf(rec, rw), dx, dy, x, y);
    }
  }

  /** Without group slots a shapeless recipe takes exactly its own names. */
  lemma ShapelessSameNames(db: ItemDefs, items: seq<string>, slots: seq<string>, m: seq<nat>)
    requires Shapeless.Assignment(db, items, slots, m)
    ensures !HasGroupItem(slots) ==> multiset(items) == multiset(slots)
    ensures "" !in items ==> NonEmpty(slots) == slots
  {
    if !HasGroupItem(slots) {
      PermutedContents(slots, m, items);
    }
    if "" !in items {
      forall j | 0 <= j < |slots| ensures slots[j] != "" {
        var i := Preimage(m, |slots|, j);
        assert Satisfies(db, items[i], slots[m[i]]);
        assert items[i] in items;
      }
      AllFilled(slots);
    }
  }

  lemma Preimage(m: seq<nat>, n: nat, j: nat) returns (i: nat)
    requires Permutes(m, n) && j < n
    ensures i < n && m[i] == j
  {
    DistinctSize(m);
    Matching.RangeSize(Elements(m), n);
    assert j in Elements(m);
    i :| 0 <= i < |m| && m[i] == j;
  }

  ghost function Elements(m: seq<nat>): set<nat> {
    set k | k in m
  }

  lemma {:induction false} DistinctSize(m: seq<nat>)
    requires forall i, j :: 0 <= i < j < |m| ==> m[i] != m[j]
    ensures |Elements(m)| == |m|
    decreases |m|
  {
    if m != [] {
      var rest, last := m[..|m| - 1], m[|m| - 1];
      DistinctSize(rest);
      assert m == rest + [last];
      assert last !in rest;
      assert Elements(m) == Elements(rest) + {last};
    }
  }

  lemma {:induction false} AllFilled(s: seq<string>)
    requires forall j :: 0 <= j < |s| ==> s[j] != ""
    ensures NonEmpty(s) == s
  {
    if s != [] {
      AllFilled(s[1..]);
    }
  }

  lemma {:induction false} FilledStacksCount(items: seq<ItemStack>)
    requires forall i :: 0 <= i < |items| ==> items[i].WellFormed()
    ensures |FilledStacks(items)| == |FilledNames(items)|
    ensures "" !in FilledNames(items)
  {
    if items != [] {
      FilledStacksCount(items[1..]);
    }
  }

  /** A matching recipe is found where the index looks for it. */
  lemma MatchIsProbed(gd: GameDef, def: CraftDef, input: CraftInput)
    requires !SparesSlot(gd, def) && Matches(gd, def, input) && Shaped.Named(input.items)
    ensures HashOf(gd, def) == InputHash(gd, HashTypeOf(gd, def), input)
  {
    var inp := Shaped.Names(input.items);
    var kind := HashTypeOf(gd, def);
    FilledIsNonEmpty(input.items);
    FilledStacksCount(input.items);
    SortedCount(inp);
    match def
    case ShapedDef(_, width, recipe) =>
      ShapedIsProbed(gd, def, input);
    case ShapelessDef(_, recipe) =>
      var rec := gd.RecipeNames(recipe);
      var m :| Shapeless.Assignment(gd.db, FilledNames(input.items), rec, m);
      ShapelessSameNames(gd.db, FilledNames(input.items), rec, m);
      SortedCount(rec);
      if kind == ItemNames {
        NonEmptyContents(inp);
        SameGridHash(gd, kind, inp, rec);
      }
    case ToolRepairDef(_) =>
    case CookingDef(_, cooked) =>
      OneName(inp);
    case FuelDef(_) =>
      OneName(inp);
  }

  lemma ShapedIsProbed(gd: GameDef, def: CraftDef, input: CraftInput)
    requires def.ShapedDef? && !SparesSlot(gd, def) && Matches(gd, def, input)
    ensures HashOf(gd, def) == InputHash(gd, HashTypeOf(gd, def), input)
  {
    var inp, rec, kind := Shaped.Names(input.items), gd.RecipeNames(def.recipe), HashTypeOf(gd, def);
    var sat, a, b := Shaped.SatisfiesIn(gd.db), Shaped.GridOf(inp, input.width), Shaped.GridOf(rec, def.width);
    var dx, dy :| Shaped.Covers(sat, a, b, dx, dy);
    assert Covered(gd, inp, input.width, rec, def.width, dx, dy);
    hide Covered;
    SortedCount(inp);
    SortedCount(rec);
    ShapedSameCount(gd, inp, input.width, rec, def.width, dx, dy);
    if kind == ItemNames {
      ShapedSameNames(gd, inp, input.width, rec, def.width, dx, dy);
      SameGridHash(gd, kind, inp, rec);
    }
  }

  /** Exactly the recipes that can spare a slot have an input that they match and are not found for. */
  lemma ProbingIsExact(gd: GameDef, def: CraftDef)
    ensures (forall input: CraftInput :: Shaped.Named(input.items) && Matches(gd, def, input) ==>
               HashOf(gd, def) == InputHash(gd, HashTypeOf(gd, def), input)) <==>
            !SparesSlot(gd, def)
  {
    if SparesSlot(gd, def) {
      var input := UnprobedInput(gd, def);
    } else {
      forall input: CraftInput | Shaped.Named(input.items) && Matches(gd, def, input)
        ensures HashOf(gd, def) == InputHash(gd, HashTypeOf(gd, def), input)
      {
        MatchIsProbed(gd, def, input);
      }
    }
  }

  /** The input that leaves the spared slot blank has fewer names than the recipe is filed under. */
  lemma UnprobedInput(gd: GameDef, def: CraftDef) returns (input: CraftInput)
    requires SparesSlot(gd, def)
    ensures Shaped.Named(input.items) && Matches(gd, def, input) && HashTypeOf(gd, def) == Count
    ensures HashOf(gd, def) != InputHash(gd, HashTypeOf(gd, def), input)
  {
    hide NonEmpty, HashOf, InputHash;
    var k;
    input, k := Shaped.SparedInput(gd.db, gd.RecipeNames(def.recipe), def.width);
    assert gd.RecipeNames(def.recipe)[k] in gd.RecipeNames(def.recipe);
    FewerFilled(Shaped.Names(input.items), gd.RecipeNames(def.recipe), k);
    CountsDiffer(gd, def, input);
  }

  lemma CountsDiffer(gd: GameDef, def: CraftDef, input: CraftInput)
    requires def.ShapedDef? && HashTypeOf(gd, def) == Count
    requires |NonEmpty(Shaped.Names(input.items))| < |NonEmpty(gd.RecipeNames(def.recipe))|
    ensures HashOf(gd, def) != InputHash(gd, Count, input)
  {
    hide NonEmpty, Sort, HashTypeOf;
    SortedCount(Shaped.Names(input.items));
    SortedCount(gd.RecipeNames(def.recipe));
  }

  lemma FewerFilled(inp: seq<string>, rec: seq<string>, k: nat)
    requires |inp| == |rec| && k < |rec| && inp[k] == "" && rec[k] != ""
    requires forall i :: 0 <= i < |inp| && inp[i] != "" ==> rec[i] != ""
    ensures |NonEmpty(inp)| < |NonEmpty(rec)|
  {
    hide NonEmpty;
    var filled := Filled();
    NonEmptyPlaces(inp);
    NonEmptyPlaces(rec);
    assert Places(inp, filled) <= Places(rec, filled) - {k} && k in Places(rec, filled);
    Matching.SubsetSize(Places(inp, filled), Places(rec, filled) - {k});
  }

  /** What is written one to a line. */
  ghost predicate Writable(names: seq<string>) {
    forall i :: 0 <= i < |names| ==> names[i] != "" && '\n' !in names[i]
  }

  /** Names without line breaks can be told from their lines. */
  lemma {:induction false} LinesTellNames(a: seq<string>, b: seq<string>)
    requires Writable(a) && Writable(b) && JoinLines(a) == JoinLines(b)
    ensures a == b
  {
    var t := JoinLines(a);
    if a != [] {
      FirstLine(a);
    }
    if b != [] {
      FirstLine(b);
    }
    if a != [] && b != [] {
      if |a[0]| < |b[0]| {
        assert false;
      } else if |b[0]| < |a[0]| {
        assert false;
      } else {
        assert a[0] == t[..|a[0]|] == b[0];
        if |a| > 1 && |b| > 1 {
          LinesTellNames(a[1..], b[1..]);
        }
      }
    }
  }

  lemma FirstLine(names: seq<string>)
    requires names != []
    ensures var t := JoinLines(names);
            && |t| >= |names[0]| && t[..|names[0]|] == names[0]
            && (|names| == 1 ==> t == names[0])
            && (|names| > 1 ==> |t| > |names[0]| && t[|names[0]|] == '\n' && t[|names[0]| + 1..] == JoinLines(names[1..]))
  {
  }

  lemma OneName(names: seq<string>)
    requires |NonEmpty(names)| == 1
    ensures JoinLines(NonEmpty(Sort(names))) == NonEmpty(names)[0]
  {
    hide NonEmpty, Sort;
    SortedCount(names);
    Singleton(NonEmpty(Sort(names)), NonEmpty(names));
  }

  lemma Singleton(x: seq<string>, y: seq<string>)
    requires multiset(x) == multiset(y) && |x| == 1 && |y| == 1
    ensures x[0] == y[0]
  {
    assert x[0] in multiset(y);
  }
}
