/** The kinds of recipes, when each matches an input, and the hash each is filed under. */
module CraftDefs {
  import opened Items
  import opened Names
  import Shaped
  import Shapeless

  datatype CraftDef =
    | ShapedDef(output: string, width: nat, recipe: seq<string>)
    | ShapelessDef(output: string, recipe: seq<string>)
    | ToolRepairDef(additionalWear: int)  // in units of 1/65536
    | CookingDef(output: string, cooked: string)
    | FuelDef(burnt: string)

  /** What the recipes ask of the game: definitions, the name in an item string, and the string hash. */
  datatype GameDef = GameDef(db: ItemDefs, stackName: string -> string, hash: string -> nat) {
    function RecipeNames(recipe: seq<string>): (r: seq<string>)
      ensures |r| == |recipe| && forall i :: 0 <= i < |r| ==> r[i] == stackName(recipe[i])
    {
      seq(|recipe|, i requires 0 <= i < |recipe| => stackName(recipe[i]))
    }
  }

  function FilledStacks(items: seq<ItemStack>): seq<ItemStack> {
    if items == [] then []
    else (if items[0].Empty() then [] else [items[0]]) + FilledStacks(items[1..])
  }

  lemma {:induction false} FilledStacksJoin(a: seq<ItemStack>, b: seq<ItemStack>)
    ensures FilledStacks(a + b) == FilledStacks(a) + FilledStacks(b)
  {
    if a == [] {
      assert a + b == b;
    } else {
      assert (a + b)[1..] == a[1..] + b;
      FilledStacksJoin(a[1..], b);
    }
  }

  lemma FilledStacksNext(items: seq<ItemStack>, i: nat)
    requires i < |items|
    ensures FilledStacks(items[..i + 1]) == FilledStacks(items[..i]) + if items[i].Empty() then [] else [items[i]]
    ensures |FilledStacks(items[..i + 1])| <= |FilledStacks(items)|
  {
    FilledStacksJoin(items[..i], [items[i]]);
    assert items[..i + 1] == items[..i] + [items[i]];
    FilledStacksJoin(items[..i + 1], items[i + 1..]);
    assert items[..i + 1] + items[i + 1..] == items;
  }

  /** The stacks to be repaired: the first two that are not empty; `more` if there is another one. */
  method TwoStacks(items: seq<ItemStack>) returns (first: ItemStack, second: ItemStack, more: bool)
    ensures var filled := FilledStacks(items);
            && (more <==> |filled| > 2)
            && (if |filled| > 0 then first == filled[0] && first.count > 0 else first == NOTHING)
            && (|filled| <= 2 ==> second == if |filled| == 2 then filled[1] else NOTHING)
  {
    first, second, more := NOTHING, NOTHING, false;
    for i := 0 to |items|
      invariant FilledStacks(items[..i]) ==
                (if first.Empty() then [] else [first]) + (if second.Empty() then [] else [second])
      invariant (first.Empty() ==> first == NOTHING && second.Empty()) && (second.Empty() ==> second == NOTHING)
    {
      FilledStacksNext(items, i);
      if !items[i].Empty() {
        if first.Empty() {
          first := items[i];
        } else if second.Empty() {
          second := items[i];
        } else {
          FilledStacksJoin(items[..i], items[i..]);
          assert items[..i] + items[i..] == items;
          return first, second, true;
        }
      }
    }
    assert items[..|items|] == items;
  }

  /** craftToolRepair. */
  function ToolRepair(db: ItemDefs, a: ItemStack, b: ItemStack, additionalWear: int): ItemStack {
    if a.count != 1 || b.count != 1 || a.name != b.name || !db.IsKnown(a.name)
       || !db.defs[db.GetAlias(a.name)].isTool || db.GroupOf(a.name, "disable_repair") == 1 then NOTHING
    else
      var newUses := (65536 - a.wear) + (65536 - b.wear);
      var newWear := 65536 - newUses + additionalWear;
      if newWear >= 65536 then NOTHING
      else a.(wear := if newWear < 0 then 0 else newWear)
  }

  /** Two tools of a kind that can be repaired, with more uses left between them than the repair costs. */
  predicate Repairs(db: ItemDefs, a: ItemStack, b: ItemStack, additionalWear: int) {
    && a.count == 1 && b.count == 1 && a.name == b.name
    && db.IsKnown(a.name) && db.defs[db.GetAlias(a.name)].isTool
    && (var groups := db.defs[db.GetAlias(a.name)].groups; "disable_repair" in groups ==> groups["disable_repair"] != 1)
    && UsesLeft(a) + UsesLeft(b) > additionalWear
  }

  function UsesLeft(tool: ItemStack): int { 0x10000 - tool.wear }

  /** A repaired tool has the uses of both together less the cost, but no more than a new one. */
  lemma RepairAddsUses(db: ItemDefs, a: ItemStack, b: ItemStack, additionalWear: int)
    ensures var r := ToolRepair(db, a, b, additionalWear);
            && (!r.Empty() <==> Repairs(db, a, b, additionalWear))
            && (r.Empty() ==> r == NOTHING)
            && (!r.Empty() ==>
                  && r == a.(wear := r.wear) && UsesLeft(r) <= 0x10000
                  && UsesLeft(r) <= UsesLeft(a) + UsesLeft(b) - additionalWear
                  && (r.wear == 0 || UsesLeft(r) == UsesLeft(a) + UsesLeft(b) - additionalWear))
  {
  }

  ghost predicate Matches(gd: GameDef, def: CraftDef, input: CraftInput) {
    match def
    case ShapedDef(_, width, recipe) => Shaped.ShapedMatches(gd.db, input, gd.RecipeNames(recipe), width)
    case ShapelessDef(_, recipe) => Shapeless.ShapelessMatches(gd.db, input, gd.RecipeNames(recipe))
    case ToolRepairDef(additionalWear) =>
      var filled := FilledStacks(input.items);
      input.kind.Normal? && |filled| == 2 && Repairs(gd.db, filled[0], filled[1], additionalWear)
    case CookingDef(_, cooked) =>
      var names := FilledNames(input.items);
      input.kind.Cooking? && |names| == 1 && Satisfies(gd.db, names[0], gd.stackName(cooked))
    case FuelDef(burnt) =>
      var names := FilledNames(input.items);
      input.kind.Fuel? && |names| == 1 && Satisfies(gd.db, names[0], gd.stackName(burnt))
  }

  /** The hand can stand in for a slot of the recipe while the others are met. */
  ghost predicate SparesSlot(gd: GameDef, def: CraftDef) {
    def.ShapedDef? && Shaped.SparesSlot(Shaped.SatisfiesIn(gd.db), Shaped.GridOf(gd.RecipeNames(def.recipe), def.width))
  }

  /** The hand can stand in for a whole edge of it. */
  ghost predicate SparesEdge(gd: GameDef, def: CraftDef) {
    def.ShapedDef? && Shaped.SparesEdge(Shaped.SatisfiesIn(gd.db), Shaped.GridOf(gd.RecipeNames(def.recipe), def.width))
  }

  /** It matches, and if it is shaped it does so box onto box. */
  ghost predicate Passes(gd: GameDef, def: CraftDef, input: CraftInput) {
    if def.ShapedDef? then Shaped.ShapedBoxed(gd.db, input, gd.RecipeNames(def.recipe), def.width)
    else Matches(gd, def, input)
  }

  /** CraftDefinition::check. */
  method Check(gd: GameDef, def: CraftDef, input: CraftInput) returns (ok: bool)
    ensures ok <==> Passes(gd, def, input)
    ensures ok ==> Matches(gd, def, input)
    ensures !SparesEdge(gd, def) ==> (ok <==> Matches(gd, def, input))
  {
    match def
    case ShapedDef(_, width, recipe) =>
      ok := Shaped.ShapedCheck(gd.db, input, gd.RecipeNames(recipe), width);
    case ShapelessDef(_, recipe) =>
      var names := gd.RecipeNames(recipe);
      ok := Shapeless.ShapelessCheck(gd.db, input, names, true, Sort(names));
    case ToolRepairDef(additionalWear) =>
      if !input.kind.Normal? {
        return false;
      }
      var first, second, more := TwoStacks(input.items);
      RepairAddsUses(gd.db, first, second, additionalWear);
      ok := !more && !ToolRepair(gd.db, first, second, additionalWear).Empty();
    case CookingDef(_, cooked) =>
      if !input.kind.Cooking? {
        return false;
      }
      ok := SingleCheck(gd, input.items, cooked);
    case FuelDef(burnt) =>
      if !input.kind.Fuel? {
        return false;
      }
      ok := SingleCheck(gd, input.items, burnt);
  }

  /** The check of a recipe of one slot. */
  method SingleCheck(gd: GameDef, items: seq<ItemStack>, slot: string) returns (ok: bool)
    ensures ok <==> |FilledNames(items)| == 1 && Satisfies(gd.db, FilledNames(items)[0], gd.stackName(slot))
  {
    var filtered := Shapeless.FilterEmpty(items);
    if |filtered| != 1 {
      return false;
    }
    ok := InputItemMatchesRecipe(gd.db, filtered[0], gd.stackName(slot));
  }

  /** Whether the crafted item exists. */
  predicate OutputKnown(gd: GameDef, def: CraftDef, input: CraftInput) {
    match def
    case ShapedDef(output, _, _) => gd.db.IsKnown(gd.stackName(output))
    case ShapelessDef(output, _) => gd.db.IsKnown(gd.stackName(output))
    case ToolRepairDef(_) =>
      var filled := FilledStacks(input.items);
      |filled| > 0 && gd.db.IsKnown(filled[0].name)
    case CookingDef(output, _) => gd.db.IsKnown(gd.stackName(output))
    case FuelDef(_) => gd.db.IsKnown(gd.stackName(""))
  }

  /** The item that getOutput names. */
  method GetOutput(gd: GameDef, def: CraftDef, input: CraftInput) returns (name: string)
    requires def.ToolRepairDef? ==> Matches(gd, def, input)
    ensures gd.db.IsKnown(name) <==> OutputKnown(gd, def, input)
  {
    match def
    case ShapedDef(output, _, _) => name := gd.stackName(output);
    case ShapelessDef(output, _) => name := gd.stackName(output);
    case ToolRepairDef(additionalWear) =>
      var first, second, _ := TwoStacks(input.items);
      RepairAddsUses(gd.db, first, second, additionalWear);
      name := ToolRepair(gd.db, first, second, additionalWear).name;
    case CookingDef(output, _) => name := gd.stackName(output);
    case FuelDef(_) => name := gd.stackName("");
  }

  predicate HasGroupItem(recipe: seq<string>) {
    exists s :: s in recipe && IsGroup(s)
  }

  // RecipePriority, from low to high; 0 is "no recipe".
  function Priority(def: CraftDef): (p: nat)
    ensures 1 <= p <= 5
  {
    match def
    case ShapedDef(_, _, recipe) => if HasGroupItem(recipe) then 4 else 5
    case ShapelessDef(_, recipe) => if HasGroupItem(recipe) then 2 else 3
    case ToolRepairDef(_) => 1
    case CookingDef(_, cooked) => if IsGroup(cooked) then 2 else 3
    case FuelDef(_) => 3  // the constructor looks at the recipe name before it is set
  }

  /** One of the slots, as they were registered, asks for a group; of a fuel that is not noticed. */
  ghost predicate AsksForGroup(def: CraftDef) {
    match def
    case ShapedDef(_, _, recipe) => exists i :: 0 <= i < |recipe| && "group:" <= recipe[i]
    case ShapelessDef(_, recipe) => exists i :: 0 <= i < |recipe| && "group:" <= recipe[i]
    case ToolRepairDef(_) => false
    case CookingDef(_, cooked) => "group:" <= cooked
    case FuelDef(_) => false
  }

  /** A repair gives way to anything, anything else to shaped recipes, and those with groups to those without. */
  lemma PriorityOrder(a: CraftDef, b: CraftDef)
    ensures Priority(a) > Priority(b) <==>
            if a.ToolRepairDef? || b.ToolRepairDef? then !a.ToolRepairDef?
            else if a.ShapedDef? != b.ShapedDef? then a.ShapedDef?
            else AsksForGroup(b) && !AsksForGroup(a)
  {
    AskingIsGrouped(a);
    AskingIsGrouped(b);
  }

  lemma AskingIsGrouped(def: CraftDef)
    ensures def.ShapedDef? || def.ShapelessDef? ==> (AsksForGroup(def) <==> HasGroupItem(def.recipe))
  {
    if def.ShapedDef? || def.ShapelessDef? {
      assert forall i :: 0 <= i < |def.recipe| ==> def.recipe[i] in def.recipe;
      assert forall s :: "group:" <= s <==> IsGroup(s);
    }
  }

  datatype HashType = ItemNames | Count | Unhashed

  function HashTypeOf(gd: GameDef, def: CraftDef): HashType {
    match def
    case ShapedDef(_, _, recipe) => if HasGroupItem(gd.RecipeNames(recipe)) then Count else ItemNames
    case ShapelessDef(_, recipe) => if HasGroupItem(gd.RecipeNames(recipe)) then Count else ItemNames
    case ToolRepairDef(_) => Count
    case CookingDef(_, cooked) => if IsGroup(gd.stackName(cooked)) then Count else ItemNames
    case FuelDef(burnt) => if IsGroup(gd.stackName(burnt)) then Count else ItemNames
  }

  function NonEmpty(names: seq<string>): seq<string> {
    if names == [] then []
    else (if names[0] == "" then [] else [names[0]]) + NonEmpty(names[1..])
  }

  /** The non-empty names, one per line. */
  function JoinLines(names: seq<string>): string {
    if names == [] then ""
    else if |names| == 1 then names[0]
    else names[0] + "\n" + JoinLines(names[1..])
  }

  function GridHash(gd: GameDef, kind: HashType, names: seq<string>): nat {
    match kind
    case ItemNames => gd.hash(JoinLines(NonEmpty(names)))
    case Count => |NonEmpty(names)|
    case Unhashed => 0
  }

  function HashOf(gd: GameDef, def: CraftDef): nat {
    var kind := HashTypeOf(gd, def);
    match def
    case ShapedDef(_, _, recipe) => GridHash(gd, kind, Sort(gd.RecipeNames(recipe)))
    case ShapelessDef(_, recipe) => GridHash(gd, kind, Sort(gd.RecipeNames(recipe)))
    case ToolRepairDef(_) => 2
    case CookingDef(_, cooked) => if kind == ItemNames then gd.hash(gd.stackName(cooked)) else 1
    case FuelDef(burnt) => if kind == ItemNames then gd.hash(gd.stackName(burnt)) else 1
  }

  function InputHash(gd: GameDef, kind: HashType, input: CraftInput): nat {
    GridHash(gd, kind, Sort(Shaped.Names(input.items)))
  }
}
