/** Item stacks, item definitions, and how an item name satisfies a recipe slot. */
module Items {
  datatype ItemStack = ItemStack(name: string, count: nat, wear: nat, meta: map<string, string>) {
    predicate Empty() { count == 0 }

    /** The name is empty exactly when the count is 0. */
    predicate WellFormed() { name == "" <==> count == 0 }
  }

  const NOTHING := ItemStack("", 0, 0, map[])

  datatype ItemDef = ItemDef(groups: map<string, int>, isTool: bool, stackMax: nat)

  /** The registered definitions and aliases. */
  datatype ItemDefs = ItemDefs(defs: map<string, ItemDef>, aliases: map<string, string>) {
    function GetAlias(name: string): string {
      if name in aliases then aliases[name] else name
    }

    predicate IsKnown(name: string) { GetAlias(name) in defs }

    function GroupOf(name: string, g: string): int
      requires IsKnown(name)
    {
      var groups := defs[GetAlias(name)].groups;
      if g in groups then groups[g] else 0
    }
  }

  const GROUP_PREFIX := "group:"

  predicate IsGroup(slot: string) { GROUP_PREFIX <= slot }

  /** The position of the first comma, or the length. */
  function FirstComma(s: string): (n: nat)
    ensures n <= |s| && (n < |s| ==> s[n] == ',') && ',' !in s[..n]
  {
    if s == [] || s[0] == ',' then 0
    else
      var n := 1 + FirstComma(s[1..]);
      assert s[..n] == [s[0]] + s[1..][..n - 1];
      n
  }

  /** The comma-separated names; nothing follows a comma at the very end. */
  function Split(s: string): (r: seq<string>)
    ensures |r| > 0 && forall p :: p in r ==> ',' !in p
    decreases |s|
  {
    var n := FirstComma(s);
    [s[..n]] + if n + 1 < |s| then Split(s[n + 1..]) else []
  }

  lemma {:induction false} SplitSingle(s: string)
    requires ',' !in s
    ensures Split(s) == [s]
  {
    assert FirstComma(s) == |s|;
    assert s[..|s|] == s;
  }

  /** The definition has a rating for the group, other than 0. */
  predicate InGroup(db: ItemDefs, name: string, g: string)
    requires db.IsKnown(name)
  {
    var groups := db.defs[db.GetAlias(name)].groups;
    g in groups && groups[g] != 0
  }

  /** An alias is known as what it stands for, and in the same groups. */
  lemma AliasesAreFollowed(db: ItemDefs, name: string, g: string)
    requires name in db.aliases && db.aliases[name] !in db.aliases
    ensures db.IsKnown(name) <==> db.aliases[name] in db.defs
    ensures db.IsKnown(name) ==>
              && (InGroup(db, name, g) <==> InGroup(db, db.aliases[name], g))
              && db.GroupOf(name, g) == db.GroupOf(db.aliases[name], g)
  {
  }

  /** Membership in every group of the comma-separated list. */
  predicate InGroups(db: ItemDefs, name: string, list: string)
    requires db.IsKnown(name)
  {
    forall g :: g in Split(list) ==> InGroup(db, name, g)
  }

  /** Whether an item satisfies a recipe slot: by its exact name, or by being in all groups asked for. */
  predicate Satisfies(db: ItemDefs, name: string, slot: string) {
    || name == slot
    || (IsGroup(slot) && db.IsKnown(name) && InGroups(db, name, slot[6..]))
  }

  lemma FirstGroup(db: ItemDefs, name: string, list: string)
    requires db.IsKnown(name)
    ensures var n := FirstComma(list);
            InGroups(db, name, list) <==>
            InGroup(db, name, list[..n]) && (n + 1 < |list| ==> InGroups(db, name, list[n + 1..]))
  {
    hide InGroup;
    var n := FirstComma(list);
    var all := Split(list);
    assert all[0] == list[..n] && all[0] in all;
    if n + 1 < |list| {
      var rest := Split(list[n + 1..]);
      assert all[1..] == rest;
      forall g ensures g in all <==> g == all[0] || g in rest {
        if g in rest { var i :| 0 <= i < |rest| && rest[i] == g; assert all[i + 1] == g; }
        if g in all { var i :| 0 <= i < |all| && all[i] == g; assert i > 0 ==> rest[i - 1] == g; }
      }
    } else {
      assert all == [list[..n]];
    }
  }

  /** inputItemMatchesRecipe: walks the group list until one is missing. */
  method InputItemMatchesRecipe(db: ItemDefs, name: string, slot: string) returns (ok: bool)
    ensures ok == Satisfies(db, name, slot)
  {
    if name == slot {
      return true;
    }
    if IsGroup(slot) && db.IsKnown(name) {
      var rest := slot[6..];
      while true
        invariant InGroups(db, name, slot[6..]) == InGroups(db, name, rest)
        decreases |rest|
      {
        FirstGroup(db, name, rest);
        var n := FirstComma(rest);
        if db.GroupOf(name, rest[..n]) == 0 {
          return false;
        }
        if n + 1 >= |rest| {
          return true;
        }
        rest := rest[n + 1..];
      }
    }
    return false;
  }

  datatype CraftMethod = Normal | Cooking | Fuel

  datatype CraftInput = CraftInput(kind: CraftMethod, width: nat, items: seq<ItemStack>)

  /** The names of the stacks that have one. */
  function FilledNames(items: seq<ItemStack>): seq<string> {
    if items == [] then []
    else (if items[0].name == "" then [] else [items[0].name]) + FilledNames(items[1..])
  }
}
