/** Totals over the slots of an inventory list. */
module SlotSums {
  import opened Items
  import opened Stacks

  type Slots = seq<ItemStack>

  function Blanks(n: nat): (r: Slots)
    ensures |r| == n && forall i :: 0 <= i < n ==> r[i] == NOTHING
  {
    seq(n, _ => NOTHING)
  }

  /** How many items of one kind the slots hold together. */
  function Total(slots: Slots, k: Key): nat {
    if slots == [] then 0 else Total(slots[..|slots| - 1], k) + CountOf(slots[|slots| - 1], k)
  }

  lemma {:induction false} TotalUpdate(slots: Slots, i: nat, s: ItemStack, k: Key)
    requires i < |slots|
    ensures Total(slots[i := s], k) + CountOf(slots[i], k) == Total(slots, k) + CountOf(s, k)
  {
    var n := |slots| - 1;
    if i == n {
      assert slots[i := s][..n] == slots[..n];
    } else {
      assert slots[i := s][..n] == slots[..n][i := s];
      TotalUpdate(slots[..n], i, s, k);
    }
  }

  lemma {:induction false} TotalAtLeast(slots: Slots, i: nat, k: Key)
    requires i < |slots|
    ensures CountOf(slots[i], k) <= Total(slots, k)
  {
    if i < |slots| - 1 {
      TotalAtLeast(slots[..|slots| - 1], i, k);
    }
  }

  ghost predicate AllFit16(slots: Slots) {
    forall i :: 0 <= i < |slots| ==> Fits16(slots[i])
  }

  /** The free space in stacks of the same kind; an empty slot is counted by HasEmpty. */
  function Free(max: StackMax, slots: Slots, k: Key): nat {
    if slots == [] then 0 else Free(max, slots[..|slots| - 1], k) + FreeOf(max, slots[|slots| - 1], k)
  }

  function FreeOf(max: StackMax, s: ItemStack, k: Key): nat {
    if !s.Empty() && KeyOf(s) == k && s.count < max(k.name) then max(k.name) - s.count else 0
  }

  ghost predicate HasEmpty(slots: Slots) {
    exists i :: 0 <= i < |slots| && slots[i].Empty()
  }

  /** The slots have room for all of the item. */
  ghost predicate HasRoom(max: StackMax, slots: Slots, item: ItemStack) {
    HasEmpty(slots) || item.count <= Free(max, slots, KeyOf(item))
  }

  lemma FreeSnoc(max: StackMax, slots: Slots, i: nat, k: Key)
    requires i < |slots|
    ensures Free(max, slots[..i + 1], k) == Free(max, slots[..i], k) + FreeOf(max, slots[i], k)
  {
    assert slots[..i + 1][..i] == slots[..i];
  }

  lemma {:induction false} FreeMonotone(max: StackMax, slots: Slots, i: nat, k: Key)
    requires i <= |slots|
    ensures Free(max, slots[..i], k) <= Free(max, slots, k)
    decreases |slots| - i
  {
    if i == |slots| {
      assert slots[..i] == slots;
    } else {
      FreeSnoc(max, slots, i, k);
      FreeMonotone(max, slots, i + 1, k);
    }
  }

  /** Does a slot count as the item asked for? */
  predicate Matches(s: ItemStack, item: ItemStack, matchMeta: bool) {
    s.name == item.name && (!matchMeta || s.meta == item.meta)
  }

  function MatchCount(s: ItemStack, item: ItemStack, matchMeta: bool): nat {
    if Matches(s, item, matchMeta) then s.count else 0
  }

  /** How many matching items the slots from `from` on hold. */
  function Matching(slots: Slots, item: ItemStack, matchMeta: bool, from: nat): nat
    requires from <= |slots|
    decreases |slots| - from
  {
    if from == |slots| then 0
    else MatchCount(slots[from], item, matchMeta) + Matching(slots, item, matchMeta, from + 1)
  }

  /** How many items of a name the slots hold, whatever their metadata. */
  function TotalNamed(slots: Slots, name: string): nat {
    if slots == [] then 0
    else
      var last := slots[|slots| - 1];
      TotalNamed(slots[..|slots| - 1], name) + if last.name == name then last.count else 0
  }

  /** With metadata, what matches is of the same kind; without, it has the same name. */
  lemma MatchingIsTotal(slots: Slots, item: ItemStack)
    ensures Matching(slots, item, true, 0) == Total(slots, KeyOf(item))
    ensures Matching(slots, item, false, 0) == TotalNamed(slots, item.name)
  {
    MatchingFrom(slots, item, 0);
    assert slots[..0] == [];
  }

  lemma {:induction false} MatchingFrom(slots: Slots, item: ItemStack, from: nat)
    requires from <= |slots|
    ensures Matching(slots, item, true, from) + Total(slots[..from], KeyOf(item)) == Total(slots, KeyOf(item))
    ensures Matching(slots, item, false, from) + TotalNamed(slots[..from], item.name) == TotalNamed(slots, item.name)
    decreases |slots| - from
  {
    if from == |slots| {
      assert slots[..from] == slots;
    } else {
      MatchingFrom(slots, item, from + 1);
      assert slots[..from + 1][..from] == slots[..from];
    }
  }

  lemma {:induction false} MatchingDecreases(slots: Slots, item: ItemStack, matchMeta: bool, i: nat, j: nat)
    requires i <= j <= |slots|
    ensures Matching(slots, item, matchMeta, j) <= Matching(slots, item, matchMeta, i)
    decreases j - i
  {
    if i < j {
      MatchingDecreases(slots, item, matchMeta, i + 1, j);
    }
  }

  lemma {:induction false} MatchingUpdate(slots: Slots, item: ItemStack, matchMeta: bool, i: nat, s: ItemStack, from: nat)
    requires i < |slots| && from <= |slots|
    ensures Matching(slots[i := s], item, matchMeta, from) ==
            Matching(slots, item, matchMeta, from) +
            if from <= i then MatchCount(s, item, matchMeta) - MatchCount(slots[i], item, matchMeta) else 0
    decreases |slots| - from
  {
    if from < |slots| {
      MatchingUpdate(slots, item, matchMeta, i, s, from + 1);
    }
  }
}
