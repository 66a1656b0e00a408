/** Inventory lists: slots that stacks are added to, taken from and moved between. */
module InventoryLists {
  import opened Items
  import opened Options
  import opened Stacks
  import opened SlotSums

  // What a list shows to the outside.
  datatype ListData = ListData(name: string, width: nat, items: Slots)

  /** Adding `item` turned slots `a` into `b`: matching stacks first, from the front, then the first empty slot. */
  ghost predicate Merged(max: StackMax, a: Slots, b: Slots, item: ItemStack) {
    && |a| == |b|
    && forall j :: 0 <= j < |a| ==>
        b[j] == a[j] || (if a[j].Empty() then Opened(max, a, b, item, j) else Grown(max, a, b, item, j))
  }

  /** A matching stack grew, up to its maximum at most; the matching stacks before it are full. */
  ghost predicate Grown(max: StackMax, a: Slots, b: Slots, item: ItemStack, j: nat)
    requires j < |a| == |b|
  {
    && KeyOf(a[j]) == KeyOf(b[j]) == KeyOf(item) && a[j].wear == b[j].wear && a[j].count < b[j].count <= max(b[j].name)
    && AllFull(max, a, b, KeyOf(item), j)
  }

  /** The first empty slot was used; all matching stacks are full. */
  ghost predicate Opened(max: StackMax, a: Slots, b: Slots, item: ItemStack, j: nat)
    requires j < |a| == |b|
  {
    && KeyOf(b[j]) == KeyOf(item) && b[j].wear == item.wear
    && (forall i :: 0 <= i < j ==> !a[i].Empty())
    && AllFull(max, a, b, KeyOf(item), |b|)
  }

  /** Of the first `n` slots, those that held this kind of item before are full. */
  ghost predicate AllFull(max: StackMax, a: Slots, b: Slots, k: Key, n: nat)
    requires n <= |a| == |b|
  {
    forall i :: 0 <= i < n && !a[i].Empty() && KeyOf(a[i]) == k ==> b[i].count >= max(k.name)
  }

  // What a move makes of its two slots, what it moved, and whether it swapped.
  datatype Outcome = Outcome(src: ItemStack, dst: Option<ItemStack>, moved: ItemStack, didSwap: bool)

  /** How many items a move asks for. */
  function Wanted(s: ItemStack, count: nat): nat {
    if count == 0 || s.count < count then s.count else count
  }

  /** How many of the wanted items the destination takes; none if it is no slot of the list. */
  function Fitting(max: StackMax, s: ItemStack, d: Option<ItemStack>, count: nat): nat {
    if d.None? then 0 else Capacity(max, d.value, s.(count := Wanted(s, count)))
  }

  function Less(s: ItemStack, n: nat): ItemStack
    requires n <= s.count
  {
    if s.count == n then NOTHING else s.(count := s.count - n)
  }

  /** What moveItem should do with a slot `s` of which it takes `taken`, given the destination slot `d`. */
  function Settled(max: StackMax, s: ItemStack, d: Option<ItemStack>, taken: ItemStack, swap: bool): Outcome
    requires Fits16(s) && (d.Some? ==> Fits16(d.value)) && taken.count <= s.count
  {
    var fit := if d.None? then 0 else Capacity(max, d.value, taken);
    if fit == 0 && swap then
      (match d
       case None => Outcome(s, d, s, true)
       case Some(other) => Outcome(other, Some(s), s, true))
    else
      Outcome(Less(s, fit), if d.None? then None else Some(AddItem(max, d.value, taken).0), Less(s, s.count - fit), false)
  }

  function Move(max: StackMax, s: ItemStack, d: Option<ItemStack>, count: nat, swap: bool): Outcome
    requires Fits16(s) && (d.Some? ==> Fits16(d.value)) && s.count > 0
  {
    Settled(max, s, d, s.(count := Wanted(s, count)), swap)
  }

  function Part(s: Option<ItemStack>, k: Key): nat {
    match s case None => 0 case Some(x) => CountOf(x, k)
  }

  /** A move keeps every kind's total over its two slots, and overflows neither. */
  lemma MoveConserves(max: StackMax, s: ItemStack, d: Option<ItemStack>, count: nat, swap: bool)
    requires Fits16(s) && (d.Some? ==> Fits16(d.value)) && s.count > 0
    ensures var o := Move(max, s, d, count, swap);
            && Fits16(o.src) && (o.dst.Some? <==> d.Some?) && (o.dst.Some? ==> Fits16(o.dst.value))
            && (forall k :: CountOf(o.src, k) + Part(o.dst, k) == CountOf(s, k) + Part(d, k))
            && (o.didSwap <==> swap && Fitting(max, s, d, count) == 0)
  {
    if d.Some? {
      AddItemConserves(max, d.value, s.(count := Wanted(s, count)));
    }
  }

  class InventoryList {
    var items: Slots
    var name: string
    var width: nat
    var dirty: bool
    const max: StackMax

    ghost predicate Valid()
      reads this
    {
      AllFit16(items)
    }

    function Data(): ListData
      reads this
    {
      ListData(name, width, items)
    }

    /** A list that is not marked as modified has not changed. */
    twostate predicate Tracked()
      reads this
    {
      !dirty ==> !old(dirty) && Data() == old(Data())
    }

    constructor (name: string, size: nat, max: StackMax)
      ensures Valid() && Data() == ListData(name, 0, Blanks(size)) && dirty && this.max == max
    {
      this.name, this.max, width, dirty := name, max, 0, true;
      items := Blanks(size);
    }

    method ClearItems()
      modifies this`items, this`dirty
      ensures Valid() && Tracked() && items == Blanks(|old(items)|) && dirty
    {
      items := Blanks(|items|);
      dirty := true;
    }

    method SetSize(size: nat)
      requires Valid()
      modifies this`items, this`dirty
      ensures Valid() && Tracked() && items == Resized(old(items), size)
    {
      if size != |items| {
        items := Resized(items, size);
        dirty := true;
      }
    }

    method SetWidth(width: nat)
      modifies this`width, this`dirty
      ensures Tracked() && this.width == width
    {
      this.width := width;
      dirty := true;
    }

    method DeleteItem(i: nat)
      requires Valid() && i < |items|
      modifies this`items, this`dirty
      ensures Valid() && Tracked() && items == old(items)[i := NOTHING]
    {
      items := items[i := NOTHING];
      dirty := true;
    }

    method ChangeItem(i: nat, item: ItemStack) returns (before: ItemStack)
      requires Valid() && Fits16(item)
      modifies this`items, this`dirty
      ensures Valid() && Tracked()
      ensures if i < |old(items)| then before == old(items)[i] && items == old(items)[i := item]
              else before == item && items == old(items)
    {
      if i >= |items| {
        return item;
      }
      before := items[i];
      if before != item {
        items := items[i := item];
        dirty := true;
      }
    }

    /** addItem for one slot. */
    method AddItemAt(i: nat, item: ItemStack) returns (left: ItemStack)
      requires Valid() && Fits16(item)
      modifies this`items, this`dirty
      ensures Valid() && Tracked() && Fits16(left)
      ensures if i < |old(items)|
              then items == old(items)[i := Stacks.AddItem(max, old(items)[i], item).0]
                   && left == Stacks.AddItem(max, old(items)[i], item).1
              else items == old(items) && left == item
    {
      if i >= |items| {
        return item;
      }
      AddItemConserves(max, items[i], item);
      var (after, rest) := Stacks.AddItem(max, items[i], item);
      items := items[i := after];
      left := rest;
      if left != item {
        dirty := true;
      }
    }

    method TakeItemAt(i: nat, n: nat) returns (taken: ItemStack)
      requires Valid()
      modifies this`items, this`dirty
      ensures Valid() && Tracked() && Fits16(taken)
      ensures if i < |old(items)|
              then items == old(items)[i := TakeItem(old(items)[i], n).0] && taken == TakeItem(old(items)[i], n).1
              else items == old(items) && taken == NOTHING
    {
      if i >= |items| {
        return NOTHING;
      }
      TakeItemConserves(items[i], n);
      var (after, part) := TakeItem(items[i], n);
      items := items[i := after];
      taken := part;
      if !taken.Empty() {
        dirty := true;
      }
    }

    /** addItem: stacks of the same kind are filled up first, then the first empty slot takes the rest. */
    method AddItem(item: ItemStack) returns (left: ItemStack)
      requires Valid() && Fits16(item)
      modifies this`items, this`dirty
      ensures Valid() && Tracked()
      ensures left.Empty() <==> HasRoom(max, old(items), item)
      ensures left.count > 0 ==>
                left.count == item.count - Free(max, old(items), KeyOf(item))
                && KeyOf(left) == KeyOf(item) && left.wear == item.wear
      ensures forall k :: Total(items, k) + CountOf(left, k) == Total(old(items), k) + CountOf(item, k)
      ensures Merged(max, old(items), items, item)
      // no stack outgrows its maximum, and something is left only when none of the kind is below it and no slot is empty
      ensures forall j :: 0 <= j < |old(items)| && !old(items)[j].Empty() && old(items)[j].count <= max(old(items)[j].name) ==>
                items[j].count <= max(items[j].name)
      ensures left.count > 0 ==> forall j :: 0 <= j < |items| ==>
                !items[j].Empty() && (KeyOf(items[j]) == KeyOf(item) ==> items[j].count >= max(item.name))
    {
      left := item;
      if item.Empty() {
        return;
      }
      left := FillStacks(item);
      if left.Empty() {
        return;
      }
      left := FillEmpty(item, left, old(items));
    }

    /** The first loop of addItem. */
    method FillStacks(item: ItemStack) returns (left: ItemStack)
      requires Valid() && Fits16(item) && !item.Empty()
      modifies this`items, this`dirty
      ensures Valid() && Tracked() && Fits16(left) && |items| == |old(items)|
      ensures left.Empty() <==> item.count <= Free(max, old(items), KeyOf(item))
      ensures left.count > 0 ==>
                left.count == item.count - Free(max, old(items), KeyOf(item))
                && KeyOf(left) == KeyOf(item) && left.wear == item.wear
                && AllFull(max, old(items), items, KeyOf(item), |items|)
      ensures forall k :: Total(items, k) + CountOf(left, k) == Total(old(items), k) + CountOf(item, k)
      ensures forall j :: 0 <= j < |items| ==>
                items[j] == old(items)[j] || (!old(items)[j].Empty() && Grown(max, old(items), items, item, j))
    {
      hide Stacks.AddItem, Total, FreeSpace, Seen, Filled, Grown, AllFull;
      left := item;
      ghost var a, k0 := items, KeyOf(item);
      NothingFilled(max, a, item);
      for i := 0 to |items|
        invariant Valid() && Tracked() && Fits16(left) && |items| == |a|
        invariant left.count > 0 && KeyOf(left) == k0 && left.wear == item.wear
        invariant left.count == item.count - Free(max, a[..i], k0)
        invariant forall k :: Total(items, k) + CountOf(left, k) == Total(a, k) + CountOf(item, k)
        invariant forall j :: i <= j < |a| ==> items[j] == a[j]
        invariant Seen(max, a, items, item) && Filled(max, a, items, item, i)
      {
        ghost var b, before := items, left;
        FreeSnoc(max, a, i, k0);
        if items[i].Empty() {
          FilledStep(max, a, b, items, item, i);
          FullStep(max, a, b, items, item, i);
          continue;
        }
        AddItemConserves(max, items[i], left);
        left := AddItemAt(i, left);
        TotalMoved(a, b, items, i, item, before, left);
        FilledStep(max, a, b, items, item, i);
        if left.Empty() {
          FreeMonotone(max, a, i + 1, k0);
          FilledIs(max, a, items, item, i);
          return;
        }
        FullStep(max, a, b, items, item, i);
      }
      assert a[..|a|] == a;
      FilledIs(max, a, items, item, |a|);
    }

    /** The second loop of addItem. */
    method FillEmpty(item: ItemStack, rest: ItemStack, ghost a: Slots) returns (left: ItemStack)
      requires Valid() && Fits16(rest) && !rest.Empty() && KeyOf(rest) == KeyOf(item) && rest.wear == item.wear
      requires |a| == |items| && AllFull(max, a, items, KeyOf(item), |items|)
      requires forall j :: 0 <= j < |items| ==>
                 items[j] == a[j] || (!a[j].Empty() && Grown(max, a, items, item, j))
      modifies this`items, this`dirty
      ensures Valid() && Tracked()
      ensures left == (if HasEmpty(a) then NOTHING else rest) && (left.count > 0 ==> items == old(items))
      ensures forall k :: Total(items, k) + CountOf(left, k) == Total(old(items), k) + CountOf(rest, k)
      ensures Merged(max, a, items, item)
    {
      left := rest;
      for i := 0 to |items|
        invariant items == old(items) && left == rest && Tracked()
        invariant forall j :: 0 <= j < i ==> !items[j].Empty() && !a[j].Empty()
      {
        if !items[i].Empty() {
          continue;
        }
        ghost var b := items;
        AddItemConserves(max, items[i], left);
        left := AddItemAt(i, left);
        forall k ensures Total(items, k) + CountOf(left, k) == Total(b, k) + CountOf(rest, k) {
          TotalUpdate(b, i, items[i], k);
        }
        assert items[i := a[i]] == b;
        assert left == NOTHING;
        return;
      }
    }

    /** roomForItem. */
    method RoomForItem(item: ItemStack) returns (ok: bool)
      requires Valid() && Fits16(item)
      ensures !item.Empty() ==> (ok <==> HasRoom(max, items, item))
      ensures item.Empty() ==> (ok <==> items != [])
    {
      var rest := item;
      ghost var k := KeyOf(item);
      for i := 0 to |items|
        invariant Fits16(rest)
        invariant item.Empty() ==> i == 0 && rest == item
        invariant !item.Empty() ==>
                    && rest.count > 0 && KeyOf(rest) == k && rest.count == item.count - Free(max, items[..i], k)
                    && forall j :: 0 <= j < i ==> !items[j].Empty()
      {
        FreeSnoc(max, items, i, k);
        FreeMonotone(max, items, i + 1, k);
        AddItemConserves(max, items[i], rest);
        ItemFitsPredicts(max, items[i], rest);
        var (fits, left) := ItemFits(max, items[i], rest);
        if fits {
          return true;
        }
        rest := left;
      }
      assert items[..|items|] == items;
      return false;
    }

    /** containsItem: walks the slots from the back. */
    method ContainsItem(item: ItemStack, matchMeta: bool) returns (ok: bool)
      ensures ok <==> item.count <= Matching(items, item, matchMeta, 0)
    {
      var count := item.count;
      if count == 0 {
        return true;
      }
      for i := |items| downto 0
        invariant 0 < count == item.count - Matching(items, item, matchMeta, i)
      {
        MatchingDecreases(items, item, matchMeta, 0, i);
        if Matches(items[i], item, matchMeta) {
          if items[i].count >= count {
            return true;
          }
          count := count - items[i].count;
        }
      }
      return false;
    }

    /** Moves what is still to be removed from one slot to the removed items. */
    method TakeMatching(i: nat, item: ItemStack, matchMeta: bool, removed: ItemStack) returns (more: ItemStack)
      requires Valid() && i < |items| && Matches(items[i], item, matchMeta)
      requires removed.count <= item.count <= COUNT_MAX && (removed.count > 0 ==> Matches(removed, item, matchMeta))
      modifies this`items
      ensures Valid() && |items| == |old(items)| && items == old(items)[i := items[i]]
      ensures items[i].count == old(items)[i].count - Least(old(items)[i].count, item.count - removed.count)
      ensures items[i].count > 0 ==> KeyOf(items[i]) == KeyOf(old(items)[i]) && items[i].wear == old(items)[i].wear
      ensures items[i].count == old(items)[i].count ==> items == old(items)
      ensures MatchCount(old(items)[i], item, matchMeta) == old(items)[i].count
      ensures MatchCount(items[i], item, matchMeta) == items[i].count
      ensures more.count == removed.count + Least(old(items)[i].count, item.count - removed.count)
      ensures more.count > 0 ==> Matches(more, item, matchMeta)
    {
      var stillToRemove := item.count - removed.count;
      TakeItemConserves(items[i], stillToRemove);
      var (after, taken) := TakeItem(items[i], stillToRemove);
      items := items[i := after];
      AddItemConserves(max, removed, taken);
      var (grown, leftover) := Stacks.AddItem(max, removed, taken);
      more := grown.(count := grown.count + leftover.count);
    }

    /** removeItem: takes matching items from the back, until enough were found. */
    method RemoveItem(item: ItemStack, matchMeta: bool) returns (removed: ItemStack)
      requires Valid() && Fits16(item)
      modifies this`items, this`dirty
      ensures Valid() && Tracked() && Fits16(removed) && |items| == |old(items)|
      ensures removed.count == Least(item.count, Matching(old(items), item, matchMeta, 0))
      ensures Matching(items, item, matchMeta, 0) == Matching(old(items), item, matchMeta, 0) - removed.count
      ensures removed.count > 0 ==> Matches(removed, item, matchMeta)
      ensures forall j :: 0 <= j < |items| ==> items[j] == old(items)[j] || Shrunk(old(items), items, item, matchMeta, j)
    {
      hide Swept, UsedUp, Shrunk, Total, KeyOf, MatchCount, Matching;
      ghost var a := items;
      removed := NOTHING;
      NothingSwept(a, item, matchMeta);
      MatchingStep(a, item, matchMeta, |a|);
      for i := |items| downto 0
        invariant Valid() && |items| == |a| && Fits16(removed)
        invariant removed.Empty() ==> items == a && dirty == old(dirty)
        invariant forall j :: 0 <= j < i ==> items[j] == a[j]
        invariant Swept(a, items, item, matchMeta) && UsedUp(a, items, item, matchMeta, i)
        invariant removed.count == Matching(a, item, matchMeta, i) <= item.count
        invariant Matching(items, item, matchMeta, 0) == Matching(a, item, matchMeta, 0) - removed.count
        invariant removed.count > 0 ==> Matches(removed, item, matchMeta)
      {
        MatchingDecreases(a, item, matchMeta, 0, i);
        MatchingStep(a, item, matchMeta, i);
        ghost var before := items;
        if Matches(items[i], item, matchMeta) {
          removed := TakeMatching(i, item, matchMeta, removed);
          MatchingUpdate(before, item, matchMeta, i, items[i], 0);
          SweptStep(a, before, items, item, matchMeta, i);
          if removed.count == item.count {
            break;
          }
        }
        SweptStep(a, before, items, item, matchMeta, i);
        UsedUpStep(a, before, items, item, matchMeta, i);
        CountIfMatching(a[i], item, matchMeta);
      }
      SweptIs(a, items, item, matchMeta);
      if !removed.Empty() {
        dirty := true;
      }
    }

    /** moveItem; the destination may be this very list. */
    method MoveItem(i: nat, dest: InventoryList, j: nat, count: nat, swap: bool) returns (moved: ItemStack, didSwap: bool)
      requires Valid() && dest.Valid() && max == dest.max
      modifies this`items, this`dirty, dest`items, dest`dirty
      ensures Valid() && dest.Valid() && Tracked() && dest.Tracked()
      ensures MovedSlots(max, this == dest, old(items), items, old(dest.items), dest.items, i, j, count, swap, moved, didSwap)
      ensures forall k :: Sum(this, dest, k) == old(Sum(this, dest, k))
    {
      moved, didSwap := NOTHING, false;
      if this == dest && i == j {
        return;
      }
      ghost var a, d := items, dest.items;
      moved, didSwap := MoveBetween(i, dest, j, count, swap);
      MovedTotals(max, this == dest, a, items, d, dest.items, i, j, count, swap, moved, didSwap);
    }

    method MoveBetween(i: nat, dest: InventoryList, j: nat, count: nat, swap: bool) returns (moved: ItemStack, didSwap: bool)
      requires Valid() && dest.Valid() && max == dest.max && !(this == dest && i == j)
      modifies this`items, this`dirty, dest`items, dest`dirty
      ensures Valid() && dest.Valid() && Tracked() && dest.Tracked()
      ensures MovedSlots(max, this == dest, old(items), items, old(dest.items), dest.items, i, j, count, swap, moved, didSwap)
    {
      var taken;
      if i < |items| {
        TakeItemConserves(items[i], count);
      }
      if count == 0 {
        taken := ChangeItem(i, NOTHING);
      } else {
        taken := TakeItemAt(i, count);
      }
      moved, didSwap := Settle(i, dest, j, taken, swap, if i < |items| then old(items)[i] else NOTHING);
    }

    /** The rest of moveItem, once `taken` was taken from the stack `s` of slot `i`. */
    method Settle(i: nat, dest: InventoryList, j: nat, taken: ItemStack, swap: bool, ghost s: ItemStack)
      returns (moved: ItemStack, didSwap: bool)
      requires Valid() && dest.Valid() && max == dest.max && !(this == dest && i == j) && Fits16(taken) && Fits16(s)
      requires taken.count > 0 ==>
                 i < |items| && taken.count <= s.count && taken == s.(count := taken.count) && items[i] == Less(s, taken.count)
      modifies this`items, this`dirty, dest`items, dest`dirty
      ensures Valid() && dest.Valid() && Tracked() && dest.Tracked()
      ensures taken.Empty() ==> items == old(items) && dest.items == old(dest.items) && moved == taken && !didSwap
      ensures taken.count > 0 ==>
                && i < |items| && Outcome(items[i], At(dest.items, j), moved, didSwap) ==
                    Settled(max, s, old(At(dest.items, j)), taken, swap)
                && if this == dest then OnlyTwo(old(items), items, i, j)
                   else OnlyTwo(old(items), items, i, i) && OnlyTwo(old(dest.items), dest.items, j, j)
    {
      hide Stacks.AddItem;
      moved, didSwap := taken, false;
      if j < |dest.items| {
        AddItemConserves(max, dest.items[j], taken);
      }
      var leftover := dest.AddItemAt(j, taken);
      if !leftover.Empty() {
        moved := Removed(moved, leftover.count);
        leftover := Added(leftover, items[i].count);
        var _ := ChangeItem(i, leftover);
        if moved.Empty() && swap {
          didSwap := true;
          moved := SwapWith(i, dest, j);
        }
      }
    }

    /** The swap in moveItem; with a slot that does not exist, nothing changes. */
    method SwapWith(i: nat, dest: InventoryList, j: nat) returns (moved: ItemStack)
      requires Valid() && dest.Valid() && i < |items| && !(this == dest && i == j)
      modifies this`items, this`dirty, dest`items, dest`dirty
      ensures Valid() && dest.Valid() && Tracked() && dest.Tracked()
      ensures moved == old(items)[i]
      ensures j >= |old(dest.items)| ==> items == old(items) && dest.items == old(dest.items)
      ensures j < |old(dest.items)| ==>
                if this == dest then items == old(items)[i := old(items)[j]][j := old(items)[i]]
                else items == old(items)[i := old(dest.items)[j]] && dest.items == old(dest.items)[j := old(items)[i]]
    {
      moved := ChangeItem(i, NOTHING);
      var other := dest.ChangeItem(j, moved);
      var _ := ChangeItem(i, other);
    }

    /** moveItemSomewhere: takes a stack and adds it wherever the other list has room. */
    method MoveItemSomewhere(i: nat, dest: InventoryList, count: nat)
      requires Valid() && dest.Valid() && max == dest.max
      modifies this`items, this`dirty, dest`items, dest`dirty
      ensures Valid() && dest.Valid() && Tracked() && dest.Tracked()
      ensures |items| == |old(items)| && |dest.items| == |old(dest.items)|
      ensures forall k :: Sum(this, dest, k) == old(Sum(this, dest, k))
      ensures this != dest ==> OnlyTwo(old(items), items, i, i)
      ensures this != dest && i < |old(items)| && !old(items)[i].Empty() ==>
                var s := old(items)[i];
                var want := s.(count := Wanted(s, count));
                && Merged(max, old(dest.items), dest.items, want)
                && items[i] == Less(s, Least(want.count, RoomFor(max, old(dest.items), want)))
    {
      hide Merged, Total, RoomFor;
      var taken;
      if i < |items| {
        TakeItemConserves(items[i], count);
        TotalTaken(items, i, count);
      }
      if count == 0 {
        taken := ChangeItem(i, NOTHING);
      } else {
        taken := TakeItemAt(i, count);
      }
      if taken.Empty() {
        return;
      }
      assert taken == old(items)[i].(count := Wanted(old(items)[i], count));
      Deliver(i, dest, taken);
    }

    /** Adds what was taken from slot `i` to the other list, and puts back what that has no room for. */
    method Deliver(i: nat, dest: InventoryList, taken: ItemStack)
      requires Valid() && dest.Valid() && max == dest.max && i < |items|
      requires taken.count > 0 && items[i].count + taken.count <= COUNT_MAX
      requires items[i].count > 0 ==> KeyOf(items[i]) == KeyOf(taken)
      modifies this`items, this`dirty, dest`items, dest`dirty
      ensures Valid() && dest.Valid() && Tracked() && dest.Tracked()
      ensures |items| == |old(items)| && |dest.items| == |old(dest.items)|
      ensures forall k :: Sum(this, dest, k) == old(Sum(this, dest, k)) + CountOf(taken, k)
      ensures this != dest ==>
                var left := taken.count - Least(taken.count, RoomFor(max, old(dest.items), taken));
                && Merged(max, old(dest.items), dest.items, taken) && OnlyTwo(old(items), items, i, i)
                && items[i] == if left == 0 then old(items)[i] else taken.(count := left + old(items)[i].count)
    {
      hide Merged, HasRoom, Total, Free, RoomFor;
      ghost var b, a := items, dest.items;
      var leftover := dest.AddItem(taken);
      LeftoverRoom(max, a, taken, leftover);
      if !leftover.Empty() {
        if this == dest {
          SlotGrowth(max, b, items, taken, leftover, i);
        }
        PutBack(i, leftover);
      }
    }

    /** Puts a leftover back on what its slot still holds. */
    method PutBack(i: nat, leftover: ItemStack)
      requires Valid() && i < |items| && leftover.count > 0 && leftover.count + items[i].count <= COUNT_MAX
      requires items[i].count > 0 ==> KeyOf(items[i]) == KeyOf(leftover)
      modifies this`items, this`dirty
      ensures Valid() && Tracked()
      ensures items == old(items)[i := Added(leftover, old(items)[i].count)]
      ensures forall k :: Total(items, k) == Total(old(items), k) + CountOf(leftover, k)
    {
      ghost var a := items;
      var whole := Added(leftover, items[i].count);
      var _ := ChangeItem(i, whole);
      forall k ensures Total(items, k) == Total(a, k) + CountOf(leftover, k) {
        TotalUpdate(a, i, whole, k);
      }
    }
  }

  lemma LeftoverRoom(max: StackMax, slots: Slots, item: ItemStack, left: ItemStack)
    requires left.Empty() <==> HasRoom(max, slots, item)
    requires left.count > 0 ==> left.count == item.count - Free(max, slots, KeyOf(item))
    ensures left.count == item.count - Least(item.count, RoomFor(max, slots, item))
    ensures left.count > 0 ==> !HasEmpty(slots)
  {
  }

  /** A slot of the list itself takes no more of the item than the list as a whole. */
  lemma SlotGrowth(max: StackMax, a: Slots, b: Slots, item: ItemStack, left: ItemStack, i: nat)
    requires Merged(max, a, b, item) && i < |a| && left.count > 0 && !HasEmpty(a)
    requires forall k :: Total(b, k) + CountOf(left, k) == Total(a, k) + CountOf(item, k)
    requires KeyOf(left) == KeyOf(item) == KeyOf(a[i])
    ensures b[i].count + left.count <= a[i].count + item.count && KeyOf(b[i]) == KeyOf(item)
  {
    var k := KeyOf(item);
    assert Total(b, k) + CountOf(left, k) == Total(a, k) + CountOf(item, k);
    TotalGrowth(a, b, i, k);
  }

  lemma {:induction false} TotalGrowth(a: Slots, b: Slots, i: nat, k: Key)
    requires |a| == |b| && forall j :: 0 <= j < |a| ==> CountOf(a[j], k) <= CountOf(b[j], k)
    ensures Total(a, k) <= Total(b, k)
    ensures i < |a| ==> CountOf(b[i], k) + Total(a, k) <= CountOf(a[i], k) + Total(b, k)
  {
    if a != [] {
      TotalGrowth(a[..|a| - 1], b[..|b| - 1], i, k);
    }
  }

  function At(slots: Slots, i: nat): Option<ItemStack> {
    if i < |slots| then Some(slots[i]) else None
  }

  /** What moveItem does to its two lists; `a` and `d` are the same if the lists are. */
  ghost predicate MovedSlots(max: StackMax, same: bool, a: Slots, a1: Slots, d: Slots, d1: Slots, i: nat, j: nat,
                             count: nat, swap: bool, moved: ItemStack, didSwap: bool)
    requires AllFit16(a) && AllFit16(d)
  {
    if (same && i == j) || i >= |a| || a[i].Empty() then
      // nothing to move
      moved.Empty() && !didSwap && SameButEmpty(a, a1) && (!same ==> d1 == d)
    else
      // everything happens in the two slots
      var o := Move(max, a[i], At(d, j), count, swap);
      && moved == o.moved && didSwap == o.didSwap && At(a1, i) == Some(o.src) && At(d1, j) == o.dst
      && if same then OnlyTwo(a, a1, i, j) else OnlyTwo(a, a1, i, i) && OnlyTwo(d, d1, j, j)
  }

  lemma MovedTotals(max: StackMax, same: bool, a: Slots, a1: Slots, d: Slots, d1: Slots, i: nat, j: nat,
                    count: nat, swap: bool, moved: ItemStack, didSwap: bool)
    requires AllFit16(a) && AllFit16(d) && (same ==> a == d && a1 == d1) && !(same && i == j)
    requires MovedSlots(max, same, a, a1, d, d1, i, j, count, swap, moved, didSwap)
    ensures forall k :: Total(a1, k) + (if same then 0 else Total(d1, k)) == Total(a, k) + if same then 0 else Total(d, k)
  {
    hide Move, MovedSlots;
    forall k ensures Total(a1, k) + (if same then 0 else Total(d1, k)) == Total(a, k) + if same then 0 else Total(d, k) {
      MovedTotal(max, same, a, a1, d, d1, i, j, count, swap, moved, didSwap, k);
    }
  }

  lemma MovedTotal(max: StackMax, same: bool, a: Slots, a1: Slots, d: Slots, d1: Slots, i: nat, j: nat,
                   count: nat, swap: bool, moved: ItemStack, didSwap: bool, k: Key)
    requires AllFit16(a) && AllFit16(d) && (same ==> a == d && a1 == d1) && !(same && i == j)
    requires MovedSlots(max, same, a, a1, d, d1, i, j, count, swap, moved, didSwap)
    ensures Total(a1, k) + (if same then 0 else Total(d1, k)) == Total(a, k) + if same then 0 else Total(d, k)
  {
    hide Move, Total, CountOf;
    if i >= |a| || a[i].Empty() {
      TotalSame(a, a1, k);
    } else {
      MoveConserves(max, a[i], At(d, j), count, swap);
      if same {
        TotalTwo(a, a1, i, j, k);
      } else {
        TotalTwo(a, a1, i, i, k);
        TotalTwo(d, d1, j, j, k);
      }
    }
  }

  lemma {:induction false} TotalSame(a: Slots, b: Slots, k: Key)
    requires SameButEmpty(a, b)
    ensures Total(a, k) == Total(b, k)
  {
    if a != [] {
      TotalSame(a[..|a| - 1], b[..|b| - 1], k);
    }
  }

  /** Changing two slots changes the total by what changes in them. */
  lemma TotalTwo(a: Slots, b: Slots, i: nat, j: nat, k: Key)
    requires OnlyTwo(a, b, i, j)
    ensures Total(b, k) + Part(At(a, i), k) + (if i == j then 0 else Part(At(a, j), k)) ==
            Total(a, k) + Part(At(b, i), k) + (if i == j then 0 else Part(At(b, j), k))
  {
    var c := if i < |a| then a[i := b[i]] else a;
    if i < |a| {
      TotalUpdate(a, i, b[i], k);
    }
    if j < |a| && j != i {
      TotalUpdate(c, j, b[j], k);
      assert b == c[j := b[j]];
    } else {
      assert b == c;
    }
  }

  /** How much of the item all slots together take. */
  ghost function RoomFor(max: StackMax, slots: Slots, item: ItemStack): nat {
    if HasEmpty(slots) then item.count else Free(max, slots, KeyOf(item))
  }

  ghost function Sum(a: InventoryList, b: InventoryList, k: Key): nat
    reads a, b
  {
    if a == b then Total(a.items, k) else Total(a.items, k) + Total(b.items, k)
  }

  lemma TotalTaken(slots: Slots, i: nat, count: nat)
    requires i < |slots|
    ensures var (after, taken) := TakeItem(slots[i], count);
            forall k :: Total(slots[i := after], k) + CountOf(taken, k) == Total(slots, k)
    ensures forall k :: Total(slots[i := NOTHING], k) + CountOf(slots[i], k) == Total(slots, k)
  {
    TakeItemConserves(slots[i], count);
    forall k
      ensures Total(slots[i := TakeItem(slots[i], count).0], k) + CountOf(TakeItem(slots[i], count).1, k) == Total(slots, k)
      ensures Total(slots[i := NOTHING], k) + CountOf(slots[i], k) == Total(slots, k)
    {
      TotalUpdate(slots, i, TakeItem(slots[i], count).0, k);
      TotalUpdate(slots, i, NOTHING, k);
    }
  }

  /** The same slots, except that empty ones may have been cleared. */
  ghost predicate SameButEmpty(a: Slots, b: Slots) {
    |a| == |b| && forall j :: 0 <= j < |a| ==> b[j] == a[j] || (a[j].Empty() && b[j].Empty())
  }

  ghost predicate OnlyTwo(a: Slots, b: Slots, i: nat, j: nat) {
    |a| == |b| && forall k :: 0 <= k < |a| && k != i && k != j ==> b[k] == a[k]
  }

  function Least(a: nat, b: nat): nat { if a < b then a else b }

  /** A matching stack lost items; the matching stacks behind it are used up. */
  ghost predicate Shrunk(a: Slots, b: Slots, item: ItemStack, matchMeta: bool, j: nat)
    requires j < |a| == |b|
  {
    && Matches(a[j], item, matchMeta)
    && (b[j].count > 0 ==> KeyOf(b[j]) == KeyOf(a[j]) && b[j].wear == a[j].wear)
    && b[j].count < a[j].count
    && forall i :: j < i < |a| && Matches(a[i], item, matchMeta) ==> b[i].count == 0
  }

  /** Each slot is as before or has grown. */
  ghost predicate Seen(max: StackMax, a: Slots, b: Slots, item: ItemStack) {
    |a| == |b| && forall j :: 0 <= j < |a| ==> b[j] == a[j] || (!a[j].Empty() && Grown(max, a, b, item, j))
  }

  ghost predicate Filled(max: StackMax, a: Slots, b: Slots, item: ItemStack, i: nat) {
    Seen(max, a, b, item) && i <= |a| && AllFull(max, a, b, KeyOf(item), i)
  }

  lemma NothingFilled(max: StackMax, a: Slots, item: ItemStack)
    ensures Seen(max, a, a, item) && Filled(max, a, a, item, 0)
  {
  }

  lemma FilledStep(max: StackMax, a: Slots, b: Slots, c: Slots, item: ItemStack, i: nat)
    requires Filled(max, a, b, item, i) && i < |a| == |c| && b[i] == a[i] && c == b[i := c[i]]
    requires c[i] != a[i] ==>
               && !a[i].Empty() && KeyOf(a[i]) == KeyOf(c[i]) == KeyOf(item) && a[i].wear == c[i].wear
               && a[i].count < c[i].count <= max(c[i].name)
    ensures Seen(max, a, c, item)
  {
    forall j | 0 <= j < |a| && c[j] != a[j] ensures !a[j].Empty() && Grown(max, a, c, item, j) {
      if j != i {
        assert Grown(max, a, b, item, j);
      }
    }
  }

  lemma FullStep(max: StackMax, a: Slots, b: Slots, c: Slots, item: ItemStack, i: nat)
    requires Filled(max, a, b, item, i) && i < |a| == |c| && b[i] == a[i] && c == b[i := c[i]] && Seen(max, a, c, item)
    requires !a[i].Empty() && KeyOf(a[i]) == KeyOf(item) ==> c[i].count >= max(item.name)
    ensures Filled(max, a, c, item, i + 1)
  {
  }

  lemma TotalMoved(a: Slots, b: Slots, c: Slots, i: nat, item: ItemStack, before: ItemStack, left: ItemStack)
    requires i < |b| == |c| && c == b[i := c[i]]
    requires forall k :: Total(b, k) + CountOf(before, k) == Total(a, k) + CountOf(item, k)
    requires forall k :: CountOf(c[i], k) + CountOf(left, k) == CountOf(b[i], k) + CountOf(before, k)
    ensures forall k :: Total(c, k) + CountOf(left, k) == Total(a, k) + CountOf(item, k)
  {
    forall k ensures Total(c, k) + CountOf(left, k) == Total(a, k) + CountOf(item, k) {
      TotalUpdate(b, i, c[i], k);
      assert Total(b, k) + CountOf(before, k) == Total(a, k) + CountOf(item, k);
    }
  }

  lemma FilledIs(max: StackMax, a: Slots, b: Slots, item: ItemStack, i: nat)
    requires Seen(max, a, b, item)
    ensures forall j :: 0 <= j < |a| ==> b[j] == a[j] || (!a[j].Empty() && Grown(max, a, b, item, j))
    ensures Filled(max, a, b, item, |a|) ==> AllFull(max, a, b, KeyOf(item), |a|)
  {
  }

  lemma MatchingStep(slots: Slots, item: ItemStack, matchMeta: bool, i: nat)
    requires i <= |slots|
    ensures Matching(slots, item, matchMeta, i) ==
            if i == |slots| then 0 else MatchCount(slots[i], item, matchMeta) + Matching(slots, item, matchMeta, i + 1)
  {
  }

  lemma CountIfMatching(s: ItemStack, item: ItemStack, matchMeta: bool)
    ensures MatchCount(s, item, matchMeta) == if Matches(s, item, matchMeta) then s.count else 0
  {
  }

  ghost predicate Swept(a: Slots, b: Slots, item: ItemStack, matchMeta: bool) {
    |a| == |b| && forall j :: 0 <= j < |a| ==> b[j] == a[j] || Shrunk(a, b, item, matchMeta, j)
  }

  ghost predicate UsedUp(a: Slots, b: Slots, item: ItemStack, matchMeta: bool, i: nat)
    requires |a| == |b|
  {
    forall j :: i <= j < |a| && Matches(a[j], item, matchMeta) ==> b[j].count == 0
  }

  lemma NothingSwept(a: Slots, item: ItemStack, matchMeta: bool)
    ensures Swept(a, a, item, matchMeta) && UsedUp(a, a, item, matchMeta, |a|)
  {
  }

  lemma SweptIs(a: Slots, b: Slots, item: ItemStack, matchMeta: bool)
    requires Swept(a, b, item, matchMeta)
    ensures forall j :: 0 <= j < |a| ==> b[j] == a[j] || Shrunk(a, b, item, matchMeta, j)
  {
  }

  lemma SweptStep(a: Slots, b: Slots, c: Slots, item: ItemStack, matchMeta: bool, i: nat)
    requires Swept(a, b, item, matchMeta) && UsedUp(a, b, item, matchMeta, i + 1)
    requires i < |c| == |b| && c == b[i := c[i]] && b[i] == a[i] && forall j :: 0 <= j < i ==> b[j] == a[j]
    requires c[i] != a[i] ==>
               && Matches(a[i], item, matchMeta) && c[i].count < a[i].count
               && (c[i].count > 0 ==> KeyOf(c[i]) == KeyOf(a[i]) && c[i].wear == a[i].wear)
    ensures Swept(a, c, item, matchMeta)
  {
    forall j | i < j < |a| && c[j] != a[j] ensures Shrunk(a, c, item, matchMeta, j) {
      assert Shrunk(a, b, item, matchMeta, j);
    }
  }

  lemma UsedUpStep(a: Slots, b: Slots, c: Slots, item: ItemStack, matchMeta: bool, i: nat)
    requires i < |a| == |b| == |c| && UsedUp(a, b, item, matchMeta, i + 1) && c == b[i := c[i]]
    requires Matches(a[i], item, matchMeta) ==> c[i].count == 0
    ensures UsedUp(a, c, item, matchMeta, i)
  {
  }

  function Resized(slots: Slots, size: nat): (r: Slots)
    ensures |r| == size && forall i :: 0 <= i < size ==> r[i] == if i < |slots| then slots[i] else NOTHING
  {
    if size <= |slots| then slots[..size] else slots + Blanks(size - |slots|)
  }
}
