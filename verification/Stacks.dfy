/** Quantity methods of item stacks. Each gives the stack afterwards together with what the method returns. */
module Stacks {
  import opened Items

  const COUNT_MAX: nat := 0xFFFF  // counts are 16 bits wide

  type U16 = n: nat | n <= COUNT_MAX

  // The stack_max of the definition behind each item name.
  type StackMax = string -> U16

  predicate Fits16(s: ItemStack) { s.count <= COUNT_MAX }

  // What moves between slots: a name together with its metadata.
  datatype Key = Key(name: string, meta: map<string, string>)

  function KeyOf(s: ItemStack): Key { Key(s.name, s.meta) }

  function CountOf(s: ItemStack, k: Key): nat { if KeyOf(s) == k then s.count else 0 }

  /** add: the sum must not leave 16 bits. */
  function Added(s: ItemStack, n: nat): ItemStack
    requires s.count + n <= COUNT_MAX
  {
    s.(count := s.count + n)
  }

  /** remove: a stack that becomes empty is cleared. */
  function Removed(s: ItemStack, n: nat): ItemStack
    requires n <= s.count
  {
    if s.count == n then NOTHING else s.(count := s.count - n)
  }

  function FreeSpace(max: StackMax, s: ItemStack): (r: nat)
    ensures s.count + r <= COUNT_MAX || r == 0
  {
    if s.count >= max(s.name) then 0 else max(s.name) - s.count
  }

  /** addItem: the stack after adding, and the leftover. */
  function AddItem(max: StackMax, s: ItemStack, item: ItemStack): (r: (ItemStack, ItemStack))
    requires Fits16(s) && Fits16(item)
  {
    if item.Empty() then (s, item)
    else if s.Empty() then (item, NOTHING)
    else if s.name != item.name || s.meta != item.meta then (s, item)
    else if item.count <= FreeSpace(max, s) then (Added(s, item.count), NOTHING)
    else (Added(s, FreeSpace(max, s)), Removed(item, FreeSpace(max, s)))
  }

  /** How much of `item` a slot takes: an empty one everything, a stack of the same kind what its maximum leaves. */
  function Capacity(max: StackMax, s: ItemStack, item: ItemStack): (n: nat)
    ensures n <= item.count
  {
    if s.Empty() || item.Empty() then item.count
    else if KeyOf(s) != KeyOf(item) || max(item.name) <= s.count then 0
    else if s.count + item.count <= max(item.name) then item.count
    else max(item.name) - s.count
  }

  /** Adding neither makes nor loses items, overflows nothing, and takes exactly what the slot has room for. */
  lemma AddItemConserves(max: StackMax, s: ItemStack, item: ItemStack)
    requires Fits16(s) && Fits16(item)
    ensures var (after, left) := AddItem(max, s, item);
            && Fits16(after) && left.count == item.count - Capacity(max, s, item)
            && (forall k :: CountOf(after, k) + CountOf(left, k) == CountOf(s, k) + CountOf(item, k))
            && (left.count > 0 ==> KeyOf(left) == KeyOf(item) && left.wear == item.wear)
            && (!s.Empty() ==> KeyOf(after) == KeyOf(s) && after.wear == s.wear)
            && (s.Empty() && !item.Empty() ==> after == item && left == NOTHING)
            // nothing grows beyond its maximum, and nothing is left over before that is reached
            && (!s.Empty() && (s.count <= max(s.name) || after != s) ==> after.count <= max(after.name))
            && (KeyOf(s) == KeyOf(item) && left.count > 0 && !s.Empty() ==> after.count >= max(after.name))
            && after.count == s.count + Capacity(max, s, item)
            && (item.Empty() ==> after == s && left == item)
            && (left == item <==> after == s)
  {
  }

  /** itemFits: whether everything fits, and what would not. */
  function ItemFits(max: StackMax, s: ItemStack, item: ItemStack): (bool, ItemStack) {
    var rest :=
      if item.Empty() then item
      else if s.Empty() then NOTHING
      else if s.name != item.name || s.meta != item.meta then item
      else if item.count <= FreeSpace(max, s) then NOTHING
      else Removed(item, FreeSpace(max, s));
    (rest.Empty(), rest)
  }

  /** The question answers what the update does. */
  lemma ItemFitsPredicts(max: StackMax, s: ItemStack, item: ItemStack)
    requires Fits16(s) && Fits16(item)
    ensures ItemFits(max, s, item).1 == AddItem(max, s, item).1
    ensures ItemFits(max, s, item).0 <==> Capacity(max, s, item) == item.count
  {
  }

  /** takeItem: the stack afterwards, and what was taken. */
  function TakeItem(s: ItemStack, n: nat): (r: (ItemStack, ItemStack))
  {
    if n == 0 || s.count == 0 then (s, NOTHING)
    else if n >= s.count then (NOTHING, s)
    else (Removed(s, n), s.(count := n))
  }

  lemma TakeItemConserves(s: ItemStack, n: nat)
    ensures var (after, taken) := TakeItem(s, n);
            && taken.count == (if n < s.count then n else s.count)
            && after.count + taken.count == s.count
            && (forall k :: CountOf(after, k) + CountOf(taken, k) == CountOf(s, k))
            && (taken.count > 0 ==> KeyOf(taken) == KeyOf(s) && taken.wear == s.wear)
            && (after.count > 0 ==> KeyOf(after) == KeyOf(s) && after.wear == s.wear)
            && (taken.count == 0 ==> after == s)
            // what is used up is cleared
            && (after.count == 0 < taken.count ==> after == ItemStack("", 0, 0, map[]))
  {
  }
}
