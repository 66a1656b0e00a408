/** A server's inventory and a client's copy of it, through every run of edits and incremental updates. */
module InventorySync {
  import opened Items
  import opened Options
  import opened Stacks
  import opened SlotSums
  import opened InventoryLists
  import opened InventoryLines
  import opened Inventories

  type Stack = s: ItemStack | Fits16(s) witness NOTHING

  // What is done to an inventory; lists go by their names.
  datatype Edit =
    | ClearItems(list: string)
    | SetSize(list: string, size: nat)
    | SetWidth(list: string, width: nat)
    | ChangeItem(list: string, i: nat, item: Stack)
    | DeleteItem(list: string, i: nat)
    | AddItem(list: string, item: Stack)
    | AddItemAt(list: string, i: nat, item: Stack)
    | TakeItem(list: string, i: nat, count: nat)
    | RemoveItem(list: string, item: Stack, matchMeta: bool)
    | MoveItem(list: string, i: nat, dest: string, j: nat, count: nat, swap: bool)
    | MoveItemSomewhere(list: string, i: nat, dest: string, count: nat)
    | AddList(list: string, size: nat)
    | DeleteList(list: string)

  // A step of the protocol.
  datatype Step = Do(edit: Edit) | Send

  /** What an operation makes of the slots `a` of its list, and of the slots `d` of the other one it names, if `e` names one;
      `width` is what the list's width is then. */
  ghost predicate Edited(max: StackMax, e: Edit, same: bool, a: Slots, b: Slots, d: Slots, d1: Slots, width: nat)
    requires AllFit16(a) && AllFit16(d)
  {
    match e
    case ClearItems(_) => b == Blanks(|a|)
    case SetSize(_, size) => b == Resized(a, size)
    case SetWidth(_, w) => b == a && width == w
    case ChangeItem(_, i, item) => b == if i < |a| then a[i := item] else a
    case DeleteItem(_, i) => b == if i < |a| then a[i := NOTHING] else a
    case AddItem(_, item) =>
      var k := KeyOf(item);
      Merged(max, a, b, item) && Total(b, k) == Total(a, k) + Least(item.count, RoomFor(max, a, item))
    case AddItemAt(_, i, item) => b == if i < |a| then a[i := Stacks.AddItem(max, a[i], item).0] else a
    case TakeItem(_, i, count) => b == if i < |a| then a[i := Stacks.TakeItem(a[i], count).0] else a
    case RemoveItem(_, item, matchMeta) =>
      var matching := Matching(a, item, matchMeta, 0);
      Matching(b, item, matchMeta, 0) == matching - Least(item.count, matching)
    case MoveItem(_, i, _, j, count, swap) =>
      exists moved, didSwap {:trigger Moves(max, same, a, b, d, d1, i, j, count, swap, moved, didSwap)} ::
        Moves(max, same, a, b, d, d1, i, j, count, swap, moved, didSwap)
    case MoveItemSomewhere(_, i, _, count) =>
      && (forall k :: Total(b, k) + (if same then 0 else Total(d1, k)) == Total(a, k) + if same then 0 else Total(d, k))
      && (!same && i < |a| && !a[i].Empty() ==>
            var want := a[i].(count := Wanted(a[i], count));
            && Merged(max, d, d1, want)
            && i < |b| && b[i] == Less(a[i], Least(want.count, RoomFor(max, d, want))))
    case AddList(_, _) => true
    case DeleteList(_) => true
  }

  ghost predicate Moves(max: StackMax, same: bool, a: Slots, b: Slots, d: Slots, d1: Slots, i: nat, j: nat, count: nat,
                        swap: bool, moved: ItemStack, didSwap: bool)
    requires AllFit16(a) && AllFit16(d)
  {
    MovedSlots(max, same, a, b, d, d1, i, j, count, swap, moved, didSwap)
  }

  method MoveList(list: InventoryList, dest: InventoryList, e: Edit)
    requires list.Valid() && dest.Valid() && list.max == dest.max && (e.MoveItem? || e.MoveItemSomewhere?)
    modifies list`items, list`dirty, dest`items, dest`dirty
    ensures list.Valid() && dest.Valid() && list.Tracked() && dest.Tracked()
    ensures Edited(list.max, e, list == dest, old(list.items), list.items, old(dest.items), dest.items, list.width)
  {
    match e
    case MoveItem(_, i, _, j, count, swap) =>
      var moved, didSwap := list.MoveItem(i, dest, j, count, swap);
      assert Moves(list.max, list == dest, old(list.items), list.items, old(dest.items), dest.items, i, j, count, swap,
                   moved, didSwap);
    case MoveItemSomewhere(_, i, _, count) =>
      list.MoveItemSomewhere(i, dest, count);
      forall k ensures Total(list.items, k) + (if list == dest then 0 else Total(dest.items, k)) ==
                       old(Total(list.items, k) + if list == dest then 0 else Total(dest.items, k))
      {
        assert Sum(list, dest, k) == old(Sum(list, dest, k));
      }
  }

  /** One operation on a list, or on two. */
  method EditList(list: InventoryList, dest: InventoryList, e: Edit)
    requires list.Valid() && dest.Valid() && list.max == dest.max
    modifies list`items, list`width, list`dirty, dest`items, dest`dirty
    ensures list.Valid() && dest.Valid() && list.Tracked() && dest.Tracked()
    ensures Edited(list.max, e, list == dest, old(list.items), list.items, old(dest.items), dest.items, list.width)
  {
    match e
    case ClearItems(_) => list.ClearItems();
    case SetSize(_, size) => list.SetSize(size);
    case SetWidth(_, width) => list.SetWidth(width);
    case ChangeItem(_, i, item) => var _ := list.ChangeItem(i, item);
    case DeleteItem(_, i) => if i < |list.items| { list.DeleteItem(i); }
    case AddItem(_, item) =>
      var left := list.AddItem(item);
      LeftoverRoom(list.max, old(list.items), item, left);
    case AddItemAt(_, i, item) => var _ := list.AddItemAt(i, item);
    case TakeItem(_, i, count) => var _ := list.TakeItemAt(i, count);
    case RemoveItem(_, item, matchMeta) => var _ := list.RemoveItem(item, matchMeta);
    case MoveItem(_, _, _, _, _, _) => MoveList(list, dest, e);
    case MoveItemSomewhere(_, _, _, _) => MoveList(list, dest, e);
    case AddList(_, _) =>
    case DeleteList(_) =>
  }

  lemma EditKeepsSync(a: seq<Flagged>, b: seq<Flagged>, m: map<string, Content>)
    requires SyncInv(Sync(a, m)) && Marked(a, b)
    ensures SyncInv(Sync(b, m))
  {
    StepKeepsSync(Sync(a, m), Sync(b, m));
  }

  /** The second list that an operation names, or the only one. */
  function OtherList(e: Edit): string {
    if e.MoveItem? || e.MoveItemSomewhere? then e.dest else e.list
  }

  ghost predicate AllFit(a: seq<Flagged>) {
    forall i :: 0 <= i < |a| ==> AllFit16(a[i].data.items)
  }

  /** What an edit makes of the lists `a` of an inventory: one is added or reset, or deleted, or some are edited. */
  ghost predicate Performed(max: StackMax, a: seq<Flagged>, b: seq<Flagged>, e: Edit)
    requires AllFit(a)
  {
    if e.AddList? then Reset(a, b, e.list, e.size)
    else if e.DeleteList? then Cut(a, b, e.list)
    else EditedLists(max, a, b, e)
  }

  ghost predicate Cut(a: seq<Flagged>, b: seq<Flagged>, name: string) {
    if exists i :: 0 <= i < |a| && a[i].data.name == name
    then exists i :: 0 <= i < |a| && a[i].data.name == name && b == a[..i] + a[i + 1..]
    else b == a
  }

  /** The lists named are edited, the others stay as they are. */
  ghost predicate EditedLists(max: StackMax, a: seq<Flagged>, b: seq<Flagged>, e: Edit)
    requires AllFit(a)
  {
    && |b| == |a|
    && (forall i, j :: 0 <= i < |a| && 0 <= j < |a| && a[i].data.name == e.list && a[j].data.name == OtherList(e) ==>
          Edited(max, e, i == j, a[i].data.items, b[i].data.items, a[j].data.items, b[j].data.items, b[i].data.width))
    && (forall i :: 0 <= i < |a| && a[i].data.name != e.list && a[i].data.name != OtherList(e) ==> b[i] == a[i])
  }

  /** What a step makes of the server's lists; sending them marks them as handled. */
  ghost predicate Happened(max: StackMax, a: seq<Flagged>, b: seq<Flagged>, step: Step)
    requires AllFit(a)
  {
    match step
    case Do(e) => Performed(max, a, b, e)
    case Send => |b| == |a| && forall i :: 0 <= i < |a| ==> b[i] == Flagged(a[i].data, false)
  }

  /** Every edit of an inventory does what it says, and marks what it changes. */
  method Perform(inv: Inventory, e: Edit)
    requires inv.Valid()
    modifies inv, inv.lists
    ensures inv.Valid() && Marked(old(inv.Flags()), inv.Flags())
    ensures forall l :: l in inv.lists ==> l in old(inv.lists) || fresh(l)
    ensures AllFit(old(inv.Flags()))
    ensures Performed(inv.max, old(inv.Flags()), inv.Flags(), e)
  {
    hide Edited, Marked, Reset, EditedLists;
    ghost var before := inv.Flags();
    NamesAreUnique(inv);
    if e.AddList? {
      inv.AddList(e.list, e.size);
      ResetIsMarked(before, inv.Flags(), e.list, e.size);
    } else if e.DeleteList? {
      var found, at := inv.DeleteList(e.list);
      if found {
        RemovalIsMarked(before, at);
        assert before[at].data.name == e.list;
        assert inv.Flags() == before[..at] + before[at + 1..];
      } else {
        NotAmong(inv, e.list);
        TrackedIsMarked(before, inv.Flags());
      }
    } else {
      EditNamed(inv, e);
    }
  }

  lemma NotAmong(inv: Inventory, name: string)
    requires !Named(DataOf(inv.lists), name)
    ensures forall i :: 0 <= i < |inv.Flags()| ==> inv.Flags()[i].data.name != name
  {
    assert forall i :: 0 <= i < |inv.lists| ==> DataOf(inv.lists)[i].name != name;
  }

  /** An operation on lists of an inventory; lists that do not exist are left alone. */
  method EditNamed(inv: Inventory, e: Edit)
    requires inv.Valid()
    modifies inv.lists
    ensures inv.Valid() && Marked(old(inv.Flags()), inv.Flags())
    ensures AllFit(old(inv.Flags())) && EditedLists(inv.max, old(inv.Flags()), inv.Flags(), e)
  {
    hide Edited, Marked, EditedLists, Named, OtherList, Distinct;
    NamesAreUnique(inv);
    var x := inv.GetListIndex(e.list);
    var dest := SecondList(e);
    var y := inv.GetListIndex(dest);
    if x.Some? && y.Some? {
      EditFound(inv, x.value, y.value, e);
    } else {
      NoneEdited(inv, e, x, y);
      TrackedIsMarked(inv.Flags(), inv.Flags());
    }
  }

  method EditFound(inv: Inventory, i: nat, j: nat, e: Edit)
    requires inv.Valid() && i < |inv.lists| && j < |inv.lists|
    requires inv.lists[i].name == e.list && inv.lists[j].name == OtherList(e)
    modifies inv.lists[i], inv.lists[j]
    ensures inv.Valid() && Marked(old(inv.Flags()), inv.Flags())
    ensures AllFit(old(inv.Flags())) && EditedLists(inv.max, old(inv.Flags()), inv.Flags(), e)
  {
    hide Edited, Marked, EditedLists, Named, OtherList, Distinct;
    ghost var before := inv.Flags();
    OnlyNamed(inv, e.list, Some(i));
    OnlyNamed(inv, OtherList(e), Some(j));
    EditTwo(inv, i, j, e);
    EditedPair(inv.max, before, inv.Flags(), e, i, j);
  }

  method SecondList(e: Edit) returns (list: string)
    ensures list == OtherList(e)
  {
    match e
    case MoveItem(_, _, dest, _, _, _) => list := dest;
    case MoveItemSomewhere(_, _, dest, _) => list := dest;
    case _ => list := e.list;
  }

  lemma NoneEdited(inv: Inventory, e: Edit, x: Option<nat>, y: Option<nat>)
    requires inv.Valid() && (x.None? || y.None?)
    requires x.None? ==> !Named(DataOf(inv.lists), e.list)
    requires y.None? ==> !Named(DataOf(inv.lists), OtherList(e))
    ensures AllFit(inv.Flags()) && EditedLists(inv.max, inv.Flags(), inv.Flags(), e)
  {
    if x.None? {
      NotAmong(inv, e.list);
    } else {
      NotAmong(inv, OtherList(e));
    }
  }

  lemma EditedPair(max: StackMax, a: seq<Flagged>, b: seq<Flagged>, e: Edit, x: nat, y: nat)
    requires AllFit(a) && |b| == |a| && x < |a| && y < |a|
    requires forall i :: 0 <= i < |a| && a[i].data.name == e.list ==> i == x
    requires forall i :: 0 <= i < |a| && a[i].data.name == OtherList(e) ==> i == y
    requires a[x].data.name == e.list && a[y].data.name == OtherList(e)
    requires Edited(max, e, x == y, a[x].data.items, b[x].data.items, a[y].data.items, b[y].data.items, b[x].data.width)
    requires forall i :: 0 <= i < |a| && i != x && i != y ==> b[i] == a[i]
    ensures EditedLists(max, a, b, e)
  {
    hide Edited;
  }

  method EditTwo(inv: Inventory, i: nat, j: nat, e: Edit)
    requires inv.Valid() && i < |inv.lists| && j < |inv.lists|
    modifies inv.lists[i], inv.lists[j]
    ensures inv.Valid() && Marked(old(inv.Flags()), inv.Flags())
    ensures var x, y := inv.lists[i], inv.lists[j];
            Edited(inv.max, e, i == j, old(x.items), x.items, old(y.items), y.items, x.width)
  {
    hide Edited, Marked;
    ghost var before := inv.Flags();
    NamesAreUnique(inv);
    EditList(inv.lists[i], inv.lists[j], e);
    assert forall n :: 0 <= n < |inv.lists| ==> DataOf(inv.lists)[n].name == old(DataOf(inv.lists)[n].name);
    TrackedIsMarked(before, inv.Flags());
  }

  lemma OnlyNamed(inv: Inventory, name: string, x: Option<nat>)
    requires inv.Valid()
    requires x.Some? ==> x.value < |inv.lists| && inv.lists[x.value].name == name
    requires x.None? ==> !Named(DataOf(inv.lists), name)
    ensures forall i :: 0 <= i < |inv.Flags()| && inv.Flags()[i].data.name == name ==> x.Some? && i == x.value
  {
    assert x.Some? ==> DataOf(inv.lists)[x.value].name == name;
    forall i | 0 <= i < |inv.lists| && inv.lists[i].name == name ensures x.Some? && i == x.value {
      assert DataOf(inv.lists)[i].name == name;
    }
  }

  lemma NamesAreUnique(inv: Inventory)
    requires inv.Valid()
    ensures UniqueNames(inv.Flags())
  {
    forall i, j | 0 <= i < j < |inv.Flags()| ensures inv.Flags()[i].data.name != inv.Flags()[j].data.name {
      assert DataOf(inv.lists)[i].name != DataOf(inv.lists)[j].name;
    }
  }

  /** The inventories share nothing. */
  ghost predicate Apart(server: Inventory, client: Inventory)
    reads server, client
  {
    server != client && forall l :: l in server.lists ==> l !in client.lists
  }

  /** What is done to one inventory leaves the other alone. */
  twostate lemma Untouched(inv: Inventory)
    requires old(inv.Valid()) && unchanged(inv) && forall l :: l in inv.lists ==> unchanged(l)
    ensures inv.Valid() && inv.Flags() == old(inv.Flags()) && DataOf(inv.lists) == old(DataOf(inv.lists))
  {
    assert forall i :: 0 <= i < |inv.lists| ==> inv.lists[i] in inv.lists;
  }

  /** The two sides as the protocol sees them; `m` is what the client holds. */
  ghost predicate Linked(server: Inventory, client: Inventory, m: map<string, Content>)
    reads server, server.lists, client, client.lists
  {
    && server.Valid() && client.Valid() && Apart(server, client) && Held(DataOf(client.lists), m)
    && SyncInv(Sync(server.Flags(), m))
  }

  /** An edit on the server's side. */
  method Change(server: Inventory, client: Inventory, e: Edit, ghost m: map<string, Content>)
    requires Linked(server, client, m)
    modifies server, server.lists
    ensures Linked(server, client, m)
    ensures forall l :: l in server.lists ==> l in old(server.lists) || fresh(l)
    ensures AllFit(old(server.Flags())) && Performed(server.max, old(server.Flags()), server.Flags(), e)
  {
    hide Held, SyncInv, Marked, Distinct, Performed;
    Perform(server, e);
    Untouched(client);
    EditKeepsSync(old(server.Flags()), server.Flags(), m);
  }

  /** The server writes what was modified, the client reads it, and everything counts as handled. */
  method Update(server: Inventory, client: Inventory, ghost m: map<string, Content>) returns (ghost more: map<string, Content>)
    requires Linked(server, client, m)
    modifies server`dirty, server.lists, client, client.lists
    ensures Linked(server, client, more)
    ensures Mirrors(server.Flags(), more)
    ensures AllFit(old(server.Flags())) && Happened(server.max, old(server.Flags()), server.Flags(), Send)
    ensures forall l :: l in client.lists ==> l in old(client.lists) || fresh(l)
  {
    hide Held, ReadInventory, InventoryText, Distinct, InSync, Mirrors, UniqueNames;
    ghost var flags := server.Flags();
    var lines := server.Serialize(true);
    LinesFit(flags);
    IncrementalSync(flags, m);
    more := ReadInventory(lines, m, {}).value;
    label Read:
    var outcome := client.DeSerialize(lines, m);
    Untouched@Read(server);
    label Handle:
    server.SetHandled();
    Untouched@Handle(client);
    Handled(flags, server.Flags(), m, more);
  }

  lemma Handled(a: seq<Flagged>, b: seq<Flagged>, m: map<string, Content>, more: map<string, Content>)
    requires SyncInv(Sync(a, m)) && ReadInventory(InventoryText(a, true), m, {}) == Done(more)
    requires |a| == |b| && forall i :: 0 <= i < |a| ==> b[i] == Flagged(a[i].data, false)
    ensures SyncInv(Sync(b, more)) && Mirrors(b, more)
  {
    assert SentTo(Sync(a, m), Sync(b, more));
    StepKeepsSync(Sync(a, m), Sync(b, more));
  }

  /** Through every run of edits and updates the client can follow, and after an update it has the same lists. */
  method Run(server: Inventory, client: Inventory, steps: seq<Step>, ghost m: map<string, Content>)
    returns (ghost now: map<string, Content>, ghost trace: seq<seq<Flagged>>)
    requires Linked(server, client, m)
    modifies server, server.lists, client, client.lists
    ensures Linked(server, client, now)
    // `trace` are the server's lists after each step, which does what it says
    ensures Traced(server.max, trace, steps, old(server.Flags()), server.Flags())
    ensures steps != [] && steps[|steps| - 1].Send? ==> Mirrors(server.Flags(), now)
  {
    hide Held, SyncInv, Marked, Mirrors, Distinct, Performed, Traced;
    NothingTraced(server.max, server.Flags());
    now, trace := m, [server.Flags()];
    for n := 0 to |steps|
      invariant Traced(server.max, trace, steps[..n], old(server.Flags()), server.Flags())
      invariant Linked(server, client, now)
      invariant forall l :: l in server.lists ==> l in old(server.lists) || fresh(l)
      invariant forall l :: l in client.lists ==> l in old(client.lists) || fresh(l)
      invariant n > 0 && steps[n - 1].Send? ==> Mirrors(server.Flags(), now)
    {
      assert forall i :: 0 <= i < |server.lists| ==> server.lists[i] in server.lists;
      assert forall i :: 0 <= i < |client.lists| ==> client.lists[i] in client.lists;
      ghost var before := server.Flags();
      match steps[n] {
        case Do(e) =>
          Change(server, client, e, now);
        case Send =>
          now := Update(server, client, now);
      }
      TracedMore(server.max, trace, steps[..n], old(server.Flags()), before, steps[n], server.Flags());
      trace := trace + [server.Flags()];
      assert steps[..n + 1] == steps[..n] + [steps[n]];
    }
    assert steps[..|steps|] == steps;
  }

  /** The lists before and after each of some steps. */
  ghost predicate Traced(max: StackMax, trace: seq<seq<Flagged>>, steps: seq<Step>, first: seq<Flagged>, last: seq<Flagged>) {
    && |trace| == |steps| + 1 && trace[0] == first && trace[|steps|] == last
    && forall n :: 0 <= n < |steps| ==> AllFit(trace[n]) && Happened(max, trace[n], trace[n + 1], steps[n])
  }

  lemma NothingTraced(max: StackMax, a: seq<Flagged>)
    ensures Traced(max, [a], [], a, a)
  {
  }

  lemma TracedMore(max: StackMax, trace: seq<seq<Flagged>>, steps: seq<Step>, first: seq<Flagged>, last: seq<Flagged>, step: Step,
                   next: seq<Flagged>)
    requires Traced(max, trace, steps, first, last) && AllFit(last) && Happened(max, last, next, step)
    ensures Traced(max, trace + [next], steps + [step], first, next)
  {
    hide Happened;
    var longer := trace + [next];
    forall n | 0 <= n < |steps + [step]| ensures AllFit(longer[n]) && Happened(max, longer[n], longer[n + 1], (steps + [step])[n]) {
      if n < |steps| {
        assert longer[n + 1] == trace[n + 1];
      }
    }
  }

  lemma {:induction false} LinesFit(lists: seq<Flagged>)
    requires forall i :: 0 <= i < |lists| ==> AllFit16(lists[i].data.items)
    ensures AllItemsFit(InventoryText(lists, true))
  {
    if lists != [] {
      LinesFit(lists[1..]);
    }
  }
}
