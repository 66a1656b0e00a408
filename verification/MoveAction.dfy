/** IMoveAction::apply for one slot: what a player's move does, given the answers of the permission callbacks. */
module MoveAction {
  import opened Items
  import opened Options
  import opened Stacks
  import opened SlotSums
  import opened InventoryLists

  const UNLIMITED := -1  // what the callbacks of an endless source or destination answer

  // What the callbacks answer for a count or a stack; the flag is set while the directions are swapped.
  datatype Allow = Allow(move: (nat, bool) -> int, put: (ItemStack, bool) -> int, take: (ItemStack, bool) -> int)

  predicate Suffices(answer: int, n: nat) { answer == UNLIMITED || answer >= n }

  /** Both callbacks grant a stack from one slot to the other. */
  predicate Granted(allow: Allow, sameInventory: bool, s: ItemStack, swapped: bool) {
    if sameInventory then Suffices(allow.move(s.count, swapped), s.count)
    else Suffices(allow.put(s, swapped), s.count) && Suffices(allow.take(s, swapped), s.count)
  }

  function Limited(answer: int, n: int): int {
    if answer == UNLIMITED || answer > n then n else answer
  }

  /** How many of `n` items two answers let pass; counts are unsigned, so that a negative number stands for all there are. */
  function Passed(take: int, put: int, n: nat, have: nat): nat {
    var m := Limited(put, Limited(take, n));
    if 0 <= m <= have then m else have
  }

  /** What the player asked for of a stack. */
  function Asked(s: ItemStack, count: nat): ItemStack {
    if 0 < count < s.count then s.(count := count) else s
  }

  // The decision before anything moves: how many items, and whether the two stacks change places;
  // whether the source and the destination are endless.
  datatype Plan = Nothing | Carry(count: nat, endlessFrom: bool, endlessTo: bool) | Swap(endlessFrom: bool, endlessTo: bool)

  predicate Endless(plan: Plan) { !plan.Nothing? && (plan.endlessFrom || plan.endlessTo) }

  /** What apply decides for a source stack `s` and a destination slot `d`. */
  function PlanFor(max: StackMax, s: ItemStack, d: ItemStack, count: nat, somewhere: bool, allow: Allow,
                   sameInventory: bool): Plan {
    var want := Asked(s, count);
    var fit := Capacity(max, d, want);
    if fit == 0 then
      if !somewhere && Granted(allow, sameInventory, s, false) && Granted(allow, sameInventory, d, true) then
        if sameInventory then Swap(allow.move(s.count, false) == UNLIMITED, allow.move(d.count, true) == UNLIMITED)
        else Swap(allow.take(s, false) == UNLIMITED, allow.put(s, false) == UNLIMITED)
      else Nothing
    else
      var item := want.(count := fit);
      var take := if sameInventory then allow.move(fit, false) else allow.take(item, false);
      var put := if sameInventory then take else allow.put(item, false);
      var n := Passed(take, put, fit, s.count);
      if n == 0 then Nothing
      else Carry(Capacity(max, d, s.(count := n)), take == UNLIMITED, put == UNLIMITED)
  }

  /** What two answers let pass of `fit` items, in numbers: no more than either grants, and either all or what one of them
      grants. An answer below -1 is taken for any number, which lets pass whatever of the `whole` stack there is room for. */
  ghost predicate LetPass(take: int, put: int, fit: nat, whole: nat, passed: nat) {
    if take < -1 || put < -1 then passed == whole
    else
      && passed <= fit && (take >= 0 ==> passed <= take) && (put >= 0 ==> passed <= put)
      && (passed == fit || passed == take || passed == put)
  }

  /** What the callbacks answer for a stack that is to go from the source to the destination, or back if `swapped`. */
  ghost predicate Answers(allow: Allow, sameInventory: bool, s: ItemStack, swapped: bool, take: int, put: int) {
    if sameInventory then take == put == allow.move(s.count, swapped)
    else take == allow.take(s, swapped) && put == allow.put(s, swapped)
  }

  /** The answers grant all of a stack: each says -1, or no less than there is. */
  ghost predicate GrantAll(allow: Allow, sameInventory: bool, s: ItemStack, swapped: bool) {
    forall take, put :: Answers(allow, sameInventory, s, swapped, take, put) ==>
      (take == -1 || take >= s.count) && (put == -1 || put >= s.count)
  }

  /** How much was moved between a source stack `s` and a destination slot `d`, and how, from the answers alone. */
  ghost predicate Obeys(max: StackMax, s: ItemStack, d: ItemStack, count: nat, somewhere: bool, allow: Allow,
                        sameInventory: bool, moveCount: nat, s1: ItemStack, d1: ItemStack)
  {
    var want := if count == 0 || count >= s.count then s else s.(count := count);
    var fit := Capacity(max, d, want);
    if fit > 0 then
      // a part of the stack goes over
      && moveCount <= s.count && CarriedOver(s, d, moveCount, s1, d1)
      && forall take, put :: Answers(allow, sameInventory, want.(count := fit), false, take, put) ==>
           LetPass(take, put, fit, Capacity(max, d, s), moveCount)
    else if !somewhere && GrantAll(allow, sameInventory, s, false) && GrantAll(allow, sameInventory, d, true) then
      // the stacks change places
      moveCount == s.count && s1 == d && d1 == s
    else
      moveCount == 0 && s1 == s && d1 == d
  }

  /** `n` items went from one slot to the other. */
  ghost predicate CarriedOver(s: ItemStack, d: ItemStack, n: nat, s1: ItemStack, d1: ItemStack) {
    && s1.count + n == s.count && (s1.count > 0 ==> KeyOf(s1) == KeyOf(s) && s1.wear == s.wear)
    && d1.count == d.count + n && (n > 0 ==> KeyOf(d1) == KeyOf(s)) && (n == 0 ==> d1 == d)
  }

  /** The answers for taking and putting, and whether a swap is still on; a swap takes two rounds of questions. */
  method AskCallbacks(allow: Allow, sameInventory: bool, item: ItemStack, d: ItemStack, swapExpected: bool)
    returns (take: int, put: int, swap: bool)
    ensures swap == (swapExpected && Granted(allow, sameInventory, item, false) && Granted(allow, sameInventory, d, true))
    ensures swapExpected && !swap ==> take == put == 0
    ensures !swapExpected ==> take == if sameInventory then allow.move(item.count, false) else allow.take(item, false)
    ensures !swapExpected ==> put == if sameInventory then take else allow.put(item, false)
    ensures swap ==> Suffices(take, item.count) && (Suffices(put, item.count) || Suffices(put, d.count))
    ensures swap ==> take == if sameInventory then allow.move(item.count, false) else allow.take(item, false)
    ensures swap ==> put == if sameInventory then allow.move(d.count, true) else allow.put(item, false)
  {
    if sameInventory {
      take := allow.move(item.count, false);
      swap := swapExpected && (take == UNLIMITED || take >= item.count);
      if swap {
        put := allow.move(d.count, true);
        swap := put == UNLIMITED || put >= d.count;
      } else {
        put := take;
      }
    } else {
      put := allow.put(item, false);
      take := allow.take(item, false);
      swap := swapExpected && (take == UNLIMITED || take >= item.count) && (put == UNLIMITED || put >= item.count);
      if swap {
        var back, other := allow.put(d, true), allow.take(d, true);
        swap := (back == UNLIMITED || back >= d.count) && (other == UNLIMITED || other >= d.count);
      }
    }
    if swapExpected != swap {
      take, put := 0, 0;
    }
  }

  /** What follows the plan obeys the answers; an end is endless exactly if the answer about it is -1. */
  lemma PlanObeys(max: StackMax, same: bool, a: Slots, a1: Slots, d: Slots, d1: Slots, i: nat, j: nat, count: nat,
                  somewhere: bool, allow: Allow, sameInventory: bool, moveCount: nat)
    requires AllFit16(a) && AllFit16(d) && (same ==> a == d) && Serves(same, a, i, d, j)
    requires Follows(max, same, a, a1, d, d1, i, j, PlanFor(max, a[i], d[j], count, somewhere, allow, sameInventory), moveCount)
    ensures |a1| == |a| && |d1| == |d|
    ensures Obeys(max, a[i], d[j], count, somewhere, allow, sameInventory, moveCount, a1[i], d1[j])
  {
    hide Granted, GrantAll, LetPass, Passed, AddItem;
    var s, other := a[i], d[j];
    var want := Asked(s, count);
    var fit := Capacity(max, other, want);
    var item := want.(count := fit);
    if fit > 0 {
      var take := if sameInventory then allow.move(fit, false) else allow.take(item, false);
      var put := if sameInventory then take else allow.put(item, false);
      PassedLetsPass(max, s, other, count, take, put);
      assert LetPass(take, put, fit, Capacity(max, other, s), moveCount);
      assert forall t, p :: Answers(allow, sameInventory, item, false, t, p) ==> t == take && p == put;
      AddItemConserves(max, other, s.(count := moveCount));
    } else {
      AllGranted(allow, sameInventory, s, false);
      AllGranted(allow, sameInventory, other, true);
    }
  }

  lemma PassedLetsPass(max: StackMax, s: ItemStack, d: ItemStack, count: nat, take: int, put: int)
    requires s.count > 0 && Capacity(max, d, Asked(s, count)) > 0
    ensures var fit := Capacity(max, d, Asked(s, count));
            var n := Passed(take, put, fit, s.count);
            LetPass(take, put, fit, Capacity(max, d, s), if n == 0 then 0 else Capacity(max, d, s.(count := n)))
  {
    assert s.(count := s.count) == s;
  }

  lemma AllGranted(allow: Allow, sameInventory: bool, s: ItemStack, swapped: bool)
    ensures Granted(allow, sameInventory, s, swapped) <==> GrantAll(allow, sameInventory, s, swapped)
  {
    if sameInventory {
      assert Answers(allow, sameInventory, s, swapped, allow.move(s.count, swapped), allow.move(s.count, swapped));
    } else {
      assert Answers(allow, sameInventory, s, swapped, allow.take(s, swapped), allow.put(s, swapped));
    }
  }

  /** Which ends a plan takes for endless. */
  lemma EndlessPlans(max: StackMax, s: ItemStack, d: ItemStack, count: nat, somewhere: bool, allow: Allow,
                     sameInventory: bool)
    requires Fits16(s) && Fits16(d) && s.count > 0
    ensures var want := if count == 0 || count >= s.count then s else s.(count := count);
            var item := want.(count := Capacity(max, d, want));
            match PlanFor(max, s, d, count, somewhere, allow, sameInventory)
            case Nothing => true
            case Carry(_, endlessFrom, endlessTo) =>
              && (endlessFrom <==> -1 == if sameInventory then allow.move(item.count, false) else allow.take(item, false))
              && (endlessTo <==> -1 == if sameInventory then allow.move(item.count, false) else allow.put(item, false))
            case Swap(endlessFrom, endlessTo) =>
              && (endlessFrom <==> -1 == if sameInventory then allow.move(s.count, false) else allow.take(s, false))
              && (endlessTo <==> -1 == if sameInventory then allow.move(d.count, true) else allow.put(s, false))
  {
  }

  // The slots of both lists, which are the same if the lists are.
  datatype Both = Both(from: Slots, to: Slots)

  function PutFrom(same: bool, t: Both, i: nat, s: ItemStack): Both {
    var slots := if i < |t.from| then t.from[i := s] else t.from;
    Both(slots, if same then slots else t.to)
  }

  function PutTo(same: bool, t: Both, j: nat, s: ItemStack): Both {
    var slots := if j < |t.to| then t.to[j := s] else t.to;
    Both(if same then slots else t.from, slots)
  }

  /** The first empty slot from `i` on, or the number of slots. */
  function FirstEmpty(slots: Slots, i: nat): (e: nat)
    requires i <= |slots|
    ensures i <= e <= |slots| && (e < |slots| ==> slots[e].Empty()) && forall n :: i <= n < e ==> !slots[n].Empty()
    decreases |slots| - i
  {
    if i == |slots| || slots[i].Empty() then i else FirstEmpty(slots, i + 1)
  }

  /** An endless source gets its stack back; a stack of another name that was in the destination goes to an empty slot there. */
  function Refilled(same: bool, t: Both, i: nat, s: ItemStack, d: ItemStack, somewhere: bool): Both {
    PutFrom(same, if !somewhere && s.name != d.name then PutTo(same, t, FirstEmpty(t.to, 0), d) else t, i, s)
  }

  /** An endless destination gets its stack back; after a swap the source has what is left of its own. */
  function Emptied(same: bool, t: Both, i: nat, j: nat, s: ItemStack, d: ItemStack, moveCount: nat, didSwap: bool): Both {
    var t1 := PutTo(same, t, j, d);
    if didSwap then PutFrom(same, t1, i, TakeItem(s, moveCount).0) else t1
  }

  /** The lists in the end, after `mid`. */
  function Final(same: bool, somewhere: bool, plan: Plan, mid: Both, i: nat, j: nat, s: ItemStack, d: ItemStack,
                 moveCount: nat): Both
  {
    if plan.Nothing? then mid
    else
      var t := if plan.endlessFrom then Refilled(same, mid, i, s, d, somewhere) else mid;
      if plan.endlessTo then Emptied(same, t, i, j, s, d, moveCount, plan.Swap?) else t
  }

  /** A request for a stack that is there and a slot that is another one. */
  predicate Serves(same: bool, a: Slots, i: int, d: Slots, j: int) {
    0 <= i < |a| && 0 <= j < |d| && !(same && i == j) && !a[i].Empty()
  }

  /** `mid` are the lists as the move leaves them, before endless ones are restored. */
  method Apply(max: StackMax, from: InventoryList, fromIndex: int, to: InventoryList, toIndex: int, count: nat,
               somewhere: bool, sameInventory: bool, fromPlayer: bool, toPlayer: bool, allow: Allow)
    returns (moveCount: nat, ghost mid: Both)
    requires from.Valid() && to.Valid() && from.max == to.max == max && (from == to ==> sameInventory)
    modifies from`items, from`dirty, to`items, to`dirty
    ensures from.Valid() && to.Valid() && from.Tracked() && to.Tracked()
    ensures |from.items| == |old(from.items)| && |to.items| == |old(to.items)|
    // requests that cannot be served change nothing
    ensures !Serves(from == to, old(from.items), fromIndex, old(to.items), toIndex) ==>
              from.items == old(from.items) && to.items == old(to.items) && moveCount == 0
    // all others follow the plan
    ensures Serves(from == to, old(from.items), fromIndex, old(to.items), toIndex) ==>
              var s, d := old(from.items)[fromIndex], old(to.items)[toIndex];
              var plan := PlanFor(max, s, d, count, somewhere, allow, sameInventory);
              && Follows(max, from == to, old(from.items), mid.from, old(to.items), mid.to, fromIndex, toIndex, plan, moveCount)
              && |mid.from| == |old(from.items)| && |mid.to| == |old(to.items)|
              && Both(from.items, to.items) == Final(from == to, somewhere, plan, mid, fromIndex, toIndex, s, d, moveCount)
              // which obeys what the callbacks answered
              && Obeys(max, s, d, count, somewhere, allow, sameInventory, moveCount, mid.from[fromIndex], mid.to[toIndex])
              // and keep all totals, unless an end is endless, where carried items are made or lost
              && forall k :: Balanced(plan, s, moveCount, old(Sum(from, to, k)), Sum(from, to, k), k)
    // a refused move has players' clients take back what they predicted
    ensures Serves(from == to, old(from.items), fromIndex, old(to.items), toIndex) && moveCount == 0
            && !(somewhere && Capacity(max, old(to.items)[toIndex], Asked(old(from.items)[fromIndex], count)) == 0) ==>
              (fromPlayer ==> from.dirty) && (toPlayer ==> to.dirty)
  {
    moveCount, mid := 0, Both(from.items, to.items);
    if fromIndex < 0 || |from.items| <= fromIndex {
      return;
    }
    if toIndex < 0 || |to.items| <= toIndex {
      return;
    }
    if from == to && fromIndex == toIndex {
      return;
    }
    if Asked(from.items[fromIndex], count).Empty() {
      return;
    }
    hide PlanFor, Final, Follows, Obeys;
    moveCount, mid := Serve(max, from, fromIndex, to, toIndex, count, somewhere, sameInventory, fromPlayer, toPlayer, allow);
  }

  /** What the plan says about totals. */
  ghost predicate Balanced(plan: Plan, s: ItemStack, moveCount: nat, before: nat, after: nat, k: Key) {
    var carried := if plan.Carry? then CountOf(s.(count := moveCount), k) else 0;
    && (!Endless(plan) ==> after == before)
    && (plan.Carry? ==>
          after + (if plan.endlessTo then carried else 0) == before + if plan.endlessFrom then carried else 0)
  }

  method Serve(max: StackMax, from: InventoryList, fromIndex: nat, to: InventoryList, toIndex: nat, count: nat,
               somewhere: bool, sameInventory: bool, fromPlayer: bool, toPlayer: bool, allow: Allow)
    returns (moveCount: nat, ghost mid: Both)
    requires from.Valid() && to.Valid() && from.max == to.max == max && (from == to ==> sameInventory)
    requires Serves(from == to, from.items, fromIndex, to.items, toIndex)
    modifies from`items, from`dirty, to`items, to`dirty
    ensures from.Valid() && to.Valid() && from.Tracked() && to.Tracked()
    ensures |from.items| == |old(from.items)| && |to.items| == |old(to.items)|
    ensures var s, d := old(from.items)[fromIndex], old(to.items)[toIndex];
            var plan := PlanFor(max, s, d, count, somewhere, allow, sameInventory);
            && Follows(max, from == to, old(from.items), mid.from, old(to.items), mid.to, fromIndex, toIndex, plan, moveCount)
            && Both(from.items, to.items) == Final(from == to, somewhere, plan, mid, fromIndex, toIndex, s, d, moveCount)
            && |mid.from| == |old(from.items)| && |mid.to| == |old(to.items)|
            && Obeys(max, s, d, count, somewhere, allow, sameInventory, moveCount, mid.from[fromIndex], mid.to[toIndex])
            && forall k :: Balanced(plan, s, moveCount, old(Sum(from, to, k)), Sum(from, to, k), k)
    ensures moveCount == 0
            && !(somewhere && Capacity(max, old(to.items)[toIndex], Asked(old(from.items)[fromIndex], count)) == 0) ==>
              (fromPlayer ==> from.dirty) && (toPlayer ==> to.dirty)
  {
    hide PlanFor, Final, Move, Total, Follows, Balanced, Capacity, Obeys;
    moveCount, mid := 0, Both(from.items, to.items);
    var s, d := from.items[fromIndex], to.items[toIndex];
    ghost var plan, same := PlanFor(max, s, d, count, somewhere, allow, sameInventory), from == to;
    var take, put, allowSwap, shifted;
    moveCount, take, put, allowSwap, shifted := Decide(max, s, d, count, somewhere, allow, sameInventory);
    if shifted {
      NothingDone(max, same, somewhere, plan, mid.from, mid.to, fromIndex, toIndex);
      PlanObeys(max, same, mid.from, mid.from, mid.to, mid.to, fromIndex, toIndex, count, somewhere, allow, sameInventory, 0);
      return;
    }
    if moveCount == 0 {
      NothingDone(max, same, somewhere, plan, mid.from, mid.to, fromIndex, toIndex);
      PlanObeys(max, same, mid.from, mid.from, mid.to, mid.to, fromIndex, toIndex, count, somewhere, allow, sameInventory, 0);
      if fromPlayer {
        from.dirty := true;
      }
      if toPlayer {
        to.dirty := true;
      }
      return;
    }
    ghost var a, e := from.items, to.items;
    var moved, didSwap := from.MoveItem(fromIndex, to, toIndex, moveCount, allowSwap);
    PlanIsFollowed(max, same, a, from.items, e, to.items, fromIndex, toIndex, moveCount, allowSwap, moved, didSwap, plan);
    assert allowSwap == didSwap;
    moveCount := moved.count;
    mid := Both(from.items, to.items);
    forall k ensures Holdings(same, mid, k) == Holdings(same, Both(a, e), k) {
      assert Sum(from, to, k) == old(Sum(from, to, k));
    }
    PlanObeys(max, same, a, mid.from, e, mid.to, fromIndex, toIndex, count, somewhere, allow, sameInventory, moveCount);
    if take == UNLIMITED || put == UNLIMITED {
      Restore(from, fromIndex, to, toIndex, s, d, somewhere, moveCount, didSwap, take, put, plan);
    }
    FinalFinite(same, somewhere, plan, mid, fromIndex, toIndex, s, d, moveCount);
    FinalSize(same, somewhere, plan, mid, fromIndex, toIndex, s, d, moveCount);
    forall k ensures Balanced(plan, s, moveCount, old(Sum(from, to, k)), Sum(from, to, k), k) {
      PlanBalances(max, same, somewhere, a, e, mid, fromIndex, toIndex, plan, moveCount, k);
    }
  }

  lemma PlanBalances(max: StackMax, same: bool, somewhere: bool, a: Slots, d: Slots, mid: Both, i: nat, j: nat, plan: Plan,
                     moveCount: nat, k: Key)
    requires AllFit16(a) && AllFit16(d) && (same ==> a == d) && Serves(same, a, i, d, j)
    requires Follows(max, same, a, mid.from, d, mid.to, i, j, plan, moveCount)
    requires plan.Carry? ==> plan.count > 0 && Capacity(max, d[j], a[i].(count := plan.count)) == plan.count
    requires Holdings(same, mid, k) == Holdings(same, Both(a, d), k)
    ensures Balanced(plan, a[i], moveCount, Holdings(same, Both(a, d), k),
                     Holdings(same, Final(same, somewhere, plan, mid, i, j, a[i], d[j], moveCount), k), k)
  {
    hide Final, Holdings, Capacity;
    FinalFinite(same, somewhere, plan, mid, i, j, a[i], d[j], moveCount);
    if plan.Carry? {
      CarryTotals(max, same, somewhere, a, d, mid, i, j, plan, moveCount, k);
    }
  }

  lemma NothingDone(max: StackMax, same: bool, somewhere: bool, plan: Plan, a: Slots, d: Slots, i: nat, j: nat)
    requires AllFit16(a) && AllFit16(d) && i < |a| && j < |d| && (same ==> a == d) && plan.Nothing?
    ensures Follows(max, same, a, a, d, d, i, j, plan, 0)
    ensures Final(same, somewhere, plan, Both(a, d), i, j, a[i], d[j], 0) == Both(a, d)
    ensures forall n, k :: Balanced(plan, a[i], 0, n, n, k)
  {
  }

  lemma FinalFinite(same: bool, somewhere: bool, plan: Plan, mid: Both, i: nat, j: nat, s: ItemStack, d: ItemStack,
                    moveCount: nat)
    ensures !Endless(plan) ==> Final(same, somewhere, plan, mid, i, j, s, d, moveCount) == mid
  {
  }

  lemma FinalSize(same: bool, somewhere: bool, plan: Plan, mid: Both, i: nat, j: nat, s: ItemStack, d: ItemStack,
                  moveCount: nat)
    requires same ==> mid.from == mid.to
    ensures var t := Final(same, somewhere, plan, mid, i, j, s, d, moveCount);
            |t.from| == |mid.from| && |t.to| == |mid.to|
  {
  }

  /** What apply does after the move for ends that are endless. */
  method Restore(from: InventoryList, fromIndex: nat, to: InventoryList, toIndex: nat, s: ItemStack, d: ItemStack,
                 somewhere: bool, moveCount: nat, didSwap: bool, take: int, put: int, ghost plan: Plan)
    requires from.Valid() && to.Valid() && Fits16(s) && Fits16(d)
    requires !plan.Nothing? && didSwap == plan.Swap? && moveCount > 0
    requires plan.endlessFrom == (take == UNLIMITED) && plan.endlessTo == (put == UNLIMITED)
    modifies from`items, from`dirty, to`items, to`dirty
    ensures from.Valid() && to.Valid() && from.Tracked() && to.Tracked()
    ensures Both(from.items, to.items) ==
            Final(from == to, somewhere, plan, old(Both(from.items, to.items)), fromIndex, toIndex, s, d, moveCount)
  {
    hide Refilled, Emptied;
    if take == UNLIMITED {
      Refill(from, fromIndex, to, s, d, somewhere, moveCount, didSwap);
    }
    if put == UNLIMITED {
      Empty(from, fromIndex, to, toIndex, s, d, moveCount, didSwap);
    }
  }

  method Refill(from: InventoryList, fromIndex: nat, to: InventoryList, s: ItemStack, d: ItemStack, somewhere: bool,
                moveCount: nat, didSwap: bool)
    requires from.Valid() && to.Valid() && Fits16(s) && Fits16(d) && moveCount > 0
    modifies from`items, from`dirty, to`items, to`dirty
    ensures from.Valid() && to.Valid() && from.Tracked() && to.Tracked()
    ensures Both(from.items, to.items) == Refilled(from == to, old(Both(from.items, to.items)), fromIndex, s, d, somewhere)
  {
    if !somewhere && s.name != d.name {
      PutIntoEmpty(to, d);
    }
    if moveCount > 0 || didSwap {
      var _ := from.ChangeItem(fromIndex, s);
    }
  }

  method Empty(from: InventoryList, fromIndex: nat, to: InventoryList, toIndex: nat, s: ItemStack, d: ItemStack,
               moveCount: nat, didSwap: bool)
    requires from.Valid() && to.Valid() && Fits16(s) && Fits16(d)
    modifies from`items, from`dirty, to`items, to`dirty
    ensures from.Valid() && to.Valid() && from.Tracked() && to.Tracked()
    ensures Both(from.items, to.items) ==
            Emptied(from == to, old(Both(from.items, to.items)), fromIndex, toIndex, s, d, moveCount, didSwap)
  {
    var changed := to.ChangeItem(toIndex, d);
    if didSwap {
      changed := from.ChangeItem(fromIndex, s);
      changed := from.TakeItemAt(fromIndex, moveCount);
    }
  }

  /** Puts a stack into the first empty slot, if there is one. */
  method PutIntoEmpty(list: InventoryList, s: ItemStack)
    requires list.Valid() && Fits16(s)
    modifies list`items, list`dirty
    ensures list.Valid() && list.Tracked()
    ensures var e := FirstEmpty(old(list.items), 0);
            list.items == if e < |old(list.items)| then old(list.items)[e := s] else old(list.items)
  {
    var i := 0;
    while i < |list.items| && !list.items[i].Empty()
      invariant i <= |list.items| && FirstEmpty(list.items, 0) == FirstEmpty(list.items, i)
    {
      i := i + 1;
    }
    if i < |list.items| {
      var _ := list.ChangeItem(i, s);
    }
  }

  /** How many items are to be moved, the answers about them, and whether by a swap;
      `shifted` when a full stack is passed over. */
  method Decide(max: StackMax, s: ItemStack, d: ItemStack, count: nat, somewhere: bool, allow: Allow, sameInventory: bool)
    returns (moveCount: nat, take: int, put: int, allowSwap: bool, shifted: bool)
    requires Fits16(s) && Fits16(d) && s.count > 0
    ensures moveCount > 0 && !shifted ==>
        Decided(max, s, d, moveCount, take, put, allowSwap, PlanFor(max, s, d, count, somewhere, allow, sameInventory))
    ensures shifted <==> somewhere && Capacity(max, d, Asked(s, count)) == 0
    ensures moveCount == 0 || shifted ==> PlanFor(max, s, d, count, somewhere, allow, sameInventory).Nothing? && moveCount == 0
  {
    hide Stacks.ItemFits, Stacks.AddItem;
    take, put, allowSwap, shifted := 0xFFFF, 0xFFFF, false, false;
    var item, swapExpected := Collect(max, s, d, count, somewhere);
    moveCount := item.count;
    if somewhere && moveCount == 0 {
      shifted := true;
      return;
    }
    take, put, allowSwap := AskCallbacks(allow, sameInventory, item, d, swapExpected);
    moveCount := Limit(take, put, moveCount, s.count);
  }

  /** The stack that is to be moved, before anyone was asked: what fits, or all of the slot if it should be swapped. */
  method Collect(max: StackMax, s: ItemStack, d: ItemStack, count: nat, somewhere: bool)
    returns (item: ItemStack, swapExpected: bool)
    requires Fits16(s) && Fits16(d) && s.count > 0
    ensures var fit := Capacity(max, d, Asked(s, count));
            && (swapExpected <==> fit == 0 && !somewhere)
            && item == s.(count := if swapExpected then s.count else fit)
  {
    item := s;
    if 0 < count < item.count {
      item := item.(count := count);
    }
    ItemFitsPredicts(max, d, item);
    AddItemConserves(max, d, item);
    var (fits, rest) := ItemFits(max, d, item);
    swapExpected := !fits && rest.count == item.count && !somewhere;
    var moveCount := item.count - rest.count;
    if swapExpected {
      item := s;
      moveCount := item.count;
    }
    item := item.(count := moveCount);
  }

  /** Applies the limits that the callbacks gave. */
  method Limit(take: int, put: int, count: nat, have: nat) returns (n: nat)
    requires count <= have
    ensures n == Passed(take, put, count, have)
  {
    var m: int := count;
    if take != UNLIMITED && take < m {
      m := take;
    }
    if put != UNLIMITED && put < m {
      m := put;
    }
    // a negative number becomes a large unsigned one
    n := if m < 0 || m > have then have else m;
  }

  /** A count to be moved that suits the plan. */
  ghost predicate Decided(max: StackMax, s: ItemStack, d: ItemStack, moveCount: nat, take: int, put: int, allowSwap: bool,
                          plan: Plan)
  {
    && 0 < moveCount <= s.count && !plan.Nothing?
    && (plan.Swap? <==> allowSwap)
    && plan.endlessFrom == (take == UNLIMITED) && plan.endlessTo == (put == UNLIMITED)
    && (plan.Swap? ==> Capacity(max, d, s) == 0)
    && (plan.Carry? ==> plan.count == Capacity(max, d, s.(count := moveCount)) > 0)
    && (plan.Carry? ==> Capacity(max, d, s.(count := plan.count)) == plan.count)
  }

  /** What moveItem does is what was planned; in particular it swaps exactly when a swap was allowed. */
  lemma PlanIsFollowed(max: StackMax, same: bool, a: Slots, a1: Slots, d: Slots, d1: Slots, i: nat, j: nat,
                       moveCount: nat, allowSwap: bool, moved: ItemStack, didSwap: bool, plan: Plan)
    requires AllFit16(a) && AllFit16(d) && (same ==> a == d && a1 == d1) && !(same && i == j)
    requires i < |a| && j < |d| && !a[i].Empty()
    requires MovedSlots(max, same, a, a1, d, d1, i, j, moveCount, allowSwap, moved, didSwap)
    requires 0 < moveCount <= a[i].count && !plan.Nothing? && (plan.Swap? <==> allowSwap)
    requires plan.Swap? ==> Capacity(max, d[j], a[i]) == 0
    requires plan.Carry? ==> plan.count == Capacity(max, d[j], a[i].(count := moveCount)) > 0
    ensures didSwap == allowSwap && moved.count > 0 && Follows(max, same, a, a1, d, d1, i, j, plan, moved.count)
  {
    var s := a[i];
    assert Capacity(max, d[j], s.(count := moveCount)) == if plan.Swap? then 0 else plan.count;
    if plan.Swap? {
      assert if same then a1 == a[i := a[j]][j := a[i]] else a1 == a[i := d[j]] && d1 == d[j := a[i]];
    } else {
      SameAdded(max, d[j], s, moveCount);
    }
  }

  /** Adding more than fits adds what fits. */
  lemma SameAdded(max: StackMax, d: ItemStack, s: ItemStack, n: nat)
    requires Fits16(d) && Fits16(s) && 0 < n <= s.count && Capacity(max, d, s.(count := n)) > 0
    ensures var fit := Capacity(max, d, s.(count := n));
            fit <= n && AddItem(max, d, s.(count := n)).0 == AddItem(max, d, s.(count := fit)).0
  {
  }

  /** The lists after a plan was carried out, up to endless ends. */
  ghost predicate Follows(max: StackMax, same: bool, a: Slots, a1: Slots, d: Slots, d1: Slots, i: nat, j: nat, plan: Plan,
                          moveCount: nat)
    requires i < |a| && j < |d| && AllFit16(a) && AllFit16(d)
  {
    (same ==> a1 == d1) &&
    match plan
    case Nothing => a1 == a && d1 == d && moveCount == 0
    case Swap(_, _) =>
      && moveCount == a[i].count
      && if same then j < |a| && a1 == a[i := a[j]][j := a[i]] else a1 == a[i := d[j]] && d1 == d[j := a[i]]
    case Carry(n, _, _) =>
      && moveCount == n <= a[i].count
      && At(a1, i) == Some(Less(a[i], n)) && At(d1, j) == Some(Stacks.AddItem(max, d[j], a[i].(count := n)).0)
      && if same then OnlyTwo(a, a1, i, j) else OnlyTwo(a, a1, i, i) && OnlyTwo(d, d1, j, j)
  }

  /** The items of a kind in both lists. */
  function Holdings(same: bool, t: Both, k: Key): nat {
    Total(t.from, k) + if same then 0 else Total(t.to, k)
  }

  lemma PutFromTotal(same: bool, t: Both, i: nat, s: ItemStack, k: Key)
    requires i < |t.from| && (same ==> t.from == t.to)
    ensures Holdings(same, PutFrom(same, t, i, s), k) + CountOf(t.from[i], k) == Holdings(same, t, k) + CountOf(s, k)
  {
    TotalUpdate(t.from, i, s, k);
  }

  lemma PutToTotal(same: bool, t: Both, j: nat, s: ItemStack, k: Key)
    requires j < |t.to| && (same ==> t.from == t.to)
    ensures Holdings(same, PutTo(same, t, j, s), k) + CountOf(t.to[j], k) == Holdings(same, t, k) + CountOf(s, k)
  {
    TotalUpdate(t.to, j, s, k);
  }

  /** Carrying makes just the items that leave an endless source, and loses just those that enter an endless destination. */
  lemma CarryTotals(max: StackMax, same: bool, somewhere: bool, a: Slots, d: Slots, mid: Both, i: nat, j: nat, plan: Plan,
                    moveCount: nat, k: Key)
    requires AllFit16(a) && AllFit16(d) && (same ==> a == d) && Serves(same, a, i, d, j) && plan.Carry? && plan.count > 0
    requires Follows(max, same, a, mid.from, d, mid.to, i, j, plan, moveCount)
    requires Capacity(max, d[j], a[i].(count := plan.count)) == plan.count
    requires Holdings(same, mid, k) == Holdings(same, Both(a, d), k)
    ensures var carried := CountOf(a[i].(count := plan.count), k);
            Holdings(same, Final(same, somewhere, plan, mid, i, j, a[i], d[j], moveCount), k)
            + (if plan.endlessTo then carried else 0) ==
            Holdings(same, Both(a, d), k) + if plan.endlessFrom then carried else 0
  {
    hide Total, AddItem, Refilled;
    var s, other := a[i], d[j];
    AddItemConserves(max, other, s.(count := plan.count));
    LessCounts(s, plan.count, k);
    var t := mid;
    if plan.endlessFrom {
      RefilledTotal(same, mid, i, s, other, somewhere, k);
      RefilledSpares(same, mid, i, j, s, other, somewhere);
      t := Refilled(same, mid, i, s, other, somewhere);
    }
    if plan.endlessTo {
      PutToTotal(same, t, j, other, k);
    }
  }

  lemma LessCounts(s: ItemStack, n: nat, k: Key)
    requires n <= s.count
    ensures CountOf(Less(s, n), k) + CountOf(s.(count := n), k) == CountOf(s, k)
  {
  }

  /** Refilling after items were carried: what was in the destination was of the same name, or nothing. */
  lemma RefilledTotal(same: bool, t: Both, i: nat, s: ItemStack, d: ItemStack, somewhere: bool, k: Key)
    requires i < |t.from| && (same ==> t.from == t.to) && (s.name != d.name ==> d.Empty())
    ensures Holdings(same, Refilled(same, t, i, s, d, somewhere), k) + CountOf(t.from[i], k) ==
            Holdings(same, t, k) + CountOf(s, k)
  {
    hide Total;
    var t1 := t;
    if !somewhere && s.name != d.name {
      var e := FirstEmpty(t.to, 0);
      if e < |t.to| {
        PutToTotal(same, t, e, d, k);
      }
      t1 := PutTo(same, t, e, d);
    }
    PutFromTotal(same, t1, i, s, k);
  }

  lemma RefilledSpares(same: bool, t: Both, i: nat, j: nat, s: ItemStack, d: ItemStack, somewhere: bool)
    requires i < |t.from| && j < |t.to| && (same ==> t.from == t.to && i != j) && !t.to[j].Empty()
    ensures var r := Refilled(same, t, i, s, d, somewhere);
            (same ==> r.from == r.to) && j < |r.to| && r.to[j] == t.to[j]
  {
  }

  /** A swap with an endless end loses the stack of the other side, or makes another one of it. With an endless destination
      the source is left empty, even if it is endless itself. */
  lemma SwapTotals(max: StackMax, same: bool, a: Slots, d: Slots, mid: Both, i: nat, j: nat, plan: Plan, k: Key)
    requires AllFit16(a) && AllFit16(d) && (same ==> a == d) && Serves(same, a, i, d, j) && !d[j].Empty() && plan.Swap?
    requires Follows(max, same, a, mid.from, d, mid.to, i, j, plan, a[i].count)
    requires Holdings(same, mid, k) == Holdings(same, Both(a, d), k)
    ensures var t := Final(same, false, plan, mid, i, j, a[i], d[j], a[i].count);
            var again := if a[i].name != d[j].name && FirstEmpty(mid.to, 0) < |mid.to| then CountOf(d[j], k) else 0;
            var before, after := Holdings(same, Both(a, d), k), Holdings(same, t, k);
            && (plan.endlessFrom && !plan.endlessTo ==> after + CountOf(d[j], k) == before + CountOf(a[i], k) + again)
            && (plan.endlessFrom && plan.endlessTo ==> after + CountOf(a[i], k) == before + again)
            && (!plan.endlessFrom && plan.endlessTo ==> after + CountOf(a[i], k) == before)
            && (!plan.endlessFrom && !plan.endlessTo ==> after == before)
            && (plan.endlessTo ==> At(t.from, i) == Some(NOTHING) && At(t.to, j) == Some(d[j]))
  {
    hide Total, CountOf;
    var s, other, t := a[i], d[j], mid;
    if plan.endlessFrom {
      if s.name != other.name {
        var e := FirstEmpty(t.to, 0);
        if e < |t.to| {
          PutToTotal(same, t, e, other, k);
          EmptyCounts(t.to[e], k);
        }
        t := PutTo(same, t, e, other);
      }
      PutFromTotal(same, t, i, s, k);
      t := PutFrom(same, t, i, s);
    }
    if plan.endlessTo {
      PutToTotal(same, t, j, other, k);
      t := PutTo(same, t, j, other);
      PutFromTotal(same, t, i, NOTHING, k);
      EmptyCounts(NOTHING, k);
    }
  }

  lemma EmptyCounts(s: ItemStack, k: Key)
    requires s.Empty()
    ensures CountOf(s, k) == 0
  {
  }
}
