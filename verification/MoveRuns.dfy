/** Runs of moves between the lists of a game: no kind of item is ever made or lost. */
module MoveRuns {
  import opened Items
  import opened Stacks
  import opened SlotSums
  import opened InventoryLists
  import MoveAction

  // A request to move items from slot `i` of list `x` to slot `j` of list `y`, or anywhere in it.
  datatype Command =
    | MoveItem(x: nat, i: nat, y: nat, j: nat, count: nat, swap: bool)
    | MoveItemSomewhere(x: nat, i: nat, y: nat, count: nat)
    | PlayerMove(x: nat, from: int, y: nat, to: int, count: nat, somewhere: bool, sameInventory: bool,
                 fromPlayer: bool, toPlayer: bool, allow: MoveAction.Allow)

  // What an operation answers.
  datatype Answer = Answer(moved: ItemStack, didSwap: bool, moveCount: nat)

  function GrandTotal(lists: seq<Slots>, k: Key): nat {
    if lists == [] then 0 else GrandTotal(lists[..|lists| - 1], k) + Total(lists[|lists| - 1], k)
  }

  function PairTotal(lists: seq<Slots>, x: nat, y: nat, k: Key): nat
    requires x < |lists| && y < |lists|
  {
    Total(lists[x], k) + if x == y then 0 else Total(lists[y], k)
  }

  lemma {:induction false} GrandUpdate(lists: seq<Slots>, x: nat, s: Slots, k: Key)
    requires x < |lists|
    ensures GrandTotal(lists[x := s], k) + Total(lists[x], k) == GrandTotal(lists, k) + Total(s, k)
  {
    var n := |lists| - 1;
    if x == n {
      assert lists[x := s][..n] == lists[..n];
    } else {
      assert lists[x := s][..n] == lists[..n][x := s];
      GrandUpdate(lists[..n], x, s, k);
    }
  }

  /** What keeps the totals of two lists, or of one, and leaves the others alone keeps the totals of all. */
  lemma PairKeepsGrandTotal(a: seq<Slots>, b: seq<Slots>, x: nat, y: nat, k: Key)
    requires x < |a| && y < |a| == |b| && forall z :: 0 <= z < |a| && z != x && z != y ==> b[z] == a[z]
    requires PairTotal(b, x, y, k) == PairTotal(a, x, y, k)
    ensures GrandTotal(b, k) == GrandTotal(a, k)
  {
    var c := a[x := b[x]];
    GrandUpdate(a, x, b[x], k);
    GrandUpdate(c, y, b[y], k);
    assert b == c[y := b[y]];
  }

  lemma GrandTotalsKept(a: seq<Slots>, b: seq<Slots>, x: nat, y: nat)
    requires x < |a| && y < |a| == |b| && forall z :: 0 <= z < |a| && z != x && z != y ==> b[z] == a[z]
    requires forall k :: PairTotal(b, x, y, k) == PairTotal(a, x, y, k)
    ensures forall k :: GrandTotal(b, k) == GrandTotal(a, k)
  {
    hide PairTotal, GrandTotal;
    forall k ensures GrandTotal(b, k) == GrandTotal(a, k) {
      PairKeepsGrandTotal(a, b, x, y, k);
    }
  }

  ghost predicate AllFit(lists: seq<Slots>) {
    forall x :: 0 <= x < |lists| ==> AllFit16(lists[x])
  }

  /** What a command makes of the lists: what the operation promises of its own two, nothing of the others. */
  ghost predicate Done(max: StackMax, a: seq<Slots>, b: seq<Slots>, c: Command, r: Answer)
    requires AllFit(a) && |a| == |b|
  {
    && (forall z :: 0 <= z < |a| && z != c.x && z != c.y ==> b[z] == a[z])
    && if c.x >= |a| || c.y >= |a| then b == a else Carried(max, a, b, c, r)
  }

  ghost predicate Carried(max: StackMax, a: seq<Slots>, b: seq<Slots>, c: Command, r: Answer)
    requires AllFit(a) && |a| == |b| && c.x < |a| && c.y < |a|
  {
    var s, d := a[c.x], a[c.y];
    match c
    case MoveItem(x, i, y, j, count, swap) =>
      MovedSlots(max, x == y, s, b[x], d, b[y], i, j, count, swap, r.moved, r.didSwap)
    case MoveItemSomewhere(x, i, y, count) =>
      x != y && i < |s| && !s[i].Empty() ==>
        var want := s[i].(count := Wanted(s[i], count));
        && OnlyTwo(s, b[x], i, i) && Merged(max, d, b[y], want)
        && b[x][i] == Less(s[i], Least(want.count, RoomFor(max, d, want)))
    case PlayerMove(x, i, y, j, count, somewhere, sameInventory, _, _, allow) =>
      if MoveAction.Serves(x == y, s, i, d, j) then
        var plan := MoveAction.PlanFor(max, s[i], d[j], count, somewhere, allow, sameInventory || x == y);
        exists mid: MoveAction.Both ::
          && MoveAction.Follows(max, x == y, s, mid.from, d, mid.to, i, j, plan, r.moveCount)
          && MoveAction.Both(b[x], b[y]) == MoveAction.Final(x == y, somewhere, plan, mid, i, j, s[i], d[j], r.moveCount)
      else b[x] == s && b[y] == d
  }

  /** No end of the command is endless. */
  ghost predicate Limited(c: Command) {
    c.PlayerMove? ==>
      && (forall n, swapped :: c.allow.move(n, swapped) != MoveAction.UNLIMITED)
      && (forall s, swapped :: c.allow.put(s, swapped) != MoveAction.UNLIMITED)
      && (forall s, swapped :: c.allow.take(s, swapped) != MoveAction.UNLIMITED)
  }

  lemma LimitedPlan(max: StackMax, s: ItemStack, d: ItemStack, c: Command)
    requires c.PlayerMove? && Limited(c)
    ensures forall same :: !MoveAction.Endless(MoveAction.PlanFor(max, s, d, c.count, c.somewhere, c.allow, same))
  {
  }

  /** Lists of one game, each of them once. */
  ghost predicate Game(lists: seq<InventoryList>, max: StackMax)
    reads lists
  {
    && (forall x :: 0 <= x < |lists| ==> lists[x].Valid() && lists[x].max == max)
    && forall x, y :: 0 <= x < y < |lists| ==> lists[x] != lists[y]
  }

  function Contents(lists: seq<InventoryList>): (r: seq<Slots>)
    reads lists
    ensures |r| == |lists| && forall x :: 0 <= x < |r| ==> r[x] == lists[x].items
  {
    seq(|lists|, x requires 0 <= x < |lists| reads lists => lists[x].items)
  }

  /** Carries out one command; a list that does not exist ends it. */
  method Execute(lists: seq<InventoryList>, max: StackMax, c: Command) returns (r: Answer)
    requires Game(lists, max)
    modifies lists
    ensures Game(lists, max)
    ensures AllFit(old(Contents(lists))) && Done(max, old(Contents(lists)), Contents(lists), c, r)
    ensures Limited(c) ==> forall k :: GrandTotal(Contents(lists), k) == old(GrandTotal(Contents(lists), k))
    ensures forall l :: l in lists ==> l.name == old(l.name) && l.width == old(l.width) && |l.items| == old(|l.items|)
  {
    if c.x >= |lists| || c.y >= |lists| {
      return Answer(NOTHING, false, 0);
    }
    hide Carried, Total, PairTotal, GrandTotal, Limited;
    ghost var a := Contents(lists);
    r := Perform(lists[c.x], lists[c.y], max, c, a);
    ghost var b := Contents(lists);
    TwoChanged(a, b, c.x, c.y);
    if Limited(c) {
      GrandTotalsKept(a, b, c.x, c.y);
    }
  }

  lemma TwoChanged(a: seq<Slots>, b: seq<Slots>, x: nat, y: nat)
    requires x < |a| && y < |a| == |b| && forall z :: 0 <= z < |a| && z != x && z != y ==> b[z] == a[z]
    ensures b == a[x := b[x]][y := b[y]]
  {
  }

  /** The operation on its two lists. */
  method Perform(from: InventoryList, to: InventoryList, max: StackMax, c: Command, ghost a: seq<Slots>)
    returns (r: Answer)
    requires from.Valid() && to.Valid() && from.max == to.max == max && AllFit(a)
    requires c.x < |a| && c.y < |a| && a[c.x] == from.items && a[c.y] == to.items && (from == to <==> c.x == c.y)
    modifies from`items, from`dirty, to`items, to`dirty
    ensures from.Valid() && to.Valid() && |from.items| == |old(from.items)| && |to.items| == |old(to.items)|
    ensures Carried(max, a, a[c.x := from.items][c.y := to.items], c, r)
    ensures Limited(c) ==>
              forall k :: PairTotal(a[c.x := from.items][c.y := to.items], c.x, c.y, k) == PairTotal(a, c.x, c.y, k)
  {
    hide Merged, MoveAction.PlanFor, MoveAction.Follows, MoveAction.Final, Total, Move, Limited;
    r := Answer(NOTHING, false, 0);
    match c {
      case MoveItem(_, i, _, j, count, swap) =>
        var moved, didSwap := from.MoveItem(i, to, j, count, swap);
        r := Answer(moved, didSwap, 0);
      case MoveItemSomewhere(_, i, _, count) =>
        from.MoveItemSomewhere(i, to, count);
      case PlayerMove(_, i, _, j, count, somewhere, sameInventory, fromPlayer, toPlayer, allow) =>
        var moveCount;
        ghost var mid;
        moveCount, mid := MoveAction.Apply(max, from, i, to, j, count, somewhere, sameInventory || from == to,
                                          fromPlayer, toPlayer, allow);
        r := Answer(NOTHING, false, moveCount);
        if Limited(c) && MoveAction.Serves(from == to, a[c.x], i, a[c.y], j) {
          LimitedPlan(max, a[c.x][i], a[c.y][j], c);
        }
    }
    if Limited(c) {
      forall k ensures PairTotal(a[c.x := from.items][c.y := to.items], c.x, c.y, k) == PairTotal(a, c.x, c.y, k) {
        assert Sum(from, to, k) == old(Sum(from, to, k));
      }
    }
  }

  /** Through every run of moves no count leaves 16 bits, and no kind of item is made or lost unless some end is endless. */
  method Run(lists: seq<InventoryList>, max: StackMax, commands: seq<Command>)
    requires Game(lists, max)
    modifies lists
    ensures Game(lists, max)
    ensures (forall n :: 0 <= n < |commands| ==> Limited(commands[n])) ==>
              forall k :: GrandTotal(Contents(lists), k) == old(GrandTotal(Contents(lists), k))
    ensures forall l :: l in lists ==> l.name == old(l.name) && l.width == old(l.width) && |l.items| == old(|l.items|)
  {
    for n := 0 to |commands|
      invariant Game(lists, max)
      invariant (forall n :: 0 <= n < |commands| ==> Limited(commands[n])) ==>
                  forall k :: GrandTotal(Contents(lists), k) == old(GrandTotal(Contents(lists), k))
      invariant forall l :: l in lists ==> l.name == old(l.name) && l.width == old(l.width) && |l.items| == old(|l.items|)
    {
      var _ := Execute(lists, max, commands[n]);
    }
  }
}
