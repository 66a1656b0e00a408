/** Inventories: lists under unique names, written out and read back in place. */
module Inventories {
  import opened Items
  import opened Options
  import opened Stacks
  import opened SlotSums
  import opened InventoryLists
  import opened InventoryLines

  function As<S, T>(o: Reading<S>, value: T): Reading<T> {
    match o
    case Done(_) => Done(value)
    case Malformed => Malformed
    case Overrun => Overrun
  }

  /** Clears what no line was sent for. */
  method ClearLeftover(list: InventoryList, at: nat)
    requires list.Valid()
    modifies list`items
    ensures list.items == ClearFrom(old(list.items), at) && list.Valid()
  {
    var i := at;
    while i < |list.items|
      invariant |list.items| == |old(list.items)|
      invariant forall j :: 0 <= j < |list.items| ==>
                  list.items[j] == if at <= j < i then NOTHING else old(list.items)[j]
    {
      list.items := list.items[i := NOTHING];
      i := i + 1;
    }
  }

  /** InventoryList::deSerialize: fills the list from the lines at `from` on; `next` is behind the last one read.
      It stops short of a write behind the end of the list. */
  method ReadListInto(list: InventoryList, lines: seq<Line>, from: nat) returns (outcome: Reading<()>, next: nat)
    requires list.Valid() && from <= |lines|
    requires AllItemsFit(lines)
    modifies list`items, list`width, list`dirty
    ensures list.dirty && list.Valid() && |list.items| == |old(list.items)| && from <= next <= |lines|
    ensures ReadList(lines[from..], 0, 0, old(list.items)) ==
            As(outcome, Read(Content(list.width, list.items), lines[next..]))
  {
    list.dirty := true;
    list.width := 0;
    next := from;
    var at := 0;
    while next < |lines|
      invariant list.dirty && from <= next <= |lines| && list.Valid() && |list.items| == |old(list.items)|
      invariant ReadList(lines[from..], 0, 0, old(list.items)) == ReadList(lines[next..], at, list.width, list.items)
    {
      var line := lines[next];
      assert lines[next..][0] == line && lines[next..][1..] == lines[next + 1..];
      next := next + 1;
      match line
      case EndList =>
        ClearLeftover(list, at);
        return Done(()), next;
      case EndLine =>
        ClearLeftover(list, at);
        return Done(()), next;
      case BadLine => return Malformed, next;
      case WidthLine(w) => list.width := w;
      case ItemLine(s) =>
        if TooMany(at, |list.items|) {
          return Malformed, next;
        }
        if at >= |list.items| {
          return Overrun, next;
        }
        list.items := list.items[at := s];
        at := at + 1;
      case EmptyLine =>
        if TooMany(at, |list.items|) {
          return Malformed, next;
        }
        if at >= |list.items| {
          return Overrun, next;
        }
        list.items := list.items[at := NOTHING];
        at := at + 1;
      case KeepLine => at := at + 1;
      case _ =>
    }
    return Malformed, next;
  }

  /** What the lists show. */
  ghost function DataOf(lists: seq<InventoryList>): (r: seq<ListData>)
    reads lists
    ensures |r| == |lists| && forall i :: 0 <= i < |r| ==> r[i] == lists[i].Data()
  {
    seq(|lists|, i requires 0 <= i < |lists| reads lists => lists[i].Data())
  }

  ghost predicate Distinct(data: seq<ListData>) {
    forall i, j :: 0 <= i < j < |data| ==> data[i].name != data[j].name
  }

  ghost predicate Named(data: seq<ListData>, name: string) {
    exists i :: 0 <= i < |data| && data[i].name == name
  }

  /** `m` holds the lists by their names. */
  ghost predicate Held(data: seq<ListData>, m: map<string, Content>) {
    && (forall i :: 0 <= i < |data| ==> data[i].name in m && m[data[i].name] == Content(data[i].width, data[i].items))
    && (forall name :: name in m ==> Named(data, name))
  }

  /** What addList makes of the lists: one of that name is resized and cleared, else a new one is added. */
  ghost predicate Reset(a: seq<Flagged>, b: seq<Flagged>, name: string, size: nat) {
    if exists i :: 0 <= i < |a| && a[i].data.name == name then
      |b| == |a|
      && exists i :: 0 <= i < |a| && a[i].data.name == name && b == a[i := b[i]]
                     && b[i] == Flagged(ListData(name, a[i].data.width, Blanks(size)), true)
    else if ' ' in name then b == a
    else b == a + [Flagged(ListData(name, 0, Blanks(size)), true)]
  }

  lemma ResetOld(a: seq<Flagged>, b: seq<Flagged>, name: string, size: nat, i: nat)
    requires i < |a| && a[i].data.name == name
    requires b == a[i := Flagged(ListData(name, a[i].data.width, Blanks(size)), true)]
    ensures Reset(a, b, name, size)
  {
  }

  lemma ResetNew(a: seq<Flagged>, data: seq<ListData>, name: string, size: nat)
    requires |a| == |data| && (forall i :: 0 <= i < |a| ==> a[i].data == data[i]) && !Named(data, name)
    ensures Reset(a, if ' ' in name then a else a + [Flagged(ListData(name, 0, Blanks(size)), true)], name, size)
  {
    forall i | 0 <= i < |a| ensures a[i].data.name != name {
      assert data[i].name != name;
    }
  }

  /** addList marks what it changes. */
  lemma ResetIsMarked(a: seq<Flagged>, b: seq<Flagged>, name: string, size: nat)
    requires UniqueNames(a) && Reset(a, b, name, size)
    ensures Marked(a, b)
  {
    if i :| 0 <= i < |a| && a[i].data.name == name {
      TrackedIsMarked(a, b);
    } else if ' ' !in name {
      AdditionIsMarked(a, Flagged(ListData(name, 0, Blanks(size)), true));
    }
  }

  /** Those of the first `n` lists that were sent. */
  function KeptOf(data: seq<ListData>, sent: set<string>, n: nat): seq<ListData>
    requires n <= |data|
  {
    if n == 0 then []
    else KeptOf(data, sent, n - 1) + if data[n - 1].name in sent then [data[n - 1]] else []
  }

  ghost function HeldOf(data: seq<ListData>, sent: set<string>, n: nat, m: map<string, Content>): map<string, Content>
    requires n <= |data|
  {
    map name | name in m && name in sent && Named(data[..n], name) :: m[name]
  }

  lemma NamedSnoc(data: seq<ListData>, n: nat, name: string)
    requires n < |data|
    ensures Named(data[..n + 1], name) <==> Named(data[..n], name) || name == data[n].name
  {
    var a, b := data[..n], data[..n + 1];
    assert b[n] == data[n];
    if i :| 0 <= i < n && a[i].name == name {
      assert b[i].name == name;
    }
    if i :| 0 <= i < n + 1 && b[i].name == name && i < n {
      assert a[i].name == name;
    }
  }

  lemma {:induction false} KeptHeld(data: seq<ListData>, sent: set<string>, n: nat, m: map<string, Content>)
    requires Held(data, m) && Distinct(data) && n <= |data|
    ensures Held(KeptOf(data, sent, n), HeldOf(data, sent, n, m)) && Distinct(KeptOf(data, sent, n))
  {
    hide Held, Distinct, HeldOf, Named;
    if n == 0 {
      NoneHeld(data, sent, m);
    } else {
      KeptHeld(data, sent, n - 1, m);
      var l, kept, held := data[n - 1], KeptOf(data, sent, n - 1), HeldOf(data, sent, n - 1, m);
      HeldOfStep(data, sent, n - 1, m);
      if l.name in sent {
        NamedIffHeld(kept, held, l.name);
        HeldMore(kept, l, held);
      } else {
        assert KeptOf(data, sent, n) == kept;
      }
    }
  }

  lemma NoneHeld(data: seq<ListData>, sent: set<string>, m: map<string, Content>)
    ensures Held([], HeldOf(data, sent, 0, m)) && Distinct([])
  {
  }

  lemma HeldOfStep(data: seq<ListData>, sent: set<string>, n: nat, m: map<string, Content>)
    requires Held(data, m) && Distinct(data) && n < |data|
    ensures var (l, held) := (data[n], HeldOf(data, sent, n, m));
            && l.name !in held
            && HeldOf(data, sent, n + 1, m) == if l.name in sent then held[l.name := Content(l.width, l.items)] else held
  {
    var l, held := data[n], HeldOf(data, sent, n, m);
    HeldAt(data, m, n);
    NotNamedYet(data, n);
    forall name ensures name in HeldOf(data, sent, n + 1, m) <==> name in held || (name == l.name && name in sent) {
      NamedSnoc(data, n, name);
    }
  }

  lemma NotNamedYet(data: seq<ListData>, n: nat)
    requires Distinct(data) && n < |data|
    ensures !Named(data[..n], data[n].name)
  {
    forall i | 0 <= i < n ensures data[..n][i].name != data[n].name {
      assert data[..n][i] == data[i];
    }
  }

  /** All lists are seen: what is held is what was sent. */
  lemma KeptAll(data: seq<ListData>, sent: set<string>, m: map<string, Content>)
    requires Held(data, m)
    ensures HeldOf(data, sent, |data|, m) == map name | name in m && name in sent :: m[name]
  {
    assert data[..|data|] == data;
  }

  /** Lists of different names are different lists. */
  lemma DistinctObjects(lists: seq<InventoryList>)
    requires Distinct(DataOf(lists))
    ensures forall i, j :: 0 <= i < j < |lists| ==> lists[i] != lists[j]
  {
    forall i, j | 0 <= i < j < |lists| ensures lists[i] != lists[j] {
      assert DataOf(lists)[i].name != DataOf(lists)[j].name;
    }
  }

  lemma DistinctCut(data: seq<ListData>, i: nat)
    requires Distinct(data) && i < |data|
    ensures Distinct(data[..i] + data[i + 1..]) && !Named(data[..i] + data[i + 1..], data[i].name) && Named(data, data[i].name)
  {
    var cut := data[..i] + data[i + 1..];
    assert forall j :: 0 <= j < |cut| ==> cut[j] == if j < i then data[j] else data[j + 1];
  }

  lemma DistinctMore(data: seq<ListData>, l: ListData)
    requires Distinct(data) && !Named(data, l.name)
    ensures Distinct(data + [l])
  {
  }

  lemma DistinctSame(data: seq<ListData>, i: nat, l: ListData)
    requires Distinct(data) && i < |data| && data[i].name == l.name
    ensures Distinct(data[i := l])
  {
  }

  class Inventory {
    var lists: seq<InventoryList>
    var dirty: bool
    const max: StackMax

    ghost predicate Valid()
      reads this, lists
    {
      && (forall i, j :: 0 <= i < j < |lists| ==> lists[i] != lists[j])
      && Distinct(DataOf(lists))
      && forall i :: 0 <= i < |lists| ==> lists[i].Valid() && lists[i].max == max
    }

    constructor (max: StackMax)
      ensures Valid() && lists == [] && dirty
    {
      lists, dirty, this.max := [], true, max;
    }

    /** getListIndex. */
    method GetListIndex(name: string) returns (index: Option<nat>)
      ensures index.Some? ==> index.value < |lists| && lists[index.value].name == name
      ensures index.None? ==> !Named(DataOf(lists), name)
    {
      for i := 0 to |lists|
        invariant forall j :: 0 <= j < i ==> lists[j].name != name
      {
        if lists[i].name == name {
          return Some(i);
        }
      }
      return None;
    }

    ghost function Flags(): (r: seq<Flagged>)
      reads this, lists
    {
      seq(|lists|, i requires 0 <= i < |lists| reads this, lists => Flagged(lists[i].Data(), lists[i].dirty))
    }

    /** serialize. */
    method Serialize(incremental: bool) returns (lines: seq<Line>)
      ensures lines == InventoryText(Flags(), incremental)
    {
      lines := [EndInventory];
      for n := |lists| downto 0
        invariant lines == InventoryText(Flags()[n..], incremental)
      {
        var l := Flagged(lists[n].Data(), lists[n].dirty);
        assert Flags()[n..][0] == l && Flags()[n..][1..] == Flags()[n + 1..];
        lines := EntryLines(l, incremental) + lines;
      }
      assert Flags()[0..] == Flags();
    }

    /** setModified(false): everything is handled. */
    method SetHandled()
      requires Valid()
      modifies this`dirty, lists
      ensures !dirty && Valid() && |Flags()| == |old(Flags())|
      ensures forall i :: 0 <= i < |lists| ==> Flags()[i] == Flagged(old(Flags())[i].data, false)
    {
      hide Distinct;
      dirty := false;
      ghost var data := DataOf(lists);
      for i := 0 to |lists|
        invariant !dirty && DataOf(lists) == data && Valid()
        invariant forall j :: 0 <= j < i ==> !lists[j].dirty
      {
        lists[i].dirty := false;
        assert DataOf(lists) == data;
      }
    }

    /** addList: an existing list is resized and cleared, a name with a blank is refused. */
    method AddList(name: string, size: nat)
      requires Valid()
      modifies this, lists
      ensures Valid() && dirty
      ensures Reset(old(Flags()), Flags(), name, size)
      ensures forall l :: l in lists ==> l in old(lists) || fresh(l)
    {
      hide Reset, Distinct, Named;
      ghost var before, data := Flags(), DataOf(lists);
      dirty := true;
      assert DataOf(lists) == data && Flags() == before;
      var index := GetListIndex(name);
      if index.Some? {
        ResetList(index.value, lists[index.value], size);
        ResetOld(before, Flags(), name, size, index.value);
        return;
      }
      assert Flags() == before && forall i :: 0 <= i < |before| ==> before[i].data == data[i];
      if ' ' in name {
        ResetNew(before, data, name, size);
        return;
      }
      AppendList(name, size);
      ResetNew(before, data, name, size);
    }

    method AppendList(name: string, size: nat)
      requires Valid() && !Named(DataOf(lists), name)
      modifies this`lists
      ensures Valid() && Flags() == old(Flags()) + [Flagged(ListData(name, 0, Blanks(size)), true)]
      ensures forall l :: l in lists ==> l in old(lists) || fresh(l)
    {
      hide Distinct, Named;
      ghost var before, data := Flags(), DataOf(lists);
      var list := new InventoryList(name, size, max);
      lists := lists + [list];
      DistinctMore(data, list.Data());
      assert DataOf(lists) == data + [list.Data()];
      assert Flags() == before + [Flagged(list.Data(), true)];
    }

    method ResetList(ghost i: nat, list: InventoryList, size: nat)
      requires Valid() && i < |lists| && list == lists[i]
      modifies list`items, list`dirty
      ensures Valid()
      ensures Flags() == old(Flags())[i := Flagged(ListData(list.name, list.width, Blanks(size)), true)]
    {
      hide Distinct;
      ghost var before, data := Flags(), DataOf(lists);
      list.SetSize(size);
      list.ClearItems();
      DistinctSame(data, i, list.Data());
      assert list.items == Blanks(size);
      assert DataOf(lists) == data[i := list.Data()];
      assert Flags() == before[i := Flagged(list.Data(), true)];
    }

    /** deleteList. */
    method DeleteList(name: string) returns (found: bool, ghost at: nat)
      requires Valid()
      modifies this
      ensures Valid() && found == old(Named(DataOf(lists), name)) && !Named(DataOf(lists), name)
      ensures !found ==> lists == old(lists) && dirty == old(dirty)
      ensures found ==>
                dirty && at < |old(lists)| && old(lists[at].name) == name && lists == old(lists)[..at] + old(lists)[at + 1..]
    {
      var index := GetListIndex(name);
      if index.None? {
        return false, 0;
      }
      dirty := true;
      CutList(index.value);
      return true, index.value;
    }

    method CutList(i: nat)
      requires Valid() && i < |lists|
      modifies this`lists
      ensures Valid() && lists == old(lists)[..i] + old(lists)[i + 1..]
      ensures Named(old(DataOf(lists)), old(lists)[i].name) && !Named(DataOf(lists), old(lists)[i].name)
    {
      hide Distinct, Named;
      ghost var data := DataOf(lists);
      lists := lists[..i] + lists[i + 1..];
      DistinctCut(data, i);
      assert DataOf(lists) == data[..i] + data[i + 1..];
      DistinctObjects(lists);
    }

    /** One announced list: it is created or resized, and filled from the lines that follow. */
    method ReadEntry(name: string, size: nat, lines: seq<Line>, from: nat, ghost now: map<string, Content>)
      returns (outcome: Reading<()>, next: nat, list: InventoryList)
      requires Valid() && Held(DataOf(lists), now) && from <= |lines| && AllItemsFit(lines)
      modifies this`lists, lists
      ensures Valid() && from <= next <= |lines|
      ensures ReadList(lines[from..], 0, 0, Base(now, name, size)) ==
              As(outcome, Read(Content(list.width, list.items), lines[next..]))
      ensures outcome.Done? ==> list.name == name && list in lists
      ensures outcome.Done? ==> Held(DataOf(lists), now[name := Content(list.width, list.items)])
      ensures old(lists) <= lists && (outcome.Done? || lists == old(lists)) && |lists| <= |old(lists)| + 1
      ensures |lists| > |old(lists)| ==> fresh(lists[|old(lists)|]) && lists[|old(lists)|].name == name
      ensures forall i :: 0 <= i < |old(lists)| ==> lists[i].name == old(lists[i].name)
    {
      hide ReadList, Held, Distinct;
      var index := GetListIndex(name);
      NamedIffHeld(DataOf(lists), now, name);
      if index.None? {
        outcome, next, list := CreateList(name, size, lines, from, now);
      } else {
        list := lists[index.value];
        outcome, next := RefillList(index.value, list, size, lines, from, now);
      }
    }

    /** deSerialize: on success the lists are those that were sent, with what was read or kept of them. */
    method DeSerialize(lines: seq<Line>, ghost m: map<string, Content>) returns (outcome: Reading<()>)
      requires Valid() && Held(DataOf(lists), m) && AllItemsFit(lines)
      modifies this, lists
      ensures Valid() && outcome == As(ReadInventory(lines, m, {}), ())
      ensures outcome.Done? ==> Held(DataOf(lists), ReadInventory(lines, m, {}).value)
      ensures forall l :: l in lists ==> l in old(lists) || fresh(l)
    {
      hide Held, Distinct, ReadList;
      var next, newLists: set<string> := 0, {};
      ghost var now := m;
      while next < |lines|
        invariant Valid() && Held(DataOf(lists), now) && next <= |lines|
        invariant forall i :: 0 <= i < |lists| ==> lists[i] in old(lists) || fresh(lists[i])
        invariant ReadInventory(lines, m, {}) == ReadInventory(lines[next..], now, newLists)
      {
        var line := lines[next];
        assert lines[next..][0] == line && lines[next..][1..] == lines[next + 1..];
        next := next + 1;
        match line
        case EndInventory =>
          RemoveUnsent(newLists, now);
          return Done(());
        case EndLine =>
          RemoveUnsent(newLists, now);
          return Done(());
        case ListLine(name, size) =>
          var list;
          outcome, next, list := ReadEntry(name, size, lines, next, now);
          if !outcome.Done? {
            return;
          }
          now := now[name := Content(list.width, list.items)];
          newLists := newLists + {name};
        case KeepListLine(name) =>
          var index := GetListIndex(name);
          NamedIffHeld(DataOf(lists), now, name);
          if index.Some? {
            newLists := newLists + {name};
          }
        case _ =>
      }
      return Malformed;
    }

    /** Removes the lists that were not sent. */
    method RemoveUnsent(sent: set<string>, ghost now: map<string, Content>)
      requires Valid() && Held(DataOf(lists), now)
      modifies this
      ensures Valid()
      ensures Held(DataOf(lists), map name | name in now && name in sent :: now[name])
      ensures forall l :: l in lists ==> l in old(lists)
      ensures dirty == (|lists| < |old(lists)| || old(dirty))
    {
      hide Held, Distinct, HeldOf;
      ghost var data := DataOf(lists);
      var kept: seq<InventoryList>, removed := [], false;
      for i := 0 to |lists|
        invariant forall j :: 0 <= j < |kept| ==> kept[j].Valid() && kept[j].max == max && kept[j] in lists
        invariant DataOf(kept) == KeptOf(data, sent, i) && |kept| <= i && (removed <==> |kept| < i)
      {
        if lists[i].name in sent {
          assert DataOf(kept + [lists[i]]) == DataOf(kept) + [data[i]];
          kept := kept + [lists[i]];
        } else {
          removed := true;
        }
      }
      KeptHeld(data, sent, |data|, now);
      KeptAll(data, sent, now);
      DistinctObjects(kept);
      ReplaceLists(kept, removed);
    }

    method ReplaceLists(kept: seq<InventoryList>, removed: bool)
      modifies this
      ensures lists == kept && DataOf(kept) == old(DataOf(kept)) && dirty == (removed || old(dirty))
    {
      lists := kept;
      if removed {
        dirty := true;
      }
    }

    method CreateList(name: string, size: nat, lines: seq<Line>, from: nat, ghost now: map<string, Content>)
      returns (outcome: Reading<()>, next: nat, list: InventoryList)
      requires Valid() && Held(DataOf(lists), now) && from <= |lines| && AllItemsFit(lines) && !Named(DataOf(lists), name)
      modifies this`lists
      ensures Valid() && from <= next <= |lines| && list.name == name && fresh(list)
      ensures ReadList(lines[from..], 0, 0, Blanks(size)) ==
              As(outcome, Read(Content(list.width, list.items), lines[next..]))
      ensures outcome.Done? ==> lists == old(lists) + [list] && Held(DataOf(lists), now[name := Content(list.width, list.items)])
      ensures !outcome.Done? ==> lists == old(lists)
    {
      hide ReadList, Held;
      ghost var data := DataOf(lists);
      list := new InventoryList(name, size, max);
      outcome, next := ReadListInto(list, lines, from);
      if outcome.Done? {
        lists := lists + [list];
        HeldMore(data, list.Data(), now);
        assert DataOf(lists) == data + [list.Data()];
      }
    }

    method RefillList(ghost i: nat, list: InventoryList, size: nat, lines: seq<Line>, from: nat, ghost now: map<string, Content>)
      returns (outcome: Reading<()>, next: nat)
      requires Valid() && Held(DataOf(lists), now) && from <= |lines| && AllItemsFit(lines) && i < |lists| && list == lists[i]
      modifies list`items, list`width, list`dirty
      ensures Valid() && from <= next <= |lines|
      ensures ReadList(lines[from..], 0, 0, Base(now, list.name, size)) ==
              As(outcome, Read(Content(list.width, list.items), lines[next..]))
      ensures Held(DataOf(lists), now[list.name := Content(list.width, list.items)])
    {
      hide ReadList, Held;
      ghost var data := DataOf(lists);
      HeldAt(data, now, i);
      list.SetSize(size);
      outcome, next := ReadListInto(list, lines, from);
      HeldUpdated(data, i, list.Data(), now);
      assert DataOf(lists) == data[i := list.Data()];
    }
  }

  lemma NamedIffHeld(data: seq<ListData>, m: map<string, Content>, name: string)
    requires Held(data, m)
    ensures Named(data, name) <==> name in m
  {
  }

  lemma HeldAt(data: seq<ListData>, m: map<string, Content>, i: nat)
    requires Held(data, m) && i < |data|
    ensures data[i].name in m && m[data[i].name] == Content(data[i].width, data[i].items)
  {
  }

  lemma HeldMore(data: seq<ListData>, l: ListData, m: map<string, Content>)
    requires Held(data, m) && !Named(data, l.name)
    ensures Held(data + [l], m[l.name := Content(l.width, l.items)])
    ensures Distinct(data) ==> Distinct(data + [l])
  {
    var more, m1 := data + [l], m[l.name := Content(l.width, l.items)];
    forall name | name in m1 ensures Named(more, name) {
      if name == l.name {
        assert more[|data|].name == name;
      } else {
        var i :| 0 <= i < |data| && data[i].name == name;
        assert more[i].name == name;
      }
    }
    forall i | 0 <= i < |more| ensures more[i].name in m1 && m1[more[i].name] == Content(more[i].width, more[i].items) {
      if i < |data| {
        assert Named(data, data[i].name);
      }
    }
  }

  lemma HeldUpdated(data: seq<ListData>, i: nat, l: ListData, m: map<string, Content>)
    requires Held(data, m) && Distinct(data) && i < |data| && data[i].name == l.name
    ensures Held(data[i := l], m[l.name := Content(l.width, l.items)]) && Distinct(data[i := l])
  {
    var more, m1 := data[i := l], m[l.name := Content(l.width, l.items)];
    forall name | name in m1 ensures Named(more, name) {
      var j :| 0 <= j < |data| && data[j].name == name;
      assert more[j].name == name;
    }
  }

  ghost predicate AllItemsFit(lines: seq<Line>) {
    forall i :: 0 <= i < |lines| && lines[i].ItemLine? ==> Fits16(lines[i].item)
  }
}
