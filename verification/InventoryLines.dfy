/** The lines an inventory is sent as, and how they are read back. Item lines carry the stack that their text stands for. */
module InventoryLines {
  import opened Items
  import opened Options
  import opened SlotSums
  import opened InventoryLists

  datatype Line =
    | ListLine(name: string, size: nat)
    | KeepListLine(name: string)
    | EndInventory
    | WidthLine(width: nat)
    | ItemLine(item: ItemStack)
    | EmptyLine
    | KeepLine
    | EndList
    | EndLine    // `end`, the old end of either
    | BadLine    // a property or an item that cannot be read
    | OtherLine

  // What is known of a list under its name.
  datatype Content = Content(width: nat, items: Slots)

  // A list with its dirty flag.
  datatype Flagged = Flagged(data: ListData, dirty: bool)

  /** Slots as the other side sees them: of an empty slot only that it is empty. */
  function Cleared(slots: Slots): (r: Slots)
    ensures |r| == |slots| && forall i :: 0 <= i < |r| ==> r[i] == if slots[i].Empty() then NOTHING else slots[i]
  {
    seq(|slots|, i requires 0 <= i < |slots| => if slots[i].Empty() then NOTHING else slots[i])
  }

  function Shown(l: ListData): Content { Content(l.width, Cleared(l.items)) }

  function SlotLine(s: ItemStack): Line { if s.Empty() then EmptyLine else ItemLine(s) }

  function SlotLines(slots: Slots): (r: seq<Line>)
    ensures |r| == |slots| && forall i :: 0 <= i < |r| ==> r[i] == SlotLine(slots[i])
  {
    seq(|slots|, i requires 0 <= i < |slots| => SlotLine(slots[i]))
  }

  /** InventoryList::serialize. */
  function ListLines(l: ListData): seq<Line> {
    [WidthLine(l.width)] + SlotLines(l.items) + [EndList]
  }

  function EntryLines(l: Flagged, incremental: bool): seq<Line> {
    if !incremental || l.dirty then [ListLine(l.data.name, |l.data.items|)] + ListLines(l.data)
    else [KeepListLine(l.data.name)]
  }

  /** Inventory::serialize. */
  function InventoryText(lists: seq<Flagged>, incremental: bool): seq<Line> {
    if lists == [] then [EndInventory]
    else EntryLines(lists[0], incremental) + InventoryText(lists[1..], incremental)
  }

  // What reading gives: a value, an error, or a write behind the end of a list.
  datatype Reading<T> = Done(value: T) | Malformed | Overrun

  // What reading a list gives: its content and the lines behind it.
  datatype ReadResult = Read(content: Content, rest: seq<Line>)

  /** The guard against too many slots: for size 0 its bound wraps to the largest 32-bit number and refuses nothing. */
  predicate TooMany(at: nat, size: nat) {
    size > 0 && at > size - 1
  }

  /** InventoryList::deSerialize from line to line. */
  function ReadList(lines: seq<Line>, at: nat, width: nat, slots: Slots): (r: Reading<ReadResult>)
    ensures r.Done? ==> |r.value.rest| < |lines| && |r.value.content.items| == |slots|
  {
    if lines == [] then Malformed
    else
      match lines[0]
      case EndList => Done(Read(Content(width, ClearFrom(slots, at)), lines[1..]))
      case EndLine => Done(Read(Content(width, ClearFrom(slots, at)), lines[1..]))
      case BadLine => Malformed
      case WidthLine(w) => ReadList(lines[1..], at, w, slots)
      case ItemLine(s) =>
        if TooMany(at, |slots|) then Malformed
        else if at >= |slots| then Overrun
        else ReadList(lines[1..], at + 1, width, slots[at := s])
      case EmptyLine =>
        if TooMany(at, |slots|) then Malformed
        else if at >= |slots| then Overrun
        else ReadList(lines[1..], at + 1, width, slots[at := NOTHING])
      case KeepLine => ReadList(lines[1..], at + 1, width, slots)
      case _ => ReadList(lines[1..], at, width, slots)
  }

  /** A slot is described before the list ends. */
  predicate DescribesSlot(lines: seq<Line>) {
    && lines != [] && !lines[0].EndList? && !lines[0].EndLine? && !lines[0].BadLine?
    && (lines[0].ItemLine? || lines[0].EmptyLine? || DescribesSlot(lines[1..]))
  }

  /** Reading writes behind the slots exactly when there are none and one is described. */
  lemma {:induction false} OverrunsIfEmpty(lines: seq<Line>, at: nat, width: nat, slots: Slots)
    ensures ReadList(lines, at, width, slots).Overrun? <==> slots == [] && DescribesSlot(lines)
  {
    if lines != [] {
      match lines[0]
      case EndList =>
      case EndLine =>
      case BadLine =>
      case WidthLine(w) => OverrunsIfEmpty(lines[1..], at, w, slots);
      case ItemLine(s) => if at < |slots| { OverrunsIfEmpty(lines[1..], at + 1, width, slots[at := s]); }
      case EmptyLine => if at < |slots| { OverrunsIfEmpty(lines[1..], at + 1, width, slots[at := NOTHING]); }
      case KeepLine => OverrunsIfEmpty(lines[1..], at + 1, width, slots);
      case _ => OverrunsIfEmpty(lines[1..], at, width, slots);
    }
  }

  /** The slots from some place on are cleared. */
  function ClearFrom(slots: Slots, at: nat): (r: Slots)
    ensures |r| == |slots| && forall i :: 0 <= i < |r| ==> r[i] == if i < at then slots[i] else NOTHING
  {
    if at >= |slots| then slots else slots[..at] + Blanks(|slots| - at)
  }

  /** The slots an announced list starts from: those of the list of that name, resized, or new ones. */
  function Base(lists: map<string, Content>, name: string, size: nat): (r: Slots)
    ensures |r| == size
  {
    if name in lists then Resized(lists[name].items, size) else Blanks(size)
  }

  /** Inventory::deSerialize: the lists afterwards; those that were not sent are removed. */
  function ReadInventory(lines: seq<Line>, lists: map<string, Content>, sent: set<string>): Reading<map<string, Content>>
    decreases |lines|
  {
    if lines == [] then Malformed
    else
      match lines[0]
      case EndInventory => Done(map name | name in lists && name in sent :: lists[name])
      case EndLine => Done(map name | name in lists && name in sent :: lists[name])
      case ListLine(name, size) =>
        (match ReadList(lines[1..], 0, 0, Base(lists, name, size))
         case Malformed => Malformed
         case Overrun => Overrun
         case Done(Read(content, rest)) => ReadInventory(rest, lists[name := content], sent + {name}))
      case KeepListLine(name) => ReadInventory(lines[1..], lists, if name in lists then sent + {name} else sent)
      case _ => ReadInventory(lines[1..], lists, sent)
  }

  /** The lines behind a list of `size` slots, if it ends before a line that cannot be read and a slot too many. */
  function RestOf(lines: seq<Line>, at: nat, size: nat): (rest: Option<seq<Line>>)
    ensures rest.Some? ==> |rest.value| < |lines|
  {
    if lines == [] || lines[0].BadLine? then None
    else if lines[0].EndList? || lines[0].EndLine? then Some(lines[1..])
    else if lines[0].ItemLine? || lines[0].EmptyLine? then
      if at >= size then None else RestOf(lines[1..], at + 1, size)
    else RestOf(lines[1..], if lines[0].KeepLine? then at + 1 else at, size)
  }

  /** A list of size 0 is announced outside of other lists, before the end and anything to be refused,
      and has a slot described. */
  predicate Overruns(lines: seq<Line>)
    decreases |lines|
  {
    && lines != [] && !lines[0].EndInventory? && !lines[0].EndLine?
    && if lines[0].ListLine? then
         || (lines[0].size == 0 && DescribesSlot(lines[1..]))
         || (RestOf(lines[1..], 0, lines[0].size).Some? && Overruns(RestOf(lines[1..], 0, lines[0].size).value))
       else Overruns(lines[1..])
  }

  lemma {:induction false} RestIsRead(lines: seq<Line>, at: nat, width: nat, slots: Slots)
    ensures var r := ReadList(lines, at, width, slots);
            RestOf(lines, at, |slots|) == if r.Done? then Some(r.value.rest) else None
  {
    if lines != [] {
      match lines[0]
      case EndList =>
      case EndLine =>
      case BadLine =>
      case WidthLine(w) => RestIsRead(lines[1..], at, w, slots);
      case ItemLine(s) => if at < |slots| { RestIsRead(lines[1..], at + 1, width, slots[at := s]); }
      case EmptyLine => if at < |slots| { RestIsRead(lines[1..], at + 1, width, slots[at := NOTHING]); }
      case KeepLine => RestIsRead(lines[1..], at + 1, width, slots);
      case _ => RestIsRead(lines[1..], at, width, slots);
    }
  }

  /** Whether a text has a slot written behind the end of a list depends on the text alone, whatever lists it is read into. */
  lemma {:induction false} OverrunsExactly(lines: seq<Line>, lists: map<string, Content>, sent: set<string>)
    ensures ReadInventory(lines, lists, sent).Overrun? <==> Overruns(lines)
    decreases |lines|
  {
    hide ReadList, DescribesSlot, RestOf;
    if lines != [] {
      match lines[0]
      case EndInventory =>
      case EndLine =>
      case ListLine(name, size) =>
        var base := Base(lists, name, size);
        OverrunsIfEmpty(lines[1..], 0, 0, base);
        RestIsRead(lines[1..], 0, 0, base);
        var r := ReadList(lines[1..], 0, 0, base);
        if r.Done? {
          OverrunsExactly(r.value.rest, lists[name := r.value.content], sent + {name});
        }
      case KeepListLine(name) => OverrunsExactly(lines[1..], lists, if name in lists then sent + {name} else sent);
      case _ => OverrunsExactly(lines[1..], lists, sent);
    }
  }

  /** A text that is not refused: its slot is written behind the end of a list without slots. */
  lemma EmptyListOverruns(name: string, lists: map<string, Content>)
    ensures ReadInventory([ListLine(name, 0), EmptyLine, EndList, EndInventory], lists, {}) == Overrun
  {
    var lines := [ListLine(name, 0), EmptyLine, EndList, EndInventory];
    assert DescribesSlot(lines[1..]);
    OverrunsIfEmpty(lines[1..], 0, 0, Base(lists, name, 0));
  }

  /** Reading the slot lines of a list, from the one at `at` on. */
  lemma {:induction false} ReadsSlots(slots: Slots, at: nat, width: nat, base: Slots, rest: seq<Line>)
    requires at <= |slots| == |base| && base[..at] == Cleared(slots)[..at]
    ensures ReadList(SlotLines(slots)[at..] + [EndList] + rest, at, width, base) ==
        Done(Read(Content(width, Cleared(slots)), rest))
    decreases |slots| - at
  {
    var lines := SlotLines(slots)[at..] + [EndList] + rest;
    if at == |slots| {
      assert lines[0] == EndList && lines[1..] == rest;
      assert base == base[..at] && Cleared(slots) == Cleared(slots)[..at];
    } else {
      var s := if slots[at].Empty() then NOTHING else slots[at];
      assert lines[0] == SlotLine(slots[at]);
      assert lines[1..] == SlotLines(slots)[at + 1..] + [EndList] + rest;
      assert base[at := s][..at + 1] == Cleared(slots)[..at + 1];
      ReadsSlots(slots, at + 1, width, base[at := s], rest);
    }
  }

  /** A list is read back as it was, up to what its empty slots remember, whatever was there before. */
  lemma ReadsList(l: ListData, base: Slots, rest: seq<Line>)
    requires |base| == |l.items|
    ensures ReadList(ListLines(l) + rest, 0, 0, base) == Done(Read(Shown(l), rest))
  {
    var lines := ListLines(l) + rest;
    assert lines[0] == WidthLine(l.width);
    assert lines[1..] == SlotLines(l.items)[0..] + [EndList] + rest;
    ReadsSlots(l.items, 0, l.width, base, rest);
  }

  ghost predicate UniqueNames(lists: seq<Flagged>) {
    forall i, j :: 0 <= i < j < |lists| ==> lists[i].data.name != lists[j].data.name
  }

  ghost function NamesOf(lists: seq<Flagged>): set<string> {
    set i | 0 <= i < |lists| :: lists[i].data.name
  }

  /** The other side knows every list that is not marked as modified, as it is. */
  ghost predicate InSync(lists: seq<Flagged>, replica: map<string, Content>) {
    forall i :: 0 <= i < |lists| && !lists[i].dirty ==>
      lists[i].data.name in replica && replica[lists[i].data.name] == Shown(lists[i].data)
  }

  /** The replica knows exactly these lists. */
  ghost predicate Mirrors(lists: seq<Flagged>, replica: map<string, Content>) {
    && replica.Keys == NamesOf(lists)
    && forall i :: 0 <= i < |lists| ==>
         lists[i].data.name in replica && replica[lists[i].data.name] == Shown(lists[i].data)
  }

  /** What was read of the first lists, and what is still to come. */
  ghost predicate ReadUpTo(lists: seq<Flagged>, n: nat, replica: map<string, Content>, sent: set<string>)
    requires n <= |lists|
  {
    && sent == NamesOf(lists[..n])
    && (forall i :: 0 <= i < n ==> lists[i].data.name in replica && replica[lists[i].data.name] == Shown(lists[i].data))
    && (forall i :: n <= i < |lists| && !lists[i].dirty ==>
          lists[i].data.name in replica && replica[lists[i].data.name] == Shown(lists[i].data))
  }

  lemma {:induction false} ReadsEntries(lists: seq<Flagged>, n: nat, incremental: bool, replica: map<string, Content>,
                                        sent: set<string>)
    requires n <= |lists| && UniqueNames(lists) && ReadUpTo(lists, n, replica, sent)
    ensures var r := ReadInventory(InventoryText(lists[n..], incremental), replica, sent); r.Done? && Mirrors(lists, r.value)
    decreases |lists| - n
  {
    hide ReadList, ListLines, Shown, ReadUpTo, UniqueNames, Mirrors;
    var text := InventoryText(lists[n..], incremental);
    if n == |lists| {
      assert text == [EndInventory];
      ReadsEnd(lists, replica, sent);
    } else {
      var l := lists[n];
      var name := l.data.name;
      var more := InventoryText(lists[n + 1..], incremental);
      assert lists[n..][0] == l && lists[n..][1..] == lists[n + 1..];
      assert text == EntryLines(l, incremental) + more;
      if !incremental || l.dirty {
        assert text[0] == ListLine(name, |l.data.items|);
        assert text[1..] == ListLines(l.data) + more;
        ReadsList(l.data, Base(replica, name, |l.data.items|), more);
        ReadUpToMore(lists, n, replica, sent, true);
        ReadsEntries(lists, n + 1, incremental, replica[name := Shown(l.data)], sent + {name});
      } else {
        assert text[0] == KeepListLine(name) && text[1..] == more;
        ReadUpToMore(lists, n, replica, sent, false);
        ReadsEntries(lists, n + 1, incremental, replica, sent + {name});
      }
    }
  }

  lemma ReadsEnd(lists: seq<Flagged>, replica: map<string, Content>, sent: set<string>)
    requires ReadUpTo(lists, |lists|, replica, sent)
    ensures Mirrors(lists, map name | name in replica && name in sent :: replica[name])
  {
    var r := map name | name in replica && name in sent :: replica[name];
    assert lists[..|lists|] == lists;
    forall i | 0 <= i < |lists| ensures lists[i].data.name in r && r[lists[i].data.name] == Shown(lists[i].data) {
      assert lists[i].data.name in NamesOf(lists);
    }
    assert r.Keys == NamesOf(lists);
  }

  /** One more list was read or kept. */
  lemma ReadUpToMore(lists: seq<Flagged>, n: nat, replica: map<string, Content>, sent: set<string>, read: bool)
    requires n < |lists| && UniqueNames(lists) && ReadUpTo(lists, n, replica, sent) && (!read ==> !lists[n].dirty)
    ensures var (name, more) := (lists[n].data.name,
                                 if read then replica[lists[n].data.name := Shown(lists[n].data)] else replica);
            name in more && ReadUpTo(lists, n + 1, more, sent + {name})
  {
    assert lists[..n + 1] == lists[..n] + [lists[n]];
    NamesSnoc(lists[..n], lists[n]);
  }

  lemma NamesSnoc(lists: seq<Flagged>, l: Flagged)
    ensures NamesOf(lists + [l]) == NamesOf(lists) + {l.data.name}
  {
    var more := lists + [l];
    forall name ensures name in NamesOf(more) <==> name in NamesOf(lists) || name == l.data.name {
      if name in NamesOf(lists) {
        var i :| 0 <= i < |lists| && lists[i].data.name == name;
        assert more[i] == lists[i];
      }
      assert more[|lists|] == l;
    }
  }

  /** Reading an incremental text on a side that knows all unmodified lists leaves it with the very same lists. */
  lemma IncrementalSync(lists: seq<Flagged>, replica: map<string, Content>)
    requires UniqueNames(lists) && InSync(lists, replica)
    ensures var r := ReadInventory(InventoryText(lists, true), replica, {}); r.Done? && Mirrors(lists, r.value)
  {
    assert lists[0..] == lists;
    ReadsEntries(lists, 0, true, replica, {});
  }

  /** A full text does so whatever the other side knew. */
  lemma FullSync(lists: seq<Flagged>, replica: map<string, Content>)
    requires UniqueNames(lists)
    ensures var r := ReadInventory(InventoryText(lists, false), replica, {}); r.Done? && Mirrors(lists, r.value)
  {
    var all := seq(|lists|, i requires 0 <= i < |lists| => Flagged(lists[i].data, true));
    SameText(lists, all);
    assert all[0..] == all;
    ReadsEntries(all, 0, false, replica, {});
    assert NamesOf(all) == NamesOf(lists) by {
      forall i | 0 <= i < |lists| ensures all[i].data == lists[i].data {}
      forall name ensures name in NamesOf(all) <==> name in NamesOf(lists) {
        if i :| 0 <= i < |lists| && lists[i].data.name == name { assert all[i].data.name == name; }
        if i :| 0 <= i < |all| && all[i].data.name == name { assert lists[i].data.name == name; }
      }
    }
    var r := ReadInventory(InventoryText(all, false), replica, {}).value;
    forall i | 0 <= i < |lists| ensures lists[i].data.name in r && r[lists[i].data.name] == Shown(lists[i].data) {
      assert all[i].data == lists[i].data;
    }
  }

  lemma {:induction false} SameText(a: seq<Flagged>, b: seq<Flagged>)
    requires |a| == |b| && forall i :: 0 <= i < |a| ==> a[i].data == b[i].data
    ensures InventoryText(a, false) == InventoryText(b, false)
  {
    if a != [] {
      SameText(a[1..], b[1..]);
    }
  }

  // The server's lists and what the client has.
  datatype Sync = Sync(server: seq<Flagged>, client: map<string, Content>)

  /** A list that is not marked as modified is as it was. */
  ghost predicate Marked(a: seq<Flagged>, b: seq<Flagged>) {
    UniqueNames(b) && forall i :: 0 <= i < |b| && !b[i].dirty ==> b[i] in a
  }

  /** The lists were changed by operations that mark what they change. */
  ghost predicate Changed(a: Sync, b: Sync) {
    b.client == a.client && Marked(a.server, b.server)
  }

  /** Operations on the lists that mark what they change. */
  lemma TrackedIsMarked(a: seq<Flagged>, b: seq<Flagged>)
    requires UniqueNames(a) && |b| == |a|
    requires forall i :: 0 <= i < |a| ==> b[i].data.name == a[i].data.name && (!b[i].dirty ==> b[i] == a[i])
    ensures Marked(a, b)
  {
    forall j, k | 0 <= j < k < |b| ensures b[j].data.name != b[k].data.name {
      assert a[j].data.name != a[k].data.name;
    }
  }

  /** Removing a list, or adding one under a new name. */
  lemma RemovalIsMarked(a: seq<Flagged>, i: nat)
    requires i < |a| && UniqueNames(a)
    ensures Marked(a, a[..i] + a[i + 1..])
  {
    var b := a[..i] + a[i + 1..];
    forall j | 0 <= j < |b| ensures b[j] == a[if j < i then j else j + 1] {}
    forall j, k | 0 <= j < k < |b| ensures b[j].data.name != b[k].data.name {
      assert a[if j < i then j else j + 1].data.name != a[if k < i then k else k + 1].data.name;
    }
  }

  lemma AdditionIsMarked(a: seq<Flagged>, l: Flagged)
    requires UniqueNames(a) && l.dirty && forall i :: 0 <= i < |a| ==> a[i].data.name != l.data.name
    ensures Marked(a, a + [l])
  {
    var b := a + [l];
    forall j, k | 0 <= j < k < |b| ensures b[j].data.name != b[k].data.name {
      if k < |a| {
        assert a[j].data.name != a[k].data.name;
      }
    }
  }

  /** The server sends what was modified, and then considers everything handled. */
  ghost predicate SentTo(a: Sync, b: Sync) {
    var r := ReadInventory(InventoryText(a.server, true), a.client, {});
    && r.Done? && b.client == r.value
    && |b.server| == |a.server|
    && forall i :: 0 <= i < |a.server| ==> b.server[i] == Flagged(a.server[i].data, false)
  }

  ghost predicate SyncInv(s: Sync) { UniqueNames(s.server) && InSync(s.server, s.client) }

  lemma StepKeepsSync(a: Sync, b: Sync)
    requires SyncInv(a) && (Changed(a, b) || SentTo(a, b))
    ensures SyncInv(b)
    ensures SentTo(a, b) ==> Mirrors(b.server, b.client)
  {
    if SentTo(a, b) {
      IncrementalSync(a.server, a.client);
      assert NamesOf(b.server) == NamesOf(a.server) by {
        forall name ensures name in NamesOf(a.server) <==> name in NamesOf(b.server) {
          if i :| 0 <= i < |a.server| && a.server[i].data.name == name { assert b.server[i].data.name == name; }
          if i :| 0 <= i < |b.server| && b.server[i].data.name == name { assert a.server[i].data.name == name; }
        }
      }
      forall i | 0 <= i < |b.server|
        ensures b.server[i].data.name in b.client && b.client[b.server[i].data.name] == Shown(b.server[i].data)
      {
        assert a.server[i].data == b.server[i].data;
      }
    }
  }

  /** Through every run of changes and sendings, each sending leaves both sides with the same lists. */
  lemma {:induction false} EverySendingSyncs(run: seq<Sync>, n: nat)
    requires n < |run| && SyncInv(run[0])
    requires forall i :: 0 <= i < |run| - 1 ==> Changed(run[i], run[i + 1]) || SentTo(run[i], run[i + 1])
    ensures SyncInv(run[n])
    ensures n > 0 && SentTo(run[n - 1], run[n]) ==> Mirrors(run[n].server, run[n].client)
  {
    if n > 0 {
      EverySendingSyncs(run, n - 1);
      StepKeepsSync(run[n - 1], run[n]);
    }
  }
}
