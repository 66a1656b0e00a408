/** Node timers of a block: a list sorted by trigger time, an index by position, and the next trigger time. */
module NodeTimers {
  import opened Positions

  datatype NodeTimer = NodeTimer(timeout: real, elapsed: real, position: Pos)

  const NO_TIMER := NodeTimer(0.0, 0.0, Pos(0, 0, 0))

  const NEVER := -1.0  // the next trigger time of an empty list

  // A timer under its trigger time.
  datatype Entry = Entry(key: real, timer: NodeTimer)

  ghost predicate Sorted(timers: seq<Entry>) {
    forall i, j :: 0 <= i < j < |timers| ==> timers[i].key <= timers[j].key
  }

  /** The list and the index hold the same entries, one for each position. */
  ghost predicate Indexed(timers: seq<Entry>, index: map<Pos, Entry>) {
    && (forall i :: 0 <= i < |timers| ==>
          timers[i].timer.position in index && index[timers[i].timer.position] == timers[i])
    && (forall i, j :: 0 <= i < j < |timers| ==> timers[i].timer.position != timers[j].timer.position)
    && (forall p :: p in index ==> index[p].timer.position == p && Listed(timers, index[p]))
  }

  ghost predicate Listed(timers: seq<Entry>, e: Entry) {
    exists i :: 0 <= i < |timers| && timers[i] == e
  }

  // What a list of timers is to its callers, with the next trigger time it goes by.
  datatype Timers = Timers(index: map<Pos, Entry>, next: real, time: real)

  ghost predicate Least(index: map<Pos, Entry>, key: real) {
    (exists p :: p in index && index[p].key == key) && forall p :: p in index ==> key <= index[p].key
  }

  lemma {:induction false} LeastExists(index: map<Pos, Entry>)
    requires index != map[]
    ensures exists key :: Least(index, key)
    decreases |index|
  {
    var p :| p in index;
    var rest := index - {p};
    assert forall q :: q in index && q != p ==> q in rest;
    if rest == map[] {
      assert Least(index, index[p].key);
    } else {
      LeastExists(rest);
      var key :| Least(rest, key);
      var q :| q in rest && rest[q].key == key;
      var least := if index[p].key < key then index[p].key else key;
      assert index[if index[p].key < key then p else q].key == least;
      assert Least(index, least);
    }
  }

  /** When the next timer is due. */
  ghost function Earliest(index: map<Pos, Entry>): (key: real)
    ensures index == map[] ==> key == NEVER
    ensures index != map[] ==> Least(index, key)
  {
    if index == map[] then NEVER
    else
      LeastExists(index);
      var key :| Least(index, key);
      key
  }

  /** It goes by the time when the next timer is due. */
  ghost predicate Punctual(s: Timers) {
    s.next == Earliest(s.index)
  }

  /** How insert updates the next trigger time. */
  function NextAfter(next: real, key: real): real {
    if next == NEVER || key < next then key else next
  }

  function DueAt(time: real, timer: NodeTimer): real {
    time + (timer.timeout - timer.elapsed)
  }

  ghost function Removed(s: Timers, p: Pos): Timers {
    var rest := s.index - {p};
    Timers(rest, if p in s.index && s.index[p].key == s.next then Earliest(rest) else s.next, s.time)
  }

  ghost function Inserted(s: Timers, timer: NodeTimer): Timers {
    var key := DueAt(s.time, timer);
    Timers(s.index[timer.position := Entry(key, timer)], NextAfter(s.next, key), s.time)
  }

  ghost function SetIn(s: Timers, timer: NodeTimer): Timers {
    Inserted(Removed(s, timer.position), timer)
  }

  lemma RemovedPunctual(s: Timers, p: Pos)
    requires Punctual(s)
    ensures Punctual(Removed(s, p))
  {
    var rest := s.index - {p};
    if p in s.index && s.index[p].key != s.next {
      var q :| q in s.index && s.index[q].key == s.next;
      assert q in rest;
    } else if p !in s.index {
      assert rest == s.index;
    }
  }

  /** A new timer is due in time unless the earliest one is due at the very time that stands for none,
      and stays the earliest. */
  lemma InsertedPunctual(s: Timers, timer: NodeTimer)
    requires Punctual(s) && timer.position !in s.index
    ensures Punctual(Inserted(s, timer)) <==>
            s.index == map[] || s.next != NEVER || DueAt(s.time, timer) <= NEVER
  {
    var more := Inserted(s, timer).index;
    assert more[timer.position].key == DueAt(s.time, timer);
    if s.index != map[] {
      var p :| p in s.index && s.index[p].key == s.next;
      assert more[p] == s.index[p];
    }
    assert Least(more, Earliest(more));
  }

  lemma SetPunctual(s: Timers, timer: NodeTimer)
    requires Punctual(s)
    ensures var rest := s.index - {timer.position};
            Punctual(SetIn(s, timer)) <==>
              rest == map[] || Earliest(rest) != NEVER || DueAt(s.time, timer) <= NEVER
  {
    RemovedPunctual(s, timer.position);
    InsertedPunctual(Removed(s, timer.position), timer);
  }

  /** The timers that are not due yet. */
  function Later(index: map<Pos, Entry>, time: real): map<Pos, Entry> {
    map p | p in index && index[p].key > time :: index[p]
  }

  /** All timers that are due and no others, once each, in the order of their times. */
  ghost predicate Fires(index: map<Pos, Entry>, time: real, fired: seq<Entry>) {
    && Sorted(fired)
    && (forall i, j :: 0 <= i < j < |fired| ==> fired[i].timer.position != fired[j].timer.position)
    && (forall i :: 0 <= i < |fired| ==> fired[i].timer.position in index && index[fired[i].timer.position] == fired[i])
    && (forall p :: p in index ==> (index[p] in fired <==> index[p].key <= time))
  }

  /** A step: nothing until the time it goes by, and then all that is due. */
  ghost predicate Stepped(s: Timers, dtime: real, s1: Timers, fired: seq<Entry>) {
    var now := s.time + dtime;
    if s.next == NEVER || now < s.next then
      s1 == s.(time := now) && fired == []
    else
      Fires(s.index, now, fired) && s1 == Timers(Later(s.index, now), Earliest(Later(s.index, now)), now)
  }

  /** Timers that are due are passed over exactly if the time to go by stands for none, or is yet to come. */
  lemma StepIsExact(s: Timers, dtime: real, s1: Timers, fired: seq<Entry>)
    requires Stepped(s, dtime, s1, fired)
    ensures Fires(s.index, s1.time, fired) && s1.index == Later(s.index, s1.time) <==>
            (s.next != NEVER && s.next <= s1.time) || Later(s.index, s1.time) == s.index
    ensures Punctual(s) && (s.next != NEVER || s.index == map[]) ==>
              Fires(s.index, s1.time, fired) && s1.index == Later(s.index, s1.time) && Punctual(s1)
  {
    var later := Later(s.index, s1.time);
    if later == s.index {
      forall p | p in s.index ensures s.index[p].key > s1.time {
        assert p in later;
      }
    } else if Punctual(s) {
      assert s.index != map[];
      var p :| p in s.index && s.index[p].key <= s1.time;
    }
  }

  function Reported(e: Entry, time: real): NodeTimer {
    e.timer.(elapsed := e.timer.timeout + (time - e.key))
  }

  class NodeTimerList {
    var timers: seq<Entry>
    var index: map<Pos, Entry>
    var next: real
    var time: real
    ghost var since: map<Pos, real>  // when each timer was set

    /** List and index agree, and each timer is due when what is left of its timeout has passed since it was set. */
    ghost predicate Valid()
      reads this
    {
      && Sorted(timers) && Indexed(timers, index)
      && forall p :: p in index ==> p in since && index[p].key == since[p] + (index[p].timer.timeout - index[p].timer.elapsed)
    }

    ghost function Abs(): Timers
      reads this
    {
      Timers(index, next, time)
    }

    /** How long a timer has run: what it had when it was set, and the time since. */
    ghost function Run(p: Pos): real
      requires p in index && p in since
      reads this
    {
      index[p].timer.elapsed + (time - since[p])
    }

    constructor ()
      ensures Valid() && Abs() == Timers(map[], NEVER, 0.0)
    {
      timers, index, next, time, since := [], map[], NEVER, 0.0, map[];
    }

    /** get: the timer with the time it has run, or one that is not running. */
    method Get(p: Pos) returns (t: NodeTimer)
      requires Valid()
      ensures p !in index ==> t == NodeTimer(0.0, 0.0, Pos(0, 0, 0))
      ensures p in index ==> t == index[p].timer.(elapsed := Run(p))
      // it has its timeout behind it exactly when it is due
      ensures p in index ==> (t.elapsed >= t.timeout <==> index[p].key <= time)
    {
      if p !in index {
        return NO_TIMER;
      }
      t := index[p].timer;
      t := t.(elapsed := t.timeout - (index[p].key - time));
    }

    /** The place of an entry in the list. */
    method Find(e: Entry) returns (i: nat)
      requires Listed(timers, e)
      ensures i < |timers| && timers[i] == e
    {
      i := 0;
      while timers[i] != e
        invariant exists j :: i <= j < |timers| && timers[j] == e
        decreases |timers| - i
      {
        i := i + 1;
      }
    }

    method Remove(p: Pos)
      requires Valid()
      modifies this
      ensures Valid() && Abs() == Removed(old(Abs()), p) && since == old(since)
    {
      hide Indexed, Listed, Earliest;
      if p in index {
        var e := index[p];
        Known(timers, index, p);
        var i := Find(e);
        EntryGoes(timers, index, i);
        timers := Without(timers, i);
        index := index - {p};
        FrontIsEarliest(timers, index);
        if e.key == next {
          if timers == [] {
            next := NEVER;
          } else {
            next := timers[0].key;
          }
        }
      } else {
        assert index - {p} == index;
      }
    }

    /** Where emplace puts an entry: behind all that are not later. */
    method Place(key: real) returns (i: nat)
      requires Sorted(timers)
      ensures i <= |timers|
      ensures (forall j :: 0 <= j < i ==> timers[j].key <= key) && (forall j :: i <= j < |timers| ==> key < timers[j].key)
    {
      i := 0;
      while i < |timers| && timers[i].key <= key
        invariant i <= |timers| && forall j :: 0 <= j < i ==> timers[j].key <= key
      {
        i := i + 1;
      }
    }

    /** insert, for a position without a timer. */
    method Insert(timer: NodeTimer)
      requires Valid() && timer.position !in index
      modifies this
      ensures Valid() && Abs() == Inserted(old(Abs()), timer) && since == old(since)[timer.position := time]
      // the next trigger time stays right unless the earliest one is the time that stands for none
      ensures Punctual(old(Abs())) ==>
                (Punctual(Abs()) <==> old(index) == map[] || old(next) != NEVER || DueAt(time, timer) <= NEVER)
    {
      hide Sorted, Indexed, Listed;
      var key := time + (timer.timeout - timer.elapsed);
      var e := Entry(key, timer);
      var i := Place(key);
      EntryComes(timers, index, i, e);
      if Punctual(Abs()) {
        InsertedPunctual(Abs(), timer);
      }
      timers := With(timers, i, e);
      index := index[timer.position := e];
      since := since[timer.position := time];
      if next == NEVER || key < next {
        next := key;
      }
    }

    /** set: the next trigger time stays right unless that of the other timers is the one that stands for none. */
    method Set(timer: NodeTimer)
      requires Valid()
      modifies this
      ensures Valid() && Abs() == SetIn(old(Abs()), timer) && since == old(since)[timer.position := time]
      ensures Punctual(old(Abs())) ==>
                var rest := old(index) - {timer.position};
                Punctual(Abs()) <==> rest == map[] || Earliest(rest) != NEVER || DueAt(time, timer) <= NEVER
    {
      hide Sorted, Indexed, Earliest;
      if Punctual(Abs()) {
        SetPunctual(Abs(), timer);
      }
      Remove(timer.position);
      Insert(timer);
    }

    method Clear()
      requires Valid()
      modifies this
      ensures Valid() && Abs() == Timers(map[], NEVER, old(time))
    {
      timers, index, next := [], map[], NEVER;
    }

    /** step: the timers that fire, and what is reported of them. */
    method Step(dtime: real) returns (elapsed: seq<NodeTimer>, ghost fired: seq<Entry>)
      requires Valid()
      modifies this
      ensures Valid() && Stepped(old(Abs()), dtime, Abs(), fired) && since == old(since)
      ensures elapsed == Reports(fired, time)
      // it reports what each timer had run when it was set, and the time since
      ensures forall i :: 0 <= i < |fired| ==>
                && fired[i].timer.position in since
                && elapsed[i].elapsed == fired[i].timer.elapsed + (time - since[fired[i].timer.position])
    {
      hide Sorted, Indexed, Listed, Earliest;
      elapsed, fired := [], [];
      time := time + dtime;
      if next == NEVER || time < next {
        return;
      }
      ghost var all := index;
      var i;
      elapsed, i := Fire();
      fired := timers[..i];
      Split(timers, all, i, time);
      timers := timers[i..];
      FrontIsEarliest(timers, index);
      if timers == [] {
        next := NEVER;
      } else {
        next := timers[0].key;
      }
    }

    /** The loop of step: reports the due timers and takes them out of the index. */
    method Fire() returns (elapsed: seq<NodeTimer>, i: nat)
      modifies this`index
      ensures i <= |timers| && (forall j :: 0 <= j < i ==> timers[j].key <= time) && (i < |timers| ==> time < timers[i].key)
      ensures elapsed == Reports(timers[..i], time) && index == old(index) - PositionsOf(timers[..i])
    {
      elapsed, i := [], 0;
      while i < |timers| && timers[i].key <= time
        invariant i <= |timers| && forall j :: 0 <= j < i ==> timers[j].key <= time
        invariant elapsed == Reports(timers[..i], time)
        invariant index == old(index) - PositionsOf(timers[..i])
      {
        var t := timers[i].timer;
        assert timers[..i + 1] == timers[..i] + [timers[i]];
        PositionsSnoc(timers[..i], timers[i]);
        elapsed := elapsed + [t.(elapsed := t.timeout + (time - timers[i].key))];
        index := index - {t.position};
        i := i + 1;
      }
    }
  }

  function Reports(fired: seq<Entry>, time: real): (r: seq<NodeTimer>)
    ensures |r| == |fired| && forall i :: 0 <= i < |r| ==> r[i] == Reported(fired[i], time)
  {
    seq(|fired|, i requires 0 <= i < |fired| => Reported(fired[i], time))
  }

  ghost function PositionsOf(entries: seq<Entry>): set<Pos> {
    set i | 0 <= i < |entries| :: entries[i].timer.position
  }

  lemma PositionsSnoc(entries: seq<Entry>, e: Entry)
    ensures PositionsOf(entries + [e]) == PositionsOf(entries) + {e.timer.position}
  {
    var more := entries + [e];
    forall p ensures p in PositionsOf(more) <==> p in PositionsOf(entries) || p == e.timer.position {
      if i :| 0 <= i < |entries| && entries[i].timer.position == p {
        assert more[i].timer.position == p;
      }
      assert more[|entries|] == e;
    }
  }

  lemma Known(timers: seq<Entry>, index: map<Pos, Entry>, p: Pos)
    requires Indexed(timers, index) && p in index
    ensures index[p].timer.position == p && Listed(timers, index[p])
  {
  }

  function Without(timers: seq<Entry>, i: nat): (r: seq<Entry>)
    requires i < |timers|
    ensures |r| == |timers| - 1 && forall j :: 0 <= j < |r| ==> r[j] == timers[if j < i then j else j + 1]
  {
    timers[..i] + timers[i + 1..]
  }

  function With(timers: seq<Entry>, i: nat, e: Entry): (r: seq<Entry>)
    requires i <= |timers|
    ensures |r| == |timers| + 1
    ensures forall j :: 0 <= j < |r| ==> r[j] == if j < i then timers[j] else if j == i then e else timers[j - 1]
  {
    timers[..i] + [e] + timers[i..]
  }

  lemma EntryGoes(timers: seq<Entry>, index: map<Pos, Entry>, i: nat)
    requires Sorted(timers) && Indexed(timers, index) && i < |timers|
    ensures Sorted(Without(timers, i)) && Indexed(Without(timers, i), index - {timers[i].timer.position})
  {
    hide Without, Listed;
    var rest, p := Without(timers, i), timers[i].timer.position;
    forall q | q in index && q != p ensures Listed(rest, index[q]) {
      StaysListed(timers, i, index[q]);
    }
  }

  lemma StaysListed(timers: seq<Entry>, i: nat, e: Entry)
    requires i < |timers| && Listed(timers, e) && timers[i] != e
    ensures Listed(Without(timers, i), e)
  {
    var j :| 0 <= j < |timers| && timers[j] == e;
    assert Without(timers, i)[if j < i then j else j - 1] == e;
  }

  lemma EntryComes(timers: seq<Entry>, index: map<Pos, Entry>, i: nat, e: Entry)
    requires Sorted(timers) && Indexed(timers, index) && i <= |timers| && e.timer.position !in index
    requires (forall j :: 0 <= j < i ==> timers[j].key <= e.key) && (forall j :: i <= j < |timers| ==> e.key < timers[j].key)
    ensures Sorted(With(timers, i, e)) && Indexed(With(timers, i, e), index[e.timer.position := e])
  {
    hide Listed;
    var more := With(timers, i, e);
    forall q | q in index ensures Listed(more, index[q]) {
      NowListed(timers, i, e, index[q]);
    }
    NowListed(timers, i, e, e);
  }

  lemma NowListed(timers: seq<Entry>, i: nat, e: Entry, x: Entry)
    requires i <= |timers| && (x == e || Listed(timers, x))
    ensures Listed(With(timers, i, e), x)
  {
    if x == e {
      assert With(timers, i, e)[i] == x;
    } else {
      var j :| 0 <= j < |timers| && timers[j] == x;
      assert With(timers, i, e)[if j < i then j else j + 1] == x;
    }
  }

  /** The next timer is the first of the list. */
  lemma FrontIsEarliest(timers: seq<Entry>, index: map<Pos, Entry>)
    requires Sorted(timers) && Indexed(timers, index)
    ensures timers == [] <==> index == map[]
    ensures Earliest(index) == if timers == [] then NEVER else timers[0].key
  {
    forall p | p in index ensures timers != [] && timers[0].key <= index[p].key {
      assert Listed(timers, index[p]);
    }
    if timers != [] {
      assert timers[0].timer.position in index;
      assert Least(index, Earliest(index));
    }
  }

  /** The first `i` entries are due, the others are not. */
  lemma Split(timers: seq<Entry>, index: map<Pos, Entry>, i: nat, time: real)
    requires Sorted(timers) && Indexed(timers, index) && i <= |timers|
    requires (forall j :: 0 <= j < i ==> timers[j].key <= time) && (i < |timers| ==> time < timers[i].key)
    ensures var rest := index - PositionsOf(timers[..i]);
            Indexed(timers[i..], rest) && rest == Later(index, time)
    ensures Fires(index, time, timers[..i]) && Sorted(timers[i..])
  {
    hide Listed;
    var rest := index - PositionsOf(timers[..i]);
    forall p | p in index
      ensures index[p] in timers[..i] <==> index[p].key <= time
      ensures p in rest <==> index[p].key > time
      ensures index[p].key > time ==> Listed(timers[i..], index[p])
    {
      DueOrNot(timers, index, i, time, p);
    }
  }

  lemma DueOrNot(timers: seq<Entry>, index: map<Pos, Entry>, i: nat, time: real, p: Pos)
    requires Sorted(timers) && Indexed(timers, index) && i <= |timers| && p in index
    requires (forall j :: 0 <= j < i ==> timers[j].key <= time) && (i < |timers| ==> time < timers[i].key)
    ensures index[p] in timers[..i] <==> index[p].key <= time
    ensures p in PositionsOf(timers[..i]) <==> index[p].key <= time
    ensures index[p].key > time ==> Listed(timers[i..], index[p])
  {
    assert Listed(timers, index[p]);
    var j :| 0 <= j < |timers| && timers[j] == index[p];
    if j < i {
      assert timers[..i][j] == timers[j];
    } else {
      assert timers[i..][j - i] == timers[j];
    }
  }

  datatype Command = SetTimer(timer: NodeTimer) | RemoveTimer(p: Pos) | ClearTimers | Advance(dtime: real)

  /** Timers that have not run longer than their timeout, and time that goes on. */
  predicate Ordinary(c: Command) {
    match c
    case SetTimer(timer) => timer.elapsed <= timer.timeout
    case RemoveTimer(_) => true
    case ClearTimers => true
    case Advance(dtime) => dtime >= 0.0
  }

  ghost predicate Reporting(s1: Timers, reported: seq<NodeTimer>, fired: seq<Entry>) {
    reported == Reports(fired, s1.time)
  }

  /** One command, as the list carries it out. */
  ghost predicate Follows(s: Timers, c: Command, s1: Timers, reported: seq<NodeTimer>) {
    match c
    case SetTimer(timer) => s1 == SetIn(s, timer) && reported == []
    case RemoveTimer(p) => s1 == Removed(s, p) && reported == []
    case ClearTimers => s1 == Timers(map[], NEVER, s.time) && reported == []
    case Advance(dtime) => exists fired :: Stepped(s, dtime, s1, fired) && Reporting(s1, reported, fired)
  }

  /** One command, as a plain map of timers would carry it out: all that is due fires. */
  ghost predicate AsMap(s: Timers, c: Command, s1: Timers, reported: seq<NodeTimer>) {
    match c
    case SetTimer(timer) =>
      && s1.index == s.index[timer.position := Entry(DueAt(s.time, timer), timer)]
      && s1.time == s.time && reported == []
    case RemoveTimer(p) => s1.index == s.index - {p} && s1.time == s.time && reported == []
    case ClearTimers => s1.index == map[] && s1.time == s.time && reported == []
    case Advance(dtime) =>
      && s1.index == Later(s.index, s1.time) && s1.time == s.time + dtime
      && exists fired :: Fires(s.index, s1.time, fired) && Reporting(s1, reported, fired)
  }

  /** No timer was ever due before time began, and the list goes by the earliest. */
  ghost predicate Healthy(s: Timers) {
    Punctual(s) && s.time >= 0.0 && forall p :: p in s.index ==> s.index[p].key >= 0.0
  }

  /** With ordinary commands the time that stands for none never comes up, and no timer is missed. */
  lemma OrdinaryIsAsMap(s: Timers, c: Command, s1: Timers, reported: seq<NodeTimer>)
    requires Healthy(s) && Ordinary(c) && Follows(s, c, s1, reported)
    ensures Healthy(s1) && AsMap(s, c, s1, reported)
  {
    hide Fires, Reports;
    match c
    case SetTimer(timer) => SetPunctual(s, timer);
    case RemoveTimer(p) => RemovedPunctual(s, p);
    case ClearTimers =>
    case Advance(dtime) =>
      var fired :| Stepped(s, dtime, s1, fired) && Reporting(s1, reported, fired);
      StepIsExact(s, dtime, s1, fired);
  }

  method Perform(l: NodeTimerList, c: Command) returns (reported: seq<NodeTimer>)
    requires l.Valid()
    modifies l
    ensures l.Valid() && Follows(old(l.Abs()), c, l.Abs(), reported)
  {
    reported := [];
    match c
    case SetTimer(timer) => l.Set(timer);
    case RemoveTimer(p) => l.Remove(p);
    case ClearTimers => l.Clear();
    case Advance(dtime) =>
      ghost var fired;
      reported, fired := l.Step(dtime);
      assert Reporting(l.Abs(), reported, fired);
  }

  /** Any commands in a row: whatever they are, list and index stay in step;
      and if they are ordinary ones, the list is a plain map of timers that misses none. */
  method PerformAll(l: NodeTimerList, commands: seq<Command>) returns (reports: seq<seq<NodeTimer>>, ghost states: seq<Timers>)
    requires l.Valid()
    modifies l
    ensures l.Valid() && |reports| == |commands| && |states| == |commands| + 1
    ensures states[0] == old(l.Abs()) && states[|commands|] == l.Abs()
    ensures forall i :: 0 <= i < |commands| ==> Follows(states[i], commands[i], states[i + 1], reports[i])
    ensures Healthy(old(l.Abs())) && (forall i :: 0 <= i < |commands| ==> Ordinary(commands[i])) ==>
              && Healthy(l.Abs())
              && forall i :: 0 <= i < |commands| ==> AsMap(states[i], commands[i], states[i + 1], reports[i])
  {
    hide Follows, AsMap, Healthy, Ordinary;
    reports, states := [], [l.Abs()];
    ghost var ordinary := Healthy(l.Abs()) && forall i :: 0 <= i < |commands| ==> Ordinary(commands[i]);
    for n := 0 to |commands|
      invariant l.Valid() && |reports| == n && |states| == n + 1
      invariant states[0] == old(l.Abs()) && states[n] == l.Abs()
      invariant forall i :: 0 <= i < n ==> Follows(states[i], commands[i], states[i + 1], reports[i])
      invariant ordinary ==> Healthy(l.Abs())
      invariant ordinary ==> forall i :: 0 <= i < n ==> AsMap(states[i], commands[i], states[i + 1], reports[i])
    {
      ghost var before := l.Abs();
      var reported := Perform(l, commands[n]);
      if ordinary {
        OrdinaryIsAsMap(before, commands[n], l.Abs(), reported);
      }
      reports, states := reports + [reported], states + [l.Abs()];
    }
  }

  /** Two timers, one set when it had run longer than its timeout: it is due, and no step before that of the other fires it. */
  method MissedTimer() returns (l: NodeTimerList, reported: seq<NodeTimer>)
    ensures fresh(l) && l.Valid() && !Punctual(l.Abs()) && reported == []
    ensures Pos(0, 0, 0) in l.index && l.index[Pos(0, 0, 0)].key == -1.0 && l.time == 4.0 && l.next == 5.0
  {
    hide Sorted, Indexed, Earliest, Fires, Later;
    l := new NodeTimerList();
    var late, other := NodeTimer(0.0, 1.0, Pos(0, 0, 0)), NodeTimer(5.0, 0.0, Pos(1, 0, 0));
    l.Set(late);
    assert l.Abs() == Timers(map[late.position := Entry(-1.0, late)], -1.0, 0.0);
    l.Set(other);
    assert l.next == 5.0;
    ghost var fired;
    reported, fired := l.Step(4.0);
    assert Least(l.index, Earliest(l.index));
  }
}
