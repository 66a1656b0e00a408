/** The emerge queue: a table of requested blocks, per-peer counters and one FIFO per thread. */
module EmergeQueue {
  import opened Options
  import opened Positions

  type Callback = nat  // a callback function with its parameter

  datatype Action = Cancelled | Errored | FromMemory | FromDisk | Generated

  datatype BlockData = BlockData(peer: nat, allowGen: bool, force: bool, callbacks: seq<Callback>)

  datatype Call = Call(pos: Pos, action: Action, callback: Callback)

  datatype Limits = Limits(total: nat, diskOnly: nat, generate: nat)

  const PEER_ID_INEXISTENT := 0

  datatype Request = Request(pos: Pos, peer: nat, allowGen: bool, force: bool, callback: Option<Callback>)

  // What m_queue_mutex protects.
  datatype State = State(table: map<Pos, BlockData>, peers: map<nat, nat>, queues: seq<seq<Pos>>)

  function CountOf(peers: map<nat, nat>, p: nat): nat {
    if p in peers then peers[p] else 0
  }

  /** The positions a peer has asked for first. */
  ghost function Owned(table: map<Pos, BlockData>, p: nat): set<Pos> {
    set pos | pos in table && table[pos].peer == p
  }

  ghost function Sum<T>(s: seq<T>, f: T -> nat): nat {
    if s == [] then 0 else f(s[0]) + Sum(s[1..], f)
  }

  lemma {:induction false} SumUpdate<T>(s: seq<T>, i: nat, x: T, f: T -> nat)
    requires i < |s|
    ensures Sum(s[i := x], f) + f(s[i]) == Sum(s, f) + f(x)
  {
    if i > 0 {
      assert s[i := x][1..] == s[1..][i - 1 := x];
      SumUpdate(s[1..], i - 1, x, f);
    } else {
      assert s[i := x][1..] == s[1..];
    }
  }

  lemma {:induction false} SumMember<T>(s: seq<T>, i: nat, f: T -> nat)
    requires i < |s|
    ensures f(s[i]) <= Sum(s, f)
  {
    if i > 0 {
      SumMember(s[1..], i - 1, f);
    }
  }

  lemma {:induction false} SumZero<T>(s: seq<T>, f: T -> nat)
    requires forall i :: 0 <= i < |s| ==> f(s[i]) == 0
    ensures Sum(s, f) == 0
  {
    if s != [] {
      SumZero(s[1..], f);
    }
  }

  ghost function Occurs(pos: Pos): seq<Pos> -> nat {
    q => multiset(q)[pos]
  }

  /** How often a position is queued, over all threads. */
  ghost function Queued(queues: seq<seq<Pos>>, pos: Pos): nat {
    Sum(queues, Occurs(pos))
  }

  /** Every table entry is in exactly one queue exactly once, and the counters count the table. */
  ghost predicate Good(s: State) {
    && (forall pos {:trigger Queued(s.queues, pos)} :: Queued(s.queues, pos) == if pos in s.table then 1 else 0)
    && (forall p {:trigger Owned(s.table, p)} :: CountOf(s.peers, p) == |Owned(s.table, p)|)
  }

  /** Whether the queue limits let a request through. */
  predicate Admitted(limits: Limits, s: State, r: Request) {
    || r.force
    || (&& |s.table| < limits.total
        && if r.peer != PEER_ID_INEXISTENT then
             CountOf(s.peers, r.peer) < (if r.allowGen then limits.generate else limits.diskOnly)
           else CountOf(s.peers, r.peer) * 2 < limits.total)
  }

  function Appended(cbs: seq<Callback>, cb: Option<Callback>): seq<Callback> {
    if cb.Some? then cbs + [cb.value] else cbs
  }

  function Merged(s: State, r: Request): BlockData {
    if r.pos in s.table then
      var d := s.table[r.pos];
      BlockData(d.peer, d.allowGen || r.allowGen, d.force || r.force, Appended(d.callbacks, r.callback))
    else BlockData(r.peer, r.allowGen, r.force, Appended([], r.callback))
  }

  /** The entry of a block after some requests for it were accepted, the first of which made it. */
  ghost function Entry(s: State, rs: seq<Request>): BlockData
    requires rs != []
  {
    var n := |rs| - 1;
    if n == 0 then Merged(s, rs[0]) else Merged(s.(table := s.table[rs[n].pos := Entry(s, rs[..n])]), rs[n])
  }

  /** The callbacks of requests, in their order. */
  ghost function CallbacksOf(rs: seq<Request>): seq<Callback> {
    if rs == [] then []
    else
      var r := rs[|rs| - 1];
      CallbacksOf(rs[..|rs| - 1]) + if r.callback.Some? then [r.callback.value] else []
  }

  /** The entry allows generation exactly if one of the requests did, is forced exactly if one of them was, belongs to the
      peer that asked first, and has the callbacks of all of them in order. */
  lemma {:induction false} EntryMerges(s: State, rs: seq<Request>, pos: Pos)
    requires rs != [] && pos !in s.table && forall i :: 0 <= i < |rs| ==> rs[i].pos == pos
    ensures var d := Entry(s, rs);
            && (d.allowGen <==> exists i :: 0 <= i < |rs| && rs[i].allowGen)
            && (d.force <==> exists i :: 0 <= i < |rs| && rs[i].force)
            && d.peer == rs[0].peer && d.callbacks == CallbacksOf(rs)
  {
    var n := |rs| - 1;
    if n > 0 {
      EntryMerges(s, rs[..n], pos);
      assert forall i :: 0 <= i < n ==> rs[..n][i] == rs[i];
    } else {
      assert rs[..0] == [] && CallbacksOf(rs[..0]) == [];
    }
  }

  /** The first of the shortest queues. */
  ghost predicate Optimal(queues: seq<seq<Pos>>, t: nat) {
    && t < |queues|
    && (forall i :: 0 <= i < |queues| ==> |queues[t]| <= |queues[i]|)
    && (forall i :: 0 <= i < t ==> |queues[t]| < |queues[i]|)
  }

  /** A request seen by the protocol: `t` is the thread that gets a new position. */
  ghost predicate Enqueued(limits: Limits, s: State, r: Request, ok: bool, isNew: bool, t: nat, s1: State) {
    && ok == Admitted(limits, s, r)
    && isNew == (ok && r.pos !in s.table)
    && s1.table == (if ok then s.table[r.pos := Merged(s, r)] else s.table)
    && s1.peers == s.peers[r.peer := CountOf(s.peers, r.peer) + if isNew then 1 else 0]
    && (if isNew then Optimal(s.queues, t) && s1.queues == s.queues[t := s.queues[t] + [r.pos]]
        else s1.queues == s.queues)
  }

  /** Thread `t` takes the front of its queue. */
  ghost predicate Popped(s: State, t: nat, pos: Pos, data: BlockData, s1: State) {
    && t < |s.queues| && s.queues[t] != [] && pos == s.queues[t][0]
    && pos in s.table && data == s.table[pos]
    && s1.table == s.table - {pos}
    && CountOf(s.peers, data.peer) > 0
    && s1.peers == s.peers[data.peer := CountOf(s.peers, data.peer) - 1]
    && s1.queues == s.queues[t := s.queues[t][1..]]
  }

  lemma OwnedInsert(table: map<Pos, BlockData>, pos: Pos, data: BlockData, p: nat)
    requires pos in table ==> data.peer == table[pos].peer
    ensures |Owned(table[pos := data], p)| == |Owned(table, p)| + if pos !in table && data.peer == p then 1 else 0
  {
    var before, after := Owned(table, p), Owned(table[pos := data], p);
    if pos !in table && data.peer == p {
      assert after == before + {pos};
    } else {
      assert after == before;
    }
  }

  lemma OwnedRemove(table: map<Pos, BlockData>, pos: Pos, p: nat)
    requires pos in table
    ensures |Owned(table - {pos}, p)| == |Owned(table, p)| - if table[pos].peer == p then 1 else 0
  {
    var before, after := Owned(table, p), Owned(table - {pos}, p);
    if table[pos].peer == p {
      assert before == after + {pos};
    } else {
      assert after == before;
    }
  }

  lemma EnqueuedKeepsGood(limits: Limits, s: State, r: Request, ok: bool, isNew: bool, t: nat, s1: State)
    requires Good(s) && Enqueued(limits, s, r, ok, isNew, t, s1)
    ensures Good(s1)
    ensures ok && !r.force ==> |s1.table| <= limits.total
    ensures ok && !r.force && r.peer != 0 ==>
              |Owned(s1.table, r.peer)| <= if r.allowGen then limits.generate else limits.diskOnly
    ensures ok && !r.force && r.peer == 0 ==> |Owned(s.table, r.peer)| * 2 < limits.total
  {
    if ok {
      forall p ensures CountOf(s1.peers, p) == |Owned(s1.table, p)| {
        OwnedInsert(s.table, r.pos, Merged(s, r), p);
      }
      assert s1.table.Keys == s.table.Keys + {r.pos};
      assert |s1.table| == |s1.table.Keys| && |s.table| == |s.table.Keys|;
    }
    if isNew {
      forall pos ensures Queued(s1.queues, pos) == if pos in s1.table then 1 else 0 {
        SumUpdate(s.queues, t, s.queues[t] + [r.pos], Occurs(pos));
        assert Queued(s.queues, pos) == if pos in s.table then 1 else 0;
      }
    }
  }

  lemma PoppedKeepsGood(s: State, t: nat, pos: Pos, data: BlockData, s1: State)
    requires Good(s) && Popped(s, t, pos, data, s1)
    ensures Good(s1)
  {
    forall p ensures CountOf(s1.peers, p) == |Owned(s1.table, p)| {
      OwnedRemove(s.table, pos, p);
    }
    assert s.queues[t] == [pos] + s.queues[t][1..];
    forall x ensures Queued(s1.queues, x) == if x in s1.table then 1 else 0 {
      SumUpdate(s.queues, t, s.queues[t][1..], Occurs(x));
      assert Queued(s.queues, x) == if x in s.table then 1 else 0;
    }
  }

  /** What is queued is in the table and its owner is counted, so popping it cannot fail. */
  lemma QueuedIsRegistered(s: State, t: nat, i: nat)
    requires Good(s) && t < |s.queues| && i < |s.queues[t]|
    ensures s.queues[t][i] in s.table
    ensures s.table[s.queues[t][i]].peer in s.peers && CountOf(s.peers, s.table[s.queues[t][i]].peer) > 0
  {
    var pos := s.queues[t][i];
    assert pos in multiset(s.queues[t]);
    SumMember(s.queues, t, Occurs(pos));
    assert Queued(s.queues, pos) > 0;
    assert pos in Owned(s.table, s.table[pos].peer);
  }

  class EmergeManager {
    const limits: Limits
    var table: map<Pos, BlockData>   // m_blocks_enqueued
    var peers: map<nat, nat>         // m_peer_queue_count
    var queues: seq<seq<Pos>>        // m_block_queue of each thread
    var calls: seq<Call>             // callbacks invoked so far

    ghost function Abs(): State
      reads this
    {
      State(table, peers, queues)
    }

    ghost predicate Valid()
      reads this
    {
      Good(Abs()) && |queues| > 0
    }

    constructor (limits: Limits, threads: nat)
      requires threads > 0
      ensures Valid() && calls == [] && table == map[] && |queues| == threads && this.limits == limits
    {
      this.limits := limits;
      table, peers, calls := map[], map[], [];
      queues := seq(threads, i => []);
      new;
      forall pos ensures Queued(queues, pos) == 0 {
        SumZero(queues, Occurs(pos));
      }
      forall p ensures Owned(table, p) == {} {
      }
    }

    method PushBlockEmergeData(r: Request) returns (ok: bool, existed: bool)
      modifies this`table, this`peers
      ensures ok == Admitted(limits, old(Abs()), r)
      ensures ok ==> existed == old(r.pos in table)
      ensures table == if ok then old(table)[r.pos := Merged(old(Abs()), r)] else old(table)
      ensures peers == old(peers)[r.peer := CountOf(old(peers), r.peer) + if ok && old(r.pos !in table) then 1 else 0]
    {
      peers := peers[r.peer := CountOf(peers, r.peer)];
      existed := false;
      if !r.force {
        if |table| >= limits.total {
          return false, existed;
        }
        if r.peer != PEER_ID_INEXISTENT {
          var peerLimit := if r.allowGen then limits.generate else limits.diskOnly;
          if peers[r.peer] >= peerLimit {
            return false, existed;
          }
        } else if peers[r.peer] * 2 >= limits.total {
          return false, existed;
        }
      }
      existed := r.pos in table;
      var data := if existed then table[r.pos] else BlockData(r.peer, r.allowGen, r.force, []);
      if r.callback.Some? {
        data := data.(callbacks := data.callbacks + [r.callback.value]);
      }
      if existed {
        data := data.(allowGen := data.allowGen || r.allowGen, force := data.force || r.force);
      } else {
        peers := peers[r.peer := peers[r.peer] + 1];
      }
      table := table[r.pos := data];
      ok := true;
    }

    method PopBlockEmergeData(pos: Pos) returns (ok: bool, data: BlockData)
      modifies this`table, this`peers
      requires pos in table && table[pos].peer in peers ==> peers[table[pos].peer] != 0
      ensures ok == old(pos in table && table[pos].peer in peers)
      ensures ok ==> data == old(table[pos])
      ensures ok ==> table == old(table) - {pos} && peers == old(peers)[data.peer := old(peers[table[pos].peer]) - 1]
      ensures !ok ==> table == old(table) && peers == old(peers)
    {
      data := BlockData(0, false, false, []);
      if pos !in table {
        return false, data;
      }
      data := table[pos];
      if data.peer !in peers {
        return false, data;
      }
      peers := peers[data.peer := peers[data.peer] - 1];
      table := table - {pos};
      ok := true;
    }

    method GetOptimalThread() returns (index: nat)
      requires |queues| > 0
      ensures Optimal(queues, index)
    {
      index := 0;
      var lowest := |queues[0]|;
      for i := 1 to |queues|
        invariant index < i && lowest == |queues[index]|
        invariant forall j :: 0 <= j < i ==> lowest <= |queues[j]|
        invariant forall j :: 0 <= j < index ==> lowest < |queues[j]|
      {
        var items := |queues[i]|;
        if items < lowest {
          index := i;
          lowest := items;
        }
      }
    }

    /** The part of enqueueBlockEmergeEx under the mutex; a new position's thread is to be signalled. */
    method EnqueueBlockEmergeEx(r: Request) returns (ok: bool, isNew: bool, thread: nat)
      requires Valid()
      modifies this`table, this`peers, this`queues
      ensures Valid() && |queues| == |old(queues)|
      ensures Enqueued(limits, old(Abs()), r, ok, isNew, thread, Abs())
    {
      ghost var before := Abs();
      var existed;
      thread := 0;
      ok, existed := PushBlockEmergeData(r);
      if !ok {
        EnqueuedKeepsGood(limits, before, r, false, false, thread, Abs());
        return false, false, thread;
      }
      if existed {
        EnqueuedKeepsGood(limits, before, r, true, false, thread, Abs());
        return true, false, thread;
      }
      thread := GetOptimalThread();
      queues := queues[thread := queues[thread] + [r.pos]];
      EnqueuedKeepsGood(limits, before, r, true, true, thread, Abs());
      return true, true, thread;
    }

    method PopBlockEmerge(t: nat) returns (ok: bool, pos: Pos, data: BlockData)
      requires Valid() && t < |queues|
      modifies this`table, this`peers, this`queues
      ensures Valid() && |queues| == |old(queues)|
      ensures ok == (old(queues)[t] != [])
      ensures if ok then Popped(old(Abs()), t, pos, data, Abs()) else Abs() == old(Abs())
    {
      pos, data := Pos(0, 0, 0), BlockData(0, false, false, []);
      if queues[t] == [] {
        return false, pos, data;
      }
      pos, data := TakeFront(t);
      ok := true;
    }

    /** The front of a queue leaves it, and its entry the table. */
    method TakeFront(t: nat) returns (pos: Pos, data: BlockData)
      requires Valid() && t < |queues| && queues[t] != []
      modifies this`table, this`peers, this`queues
      ensures Valid() && Popped(old(Abs()), t, pos, data, Abs())
    {
      ghost var before := Abs();
      QueuedIsRegistered(before, t, 0);
      pos := queues[t][0];
      queues := queues[t := queues[t][1..]];
      var found;
      found, data := PopBlockEmergeData(pos);
      PoppedKeepsGood(before, t, pos, data, Abs());
    }

    /** Calls every callback of a block once, in the order of the requests. */
    method RunCompletionCallbacks(pos: Pos, action: Action, callbacks: seq<Callback>)
      modifies this`calls
      ensures calls == old(calls) + Calls(pos, action, callbacks)
      ensures |calls| == |old(calls)| + |callbacks|
      ensures forall i :: 0 <= i < |callbacks| ==> calls[|old(calls)| + i] == Call(pos, action, callbacks[i])
    {
      for i := 0 to |callbacks|
        invariant calls == old(calls) + Calls(pos, action, callbacks[..i])
      {
        calls := calls + [Call(pos, action, callbacks[i])];
        assert Calls(pos, action, callbacks[..i + 1]) == Calls(pos, action, callbacks[..i]) + [Call(pos, action, callbacks[i])];
      }
      assert callbacks[..|callbacks|] == callbacks;
    }

    /** Drains the queue of a thread, telling everyone who waits that the block was cancelled. */
    method CancelPendingItems(t: nat)
      requires Valid() && t < |queues|
      modifies this
      ensures Valid() && queues == old(queues)[t := []]
      ensures Drained(old(table), old(queues)[t], table)
      ensures calls == old(calls) + CancelCalls(old(table), old(queues)[t])
    {
      hide Drained, CancelCalls;
      DrainNothing(table);
      ghost var n, q := 0, queues[t];
      while queues[t] != []
        invariant Valid() && n <= |q|
        invariant queues == old(queues)[t := q[n..]]
        invariant Drained(old(table), q[..n], table)
        invariant calls == old(calls) + CancelCalls(old(table), q[..n])
        decreases |queues[t]|
      {
        ghost var before, log := table, calls;
        assert q[n..][0] == q[n];
        var pos, data := TakeFront(t);
        assert queues == old(queues)[t := q[n + 1..]] by {
          assert q[n..][1..] == q[n + 1..];
        }
        RunCompletionCallbacks(pos, Cancelled, data.callbacks);
        DrainStep(old(table), q, n, before);
        assert calls == log + Calls(pos, Cancelled, data.callbacks);
        n := n + 1;
      }
      assert q[..n] == q;
    }
  }

  /** `table` is `table0` without the positions of `q`, all of which were in it. */
  ghost predicate Drained(table0: map<Pos, BlockData>, q: seq<Pos>, table: map<Pos, BlockData>) {
    && (forall pos :: pos in q ==> pos in table0)
    && (forall pos :: pos in table <==> pos in table0 && pos !in q)
    && (forall pos :: pos in table ==> table[pos] == table0[pos])
  }

  lemma DrainNothing(table: map<Pos, BlockData>)
    ensures Drained(table, [], table) && CancelCalls(table, []) == []
  {
  }

  lemma DrainStep(table0: map<Pos, BlockData>, q: seq<Pos>, n: nat, table: map<Pos, BlockData>)
    requires n < |q| && Drained(table0, q[..n], table) && q[n] in table
    ensures Drained(table0, q[..n + 1], table - {q[n]})
    ensures CancelCalls(table0, q[..n + 1]) ==
            CancelCalls(table0, q[..n]) + Calls(q[n], Cancelled, table[q[n]].callbacks)
  {
    assert q[..n + 1] == q[..n] + [q[n]];
    CancelSnoc(table0, q[..n], q[n]);
  }

  function Calls(pos: Pos, action: Action, callbacks: seq<Callback>): (r: seq<Call>)
    ensures |r| == |callbacks|
  {
    seq(|callbacks|, i requires 0 <= i < |callbacks| => Call(pos, action, callbacks[i]))
  }

  ghost function CancelCalls(table: map<Pos, BlockData>, q: seq<Pos>): seq<Call> {
    if q == [] then []
    else (if q[0] in table then Calls(q[0], Cancelled, table[q[0]].callbacks) else []) + CancelCalls(table, q[1..])
  }

  lemma {:induction false} CancelSnoc(table: map<Pos, BlockData>, q: seq<Pos>, pos: Pos)
    ensures CancelCalls(table, q + [pos]) ==
            CancelCalls(table, q) + if pos in table then Calls(pos, Cancelled, table[pos].callbacks) else []
  {
    if q == [] {
    } else {
      assert (q + [pos])[1..] == q[1..] + [pos];
      CancelSnoc(table, q[1..], pos);
    }
  }
}
