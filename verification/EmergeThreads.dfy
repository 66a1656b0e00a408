/** The emerge threads at work: atomic steps under the queue mutex, and what every run of them keeps. */
module EmergeThreads {
  import opened Options
  import opened EmergeQueue
  import opened Positions

  // Where a thread is in its loop.
  datatype Pc = AtCheck | AtPop | Waiting | Working(pos: Pos, data: BlockData) | Stopping | Stopped

  datatype System = System(
    q: State,
    pcs: seq<Pc>,
    notified: seq<bool>,       // the sticky flag of each thread's event
    due: multiset<nat>,        // threads that someone is going to signal but has not yet
    asked: seq<bool>,          // which threads were asked to stop
    calls: seq<Call>,          // callbacks invoked so far
    accepted: multiset<(Pos, Callback)>,
    skipped: multiset<(Pos, Callback)>,
    granted: set<Pos>)         // the blocks for which an accepted request allowed generation

  datatype Step =
    | Enqueue(r: Request, ok: bool, isNew: bool, thread: nat)
    | AskToStop(thread: nat)  // stop, with the signal still to come
    | Signal(thread: nat)
    | Check(thread: nat)  // the loop condition
    | Pop(thread: nat, pos: Pos, data: BlockData)  // popBlockEmerge finds something
    | Sleep(thread: nat)  // it finds nothing, and the thread goes on to wait
    | Wake(thread: nat)
    | Finish(thread: nat, action: Action)
    | Skip(thread: nat)   // a block over the map limit
    | CancelOne(thread: nat)
    | End(thread: nat)

  /** One of everything for each thread. */
  predicate Sized(s: System) {
    |s.pcs| == |s.notified| == |s.asked| == |s.q.queues|
  }

  ghost predicate Init(s: System) {
    && s.q == State(map[], map[], s.q.queues)
    && Sized(s)
    && (forall t :: 0 <= t < |s.pcs| ==> s.pcs[t] == AtCheck && !s.notified[t] && !s.asked[t] && s.q.queues[t] == [])
    && s.due == multiset{} && s.calls == [] && s.accepted == multiset{} && s.skipped == multiset{}
    && s.granted == {}
  }

  /** The block was generated, or an error occurred while it was. */
  predicate FromGenerator(action: Action) { action == Generated || action == Errored }

  function Keyed(pos: Pos, callbacks: seq<Callback>): (r: seq<(Pos, Callback)>)
    ensures |r| == |callbacks|
  {
    seq(|callbacks|, i requires 0 <= i < |callbacks| => (pos, callbacks[i]))
  }

  ghost predicate Next(limits: Limits, s: System, step: Step, s1: System)
    requires Sized(s)
  {
    var n := |s.pcs|;
    match step
    case Enqueue(r, ok, isNew, t) =>
      && Enqueued(limits, s.q, r, ok, isNew, t, s1.q)
      && s1 == s.(q := s1.q,
                  due := if isNew then s.due + multiset{t} else s.due,
                  accepted := if ok && r.callback.Some? then s.accepted + multiset{(r.pos, r.callback.value)} else s.accepted,
                  granted := if ok && r.allowGen then s.granted + {r.pos} else s.granted)
    case AskToStop(t) =>
      t < n && s1 == s.(asked := s.asked[t := true], due := s.due + multiset{t})
    case Check(t) =>
      t < n && s.pcs[t] == AtCheck && s1 == s.(pcs := s.pcs[t := if s.asked[t] then Stopping else AtPop])
    case Signal(t) =>
      t < n && t in s.due && s1 == s.(notified := s.notified[t := true], due := s.due - multiset{t})
    case Pop(t, pos, data) =>
      && t < n && s.pcs[t] == AtPop && Popped(s.q, t, pos, data, s1.q)
      && s1 == s.(q := s1.q, pcs := s.pcs[t := Working(pos, data)])
    case Sleep(t) =>
      t < n && s.pcs[t] == AtPop && s.q.queues[t] == [] && s1 == s.(pcs := s.pcs[t := Waiting])
    case Wake(t) =>
      && t < n && s.pcs[t] == Waiting && s.notified[t]
      && s1 == s.(pcs := s.pcs[t := AtCheck], notified := s.notified[t := false])
    case Finish(t, action) =>
      && t < n && s.pcs[t].Working? && !OverLimit(s.pcs[t].pos)
      && (FromGenerator(action) ==> s.pcs[t].data.allowGen)
      && s1 == s.(pcs := s.pcs[t := AtCheck], calls := s.calls + Calls(s.pcs[t].pos, action, s.pcs[t].data.callbacks))
    case Skip(t) =>
      && t < n && s.pcs[t].Working? && OverLimit(s.pcs[t].pos)
      && s1 == s.(pcs := s.pcs[t := AtCheck],
                  skipped := s.skipped + multiset(Keyed(s.pcs[t].pos, s.pcs[t].data.callbacks)))
    case CancelOne(t) =>
      && t < n && s.pcs[t] == Stopping && s.q.queues[t] != [] && s.q.queues[t][0] in s.q.table
      && var pos := s.q.queues[t][0];
      && Popped(s.q, t, pos, s.q.table[pos], s1.q)
      && s1 == s.(q := s1.q, calls := s.calls + Calls(pos, Cancelled, s.q.table[pos].callbacks))
    case End(t) =>
      t < n && s.pcs[t] == Stopping && s.q.queues[t] == [] && s1 == s.(pcs := s.pcs[t := Stopped])
  }

  // Where an accepted callback can be.

  ghost function Pending(q: State, pos: Pos, cb: Callback): nat {
    if pos in q.table then multiset(q.table[pos].callbacks)[cb] else 0
  }

  ghost function Carried(pos: Pos, cb: Callback): Pc -> nat {
    (pc: Pc) => if pc.Working? && pc.pos == pos then multiset(pc.data.callbacks)[cb] else 0
  }

  ghost function InFlight(s: System, pos: Pos, cb: Callback): nat {
    Sum(s.pcs, Carried(pos, cb))
  }

  ghost function CalledKeys(calls: seq<Call>): seq<(Pos, Callback)> {
    seq(|calls|, i requires 0 <= i < |calls| => (calls[i].pos, calls[i].callback))
  }

  ghost function Delivered(s: System, pos: Pos, cb: Callback): nat {
    multiset(CalledKeys(s.calls))[(pos, cb)]
  }

  /** Nothing accepted is lost, and nothing happens twice. */
  ghost predicate Conserved(s: System, pos: Pos, cb: Callback) {
    s.accepted[(pos, cb)] == Pending(s.q, pos, cb) + InFlight(s, pos, cb) + Delivered(s, pos, cb) + s.skipped[(pos, cb)]
  }

  /** A thread that sleeps on a non-empty queue, or is past the check when asked to stop, has been, or will be, signalled. */
  ghost predicate WillWake(s: System, t: nat)
    requires Sized(s)
  {
    t < |s.pcs|
    && ((s.pcs[t] == Waiting && s.q.queues[t] != []) || ((s.pcs[t] == Waiting || s.pcs[t] == AtPop) && s.asked[t])) ==>
      s.notified[t] || t in s.due
  }

  ghost predicate Inv(s: System) {
    && Sized(s)
    && Good(s.q)
    && (forall t :: WillWake(s, t))
    && (forall pos, cb :: Conserved(s, pos, cb))
    && (forall pos, cb :: s.skipped[(pos, cb)] > 0 ==> OverLimit(pos))
    && Licensed(s)
  }

  /** Permission to generate a block comes from a request for this block, wherever the request has got to. */
  ghost predicate Licensed(s: System) {
    && (forall pos :: pos in s.q.table && s.q.table[pos].allowGen ==> pos in s.granted)
    && (forall pc :: pc in s.pcs && pc.Working? && pc.data.allowGen ==> pc.pos in s.granted)
    && (forall call :: call in s.calls && (call.action == Generated || call.action == Errored) ==> call.pos in s.granted)
  }

  lemma InitInv(s: System)
    requires Init(s)
    ensures Inv(s)
  {
    forall pos ensures Queued(s.q.queues, pos) == 0 {
      SumZero(s.q.queues, Occurs(pos));
    }
    forall p ensures Owned(s.q.table, p) == {} {
    }
    forall pos, cb ensures Conserved(s, pos, cb) {
      SumZero(s.pcs, Carried(pos, cb));
    }
  }

  lemma KeyedCount(pos: Pos, callbacks: seq<Callback>, p: Pos, cb: Callback)
    ensures multiset(Keyed(pos, callbacks))[(p, cb)] == if p == pos then multiset(callbacks)[cb] else 0
    decreases |callbacks|
  {
    if callbacks != [] {
      var n := |callbacks| - 1;
      assert callbacks == callbacks[..n] + [callbacks[n]];
      assert Keyed(pos, callbacks) == Keyed(pos, callbacks[..n]) + [(pos, callbacks[n])];
      KeyedCount(pos, callbacks[..n], p, cb);
    }
  }

  lemma CalledMore(calls: seq<Call>, pos: Pos, action: Action, callbacks: seq<Callback>)
    ensures CalledKeys(calls + Calls(pos, action, callbacks)) == CalledKeys(calls) + Keyed(pos, callbacks)
  {
  }

  lemma EnqueueConserves(limits: Limits, s: System, step: Step, s1: System, pos: Pos, cb: Callback)
    requires Sized(s)
    requires step.Enqueue? && Next(limits, s, step, s1) && Conserved(s, pos, cb)
    ensures Conserved(s1, pos, cb)
  {
    var r := step.r;
    if step.ok {
      var before := if r.pos in s.q.table then s.q.table[r.pos].callbacks else [];
      assert s1.q.table[r.pos].callbacks == Appended(before, r.callback);
    }
  }

  lemma StepConserves(limits: Limits, s: System, step: Step, s1: System, pos: Pos, cb: Callback)
    requires Sized(s)
    requires Next(limits, s, step, s1) && Conserved(s, pos, cb)
    ensures Conserved(s1, pos, cb)
  {
    match step
    case Enqueue(_, _, _, _) => EnqueueConserves(limits, s, step, s1, pos, cb);
    case AskToStop(_) =>
    case Signal(_) =>
    case Check(t) => SumUpdate(s.pcs, t, if s.asked[t] then Stopping else AtPop, Carried(pos, cb));
    case Pop(t, p, data) => SumUpdate(s.pcs, t, Working(p, data), Carried(pos, cb));
    case Sleep(t) => SumUpdate(s.pcs, t, Waiting, Carried(pos, cb));
    case Wake(t) => SumUpdate(s.pcs, t, AtCheck, Carried(pos, cb));
    case Finish(t, action) =>
      SumUpdate(s.pcs, t, AtCheck, Carried(pos, cb));
      CalledMore(s.calls, s.pcs[t].pos, action, s.pcs[t].data.callbacks);
      KeyedCount(s.pcs[t].pos, s.pcs[t].data.callbacks, pos, cb);
    case Skip(t) =>
      SumUpdate(s.pcs, t, AtCheck, Carried(pos, cb));
      KeyedCount(s.pcs[t].pos, s.pcs[t].data.callbacks, pos, cb);
    case CancelOne(t) =>
      var p := s.q.queues[t][0];
      CalledMore(s.calls, p, Cancelled, s.q.table[p].callbacks);
      KeyedCount(p, s.q.table[p].callbacks, pos, cb);
    case End(t) => SumUpdate(s.pcs, t, Stopped, Carried(pos, cb));
  }

  lemma StepWakes(limits: Limits, s: System, step: Step, s1: System, t: nat)
    requires Sized(s)
    requires Next(limits, s, step, s1) && WillWake(s, t)
    ensures Sized(s1) && WillWake(s1, t)
  {
  }

  /** No step generates a block that nobody allowed to generate. */
  lemma StepLicensed(limits: Limits, s: System, step: Step, s1: System)
    requires Sized(s) && Licensed(s) && Next(limits, s, step, s1)
    ensures Licensed(s1) && s.granted <= s1.granted
    ensures s1.granted != s.granted ==>
              step.Enqueue? && step.ok && step.r.allowGen && s1.granted == s.granted + {step.r.pos}
  {
    forall pc | pc in s1.pcs && pc !in s.pcs && pc.Working? && pc.data.allowGen ensures pc.pos in s1.granted {
      assert step.Pop? && pc == Working(step.pos, step.data);
    }
    forall call | call in s1.calls && call !in s.calls && FromGenerator(call.action) ensures call.pos in s1.granted {
      assert step.Finish? || step.CancelOne?;
      if step.Finish? {
        var pc := s.pcs[step.thread];
        CallsAre(pc.pos, step.action, pc.data.callbacks, call);
        assert pc in s.pcs;
      } else {
        var pos := s.q.queues[step.thread][0];
        CallsAre(pos, Cancelled, s.q.table[pos].callbacks, call);
      }
    }
  }

  lemma CallsAre(pos: Pos, action: Action, callbacks: seq<Callback>, call: Call)
    ensures call in Calls(pos, action, callbacks) ==> call.pos == pos && call.action == action && call.callback in callbacks
  {
  }

  /** Every step keeps the invariant. */
  lemma StepKeepsInv(limits: Limits, s: System, step: Step, s1: System)
    requires Inv(s) && Next(limits, s, step, s1)
    ensures Inv(s1)
  {
    StepWakes(limits, s, step, s1, 0);
    forall t ensures WillWake(s1, t) {
      StepWakes(limits, s, step, s1, t);
    }
    forall pos, cb ensures Conserved(s1, pos, cb) {
      StepConserves(limits, s, step, s1, pos, cb);
    }
    StepLicensed(limits, s, step, s1);
    match step
    case Enqueue(r, ok, isNew, t) => EnqueuedKeepsGood(limits, s.q, r, ok, isNew, t, s1.q);
    case Pop(t, pos, data) => PoppedKeepsGood(s.q, t, pos, data, s1.q);
    case CancelOne(t) => PoppedKeepsGood(s.q, t, s.q.queues[t][0], s.q.table[s.q.queues[t][0]], s1.q);
    case Skip(t) =>
      forall pos, cb | s1.skipped[(pos, cb)] > 0 ensures OverLimit(pos) {
        KeyedCount(s.pcs[t].pos, s.pcs[t].data.callbacks, pos, cb);
      }
    case _ =>
  }

  /** A run: each state follows from the one before by some step of some thread. */
  ghost predicate Run(limits: Limits, states: seq<System>) {
    && states != [] && Init(states[0])
    && forall i :: 0 < i < |states| ==> Follows(limits, states[i - 1], states[i])
  }

  ghost predicate Follows(limits: Limits, s: System, s1: System) {
    Sized(s) && exists step :: Next(limits, s, step, s1)
  }

  lemma {:induction false} RunKeepsInv(limits: Limits, states: seq<System>)
    requires Run(limits, states)
    ensures Inv(states[|states| - 1])
    decreases |states|
  {
    var n := |states| - 1;
    if n == 0 {
      InitInv(states[0]);
    } else {
      RunKeepsInv(limits, states[..n]);
      assert Follows(limits, states[n - 1], states[n]);
      var step :| Next(limits, states[n - 1], step, states[n]);
      StepKeepsInv(limits, states[n - 1], step, states[n]);
    }
  }

  /** All queues are empty and nobody is at work. */
  ghost predicate Resting(s: System)
    requires Sized(s)
  {
    forall t :: 0 <= t < |s.pcs| ==> s.q.queues[t] == [] && !s.pcs[t].Working?
  }

  /** At rest the table is empty, the counters are 0, and every accepted callback was called exactly once per acceptance
      or skipped with a block over the map limit. */
  lemma AtRest(limits: Limits, states: seq<System>)
    requires Run(limits, states)
    ensures Inv(states[|states| - 1])
    ensures var s := states[|states| - 1];
            Resting(s) ==>
              && s.q.table == map[]
              && (forall p :: CountOf(s.q.peers, p) == 0)
              && (forall pos, cb :: s.accepted[(pos, cb)] == Delivered(s, pos, cb) + s.skipped[(pos, cb)])
              && (forall pos, cb :: !OverLimit(pos) ==> s.accepted[(pos, cb)] == Delivered(s, pos, cb))
  {
    RunKeepsInv(limits, states);
    var s := states[|states| - 1];
    if Resting(s) {
      forall pos ensures pos !in s.q.table {
        SumZero(s.q.queues, Occurs(pos));
        assert Queued(s.q.queues, pos) == 0;
      }
      assert s.q.table == map[];
      forall p ensures CountOf(s.q.peers, p) == 0 {
        assert Owned(s.q.table, p) == {};
      }
      forall pos, cb
        ensures s.accepted[(pos, cb)] == Delivered(s, pos, cb) + s.skipped[(pos, cb)]
      {
        SumZero(s.pcs, Carried(pos, cb));
        assert Conserved(s, pos, cb);
      }
    }
  }

  /** After every run that ends at rest, each accepted callback of `pos` was called. */
  ghost predicate Answered(limits: Limits, pos: Pos) {
    forall states, cb :: AnsweredAfter(limits, states, pos, cb)
  }

  ghost predicate AnsweredAfter(limits: Limits, states: seq<System>, pos: Pos, cb: Callback) {
    Run(limits, states) ==>
      var s := states[|states| - 1];
      Sized(s) && Resting(s) ==> s.accepted[(pos, cb)] == Delivered(s, pos, cb)
  }

  lemma RequestAlone(limits: Limits, r: Request, cb: Callback)
    requires r.force && r.callback == Some(cb)
    ensures var data := BlockData(r.peer, r.allowGen, r.force, [cb]);
            Enqueued(limits, State(map[], map[], [[]]), r, true, true, 0,
                     State(map[r.pos := data], map[r.peer := 1], [[r.pos]]))
  {
    var nothing: seq<Pos> := [];
    assert Appended([], r.callback) == [cb];
    assert nothing + [r.pos] == [r.pos];
    assert [nothing][0 := [r.pos]] == [[r.pos]];
  }

  lemma RequestTaken(pos: Pos, data: BlockData)
    ensures Popped(State(map[pos := data], map[data.peer := 1], [[pos]]), 0, pos, data,
                   State(map[], map[data.peer := 0], [[]]))
  {
    var nothing: seq<Pos> := [];
    assert [pos][1..] == nothing;
    assert [[pos]][0 := nothing] == [nothing];
    assert map[pos := data] - {pos} == map[];
  }

  lemma RunMore(limits: Limits, states: seq<System>, step: Step, s1: System)
    requires Run(limits, states) && Sized(states[|states| - 1]) && Next(limits, states[|states| - 1], step, s1)
    ensures Run(limits, states + [s1])
  {
    var more := states + [s1];
    forall i | 0 < i < |more| ensures Follows(limits, more[i - 1], more[i]) {
      if i < |states| { assert Follows(limits, states[i - 1], states[i]); }
    }
  }

  /** A run of one thread to which a block was queued, and which has been signalled and is about to take it. */
  lemma AboutToTake(limits: Limits, pos: Pos, cb: Callback) returns (states: seq<System>)
    ensures Run(limits, states) && states != []
    ensures states[|states| - 1] ==
            System(State(map[pos := BlockData(1, true, true, [cb])], map[1 := 1], [[pos]]),
                   [AtPop], [true], multiset{}, [false], [], multiset{(pos, cb)}, multiset{}, {pos})
  {
    hide Run, Enqueued;
    var r, data := Request(pos, 1, true, true, Some(cb)), BlockData(1, true, true, [cb]);
    var s := System(State(map[], map[], [[]]), [AtCheck], [false], multiset{}, [false], [], multiset{}, multiset{}, {});
    states := FreshRun(limits, s);
    RequestAlone(limits, r, cb);
    s := s.(q := State(map[pos := data], map[1 := 1], [[pos]]), due := multiset{0}, accepted := multiset{(pos, cb)},
             granted := {pos});
    RunMore(limits, states, Enqueue(r, true, true, 0), s);
    states := states + [s];
    s := s.(due := multiset{}, notified := [true]);
    RunMore(limits, states, Signal(0), s);
    states := states + [s];
    s := s.(pcs := [AtPop]);
    RunMore(limits, states, Check(0), s);
    states := states + [s];
  }

  lemma FreshRun(limits: Limits, s: System) returns (states: seq<System>)
    requires Init(s)
    ensures Run(limits, states) && states == [s]
  {
    states := [s];
  }

  /** The thread passes over a block over the map limit, and comes to rest. */
  lemma SkippedUnanswered(limits: Limits, pos: Pos, cb: Callback) returns (states: seq<System>)
    requires OverLimit(pos)
    ensures Run(limits, states)
    ensures var s := states[|states| - 1];
            Sized(s) && Resting(s) && s.accepted[(pos, cb)] == 1 && Delivered(s, pos, cb) == 0
  {
    hide Run, Popped;
    var data := BlockData(1, true, true, [cb]);
    states := AboutToTake(limits, pos, cb);
    var s := states[|states| - 1].(q := State(map[], map[1 := 0], [[]]), pcs := [Working(pos, data)]);
    RequestTaken(pos, data);
    RunMore(limits, states, Pop(0, pos, data), s);
    states := states + [s];
    s := s.(pcs := [AtCheck], skipped := multiset{(pos, cb)});
    assert Keyed(pos, [cb]) == [(pos, cb)];
    RunMore(limits, states, Skip(0), s);
    states := states + [s];
  }

  /** Callbacks are answered whatever the threads do exactly if their block lies within the map. */
  lemma AnsweredIfWithin(limits: Limits, pos: Pos)
    ensures Answered(limits, pos) <==> !OverLimit(pos)
  {
    if OverLimit(pos) {
      var states := SkippedUnanswered(limits, pos, 0);
      assert !AnsweredAfter(limits, states, pos, 0);
    } else {
      forall states, cb ensures AnsweredAfter(limits, states, pos, cb) {
        if Run(limits, states) {
          AtRest(limits, states);
        }
      }
    }
  }
}
