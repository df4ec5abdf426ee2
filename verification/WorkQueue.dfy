/** The serial work queue of pkg/queue/queue.go as an interleaving protocol:
    many calls of Enqueue, one worker, one shared result channel, no shutdown. */
module WorkQueue {
  import opened Sequences
  import opened Strings

  /** Where a call of Enqueue stands: before the lock, holding it, holding it
      after its push, waiting for a result, returned with one. */
  datatype Phase<V> = Calling | Locked | Queued | Waiting | Returned(value: V)

  /** The worker: at its select, running an operation, or blocked on the result
      channel. Calls and their operations share numbers. */
  datatype Worker<V> = Idle | Running(op: nat) | Ready(op: nat, value: V)

  /** A result handed over: the operation it came from and the call that got it. */
  datatype Delivery<V> = Delivery(op: nat, value: V, call: nat)

  datatype State<V> = State(
    capacity: nat,
    holder: Option<nat>,
    phase: map<nat, Phase<V>>,
    queue: seq<nat>,
    worker: Worker<V>,
    pushed: seq<nat>,
    ran: seq<(nat, V)>,
    delivered: seq<Delivery<V>>)

  datatype Event<V> =
    | Call(c: nat)
    | Lock(c: nat)
    | Push(c: nat)
    | Unlock(c: nat)
    | Take
    | Finish(value: V)
    | Receive(c: nat)

  function Init<V>(capacity: nat): State<V> { State(capacity, None, map[], [], Idle, [], [], []) }

  predicate In<V(==)>(s: State<V>, c: nat, p: Phase<V>) { c in s.phase && s.phase[c] == p }

  predicate Enabled<V(==)>(s: State<V>, ev: Event<V>) {
    match ev
    case Call(c) => c !in s.phase
    case Lock(c) => In(s, c, Calling) && s.holder.None?
    case Push(c) =>
      In(s, c, Locked) && s.holder == Some(c) && (|s.queue| < s.capacity || (s.worker.Idle? && s.queue == []))
    case Unlock(c) => In(s, c, Queued) && s.holder == Some(c)
    case Take => s.worker.Idle? && s.queue != []
    case Finish(_) => s.worker.Running?
    case Receive(c) => In(s, c, Waiting) && s.worker.Ready?
  }

  function Step<V(==)>(s: State<V>, ev: Event<V>): State<V>
    requires Enabled(s, ev)
  {
    match ev
    case Call(c) => s.(phase := s.phase[c := Calling])
    case Lock(c) => s.(holder := Some(c), phase := s.phase[c := Locked])
    case Push(c) => s.(queue := s.queue + [c], pushed := s.pushed + [c], phase := s.phase[c := Queued])
    case Unlock(c) => s.(holder := None, phase := s.phase[c := Waiting])
    case Take => s.(worker := Running(s.queue[0]), queue := s.queue[1..])
    case Finish(v) => s.(worker := Ready(s.worker.op, v), ran := s.ran + [(s.worker.op, v)])
    case Receive(c) =>
      s.(worker := Idle, phase := s.phase[c := Returned(s.worker.value)],
         delivered := s.delivered + [Delivery(s.worker.op, s.worker.value, c)])
  }

  ghost predicate IsRun<V>(states: seq<State<V>>, events: seq<Event<V>>) {
    && |states| == |events| + 1 && states[0] == Init(states[0].capacity)
    && forall i :: 0 <= i < |events| ==> Enabled(states[i], events[i]) && states[i + 1] == Step(states[i], events[i])
  }

  /** The operation in the worker's hands. */
  function Inflight<V>(w: Worker<V>): seq<nat> {
    match w
    case Idle => []
    case Running(op) => [op]
    case Ready(op, _) => [op]
  }

  function Ops<V>(ds: seq<Delivery<V>>): (r: seq<nat>)
    ensures |r| == |ds| && forall k :: 0 <= k < |ds| ==> r[k] == ds[k].op
  {
    seq(|ds|, k requires 0 <= k < |ds| => ds[k].op)
  }

  /** Calls that have pushed and not yet received. */
  function Awaiting<V>(phase: map<nat, Phase<V>>): set<nat> {
    set c | c in phase && (phase[c].Queued? || phase[c].Waiting?)
  }

  ghost predicate Inv<V>(s: State<V>) {
    // every pushed operation is delivered, in the worker's hands or queued, in push order
    && s.pushed == Ops(s.delivered) + Inflight(s.worker) + s.queue
    // finished operations are the delivered ones and the one about to be
    && |s.ran| == |s.delivered| + (if s.worker.Ready? then 1 else 0)
    && (forall k :: 0 <= k < |s.delivered| ==> s.ran[k] == (s.delivered[k].op, s.delivered[k].value))
    && (s.worker.Ready? ==> s.ran[|s.delivered|] == (s.worker.op, s.worker.value))
    // each call pushes once
    && NoRepeats(s.pushed)
    && (forall c :: c in s.pushed ==> c in s.phase && !s.phase[c].Calling? && !s.phase[c].Locked?)
    // as many calls wait as operations are undelivered
    && |Awaiting(s.phase)| + |s.delivered| == |s.pushed|
    && (forall k :: 0 <= k < |s.delivered| ==> Returns(s, s.delivered[k]))
    && LockHeld(s)
  }

  /** The lock is held by the call between its lock and its unlock, if any. */
  ghost predicate LockHeld<V>(s: State<V>) {
    && (forall c :: c in s.phase && (s.phase[c].Locked? || s.phase[c].Queued?) ==> s.holder == Some(c))
    && (s.holder.Some? ==> In(s, s.holder.value, Locked) || In(s, s.holder.value, Queued))
  }

  /** A delivery is what its call returned. */
  ghost predicate Returns<V>(s: State<V>, d: Delivery<V>) {
    d.call in s.phase && s.phase[d.call] == Returned(d.value)
  }

  lemma AwaitingSame<V>(phase: map<nat, Phase<V>>, c: nat, p: Phase<V>)
    requires !p.Queued? && !p.Waiting? && c !in Awaiting(phase)
    ensures Awaiting(phase[c := p]) == Awaiting(phase)
  {}

  lemma AwaitingMore<V>(phase: map<nat, Phase<V>>, c: nat)
    requires c !in Awaiting(phase)
    ensures |Awaiting(phase[c := Queued])| == |Awaiting(phase)| + 1
  {
    assert Awaiting(phase[c := Queued]) == Awaiting(phase) + {c};
  }

  lemma AwaitingLess<V>(phase: map<nat, Phase<V>>, c: nat, v: V)
    requires c in Awaiting(phase)
    ensures |Awaiting(phase[c := Returned(v)])| == |Awaiting(phase)| - 1
  {
    assert Awaiting(phase[c := Returned(v)]) == Awaiting(phase) - {c};
  }

  lemma PushKeeps<V>(s: State<V>, c: nat)
    requires Inv(s) && Enabled(s, Push(c))
    ensures Inv(Step(s, Push(c)))
  {
    AwaitingMore(s.phase, c);
  }

  lemma TakeKeeps<V>(s: State<V>)
    requires Inv(s) && Enabled(s, Event<V>.Take)
    ensures Inv(Step(s, Event<V>.Take))
  {
    assert s.queue == [s.queue[0]] + s.queue[1..];
  }

  lemma ReceiveKeeps<V>(s: State<V>, c: nat)
    requires Inv(s) && Enabled(s, Event<V>.Receive(c))
    ensures Inv(Step(s, Event<V>.Receive(c)))
  {
    var s' := Step(s, Event<V>.Receive(c));
    AwaitingLess(s.phase, c, s.worker.value);
    assert Ops(s'.delivered) == Ops(s.delivered) + [s.worker.op];
  }

  lemma StepKeeps<V>(s: State<V>, ev: Event<V>)
    requires Inv(s) && Enabled(s, ev)
    ensures Inv(Step(s, ev))
  {
    match ev {
      case Call(c) => AwaitingSame(s.phase, c, Calling);
      case Lock(c) => AwaitingSame(s.phase, c, Locked);
      case Push(c) => PushKeeps(s, c);
      case Unlock(c) => assert Awaiting(Step(s, ev).phase) == Awaiting(s.phase);
      case Take => TakeKeeps(s);
      case Finish(_) =>
      case Receive(c) => ReceiveKeeps(s, c);
    }
  }

  lemma {:induction false} RunKeeps<V>(states: seq<State<V>>, events: seq<Event<V>>, n: nat)
    requires IsRun(states, events) && n <= |events|
    ensures Inv(states[n])
  {
    if n > 0 {
      RunKeeps(states, events, n - 1);
      StepKeeps(states[n - 1], events[n - 1]);
    }
  }

  /** Operations finish one at a time, exactly once and in push order, and the
      k-th delivered result is that of the k-th pushed operation. */
  lemma InPushOrder<V>(states: seq<State<V>>, events: seq<Event<V>>, n: nat)
    requires IsRun(states, events) && n <= |events|
    ensures var s := states[n];
            && NoRepeats(s.pushed) && |s.delivered| <= |s.ran| <= |s.pushed|
            && (forall k :: 0 <= k < |s.ran| ==> s.ran[k].0 == s.pushed[k])
            && (forall k :: 0 <= k < |s.delivered| ==>
                  s.delivered[k].op == s.pushed[k] && s.delivered[k].value == s.ran[k].1)
  {
    RunKeeps(states, events, n);
  }

  /** A finished operation always has a receiver: some call waits, or is about
      to and needs only its unlock. */
  lemma AlwaysAReceiver<V>(states: seq<State<V>>, events: seq<Event<V>>, n: nat)
    requires IsRun(states, events) && n <= |events|
    ensures |Awaiting(states[n].phase)| == |states[n].pushed| - |states[n].delivered|
    ensures states[n].worker.Ready? ==> exists c :: c in Awaiting(states[n].phase)
  {
    RunKeeps(states, events, n);
    if states[n].worker.Ready? {
      assert Awaiting(states[n].phase) != {};
    }
  }

  /** Calls never deadlock, whatever the capacity of the queue: while one of
      them has not returned, some step other than a new call can be taken (a
      running operation finishes, here with result v). */
  lemma NeverStuck<V>(states: seq<State<V>>, events: seq<Event<V>>, n: nat, c: nat, v: V) returns (ev: Event<V>)
    requires IsRun(states, events) && n <= |events|
    requires c in states[n].phase && !states[n].phase[c].Returned?
    ensures Enabled(states[n], ev) && !ev.Call?
  {
    RunKeeps(states, events, n);
    ev := NextStep(states[n], c, v);
  }

  lemma NextStep<V>(s: State<V>, c: nat, v: V) returns (ev: Event<V>)
    requires Inv(s) && c in s.phase && !s.phase[c].Returned?
    ensures Enabled(s, ev) && !ev.Call?
  {
    assert s.phase[c].Waiting? ==> c in Awaiting(s.phase);
    if s.holder.Some? && s.phase[s.holder.value].Queued? {
      ev := Unlock(s.holder.value);
    } else if s.worker.Running? {
      ev := Finish(v);
    } else if s.worker.Ready? {
      assert Awaiting(s.phase) != {};
      var w :| w in Awaiting(s.phase);
      ev := Receive(w);
    } else if s.queue != [] {
      ev := Take;
    } else if s.holder.Some? {
      ev := Push(s.holder.value);
    } else {
      ev := Lock(c);
    }
  }

  /** No two calls are between their lock and their unlock. */
  lemma MutualExclusion<V>(states: seq<State<V>>, events: seq<Event<V>>, n: nat, c: nat, d: nat)
    requires IsRun(states, events) && n <= |events|
    requires In(states[n], c, Locked) || In(states[n], c, Queued)
    requires In(states[n], d, Locked) || In(states[n], d, Queued)
    ensures c == d
  {
    RunKeeps(states, events, n);
  }

  /** The queue never holds more than its capacity, or than the one operation that
      is handed over if it has none. */
  lemma {:induction false} QueueBounded<V>(states: seq<State<V>>, events: seq<Event<V>>, n: nat)
    requires IsRun(states, events) && n <= |events|
    ensures states[n].capacity == states[0].capacity
    ensures |states[n].queue| <= if states[0].capacity == 0 then 1 else states[0].capacity
  {
    if n > 0 {
      QueueBounded(states, events, n - 1);
    }
  }

  // Every call returns

  /** How far a phase is from the return. */
  function Rank<V>(p: Phase<V>): nat {
    match p
    case Returned(_) => 0
    case Waiting => 1
    case Queued => 2
    case Locked => 3
    case Calling => 4
  }

  function AtRank<V>(phase: map<nat, Phase<V>>, k: nat): set<nat> { set c | c in phase && Rank(phase[c]) == k }

  /** An upper bound on the steps that can follow without a new call. */
  function Weight<V>(s: State<V>): nat {
    |AtRank(s.phase, 1)| + 2 * |AtRank(s.phase, 2)| + 6 * |AtRank(s.phase, 3)| + 7 * |AtRank(s.phase, 4)|
    + 3 * |s.queue| + (match s.worker case Idle => 0 case Running(_) => 2 case Ready(_, _) => 1)
  }

  lemma RankMoves<V>(phase: map<nat, Phase<V>>, c: nat, p: Phase<V>, k: nat)
    requires c in phase && Rank(phase[c]) != Rank(p)
    ensures |AtRank(phase[c := p], k)| ==
            |AtRank(phase, k)| + (if k == Rank(p) then 1 else 0) - (if k == Rank(phase[c]) then 1 else 0)
  {
    if k == Rank(p) {
      assert AtRank(phase[c := p], k) == AtRank(phase, k) + {c};
    } else {
      assert AtRank(phase[c := p], k) == AtRank(phase, k) - {c};
    }
  }

  lemma PhaseMoves<V>(phase: map<nat, Phase<V>>, c: nat, p: Phase<V>)
    requires c in phase && Rank(phase[c]) != Rank(p)
    ensures forall k :: 1 <= k <= 4 ==>
              |AtRank(phase[c := p], k)| ==
              |AtRank(phase, k)| + (if k == Rank(p) then 1 else 0) - (if k == Rank(phase[c]) then 1 else 0)
  {
    hide AtRank;
    forall k | 1 <= k <= 4
      ensures |AtRank(phase[c := p], k)| ==
              |AtRank(phase, k)| + (if k == Rank(p) then 1 else 0) - (if k == Rank(phase[c]) then 1 else 0)
    {
      RankMoves(phase, c, p, k);
    }
  }

  lemma StepLowers<V>(s: State<V>, ev: Event<V>)
    requires Enabled(s, ev) && !ev.Call?
    ensures Weight(Step(s, ev)) < Weight(s)
  {
    hide AtRank;
    match ev {
      case Lock(c) => PhaseMoves(s.phase, c, Locked);
      case Push(c) => PhaseMoves(s.phase, c, Queued);
      case Unlock(c) => PhaseMoves(s.phase, c, Waiting);
      case Take =>
      case Finish(_) =>
      case Receive(c) => PhaseMoves(s.phase, c, Returned(s.worker.value));
    }
  }

  /** Without new calls only so many steps can follow. */
  lemma {:induction false} RunsEnd<V>(states: seq<State<V>>, events: seq<Event<V>>, m: nat, n: nat)
    requires IsRun(states, events) && m <= n <= |events|
    requires forall i :: m <= i < n ==> !events[i].Call?
    ensures n - m + Weight(states[n]) <= Weight(states[m])
  {
    hide Weight;
    if m < n {
      RunsEnd(states, events, m, n - 1);
      StepLowers(states[n - 1], events[n - 1]);
    }
  }

  ghost predicate AllReturned<V>(s: State<V>) { forall c :: c in s.phase ==> s.phase[c].Returned? }

  /** A run that can only go on with new calls has returned from all of its own. */
  lemma MaximalReturns<V>(states: seq<State<V>>, events: seq<Event<V>>, v: V)
    requires IsRun(states, events)
    requires forall ev :: Enabled(states[|events|], ev) ==> ev.Call?
    ensures AllReturned(states[|events|])
  {
    forall c | c in states[|events|].phase
      ensures states[|events|].phase[c].Returned?
    {
      if !states[|events|].phase[c].Returned? {
        var ev := NeverStuck(states, events, |events|, c, v);
      }
    }
  }

  /** Every run can be finished without new calls, and is finished at the latest
      when its weight is used up. */
  lemma {:induction false} CanFinish<V>(states: seq<State<V>>, events: seq<Event<V>>, v: V)
    returns (states': seq<State<V>>, events': seq<Event<V>>)
    requires IsRun(states, events)
    ensures IsRun(states', events') && states <= states' && events <= events' && AllReturned(states'[|events'|])
    ensures forall i :: |events| <= i < |events'| ==> !events'[i].Call?
    ensures |events'| - |events| <= Weight(states[|events|])
    decreases Weight(states[|events|])
  {
    hide Weight, Step;
    var s := states[|events|];
    states', events' := states, events;
    if c :| c in s.phase && !s.phase[c].Returned? {
      var ev := NeverStuck(states, events, |events|, c, v);
      Extend(states, events, ev);
      StepLowers(s, ev);
      states', events' := CanFinish(states + [Step(s, ev)], events + [ev], v);
      assert events'[|events|] == (events + [ev])[|events|];
    }
  }

  // Whose result a call gets

  /** Every result so far went to the call that asked for it. */
  ghost predicate Own<V>(s: State<V>) {
    forall k :: 0 <= k < |s.delivered| ==> s.delivered[k].op == s.delivered[k].call
  }

  /** The calls whose operations are not delivered yet. */
  function Pending<V>(s: State<V>): set<nat> { set c | c in Inflight(s.worker) + s.queue }

  /** The calls that wait are those whose operations are pending. */
  ghost predicate Matched<V>(s: State<V>) { Own(s) && Awaiting(s.phase) == Pending(s) }

  lemma ReceiveMatched<V>(s: State<V>, c: nat)
    requires Inv(s) && Matched(s) && Enabled(s, Event<V>.Receive(c)) && c == s.worker.op
    ensures Matched(Step(s, Event<V>.Receive(c)))
  {
    var s' := Step(s, Event<V>.Receive(c));
    InflightIsNotQueued(s);
    hide Inv;
    assert Pending(s') == Pending(s) - {c};
    assert Awaiting(s'.phase) == Awaiting(s.phase) - {c};
  }

  lemma InflightIsNotQueued<V>(s: State<V>)
    requires Inv(s) && s.worker.Ready?
    ensures s.worker.op !in s.queue
  {
    var n := |s.delivered|;
    assert s.pushed[n] == s.worker.op;
    assert forall i :: 0 <= i < |s.queue| ==> s.queue[i] == s.pushed[n + 1 + i];
  }

  lemma StepMatched<V>(s: State<V>, ev: Event<V>)
    requires Inv(s) && Matched(s) && Enabled(s, ev) && Own(Step(s, ev))
    ensures Matched(Step(s, ev))
  {
    var s' := Step(s, ev);
    match ev {
      case Call(c) => AwaitingSame(s.phase, c, Calling);
      case Lock(c) => AwaitingSame(s.phase, c, Locked);
      case Push(c) =>
        assert Awaiting(s'.phase) == Awaiting(s.phase) + {c};
        assert Pending(s') == Pending(s) + {c};
      case Unlock(c) => assert Awaiting(s'.phase) == Awaiting(s.phase);
      case Take => assert s.queue == [s.queue[0]] + s.queue[1..];
      case Finish(_) =>
      case Receive(c) =>
        assert s'.delivered[|s.delivered|] == Delivery(s.worker.op, s.worker.value, c);
        ReceiveMatched(s, c);
    }
  }

  /** Deliveries are never taken back. */
  lemma {:induction false} DeliveredGrows<V>(states: seq<State<V>>, events: seq<Event<V>>, m: nat, n: nat)
    requires IsRun(states, events) && m <= n <= |events|
    ensures states[m].delivered <= states[n].delivered
  {
    if m < n {
      DeliveredGrows(states, events, m, n - 1);
    }
  }

  lemma {:induction false} RunMatched<V>(states: seq<State<V>>, events: seq<Event<V>>, n: nat)
    requires IsRun(states, events) && n <= |events| && Own(states[n])
    ensures Matched(states[n])
  {
    if n > 0 {
      DeliveredGrows(states, events, n - 1, n);
      RunMatched(states, events, n - 1);
      RunKeeps(states, events, n - 1);
      StepMatched(states[n - 1], events[n - 1]);
    }
  }

  /** Two calls have pushed and not yet received. */
  predicate Overlap<V>(s: State<V>) { |Awaiting(s.phase)| >= 2 }

  lemma AloneOwn<V>(s: State<V>, ev: Event<V>)
    requires Inv(s) && Matched(s) && Enabled(s, ev) && !Overlap(s)
    ensures Own(Step(s, ev))
  {
    if ev.Receive? {
      assert s.worker.op in Inflight(s.worker);
      OnlyMember(Awaiting(s.phase), s.worker.op, ev.c);
    }
  }

  lemma OnlyMember(a: set<nat>, x: nat, y: nat)
    requires |a| <= 1 && x in a && y in a
    ensures x == y
  {
    assert |a - {x}| == 0;
    assert y !in a - {x};
  }

  /** Calls that do not overlap each get the result of their own operation. */
  lemma {:induction false} AloneGetsOwn<V>(states: seq<State<V>>, events: seq<Event<V>>, n: nat)
    requires IsRun(states, events) && n <= |events|
    requires forall i :: 0 <= i < n ==> !Overlap(states[i])
    ensures Own(states[n])
  {
    if n > 0 {
      AloneGetsOwn(states, events, n - 1);
      RunMatched(states, events, n - 1);
      RunKeeps(states, events, n - 1);
      AloneOwn(states[n - 1], events[n - 1]);
    }
  }

  /** A run goes on in this way, without a further push. */
  ghost predicate Continues<V>(states: seq<State<V>>, events: seq<Event<V>>,
                               states': seq<State<V>>, events': seq<Event<V>>) {
    && IsRun(states, events) && IsRun(states', events') && states <= states' && events <= events'
    && forall i :: |events| <= i < |events'| ==> !events'[i].Push?
  }

  lemma GoOn<V>(states: seq<State<V>>, events: seq<Event<V>>, states1: seq<State<V>>, events1: seq<Event<V>>,
                ev: Event<V>)
    returns (states2: seq<State<V>>, events2: seq<Event<V>>)
    requires Continues(states, events, states1, events1) && Enabled(states1[|events1|], ev) && !ev.Push?
    ensures Continues(states, events, states2, events2)
    ensures states2[|events2|] == Step(states1[|events1|], ev)
  {
    Extend(states1, events1, ev);
    states2, events2 := states1 + [Step(states1[|events1|], ev)], events1 + [ev];
  }

  /** The lock, once a push is made, can be given back. */
  lemma ReleaseLock<V>(states: seq<State<V>>, events: seq<Event<V>>)
    returns (states': seq<State<V>>, events': seq<Event<V>>)
    requires IsRun(states, events)
    ensures Continues(states, events, states', events')
    ensures var s, s' := states[|events|], states'[|events'|];
            Awaiting(s'.phase) == Awaiting(s.phase) && s'.worker == s.worker && s'.queue == s.queue
            && forall c :: c in Awaiting(s'.phase) ==> In(s', c, Waiting)
  {
    states', events' := states, events;
    var s := states[|events|];
    RunKeeps(states, events, |events|);
    if s.holder.Some? && s.phase[s.holder.value].Queued? {
      states', events' := GoOn(states, events, states', events', Unlock(s.holder.value));
    }
  }

  /** The worker can be brought to hand over the result of the first pending
      operation, v unless it is there already. */
  lemma MakeReady<V>(states: seq<State<V>>, events: seq<Event<V>>, states1: seq<State<V>>, events1: seq<Event<V>>, v: V)
    returns (states2: seq<State<V>>, events2: seq<Event<V>>)
    requires Continues(states, events, states1, events1) && Awaiting(states1[|events1|].phase) != {}
    ensures Continues(states, events, states2, events2)
    ensures states2[|events2|].phase == states1[|events1|].phase && states2[|events2|].worker.Ready?
  {
    states2, events2 := states1, events1;
    RunKeeps(states1, events1, |events1|);
    if states2[|events2|].worker.Idle? {
      states2, events2 := GoOn(states, events, states2, events2, Take);
    }
    if states2[|events2|].worker.Running? {
      states2, events2 := GoOn(states, events, states2, events2, Finish(v));
    }
  }

  lemma OtherMember(a: set<nat>, x: nat) returns (y: nat)
    requires |a| >= 2
    ensures y in a && y != x
  {
    assert |a - {x}| >= 1;
    y :| y in a - {x};
  }

  lemma SubsetSize(a: set<nat>, b: set<nat>)
    requires a <= b
    ensures |a| <= |b|
  {
    assert a + (b - a) == b;
  }

  /** Whenever two calls overlap, a wrong result can be delivered next. */
  lemma OverlapGetsForeign<V>(states: seq<State<V>>, events: seq<Event<V>>, v: V)
    returns (states': seq<State<V>>, events': seq<Event<V>>)
    requires IsRun(states, events) && Overlap(states[|events|])
    ensures Continues(states, events, states', events') && !Own(states'[|events'|])
  {
    states', events' := ReleaseLock(states, events);
    states', events' := MakeReady(states, events, states', events', v);
    var s := states'[|events'|];
    var c := OtherMember(Awaiting(s.phase), s.worker.op);
    states', events' := GoOn(states, events, states', events', Receive(c));
    assert states'[|events'|].delivered[|s.delivered|] == Delivery(s.worker.op, s.worker.value, c);
  }

  lemma {:induction false} NoPushNoOverlap<V>(states: seq<State<V>>, events: seq<Event<V>>, states': seq<State<V>>,
                                              events': seq<Event<V>>, n: nat)
    requires Continues(states, events, states', events') && |events| <= n <= |events'|
    requires Own(states[|events|]) && !Overlap(states[|events|])
    ensures Own(states'[n]) && !Overlap(states'[n])
  {
    if n > |events| {
      var m := n - 1;
      NoPushNoOverlap(states, events, states', events', m);
      RunMatched(states', events', m);
      RunKeeps(states', events', m);
      AloneOwn(states'[m], events'[m]);
      NoPushStep(states'[m], events'[m]);
    }
  }

  lemma NoPushStep<V>(s: State<V>, ev: Event<V>)
    requires Enabled(s, ev) && !ev.Push?
    ensures |Awaiting(Step(s, ev).phase)| <= |Awaiting(s.phase)|
  {
    SubsetSize(Awaiting(Step(s, ev).phase), Awaiting(s.phase));
  }

  /** With every result right so far, the calls in progress can be given a wrong
      one exactly if two of them overlap. */
  lemma ForeignResultIff<V>(states: seq<State<V>>, events: seq<Event<V>>, v: V)
    requires IsRun(states, events) && Own(states[|events|])
    ensures (exists states', events' :: Continues(states, events, states', events') && !Own(states'[|events'|]))
        <==> Overlap(states[|events|])
  {
    if Overlap(states[|events|]) {
      var states', events' := OverlapGetsForeign(states, events, v);
    } else {
      forall states', events' | Continues(states, events, states', events')
        ensures Own(states'[|events'|])
      {
        NoPushNoOverlap(states, events, states', events', |events'|);
      }
    }
  }

  lemma Extend<V>(states: seq<State<V>>, events: seq<Event<V>>, ev: Event<V>)
    requires IsRun(states, events) && Enabled(states[|events|], ev)
    ensures IsRun(states + [Step(states[|events|], ev)], events + [ev])
  {}

  /** A call with its lock, push and unlock, all in one go. */
  function AfterEnqueue<V(==)>(s: State<V>, c: nat): State<V> {
    s.(phase := s.phase[c := Calling][c := Locked][c := Queued][c := Waiting],
       queue := s.queue + [c], pushed := s.pushed + [c], holder := None)
  }

  lemma ExtendEnqueue<V>(states: seq<State<V>>, events: seq<Event<V>>, c: nat)
    returns (states': seq<State<V>>, events': seq<Event<V>>)
    requires IsRun(states, events)
    requires var s := states[|events|]; c !in s.phase && s.holder.None? && |s.queue| < s.capacity
    ensures IsRun(states', events') && states'[0] == states[0]
    ensures states'[|events'|] == AfterEnqueue(states[|events|], c)
  {
    states', events' := states, events;
    Extend(states', events', Call(c));
    states', events' := states' + [Step(states'[|events'|], Call(c))], events' + [Call(c)];
    Extend(states', events', Lock(c));
    states', events' := states' + [Step(states'[|events'|], Lock(c))], events' + [Lock(c)];
    Extend(states', events', Push(c));
    states', events' := states' + [Step(states'[|events'|], Push(c))], events' + [Push(c)];
    Extend(states', events', Unlock(c));
    states', events' := states' + [Step(states'[|events'|], Unlock(c))], events' + [Unlock(c)];
  }

  lemma ExtendServe<V>(states: seq<State<V>>, events: seq<Event<V>>, v: V, c: nat)
    returns (states': seq<State<V>>, events': seq<Event<V>>)
    requires IsRun(states, events)
    requires var s := states[|events|]; s.worker.Idle? && s.queue != [] && In(s, c, Waiting)
    ensures IsRun(states', events') && states'[0] == states[0]
    ensures var s := states[|events|];
            states'[|events'|] ==
            s.(queue := s.queue[1..], phase := s.phase[c := Returned(v)], ran := s.ran + [(s.queue[0], v)],
               delivered := s.delivered + [Delivery(s.queue[0], v, c)])
  {
    states', events' := states, events;
    Extend(states', events', Take);
    states', events' := states' + [Step(states'[|events'|], Take)], events' + [Take];
    Extend(states', events', Finish(v));
    states', events' := states' + [Step(states'[|events'|], Finish(v))], events' + [Finish(v)];
    Extend(states', events', Receive(c));
    states', events' := states' + [Step(states'[|events'|], Receive(c))], events' + [Receive(c)];
  }

  /** Two calls can get each other's results. */
  lemma ResultsCanSwap() returns (states: seq<State<int>>, events: seq<Event<int>>)
    ensures IsRun(states, events)
    ensures var s := states[|events|];
            && s.pushed == [0, 1] && s.ran == [(0, 10), (1, 11)]
            && s.delivered == [Delivery(0, 10, 1), Delivery(1, 11, 0)]
  {
    states, events := [Init(100)], [];
    states, events := ExtendEnqueue(states, events, 0);
    states, events := ExtendEnqueue(states, events, 1);
    states, events := ExtendServe(states, events, 10, 1);
    states, events := ExtendServe(states, events, 11, 0);
  }
}
