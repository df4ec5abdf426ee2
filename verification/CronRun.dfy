/** The scheduler loop of pkg/cron/cron.go as a step machine: one step per
    iteration of the select in run, and per call on a stopped scheduler. */
module CronRun {
  import opened Sequences
  import opened Calendar

  /** Schedule.Next: a later time, or the zero time. */
  type Schedule = int -> Time

  ghost predicate Lawful(f: Schedule) {
    forall t: int :: f(t).At? ==> f(t).ns > t
  }

  /** An entry; base, start and history record from which instant its times are
      computed, how long the log was then, and at which times it ran since. */
  datatype Entry = Entry(id: nat, sched: Schedule, next: Time, prev: Time, base: int, start: nat, history: seq<int>)

  /** One firing of the timer that ran jobs. */
  datatype Firing = Firing(effective: int, ids: seq<nat>)

  datatype State = State(entries: seq<Entry>, nextID: nat, running: bool, now: int, clock: int, log: seq<Firing>)

  datatype Event =
    | Add(sched: Schedule, clock: int)
    | Remove(id: nat, clock: int)
    | Snapshot(clock: int)
    | Start(clock: int)
    | Stop(clock: int)
    | Timer(clock: int)

  /** byTime.Less: the zero time sorts last. */
  predicate Less(a: Time, b: Time) { a.At? && (b.Zero? || a.ns < b.ns) }

  ghost predicate Sorted(es: seq<Entry>) {
    forall i, j :: 0 <= i < j < |es| ==> !Less(es[j].next, es[i].next)
  }

  function Init(clock: int): State { State([], 0, false, clock, clock, []) }

  /** The instant the timer is set for, unless the loop only sleeps. */
  function Effective(es: seq<Entry>): Time {
    if |es| == 0 then Zero else es[0].next
  }

  function Restart(e: Entry, now: int, start: nat): Entry {
    e.(next := e.sched(now), base := now, start := start, history := [])
  }

  function RestartAll(es: seq<Entry>, now: int, start: nat): (r: seq<Entry>)
    ensures |r| == |es| && forall i :: 0 <= i < |es| ==> r[i] == Restart(es[i], now, start)
  {
    seq(|es|, i requires 0 <= i < |es| => Restart(es[i], now, start))
  }

  /** Running an entry whose next time is eff. */
  function Advance(e: Entry, eff: int): Entry {
    if e.next == At(eff) then e.(prev := e.next, next := e.sched(eff), history := e.history + [eff]) else e
  }

  function AdvanceAll(es: seq<Entry>, eff: int): (r: seq<Entry>)
    ensures |r| == |es| && forall i :: 0 <= i < |es| ==> r[i] == Advance(es[i], eff)
  {
    seq(|es|, i requires 0 <= i < |es| => Advance(es[i], eff))
  }

  /** The IDs of the entries that are due at eff. */
  function Due(es: seq<Entry>, eff: int): seq<nat> {
    if es == [] then []
    else (if es[0].next == At(eff) then [es[0].id] else []) + Due(es[1..], eff)
  }

  function Without(es: seq<Entry>, id: nat): seq<Entry> {
    if es == [] then []
    else (if es[0].id != id then [es[0]] else []) + Without(es[1..], id)
  }

  /** What the caller and the clock may do: the clock never runs backwards and
      the timer fires at or after the instant it was set for. */
  ghost predicate Enabled(s: State, ev: Event) {
    && s.clock <= ev.clock
    && match ev
       case Add(f, _) => Lawful(f)
       case Remove(_, _) => true
       case Snapshot(_) => true
       case Start(_) => !s.running
       case Stop(_) => s.running
       case Timer(c) => s.running && (Effective(s.entries).At? ==> Effective(s.entries).ns <= c)
  }

  /** The effect of an event, before the entries are sorted again. */
  function After(s: State, ev: Event): State {
    var now := if s.running then ev.clock else s.now;
    match ev
    case Add(f, c) =>
      var e := Entry(s.nextID + 1, f, Zero, Zero, 0, |s.log|, []);
      var e' := if s.running then Restart(e, s.now, |s.log|) else e;
      s.(entries := s.entries + [e'], nextID := s.nextID + 1, now := now, clock := c)
    case Remove(id, c) =>
      s.(entries := Without(s.entries, id), now := now, clock := c)
    case Snapshot(c) =>
      s.(now := now, clock := c)
    case Start(c) =>
      s.(entries := RestartAll(s.entries, c, |s.log|), running := true, now := c, clock := c)
    case Stop(c) =>
      s.(running := false, clock := c)
    case Timer(c) =>
      match Effective(s.entries)
      case Zero => s.(now := c, clock := c)
      case At(eff) =>
        s.(entries := AdvanceAll(s.entries, eff), now := c, clock := c,
           log := s.log + [Firing(eff, Due(s.entries, eff))])
  }

  /** A running scheduler re-sorts its entries, in any order that byTime allows. */
  ghost predicate Step(s: State, ev: Event, s': State) {
    && Enabled(s, ev)
    && var a := After(s, ev);
       && s' == a.(entries := s'.entries)
       && (if a.running then Sorted(s'.entries) && multiset(s'.entries) == multiset(a.entries)
           else s'.entries == a.entries)
  }

  ghost predicate IsRun(states: seq<State>, events: seq<Event>) {
    && |states| == |events| + 1 && states[0] == Init(states[0].clock)
    && forall i :: 0 <= i < |events| ==> Step(states[i], events[i], states[i + 1])
  }

  /** The times at which an ID ran, according to a log. */
  function RunTimes(log: seq<Firing>, id: nat): seq<int> {
    if log == [] then []
    else
      var f := log[|log| - 1];
      RunTimes(log[..|log| - 1], id) + (if id in f.ids then [f.effective] else [])
  }

  /** h are consecutive iterates of f from base, and next is the one after them. */
  ghost predicate Iterates(f: Schedule, base: int, h: seq<int>, next: Time) {
    && (forall i :: 0 <= i < |h| ==> f(Origin(base, h, i)) == At(h[i]))
    && next == f(Origin(base, h, |h|))
  }

  /** The instant from which the i-th time is computed. */
  function Origin(base: int, h: seq<int>, i: nat): int
    requires i <= |h|
  {
    if i == 0 then base else h[i - 1]
  }

  function LastEffective(log: seq<Firing>, default: int): int {
    if log == [] then default else log[|log| - 1].effective
  }

  /** An entry agrees with the log: it ran exactly at its recorded iterates. Only
      an entry added to a stopped scheduler has no next time yet. */
  ghost predicate EntryOk(e: Entry, log: seq<Firing>, running: bool) {
    && Lawful(e.sched) && e.start <= |log|
    && RunTimes(log[e.start..], e.id) == e.history
    && (Iterates(e.sched, e.base, e.history, e.next) || (!running && e.history == [] && e.next == Zero))
  }

  ghost predicate DistinctIds(es: seq<Entry>, nextID: nat) {
    && (forall i :: 0 <= i < |es| ==> 1 <= es[i].id <= nextID)
    && (forall i, j :: 0 <= i < j < |es| ==> es[i].id != es[j].id)
  }

  /** Effective times of the log increase, and each firing ran some IDs once each. */
  ghost predicate LogOk(log: seq<Firing>) {
    && (forall i, j :: 0 <= i < j < |log| ==> log[i].effective < log[j].effective)
    && (forall i :: 0 <= i < |log| ==> |log[i].ids| >= 1 && NoRepeats(log[i].ids))
  }

  /** All of the invariant except that a running scheduler is sorted. */
  ghost predicate Core(s: State) {
    && DistinctIds(s.entries, s.nextID) && LogOk(s.log)
    && (forall e :: e in s.entries ==> EntryOk(e, s.log, s.running))
    && (s.log != [] ==> LastEffective(s.log, 0) <= s.clock)
    && (s.running ==> s.now <= s.clock && Upcoming(s.entries, s.log, s.now))
  }

  /** The last firing is past, and every entry is due after it. */
  ghost predicate Upcoming(es: seq<Entry>, log: seq<Firing>, now: int) {
    log != [] ==>
      && LastEffective(log, 0) <= now
      && forall e :: e in es && e.next.At? ==> LastEffective(log, 0) < e.next.ns
  }

  ghost predicate Inv(s: State) { Core(s) && (s.running ==> Sorted(s.entries)) }

  // Permutations

  lemma CountTwice(es: seq<Entry>, i: nat, j: nat)
    requires i < j < |es| && es[i] == es[j]
    ensures multiset(es)[es[i]] >= 2
  {
    assert es == es[..j] + es[j..];
    assert es[i] in es[..j] && es[j] in es[j..] by {
      assert es[..j][i] == es[i] && es[j..][0] == es[j];
    }
  }

  lemma CountOnce(es: seq<Entry>, e: Entry)
    requires forall i, j :: 0 <= i < j < |es| ==> es[i].id != es[j].id
    ensures multiset(es)[e] <= 1
  {
    if es != [] {
      var t := es[1..];
      assert es == [es[0]] + t;
      forall i, j | 0 <= i < j < |t|
        ensures t[i].id != t[j].id
      {
        assert es[i + 1].id != es[j + 1].id;
      }
      CountOnce(t, e);
      assert es[0] !in t;
    }
  }

  lemma SameMembers(es: seq<Entry>, es': seq<Entry>, e: Entry)
    requires multiset(es) == multiset(es')
    ensures e in es <==> e in es'
  {
    assert e in es <==> e in multiset(es);
    assert e in es' <==> e in multiset(es');
  }

  lemma PermutedIds(es: seq<Entry>, es': seq<Entry>, nextID: nat)
    requires DistinctIds(es, nextID) && multiset(es) == multiset(es')
    ensures DistinctIds(es', nextID)
  {
    forall i | 0 <= i < |es'|
      ensures 1 <= es'[i].id <= nextID
    {
      SameMembers(es, es', es'[i]);
    }
    forall i, j | 0 <= i < j < |es'|
      ensures es'[i].id != es'[j].id
    {
      if es'[i].id == es'[j].id {
        SameMembers(es, es', es'[i]);
        SameMembers(es, es', es'[j]);
        var k :| 0 <= k < |es| && es[k] == es'[i];
        var l :| 0 <= l < |es| && es[l] == es'[j];
        CountTwice(es', i, j);
        CountOnce(es, es'[i]);
      }
    }
  }

  lemma PermutedCore(a: State, s: State)
    requires Core(a) && s == a.(entries := s.entries) && multiset(s.entries) == multiset(a.entries)
    ensures Core(s)
  {
    PermutedIds(a.entries, s.entries, a.nextID);
    forall e | e in s.entries
      ensures e in a.entries
    {
      SameMembers(a.entries, s.entries, e);
    }
  }

  // One lemma per event: what every step keeps

  lemma {:induction false} RunTimesOf(log: seq<Firing>, f: Firing, id: nat)
    ensures RunTimes(log + [f], id) == RunTimes(log, id) + (if id in f.ids then [f.effective] else [])
  {
    assert (log + [f])[..|log|] == log;
  }

  lemma {:induction false} InDue(es: seq<Entry>, eff: int, id: nat)
    ensures id in Due(es, eff) <==> exists i :: 0 <= i < |es| && es[i].id == id && es[i].next == At(eff)
  {
    if es != [] {
      var t := es[1..];
      InDue(t, eff, id);
      if id in Due(t, eff) {
        var k :| 0 <= k < |t| && t[k].id == id && t[k].next == At(eff);
        assert es[k + 1].id == id && es[k + 1].next == At(eff);
      }
      if i :| 0 <= i < |es| && es[i].id == id && es[i].next == At(eff) {
        if i > 0 {
          assert t[i - 1] == es[i];
        }
      }
    }
  }

  lemma {:induction false} DueOnce(es: seq<Entry>, eff: int, nextID: nat)
    requires DistinctIds(es, nextID)
    ensures NoRepeats(Due(es, eff))
  {
    if es != [] {
      var t := es[1..];
      DistinctTail(es, nextID);
      DueOnce(t, eff, nextID);
      InDue(t, eff, es[0].id);
      assert es[0].id !in Due(t, eff);
    }
  }

  lemma DistinctTail(es: seq<Entry>, nextID: nat)
    requires DistinctIds(es, nextID) && es != []
    ensures DistinctIds(es[1..], nextID)
    ensures forall k :: 0 <= k < |es[1..]| ==> es[1..][k].id != es[0].id
  {
    var t := es[1..];
    assert forall k :: 0 <= k < |t| ==> t[k] == es[k + 1];
  }

  /** Of a due entry the ID is run, of any other it is not. */
  lemma DueExactly(es: seq<Entry>, eff: int, nextID: nat, e: Entry)
    requires DistinctIds(es, nextID) && e in es
    ensures e.id in Due(es, eff) <==> e.next == At(eff)
  {
    InDue(es, eff, e.id);
    var k :| 0 <= k < |es| && es[k] == e;
    if e.id in Due(es, eff) {
      var i :| 0 <= i < |es| && es[i].id == e.id && es[i].next == At(eff);
      assert i == k;
    }
  }

  lemma IteratesAppend(f: Schedule, base: int, h: seq<int>, t: int)
    requires Iterates(f, base, h, At(t))
    ensures Iterates(f, base, h + [t], f(t))
  {
    var g := h + [t];
    forall i | 0 <= i < |g|
      ensures f(Origin(base, g, i)) == At(g[i])
    {
      assert Origin(base, g, i) == Origin(base, h, i);
    }
  }

  lemma AdvanceOk(e: Entry, log: seq<Firing>, eff: int, ids: seq<nat>)
    requires EntryOk(e, log, true) && (e.id in ids <==> e.next == At(eff))
    ensures EntryOk(Advance(e, eff), log + [Firing(eff, ids)], true)
  {
    var f := Firing(eff, ids);
    assert (log + [f])[e.start..] == log[e.start..] + [f];
    RunTimesOf(log[e.start..], f, e.id);
    if e.next == At(eff) {
      IteratesAppend(e.sched, e.base, e.history, eff);
    }
  }

  lemma EarliestFirst(es: seq<Entry>, e: Entry)
    requires Sorted(es) && es != [] && e in es && es[0].next.At?
    ensures e.next.At? ==> es[0].next.ns <= e.next.ns
  {
    var k :| 0 <= k < |es| && es[k] == e;
  }

  lemma LogGrows(log: seq<Firing>, f: Firing)
    requires LogOk(log) && (log != [] ==> LastEffective(log, 0) < f.effective)
    requires |f.ids| >= 1 && NoRepeats(f.ids)
    ensures LogOk(log + [f])
  {}

  lemma AdvanceDistinct(es: seq<Entry>, eff: int, nextID: nat)
    requires DistinctIds(es, nextID)
    ensures DistinctIds(AdvanceAll(es, eff), nextID)
  {
    var r := AdvanceAll(es, eff);
    assert forall i :: 0 <= i < |es| ==> r[i].id == es[i].id;
  }

  lemma TimerEntry(s: State, eff: int, e: Entry)
    requires Inv(s) && s.running && e in s.entries && s.entries[0].next == At(eff)
    ensures EntryOk(Advance(e, eff), s.log + [Firing(eff, Due(s.entries, eff))], true)
    ensures Advance(e, eff).next.At? ==> eff < Advance(e, eff).next.ns
  {
    DueExactly(s.entries, eff, s.nextID, e);
    AdvanceOk(e, s.log, eff, Due(s.entries, eff));
    EarliestFirst(s.entries, e);
  }

  lemma TimerKeeps(s: State, ev: Event)
    requires Inv(s) && Enabled(s, ev) && ev.Timer?
    ensures Core(After(s, ev))
  {
    if s.entries != [] && s.entries[0].next.At? {
      var first := s.entries[0];
      assert first in s.entries;
      var eff := first.next.ns;
      var f := Firing(eff, Due(s.entries, eff));
      DueOnce(s.entries, eff, s.nextID);
      DueExactly(s.entries, eff, s.nextID, first);
      LogGrows(s.log, f);
      AdvanceDistinct(s.entries, eff, s.nextID);
      var es := AdvanceAll(s.entries, eff);
      forall e' | e' in es
        ensures EntryOk(e', s.log + [f], true) && (e'.next.At? ==> eff < e'.next.ns)
      {
        var i :| 0 <= i < |es| && es[i] == e';
        TimerEntry(s, eff, s.entries[i]);
      }
    }
  }

  lemma AddKeeps(s: State, ev: Event)
    requires Inv(s) && Enabled(s, ev) && ev.Add?
    ensures Core(After(s, ev))
  {
    var a := After(s, ev);
    assert s.log[|s.log|..] == [];
    forall e | e in a.entries
      ensures EntryOk(e, a.log, s.running)
      ensures s.running && s.log != [] && e.next.At? ==> LastEffective(s.log, 0) < e.next.ns
    {
      if e in s.entries {
      } else {
        assert e == a.entries[|s.entries|];
      }
    }
  }

  lemma {:induction false} WithoutSubset(es: seq<Entry>, id: nat)
    ensures forall e :: e in Without(es, id) <==> e in es && e.id != id
  {
    if es != [] {
      WithoutSubset(es[1..], id);
      assert es == [es[0]] + es[1..];
    }
  }

  lemma {:induction false} WithoutDistinct(es: seq<Entry>, id: nat, nextID: nat)
    requires DistinctIds(es, nextID)
    ensures DistinctIds(Without(es, id), nextID)
  {
    if es != [] {
      var t := es[1..];
      DistinctTail(es, nextID);
      WithoutDistinct(t, id, nextID);
      WithoutSubset(t, id);
      var w := Without(t, id);
      forall k | 0 <= k < |w|
        ensures w[k].id != es[0].id
      {
        assert w[k] in t;
      }
      DistinctCons(es[0], w, nextID);
    }
  }

  lemma DistinctCons(e: Entry, es: seq<Entry>, nextID: nat)
    requires DistinctIds(es, nextID) && 1 <= e.id <= nextID
    requires forall k :: 0 <= k < |es| ==> es[k].id != e.id
    ensures DistinctIds([e] + es, nextID)
  {}

  lemma RemoveKeeps(s: State, ev: Event)
    requires Inv(s) && Enabled(s, ev) && ev.Remove?
    ensures Core(After(s, ev))
  {
    WithoutSubset(s.entries, ev.id);
    WithoutDistinct(s.entries, ev.id, s.nextID);
  }

  lemma StartKeeps(s: State, ev: Event)
    requires Inv(s) && Enabled(s, ev) && ev.Start?
    ensures Core(After(s, ev))
  {
    var a := After(s, ev);
    assert s.log[|s.log|..] == [];
    forall e' | e' in a.entries
      ensures EntryOk(e', a.log, true) && (s.log != [] && e'.next.At? ==> LastEffective(s.log, 0) < e'.next.ns)
    {
      var i :| 0 <= i < |a.entries| && a.entries[i] == e';
      assert EntryOk(s.entries[i], s.log, false);
    }
  }

  lemma StepKeeps(s: State, ev: Event, s': State)
    requires Inv(s) && Step(s, ev, s')
    ensures Inv(s')
  {
    match ev {
      case Add(_, _) => AddKeeps(s, ev);
      case Remove(_, _) => RemoveKeeps(s, ev);
      case Snapshot(_) =>
      case Start(_) => StartKeeps(s, ev);
      case Stop(_) =>
      case Timer(_) => TimerKeeps(s, ev);
    }
    PermutedCore(After(s, ev), s');
  }

  lemma {:induction false} RunKeeps(states: seq<State>, events: seq<Event>, n: nat)
    requires IsRun(states, events) && n <= |events|
    ensures Inv(states[n])
  {
    if n > 0 {
      RunKeeps(states, events, n - 1);
      StepKeeps(states[n - 1], events[n - 1], states[n]);
    }
  }

  // What holds of every run

  /** A timer firing at eff runs exactly the entries whose next time is eff, once
      each, and eff is the earliest next time. */
  lemma FiringExact(s: State, ev: Event, s': State, eff: int)
    requires Inv(s) && Step(s, ev, s') && ev.Timer? && Effective(s.entries) == At(eff)
    ensures |s'.log| == |s.log| + 1 && s'.log[..|s.log|] == s.log && s'.log[|s.log|].effective == eff
    ensures NoRepeats(s'.log[|s.log|].ids)
    ensures forall id :: id in s'.log[|s.log|].ids <==> exists e :: e in s.entries && e.id == id && e.next == At(eff)
    ensures forall e :: e in s.entries && e.next.At? ==> eff <= e.next.ns
  {
    DueOnce(s.entries, eff, s.nextID);
    forall id
      ensures id in Due(s.entries, eff) <==> exists e :: e in s.entries && e.id == id && e.next == At(eff)
    {
      InDue(s.entries, eff, id);
    }
    forall e | e in s.entries && e.next.At?
      ensures eff <= e.next.ns
    {
      EarliestFirst(s.entries, e);
    }
  }

  /** No other step runs a job. */
  lemma OnlyTimersRun(s: State, ev: Event, s': State)
    requires Step(s, ev, s')
    ensures s'.log != s.log ==> ev.Timer? && Effective(s.entries).At?
    ensures s.log <= s'.log && s.nextID <= s'.nextID
  {}

  /** Firings happen at strictly increasing effective times. */
  lemma FiringsIncrease(states: seq<State>, events: seq<Event>, n: nat)
    requires IsRun(states, events) && n <= |events|
    ensures LogOk(states[n].log)
  {
    RunKeeps(states, events, n);
  }

  /** The times at which an entry ran since it was added or the scheduler was
      started are consecutive iterates of its schedule, none left out, and on a
      running scheduler its next time is the iterate after them. Only an entry
      that has waited on a stopped scheduler since it was added has no time. */
  lemma EntryRuns(states: seq<State>, events: seq<Event>, n: nat, e: Entry)
    requires IsRun(states, events) && n <= |events| && e in states[n].entries
    ensures e.start <= |states[n].log|
    ensures var times := RunTimes(states[n].log[e.start..], e.id);
            && (states[n].running ==> Iterates(e.sched, e.base, times, e.next))
            && (Iterates(e.sched, e.base, times, e.next) || (times == [] && e.next == Zero))
  {
    RunKeeps(states, events, n);
  }

  /** id belongs to no entry and never will again. */
  ghost predicate Gone(s: State, id: nat) {
    id <= s.nextID && forall e :: e in s.entries ==> e.id != id
  }

  lemma GoneAfterRemove(s: State, ev: Event, s': State)
    requires Step(s, ev, s') && ev.Remove? && ev.id <= s.nextID
    ensures Gone(s', ev.id)
  {
    WithoutSubset(s.entries, ev.id);
    forall e | e in s'.entries
      ensures e.id != ev.id
    {
      SameMembers(After(s, ev).entries, s'.entries, e);
    }
  }

  lemma StaysGone(s: State, ev: Event, s': State, id: nat)
    requires Step(s, ev, s') && Gone(s, id)
    ensures Gone(s', id)
    ensures forall k :: |s.log| <= k < |s'.log| ==> id !in s'.log[k].ids
  {
    var a := After(s, ev);
    if ev.Remove? {
      WithoutSubset(s.entries, ev.id);
    }
    if ev.Timer? && Effective(s.entries).At? {
      InDue(s.entries, Effective(s.entries).ns, id);
    }
    forall e | e in s'.entries
      ensures e.id != id
    {
      SameMembers(a.entries, s'.entries, e);
      var i :| 0 <= i < |a.entries| && a.entries[i] == e;
      assert ev.Timer? || ev.Start? ==> s.entries[i].id == e.id && s.entries[i] in s.entries;
      assert ev.Add? && i < |s.entries| ==> e in s.entries;
    }
  }

  /** Once an assigned ID has been removed, no later firing runs it. */
  lemma {:induction false} RemovedNeverRuns(states: seq<State>, events: seq<Event>, m: nat, n: nat, id: nat)
    requires IsRun(states, events) && m < n <= |events|
    requires events[m].Remove? && events[m].id == id && id <= states[m].nextID
    ensures Gone(states[n], id) && states[m + 1].log <= states[n].log
    ensures forall k :: |states[m + 1].log| <= k < |states[n].log| ==> id !in states[n].log[k].ids
  {
    if n == m + 1 {
      GoneAfterRemove(states[m], events[m], states[n]);
    } else {
      RemovedNeverRuns(states, events, m, n - 1, id);
      StaysGone(states[n - 1], events[n - 1], states[n], id);
      OnlyTimersRun(states[n - 1], events[n - 1], states[n]);
    }
  }
}
