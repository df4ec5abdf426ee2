/** What each event does to the entries of the scheduler, said of the entries
    themselves, and when the loop only sleeps. */
module CronRunLaws {
  import opened Sequences
  import opened Calendar
  import opened CronRun

  lemma AfterMembers(s: State, ev: Event, s': State, e: Entry)
    requires Step(s, ev, s')
    ensures e in s'.entries <==> e in After(s, ev).entries
    ensures |s'.entries| == |After(s, ev).entries|
  {
    var a := After(s, ev);
    if a.running {
      SameMembers(a.entries, s'.entries, e);
      assert |multiset(s'.entries)| == |multiset(a.entries)|;
    }
  }

  /** Schedule: a new entry under the next ID, whose first time is computed from the
      instant of the loop's last turn, or not yet on a stopped scheduler. */
  lemma AddEffect(s: State, ev: Event, s': State)
    requires Step(s, ev, s') && ev.Add?
    ensures s'.nextID == s.nextID + 1 && |s'.entries| == |s.entries| + 1 && s'.running == s.running
    ensures s.running ==> s'.now == ev.clock
    ensures forall e :: e in s.entries ==> e in s'.entries
    ensures exists e :: e in s'.entries && e.id == s.nextID + 1 && e.sched == ev.sched && e.prev == Zero
                     && e.next == if s.running then ev.sched(s.now) else Zero
  {
    var a := After(s, ev);
    var e := a.entries[|s.entries|];
    assert e in a.entries;
    AfterMembers(s, ev, s', e);
    forall x | x in s.entries
      ensures x in s'.entries
    {
      AfterMembers(s, ev, s', x);
    }
  }

  /** Remove: exactly the entries of other IDs stay, as they are. */
  lemma RemoveEffect(s: State, ev: Event, s': State, e: Entry)
    requires Step(s, ev, s') && ev.Remove?
    ensures e in s'.entries <==> e in s.entries && e.id != ev.id
    ensures s'.nextID == s.nextID && s'.log == s.log && (s.running ==> s'.now == ev.clock)
  {
    AfterMembers(s, ev, s', e);
    WithoutSubset(s.entries, ev.id);
  }

  /** Start: every entry computes its time from the clock and keeps the rest. */
  lemma StartEffect(s: State, ev: Event, s': State, e: Entry)
    requires Step(s, ev, s') && ev.Start? && e in s.entries
    ensures s'.running && s'.now == ev.clock && |s'.entries| == |s.entries|
    ensures exists e' :: e' in s'.entries && e'.id == e.id && e'.sched == e.sched && e'.prev == e.prev
                      && e'.next == e.sched(ev.clock)
  {
    var a := After(s, ev);
    var i :| 0 <= i < |s.entries| && s.entries[i] == e;
    assert a.entries[i] in a.entries;
    AfterMembers(s, ev, s', a.entries[i]);
  }

  /** A firing at eff: an entry that is due has run then and computes its next time
      from eff; any other entry stays as it is. */
  lemma TimerEffect(s: State, ev: Event, s': State, eff: int, e: Entry)
    requires Step(s, ev, s') && ev.Timer? && Effective(s.entries) == At(eff) && e in s.entries
    ensures s'.now == ev.clock && |s'.entries| == |s.entries|
    ensures e.next != At(eff) ==> e in s'.entries
    ensures e.next == At(eff) ==>
              exists e' :: e' in s'.entries && e'.id == e.id && e'.sched == e.sched && e'.prev == At(eff)
                        && e'.next == e.sched(eff)
  {
    var a := After(s, ev);
    var i :| 0 <= i < |s.entries| && s.entries[i] == e;
    assert a.entries[i] in a.entries;
    AfterMembers(s, ev, s', a.entries[i]);
  }

  /** Stop and a snapshot leave the entries as they are. */
  lemma QuietEffect(s: State, ev: Event, s': State, e: Entry)
    requires Step(s, ev, s') && (ev.Stop? || ev.Snapshot?)
    ensures e in s'.entries <==> e in s.entries
    ensures s'.log == s.log && s'.nextID == s.nextID && (s'.running <==> s.running && !ev.Stop?)
    ensures s'.running ==> s'.now == ev.clock
  {
    AfterMembers(s, ev, s', e);
  }

  /** The loop only sleeps exactly if no entry has a time, and otherwise waits for
      the earliest one. */
  lemma SleepsIff(states: seq<State>, events: seq<Event>, n: nat)
    requires IsRun(states, events) && n <= |events| && states[n].running
    ensures Effective(states[n].entries).Zero? <==> forall e :: e in states[n].entries ==> e.next.Zero?
    ensures Effective(states[n].entries).At? ==>
              forall e :: e in states[n].entries && e.next.At? ==> Effective(states[n].entries).ns <= e.next.ns
  {
    RunKeeps(states, events, n);
    var es := states[n].entries;
    if es != [] {
      assert es[0] in es;
      forall e | e in es
        ensures es[0].next.Zero? ==> e.next.Zero?
        ensures es[0].next.At? && e.next.At? ==> es[0].next.ns <= e.next.ns
      {
        var k :| 0 <= k < |es| && es[k] == e;
        assert k > 0 ==> !Less(es[k].next, es[0].next);
      }
    }
  }

  /** A new scheduler is stopped and empty, and its first entry gets the ID 1. */
  lemma NewScheduler(clock: int, ev: Event, s': State)
    requires Step(Init(clock), ev, s') && ev.Add?
    ensures s'.nextID == 1 && |s'.entries| == 1 && s'.entries[0].id == 1 && !s'.running && s'.log == []
  {}
}
