/** The Cron object of pkg/cron/cron.go: every method and every branch of the
    select in run is one step of the machine in CronRun. */
module CronLoop {
  import opened Calendar
  import opened CronRun

  lemma LaterNotDue(es: seq<Entry>, k: nat, eff: int)
    requires Sorted(es) && k < |es| && es[0].next == At(eff) && es[k].next != At(eff)
    ensures forall i :: k <= i < |es| ==> es[i].next != At(eff)
  {
    forall i | k <= i < |es|
      ensures es[i].next != At(eff)
    {
      assert !Less(es[k].next, es[0].next);
      assert i > k ==> !Less(es[i].next, es[k].next);
    }
  }

  lemma {:induction false} NoneDue(es: seq<Entry>, eff: int)
    requires forall i :: 0 <= i < |es| ==> es[i].next != At(eff)
    ensures Due(es, eff) == []
  {
    if es != [] {
      NoneDue(es[1..], eff);
    }
  }

  lemma {:induction false} WithoutSnoc(es: seq<Entry>, k: nat, id: nat)
    requires k < |es|
    ensures Without(es[..k + 1], id) == Without(es[..k], id) + (if es[k].id != id then [es[k]] else [])
  {
    if k == 0 {
      assert es[..1] == [es[0]];
    } else {
      WithoutSnoc(es[1..], k - 1, id);
      assert es[..k + 1][1..] == es[1..][..k] && es[..k][1..] == es[1..][..k - 1];
    }
  }

  /** One insertion of the sort, keeping equal times in any order. */
  method Insert(es: seq<Entry>, e: Entry) returns (r: seq<Entry>)
    requires Sorted(es)
    ensures Sorted(r) && multiset(r) == multiset(es) + multiset{e}
  {
    var k := 0;
    while k < |es| && !Less(e.next, es[k].next)
      invariant 0 <= k <= |es|
      invariant forall i :: 0 <= i < k ==> !Less(e.next, es[i].next)
    {
      k := k + 1;
    }
    r := es[..k] + [e] + es[k..];
    assert es == es[..k] + es[k..];
    InsertKeepsSorted(es, e, k);
  }

  lemma InsertKeepsSorted(es: seq<Entry>, e: Entry, k: nat)
    requires Sorted(es) && k <= |es|
    requires forall i :: 0 <= i < k ==> !Less(e.next, es[i].next)
    requires k < |es| ==> Less(e.next, es[k].next)
    ensures Sorted(es[..k] + [e] + es[k..])
  {
    var r := es[..k] + [e] + es[k..];
    forall j | k < j < |r|
      ensures !Less(r[j].next, e.next)
    {
      assert r[j] == es[j - 1];
      assert j - 1 > k ==> !Less(es[j - 1].next, es[k].next);
    }
    forall i, j | 0 <= i < j < |r|
      ensures !Less(r[j].next, r[i].next)
    {
      if i == k {
        assert r[i] == e;
      } else if j == k {
        assert r[j] == e && r[i] == es[i];
      } else {
        assert r[i] == (if i < k then es[i] else es[i - 1]) && r[j] == (if j < k then es[j] else es[j - 1]);
      }
    }
  }

  class Cron {
    var entries: seq<Entry>
    var nextID: nat
    var running: bool
    var now: int
    var clock: int
    var log: seq<Firing>

    ghost function Contents(): State
      reads this
    {
      State(entries, nextID, running, now, clock, log)
    }

    constructor (c: int)
      ensures Contents() == Init(c)
    {
      entries, nextID, running, now, clock, log := [], 0, false, c, c, [];
    }

    /** sort.Sort(byTime(c.entries)) */
    method SortEntries()
      modifies this`entries
      ensures Sorted(entries) && multiset(entries) == multiset(old(entries))
    {
      var out: seq<Entry> := [];
      var es := entries;
      for i := 0 to |es|
        invariant Sorted(out) && multiset(out) == multiset(es[..i])
      {
        out := Insert(out, es[i]);
        assert es[..i + 1] == es[..i] + [es[i]];
      }
      assert es[..|es|] == es;
      entries := out;
    }

    method Schedule(f: Schedule, c: int) returns (id: nat)
      requires Enabled(Contents(), Add(f, c))
      modifies this
      ensures Step(old(Contents()), Add(f, c), Contents()) && id == nextID == old(nextID) + 1
    {
      nextID := nextID + 1;
      id := nextID;
      var e := Entry(nextID, f, Zero, Zero, 0, |log|, []);
      if running {
        entries := entries + [Restart(e, now, |log|)];
        now := c;
        SortEntries();
      } else {
        entries := entries + [e];
      }
      clock := c;
    }

    method RemoveEntry(id: nat)
      modifies this`entries
      ensures entries == Without(old(entries), id)
    {
      var kept: seq<Entry> := [];
      var es := entries;
      for i := 0 to |es|
        invariant kept == Without(es[..i], id)
      {
        WithoutSnoc(es, i, id);
        if es[i].id != id {
          kept := kept + [es[i]];
        }
      }
      assert es[..|es|] == es;
      entries := kept;
    }

    method Remove(id: nat, c: int)
      requires Enabled(Contents(), CronRun.Remove(id, c))
      modifies this
      ensures Step(old(Contents()), CronRun.Remove(id, c), Contents())
    {
      RemoveEntry(id);
      if running {
        now := c;
        SortEntries();
      }
      clock := c;
    }

    /** Start, up to the first select of run. */
    method Start(c: int)
      requires Enabled(Contents(), CronRun.Start(c))
      modifies this
      ensures Step(old(Contents()), CronRun.Start(c), Contents())
    {
      running := true;
      now := c;
      clock := c;
      ghost var es := entries;
      for i := 0 to |entries|
        invariant |entries| == |es| && running && now == c && clock == c && nextID == old(nextID) && log == old(log)
        invariant forall k :: 0 <= k < i ==> entries[k] == Restart(es[k], c, |log|)
        invariant forall k :: i <= k < |es| ==> entries[k] == es[k]
      {
        entries := entries[i := Restart(entries[i], now, |log|)];
      }
      assert entries == RestartAll(es, c, |log|);
      SortEntries();
    }

    method Stop(c: int)
      requires Enabled(Contents(), CronRun.Stop(c))
      modifies this
      ensures Step(old(Contents()), CronRun.Stop(c), Contents())
    {
      running := false;
      clock := c;
    }

    /** The inner loop of a firing: it stops at the first entry that is not due. */
    method RunDue(eff: int) returns (ids: seq<nat>)
      requires Sorted(entries) && |entries| > 0 && entries[0].next == At(eff)
      modifies this`entries
      ensures entries == AdvanceAll(old(entries), eff) && ids == Due(old(entries), eff)
    {
      ghost var es := entries;
      ids := [];
      var i := 0;
      assert es[0..] == es;
      while i < |entries|
        invariant 0 <= i <= |entries| == |es|
        invariant forall k :: 0 <= k < i ==> entries[k] == Advance(es[k], eff)
        invariant forall k :: i <= k < |es| ==> entries[k] == es[k]
        invariant ids + Due(es[i..], eff) == Due(es, eff)
      {
        if entries[i].next != At(eff) {
          LaterNotDue(es, i, eff);
          NoneDue(es[i..], eff);
          break;
        }
        assert es[i..][1..] == es[i + 1..];
        ids := ids + [entries[i].id];
        entries := entries[i := Advance(entries[i], eff)];
        i := i + 1;
      }
      assert entries == AdvanceAll(es, eff);
    }

    /** The timer branch of the select, and the sort that follows it. */
    method Fire(c: int)
      requires Enabled(Contents(), Timer(c)) && Sorted(entries)
      modifies this
      ensures Step(old(Contents()), Timer(c), Contents())
    {
      now := c;
      clock := c;
      if |entries| > 0 && entries[0].next.At? {
        var eff := entries[0].next.ns;
        var ids := RunDue(eff);
        log := log + [Firing(eff, ids)];
      }
      SortEntries();
    }
  }
}
