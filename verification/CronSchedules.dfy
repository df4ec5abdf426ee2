/** The two schedules of pkg/cron meet the contract that the scheduler needs. */
module CronSchedules {
  import opened Calendar
  import opened CronNext
  import opened CronRun

  /** u is the earliest eligible second after t. */
  ghost predicate Earliest(s: SpecSchedule, t: int, u: int) {
    Eligible(s, t, u) && forall x :: Eligible(s, t, x) ==> u <= x
  }

  /** SpecSchedule.Next as a function of the instant. */
  ghost function SpecNext(s: SpecSchedule, t: int): Time {
    if u :| Earliest(s, t, u) then At(u * NANOS) else Zero
  }

  /** The search computes SpecNext. */
  method NextIsSpecNext(s: SpecSchedule, t: int) returns (r: Time)
    ensures r == SpecNext(s, t)
  {
    hide Eligible;
    r := Next(s, t);
    if r.At? {
      ghost var u :| r.ns == u * NANOS && Eligible(s, t, u) && forall x :: Eligible(s, t, x) ==> u <= x;
      assert Earliest(s, t, u);
    }
  }

  lemma SpecLawful(s: SpecSchedule)
    ensures Lawful(t => SpecNext(s, t))
  {
    hide Matches;
    forall t: int
      ensures SpecNext(s, t).At? ==> SpecNext(s, t).ns > t
    {}
  }

  /** ConstantDelaySchedule.Delay for a requested duration in nanoseconds. */
  function Every(duration: int): (delay: int)
    ensures delay >= NANOS && delay % NANOS == 0
    ensures duration >= NANOS ==> duration - NANOS < delay <= duration
    ensures duration < NANOS ==> delay == NANOS
  {
    var d := if duration < NANOS then NANOS else duration;
    d - d % NANOS
  }

  /** ConstantDelaySchedule.Next */
  function DelayNext(delay: int, t: int): Time { At(t + delay - t % NANOS) }

  /** The next activation is on a whole second, after t and at most the delay
      later, and exactly the delay after the start of the second of t. */
  lemma DelayLawful(duration: int)
    ensures Lawful(t => DelayNext(Every(duration), t))
    ensures forall t :: DelayNext(Every(duration), t).ns % NANOS == 0
                     && DelayNext(Every(duration), t).ns <= t + Every(duration)
    ensures forall t :: DelayNext(Every(duration), t).ns == t / NANOS * NANOS + Every(duration)
  {
    var delay := Every(duration);
    forall t: int
      ensures DelayNext(delay, t).ns > t && DelayNext(delay, t).ns % NANOS == 0
    {}
  }

  /** Two and a half seconds are asked for and two are kept. */
  lemma EveryVector()
    ensures Every(2_500_000_000) == 2_000_000_000 && Every(300) == 1_000_000_000
    ensures DelayNext(2_000_000_000, 1_700_000_000) == At(3_000_000_000)
  {}
}
