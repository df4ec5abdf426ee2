/** SpecSchedule.Next of pkg/cron/spec.go in UTC. */
module CronNext {
  import opened Bits
  import opened Calendar

  /** Bit sets of the allowed field values; bit 63 records a star. */
  datatype SpecSchedule = SpecSchedule(second: nat, minute: nat, hour: nat, dom: nat, month: nat, dow: nat)

  const STAR_BIT: nat := 63
  const DAY: int := 86400
  const HOUR: int := 3600
  const MINUTE: int := 60
  const NANOS: int := 1_000_000_000

  /** 1 << k & x != 0 */
  predicate Test(x: nat, k: nat) { BitAnd(Pow2(k), x) != 0 }

  function Date(u: int): int { u / DAY }

  function Hour(u: int): (h: nat)
    ensures h < 24
  {
    u % DAY / HOUR
  }

  function Minute(u: int): (m: nat)
    ensures m < 60
  {
    u % HOUR / MINUTE
  }

  function Second(u: int): (s: nat)
    ensures s < 60
  {
    u % MINUTE
  }

  predicate MonthOk(s: SpecSchedule, u: int) { Test(s.month, MonthOf(Date(u))) }

  /** dayMatches: a star in either day field makes both count. */
  predicate DayOk(s: SpecSchedule, u: int) {
    var domMatch := Test(s.dom, DayOf(Date(u)));
    var dowMatch := Test(s.dow, WeekdayOf(Date(u)));
    if Test(s.dom, STAR_BIT) || Test(s.dow, STAR_BIT) then domMatch && dowMatch else domMatch || dowMatch
  }

  predicate HourOk(s: SpecSchedule, u: int) { Test(s.hour, Hour(u)) }

  predicate MinuteOk(s: SpecSchedule, u: int) { Test(s.minute, Minute(u)) }

  predicate SecondOk(s: SpecSchedule, u: int) { Test(s.second, Second(u)) }

  /** The schedule is active in second u. */
  predicate Matches(s: SpecSchedule, u: int) {
    MonthOk(s, u) && DayOk(s, u) && HourOk(s, u) && MinuteOk(s, u) && SecondOk(s, u)
  }

  ghost predicate NoMatch(s: SpecSchedule, lo: int, hi: int) {
    forall u :: lo <= u < hi ==> !Matches(s, u)
  }

  /** The first second strictly after t. */
  function FirstCandidate(t: int): (u: int)
    ensures (u - 1) * NANOS <= t < u * NANOS
  {
    t / NANOS + 1
  }

  function Year(u: int): int { YearOf(Date(u)) }

  function MonthStart(u: int): int { DayNumber(YearOf(Date(u)), MonthOf(Date(u)), 1) * DAY }

  function NextMonthStart(u: int): int { DayNumber(YearOf(Date(u)), MonthOf(Date(u)) + 1, 1) * DAY }

  /** t.AddDate(0, 1, 0), which keeps the day of the month and the time of day. */
  function AddMonth(u: int): int {
    DayNumber(YearOf(Date(u)), MonthOf(Date(u)) + 1, DayOf(Date(u))) * DAY + u % DAY
  }

  /** t.Truncate for a unit that divides the day. */
  function Truncate(u: int, unit: int): int
    requires unit > 0
  {
    u - u % unit
  }

  /** Seconds of one calendar month share year and month. */
  lemma WithinMonth(u: int, x: int)
    requires MonthStart(u) <= x < NextMonthStart(u)
    ensures Year(x) == Year(u) && MonthOf(Date(x)) == MonthOf(Date(u))
    ensures MonthStart(x) == MonthStart(u) && NextMonthStart(x) == NextMonthStart(u)
  {
    hide YearOf, MonthOf, DayOf, MonthOffset, YearStart;
    var y, m := Year(u), MonthOf(Date(u));
    DateWithin(x, DayNumber(y, m, 1), DayNumber(y, m + 1, 1));
    var day := Date(x) - DayNumber(y, m, 1) + 1;
    FieldsOfDayNumber(y, m, day);
    assert Date(x) == DayNumber(y, m, day);
  }

  lemma DateWithin(x: int, lo: int, hi: int)
    requires lo * DAY <= x < hi * DAY
    ensures lo <= Date(x) < hi
  {}

  lemma MonthSpan(u: int)
    ensures MonthStart(u) <= u < NextMonthStart(u)
    ensures u == MonthStart(u) <==> DayOf(Date(u)) == 1 && u % DAY == 0
  {
    DayNumberInverse(Date(u));
    MonthBounds(Date(u));
  }

  /** The start of the next month: one month later, or the next January. */
  lemma NextMonth(u: int)
    ensures NextMonthStart(u) % DAY == 0 && DayOf(Date(NextMonthStart(u))) == 1
    ensures MonthOf(Date(u)) < 12 ==>
              Year(NextMonthStart(u)) == Year(u) && MonthOf(Date(NextMonthStart(u))) == MonthOf(Date(u)) + 1
    ensures MonthOf(Date(u)) == 12 ==>
              Year(NextMonthStart(u)) == Year(u) + 1 && MonthOf(Date(NextMonthStart(u))) == 1
  {
    hide YearOf, MonthOf, DayOf, DayNumber;
    var d := DayNumber(YearOf(Date(u)), MonthOf(Date(u)) + 1, 1);
    FirstOfNextMonth(YearOf(Date(u)), MonthOf(Date(u)));
    assert Date(NextMonthStart(u)) == d;
  }

  /** Seconds of one day share its date, of one hour its hour, and so on. */
  lemma WithinDay(u: int, x: int)
    requires u - u % DAY <= x < u - u % DAY + DAY
    ensures Date(x) == Date(u)
  {}

  lemma WithinHour(u: int, x: int)
    requires u - u % HOUR <= x < u - u % HOUR + HOUR
    ensures Date(x) == Date(u) && Hour(x) == Hour(u)
  {
    HourOfDay(u);
    HourOfDay(x);
    assert x / HOUR == u / HOUR;
  }

  lemma WithinMinute(u: int, x: int)
    requires u - u % MINUTE <= x < u - u % MINUTE + MINUTE
    ensures Date(x) == Date(u) && Hour(x) == Hour(u) && Minute(x) == Minute(u)
  {
    MinuteOfHour(u);
    MinuteOfHour(x);
    assert x / MINUTE == u / MINUTE;
    HourOfDay(u);
    HourOfDay(x);
  }

  lemma HourOfDay(u: int)
    ensures Hour(u) == u / HOUR % 24 && Date(u) == u / HOUR / 24
  {}

  lemma MinuteOfHour(u: int)
    ensures Minute(u) == u / MINUTE % 60 && u / HOUR == u / MINUTE / 60
  {}

  /** From one second to the next a field keeps its value unless every smaller
      field starts over. */
  lemma Carry(s: SpecSchedule, w: int)
    ensures MonthOk(s, w) ==> MonthOk(s, w + 1) || w + 1 == MonthStart(w + 1)
    ensures DayOk(s, w) ==> DayOk(s, w + 1) || (w + 1) % DAY == 0
    ensures HourOk(s, w) ==> HourOk(s, w + 1) || (w + 1) % HOUR == 0
    ensures MinuteOk(s, w) ==> MinuteOk(s, w + 1) || (w + 1) % MINUTE == 0
  {
    hide Test, MonthOf, DayOf, WeekdayOf, Hour, Minute, MonthStart, Date, MonthOk;
    CarryMonth(s, w);
    if (w + 1) % DAY != 0 {
      NextInUnit(w, DAY);
      WithinDay(w, w + 1);
    }
    if (w + 1) % HOUR != 0 {
      NextInUnit(w, HOUR);
      WithinHour(w, w + 1);
    }
    if (w + 1) % MINUTE != 0 {
      NextInUnit(w, MINUTE);
      WithinMinute(w, w + 1);
    }
  }

  lemma NextInUnit(w: int, unit: int)
    requires unit > 0 && (w + 1) % unit != 0
    ensures w - w % unit <= w + 1 < w - w % unit + unit
  {
    assert w == unit * (w / unit) + w % unit;
    if w % unit == unit - 1 {
      DivModUnique(w + 1, unit, w / unit + 1, 0);
    }
  }

  lemma CarryMonth(s: SpecSchedule, w: int)
    ensures MonthOk(s, w) ==> MonthOk(s, w + 1) || w + 1 == MonthStart(w + 1)
  {
    hide Test, MonthOf, DayOf, MonthStart, NextMonthStart, Date;
    MonthSpan(w);
    if w + 1 < NextMonthStart(w) {
      WithinMonth(w, w + 1);
    } else {
      NextMonth(w);
      MonthSpan(w + 1);
    }
  }

  /** Once a field has been advanced, a mismatch in any field is only ever met
      with all smaller fields at their minimum. */
  ghost predicate Aligned(s: SpecSchedule, u: int) {
    && (MonthOk(s, u) || u == MonthStart(u))
    && (DayOk(s, u) || u % DAY == 0)
    && (HourOk(s, u) || u % HOUR == 0)
    && (MinuteOk(s, u) || u % MINUTE == 0)
  }

  /** The state of the search from candidate u0. */
  ghost predicate Search(s: SpecSchedule, u0: int, u: int, added: bool) {
    && u0 <= u && NoMatch(s, u0, u)
    && if added then Aligned(s, u) else u == u0
  }

  /** Units divide larger units, and a field is zero at the start of the larger unit. */
  lemma Units(v: int)
    ensures v % DAY == 0 ==> v % HOUR == 0
    ensures v % HOUR == 0 ==> v % MINUTE == 0
    ensures v % HOUR == 0 && Hour(v) == 0 ==> v % DAY == 0
    ensures v % MINUTE == 0 && Minute(v) == 0 ==> v % HOUR == 0
    ensures v % DAY == 0 ==> Hour(v) == 0
    ensures v % HOUR == 0 ==> Minute(v) == 0
  {
    if v % DAY == 0 {
      assert v == HOUR * (24 * (v / DAY));
    }
    if v % HOUR == 0 {
      assert v == MINUTE * (60 * (v / HOUR));
    }
  }

  lemma UnitEnd(u: int, unit: int, v: int)
    requires unit > 0 && v == u - u % unit + unit
    ensures v % unit == 0 && u < v && u - u % unit <= v - 1
  {
    assert u == unit * (u / unit) + u % unit;
    DivModUnique(v, unit, u / unit + 1, 0);
  }

  lemma AddMonthFromStart(u: int)
    requires u == MonthStart(u)
    ensures AddMonth(u) == NextMonthStart(u)
  {
    hide MonthOf, DayOf, YearOf, DayNumber;
    MonthSpan(u);
  }

  lemma MonthMismatch(s: SpecSchedule, u: int, added: bool)
    requires !MonthOk(s, u) && (added ==> Aligned(s, u))
    ensures AddMonth(if added then u else MonthStart(u)) == NextMonthStart(u) > u
    ensures NoMatch(s, u, NextMonthStart(u)) && Aligned(s, NextMonthStart(u))
  {
    hide Test, DayOk, HourOk, MinuteOk, SecondOk, MonthOf, DayOf, YearOf, DayNumber, MonthStart, NextMonthStart, AddMonth, Date, Hour;
    MonthSpan(u);
    WithinMonth(u, MonthStart(u));
    AddMonthFromStart(MonthStart(u));
    NextMonth(u);
    MonthSpan(NextMonthStart(u));
    Units(NextMonthStart(u));
    forall x | u <= x < NextMonthStart(u)
      ensures !Matches(s, x)
    {
      WithinMonth(u, x);
    }
  }

  lemma DayMismatch(s: SpecSchedule, u: int, v: int)
    requires MonthOk(s, u) && !DayOk(s, u) && v == u - u % DAY + DAY
    ensures NoMatch(s, u, v) && Aligned(s, v)
    ensures DayOf(Date(v)) != 1 ==> MonthOk(s, v) && Year(v) == Year(u)
  {
    hide Test, HourOk, MinuteOk, SecondOk, MonthOf, DayOf, YearOf, WeekdayOf, NextMonthStart, MonthStart, Date, Hour, Minute;
    UnitEnd(u, DAY, v);
    Units(v);
    forall x | u <= x < v
      ensures !Matches(s, x)
    {
      WithinDay(u, x);
    }
    WithinDay(u, v - 1);
    Carry(s, v - 1);
    MonthSpan(v - 1);
    if v < NextMonthStart(v - 1) {
      WithinMonth(v - 1, v);
    } else {
      NextMonth(v - 1);
    }
  }

  lemma HourMismatch(s: SpecSchedule, u: int, v: int)
    requires MonthOk(s, u) && DayOk(s, u) && !HourOk(s, u) && v == u - u % HOUR + HOUR
    ensures NoMatch(s, u, v) && Aligned(s, v)
    ensures Hour(v) != 0 ==> Date(v) == Date(u)
  {
    hide Test, MonthOf, DayOf, WeekdayOf, MonthStart, Date, Hour, Minute, MinuteOk, SecondOk;
    UnitEnd(u, HOUR, v);
    Units(v);
    forall x | u <= x < v
      ensures !Matches(s, x)
    {
      WithinHour(u, x);
    }
    WithinHour(u, v - 1);
    Carry(s, v - 1);
    if v % DAY != 0 {
      NextInUnit(v - 1, DAY);
      WithinDay(v - 1, v);
    }
  }

  lemma MinuteMismatch(s: SpecSchedule, u: int, v: int)
    requires MonthOk(s, u) && DayOk(s, u) && HourOk(s, u) && !MinuteOk(s, u) && v == u - u % MINUTE + MINUTE
    ensures NoMatch(s, u, v) && Aligned(s, v)
    ensures Minute(v) != 0 ==> Date(v) == Date(u) && Hour(v) == Hour(u)
  {
    hide Test, MonthOf, DayOf, WeekdayOf, MonthStart, Date, Hour, Minute, SecondOk;
    UnitEnd(u, MINUTE, v);
    Units(v);
    forall x | u <= x < v
      ensures !Matches(s, x)
    {
      WithinMinute(u, x);
    }
    WithinMinute(u, v - 1);
    Carry(s, v - 1);
    if v % HOUR != 0 {
      NextInUnit(v - 1, HOUR);
      WithinHour(v - 1, v);
    }
  }

  lemma SecondMismatch(s: SpecSchedule, u: int)
    requires MonthOk(s, u) && DayOk(s, u) && HourOk(s, u) && MinuteOk(s, u) && !SecondOk(s, u)
    ensures NoMatch(s, u, u + 1) && Aligned(s, u + 1)
    ensures Second(u + 1) != 0 ==> Date(u + 1) == Date(u) && Hour(u + 1) == Hour(u) && Minute(u + 1) == Minute(u)
  {
    hide Test, MonthOf, DayOf, WeekdayOf, MonthStart, Hour, Minute;
    Carry(s, u);
    if (u + 1) % MINUTE != 0 {
      NextInUnit(u, MINUTE);
      WithinMinute(u, u + 1);
    }
  }

  lemma NoMatchJoin(s: SpecSchedule, lo: int, mid: int, hi: int)
    requires NoMatch(s, lo, mid) && NoMatch(s, mid, hi)
    ensures NoMatch(s, lo, hi)
  {}

  /** The end of year y, in seconds. */
  function YearEnd(y: int): int { YearStart(y + 1) * DAY }

  lemma BeforeYearEnd(u: int, limit: int)
    requires Year(u) <= limit
    ensures u < YearEnd(limit)
  {
    YearBounds(Date(u));
    YearStartMonotone(Year(u) + 1, limit + 1);
  }

  /** The month loop. Each finder ends at a match for its field, or past the
      end of the enclosing unit when it wraps. */
  method FindMonth(s: SpecSchedule, u1: int, added1: bool, ghost u0: int, ghost limit: int)
    returns (u: int, added: bool, wrapped: bool)
    requires Search(s, u0, u1, added1) && Year(u1) <= limit
    ensures Search(s, u0, u, added) && u1 <= u && (wrapped ==> u1 < u)
    ensures !wrapped ==> MonthOk(s, u) && Year(u) <= limit
  {
    hide Test, Aligned, NoMatch, MonthOf, YearOf, MonthStart, NextMonthStart, AddMonth;
    u, added := u1, added1;
    while !MonthOk(s, u)
      invariant Search(s, u0, u, added) && u1 <= u && Year(u) <= limit
      decreases YearEnd(limit) - u
    {
      BeforeYearEnd(u, limit);
      MonthMismatch(s, u, added);
      NoMatchJoin(s, u0, u, NextMonthStart(u));
      NextMonth(u);
      if !added {
        added := true;
        u := MonthStart(u);
      }
      u := AddMonth(u);
      if MonthOf(Date(u)) == 1 {
        return u, added, true;
      }
    }
    wrapped := false;
  }

  /** t.AddDate(0, 0, 1) */
  function AddDay(u: int): int {
    DayNumber(YearOf(Date(u)), MonthOf(Date(u)), DayOf(Date(u)) + 1) * DAY + u % DAY
  }

  lemma AddDayIs(u: int)
    ensures AddDay(u) == u + DAY
  {
    hide MonthOf, DayOf, YearOf, MonthOffset, YearStart;
    DayNumberInverse(Date(u));
  }

  method FindDay(s: SpecSchedule, u1: int, added1: bool, ghost u0: int, ghost limit: int)
    returns (u: int, added: bool, wrapped: bool)
    requires Search(s, u0, u1, added1) && Year(u1) <= limit && MonthOk(s, u1)
    ensures Search(s, u0, u, added) && u1 <= u && (wrapped ==> u1 < u)
    ensures !wrapped ==> MonthOk(s, u) && DayOk(s, u) && Year(u) <= limit
  {
    hide Test, NoMatch, MonthOk, HourOk, MinuteOk, DayOk, YearOf, MonthStart, AddDay, MonthOf, DayOf, Date;
    u, added := u1, added1;
    while !DayOk(s, u)
      invariant Search(s, u0, u, added) && u1 <= u && Year(u) <= limit && MonthOk(s, u)
      decreases YearEnd(limit) - u
    {
      BeforeYearEnd(u, limit);
      ghost var v := u - u % DAY + DAY;
      DayMismatch(s, u, v);
      NoMatchJoin(s, u0, u, v);
      if !added {
        added := true;
        u := Truncate(u, DAY);
      }
      AddDayIs(u);
      u := AddDay(u);
      assert u == v;
      if DayOf(Date(u)) == 1 {
        return u, added, true;
      }
    }
    wrapped := false;
  }

  method FindHour(s: SpecSchedule, u1: int, added1: bool, ghost u0: int, ghost limit: int)
    returns (u: int, added: bool, wrapped: bool)
    requires Search(s, u0, u1, added1) && Year(u1) <= limit && MonthOk(s, u1) && DayOk(s, u1)
    ensures Search(s, u0, u, added) && u1 <= u && (wrapped ==> u1 < u)
    ensures !wrapped ==> MonthOk(s, u) && DayOk(s, u) && HourOk(s, u) && Year(u) <= limit
  {
    hide Test, NoMatch, MinuteOk, HourOk, YearOf, MonthStart, MonthOf, DayOf, Date, Hour, WeekdayOf;
    u, added := u1, added1;
    while !HourOk(s, u)
      invariant Search(s, u0, u, added) && u1 <= u && Year(u) <= limit && MonthOk(s, u) && DayOk(s, u)
      decreases YearEnd(limit) - u
    {
      BeforeYearEnd(u, limit);
      ghost var v := u - u % HOUR + HOUR;
      HourMismatch(s, u, v);
      NoMatchJoin(s, u0, u, v);
      if !added {
        added := true;
        u := Truncate(u, HOUR);
      }
      u := u + HOUR;
      assert u == v;
      if Hour(u) == 0 {
        return u, added, true;
      }
    }
    wrapped := false;
  }

  method FindMinute(s: SpecSchedule, u1: int, added1: bool, ghost u0: int, ghost limit: int)
    returns (u: int, added: bool, wrapped: bool)
    requires Search(s, u0, u1, added1) && Year(u1) <= limit && MonthOk(s, u1) && DayOk(s, u1) && HourOk(s, u1)
    ensures Search(s, u0, u, added) && u1 <= u && (wrapped ==> u1 < u)
    ensures !wrapped ==>
              MonthOk(s, u) && DayOk(s, u) && HourOk(s, u) && MinuteOk(s, u) && Year(u) <= limit
  {
    hide Test, NoMatch, MinuteOk, YearOf, MonthStart, MonthOf, DayOf, Date, Hour, Minute, WeekdayOf;
    u, added := u1, added1;
    while !MinuteOk(s, u)
      invariant Search(s, u0, u, added) && u1 <= u && Year(u) <= limit
      invariant MonthOk(s, u) && DayOk(s, u) && HourOk(s, u)
      decreases YearEnd(limit) - u
    {
      BeforeYearEnd(u, limit);
      ghost var v := u - u % MINUTE + MINUTE;
      MinuteMismatch(s, u, v);
      NoMatchJoin(s, u0, u, v);
      if !added {
        added := true;
        u := Truncate(u, MINUTE);
      }
      u := u + MINUTE;
      assert u == v;
      if Minute(u) == 0 {
        return u, added, true;
      }
    }
    wrapped := false;
  }

  method FindSecond(s: SpecSchedule, u1: int, added1: bool, ghost u0: int, ghost limit: int)
    returns (u: int, added: bool, wrapped: bool)
    requires Search(s, u0, u1, added1) && Year(u1) <= limit
    requires MonthOk(s, u1) && DayOk(s, u1) && HourOk(s, u1) && MinuteOk(s, u1)
    ensures Search(s, u0, u, added) && u1 <= u && (wrapped ==> u1 < u)
    ensures !wrapped ==> Matches(s, u) && Year(u) <= limit
  {
    hide Test, NoMatch, YearOf, MonthStart, MonthOf, DayOf, Date, Hour, Minute, Second, WeekdayOf;
    u, added := u1, added1;
    while !SecondOk(s, u)
      invariant Search(s, u0, u, added) && u1 <= u && Year(u) <= limit
      invariant MonthOk(s, u) && DayOk(s, u) && HourOk(s, u) && MinuteOk(s, u)
      decreases YearEnd(limit) - u
    {
      BeforeYearEnd(u, limit);
      SecondMismatch(s, u);
      NoMatchJoin(s, u0, u, u + 1);
      added := true;
      u := u + 1;
      if Second(u) == 0 {
        return u, added, true;
      }
    }
    wrapped := false;
  }

  /** u is an activation after t within the five-year horizon. */
  ghost predicate Eligible(s: SpecSchedule, t: int, u: int) {
    t < u * NANOS && Matches(s, u) && Year(u) <= Year(FirstCandidate(t)) + 5
  }

  lemma PastHorizon(s: SpecSchedule, t: int, u: int)
    requires NoMatch(s, FirstCandidate(t), u) && Year(u) > Year(FirstCandidate(t)) + 5
    ensures forall x :: !Eligible(s, t, x)
  {
    hide Matches, YearOf;
    forall x
      ensures !Eligible(s, t, x)
    {
      if x >= u {
        YearOfMonotone(Date(u), Date(x));
      }
    }
  }

  /** Next: the least whole second after t that matches, with year at most five
      after that of the first candidate, or the zero time exactly if there is none. */
  method Next(s: SpecSchedule, t: int) returns (r: Time)
    ensures r.Zero? <==> forall u :: !Eligible(s, t, u)
    ensures r.At? ==> exists u :: r.ns == u * NANOS && Eligible(s, t, u)
                               && forall x :: Eligible(s, t, x) ==> u <= x
  {
    hide Matches, MonthOk, DayOk, HourOk, MinuteOk, Aligned, YearOf;
    var u := FirstCandidate(t);
    ghost var u0 := u;
    var added := false;
    var yearLimit := Year(u) + 5;
    while true
      invariant Search(s, u0, u, added)
      decreases YearEnd(yearLimit) - u
    {
      if Year(u) > yearLimit {
        PastHorizon(s, t, u);
        return Zero;
      }
      BeforeYearEnd(u, yearLimit);
      var wrapped;
      u, added, wrapped := FindMonth(s, u, added, u0, yearLimit);
      if wrapped { continue; }
      u, added, wrapped := FindDay(s, u, added, u0, yearLimit);
      if wrapped { continue; }
      u, added, wrapped := FindHour(s, u, added, u0, yearLimit);
      if wrapped { continue; }
      u, added, wrapped := FindMinute(s, u, added, u0, yearLimit);
      if wrapped { continue; }
      u, added, wrapped := FindSecond(s, u, added, u0, yearLimit);
      if wrapped { continue; }
      assert Eligible(s, t, u);
      return At(u * NANOS);
    }
  }
}
