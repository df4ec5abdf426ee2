/** What schedules mean on the wall calendar and in the text of a crontab line:
    the calendar itself, the fields with their names, ranges and lists, the day
    rule, the horizon, and one schedule from its text to its next activation. */
module CronLaws {
  import opened Machine
  import opened Strings
  import opened Calendar
  import opened CronNext
  import opened CronParser

  // The calendar

  /** Days of the week follow one another, and 1970-01-01 was a Thursday. */
  lemma WeekdaysCycle(d: int)
    ensures WeekdayOf(d + 1) == (WeekdayOf(d) + 1) % 7
    ensures WeekdayOf(DayNumber(1970, 1, 1)) == 4
  {}

  /** A day is on weekday w exactly if whole weeks lie between it and the w-th day
      after Sunday, 1970-01-04. */
  lemma WeekdayIff(d: int, w: nat)
    requires w < 7
    ensures WeekdayOf(d) == w <==> (d - (DayNumber(1970, 1, 4) + w)) % 7 == 0
  {
    assert DayNumber(1970, 1, 4) == 719165 == 7 * 102738 - 1;
    assert (d - (719165 + w)) % 7 == (d + 1 - w) % 7;
  }

  /** February has 29 days in years divisible by 4, but by 400 if by 100. */
  lemma LeapDay(y: int)
    ensures DayNumber(y, 3, 1) - DayNumber(y, 2, 28) == if y % 400 == 0 || (y % 4 == 0 && y % 100 != 0) then 2 else 1
  {
    LeapNesting(y);
  }

  const MONTH_DAYS: seq<int> := [31, 28, 31, 30, 31, 30, 31, 31, 30, 31, 30, 31]

  lemma MonthLengths(y: int, m: nat)
    requires 1 <= m <= 12 && m != 2
    ensures DayNumber(y, m + 1, 1) - DayNumber(y, m, 1) == MONTH_DAYS[m - 1]
  {}

  /** The day after the last of December is the first of January. */
  lemma NewYear(y: int)
    ensures DayNumber(y, 12, 31) + 1 == DayNumber(y + 1, 1, 1) && DayNumber(1, 1, 1) == 0
  {
    YearLength(y);
  }

  /** A second is its date and its time of day. */
  lemma TimeOfDay(u: int)
    ensures u == 86400 * Date(u) + 3600 * Hour(u) + 60 * Minute(u) + Second(u)
  {
    assert u == 86400 * Date(u) + u % 86400;
    assert u % 86400 == 3600 * Hour(u) + u % 86400 % 3600;
    assert u % 86400 % 3600 == u % 3600;
    assert u % 3600 == 60 * Minute(u) + u % 3600 % 60;
    assert u % 3600 % 60 == u % 60;
  }

  /** The value of field i in second u. */
  function FieldValue(i: nat, u: int): nat
    requires i < 6
  {
    if i == 0 then Second(u) else if i == 1 then Minute(u) else if i == 2 then Hour(u)
    else if i == 3 then DayOf(Date(u)) else if i == 4 then MonthOf(Date(u)) else WeekdayOf(Date(u))
  }

  /** The bounds of each field are exactly the values that it can take. */
  lemma FieldRange(i: nat, v: nat)
    requires i < 6
    ensures (exists u :: FieldValue(i, u) == v) <==> FIELDS[i].min <= v <= FIELDS[i].max
  {
    if FIELDS[i].min <= v <= FIELDS[i].max {
      FieldReached(i, v);
    }
  }

  lemma FieldReached(i: nat, v: nat)
    requires i < 6 && FIELDS[i].min <= v <= FIELDS[i].max
    ensures exists u :: FieldValue(i, u) == v
  {
    hide DayOf, MonthOf, DayNumber, MonthOffset, YearOf;
    if i == 0 {
      assert FieldValue(i, v) == v;
    } else if i == 1 {
      assert FieldValue(i, 60 * v) == v;
    } else if i == 2 {
      assert FieldValue(i, 3600 * v) == v;
    } else if i == 3 {
      JanuaryDay(v);
      assert FieldValue(i, DayNumber(1, 1, v) * DAY) == v;
    } else if i == 4 {
      MonthOffsetIncreases(1, v);
      FieldsOfDayNumber(1, v, 1);
      assert FieldValue(i, DayNumber(1, v, 1) * DAY) == v;
    } else {
      assert FieldValue(i, (v + 6) * DAY) == v;
    }
  }

  lemma JanuaryDay(v: nat)
    requires 1 <= v <= 31
    ensures DayOf(DayNumber(1, 1, v)) == v
  {
    FieldsOfDayNumber(1, 1, v);
  }

  // The horizon

  /** A schedule is given up exactly if it has no match before the sixth New Year
      after the first candidate. */
  lemma HorizonIs(s: SpecSchedule, t: int, u: int)
    ensures Eligible(s, t, u) <==>
              t < u * NANOS && u < DayNumber(Year(FirstCandidate(t)) + 6, 1, 1) * DAY && Matches(s, u)
  {
    hide Matches, YearOf;
    var y := Year(FirstCandidate(t)) + 6;
    assert DayNumber(y, 1, 1) == YearStart(y);
    YearBounds(Date(u));
    if Year(u) < y {
      YearStartMonotone(Year(u) + 1, y);
    } else {
      YearStartMonotone(y, Year(u));
    }
  }

  // Texts of fields

  lemma {:induction false} SplitConcat(a: string, c: char, b: string)
    ensures SplitOn(a + [c] + b, c) == SplitOn(a, c) + SplitOn(b, c)
  {
    var s := a + [c] + b;
    if a == [] {
      assert s[0] == c && s[1..] == b;
    } else {
      assert s[0] == a[0] && s[1..] == a[1..] + [c] + b;
      SplitConcat(a[1..], c, b);
    }
  }

  lemma {:induction false} NonEmptyConcat(x: seq<string>, y: seq<string>)
    ensures NonEmpty(x + y) == NonEmpty(x) + NonEmpty(y)
  {
    hide NonEmpty;
    if x == [] {
      assert x + y == y;
      NonEmptyNothing();
    } else {
      NonEmptyConcat(x[1..], y);
      assert (x + y)[0] == x[0] && (x + y)[1..] == x[1..] + y;
      NonEmptyCons(x);
      NonEmptyCons(x + y);
    }
  }

  lemma NonEmptyNothing()
    ensures NonEmpty([]) == []
  {}

  lemma NonEmptyCons(x: seq<string>)
    requires x != []
    ensures NonEmpty(x) == (if x[0] == [] then [] else [x[0]]) + NonEmpty(x[1..])
  {}

  lemma ItemsConcat(a: string, b: string)
    ensures Items(a + "," + b) == Items(a) + Items(b)
  {
    hide SplitOn;
    assert a + "," + b == a + [','] + b;
    SplitConcat(a, ',', b);
    NonEmptyConcat(SplitOn(a, ','), SplitOn(b, ','));
  }

  /** A list selects what its parts select. */
  lemma ListField(a: string, b: string, r: Bounds)
    ensures Accepted(a + "," + b, r) <==> Accepted(a, r) && Accepted(b, r)
    ensures forall v: nat :: InField(a + "," + b, r, v) <==> InField(a, r, v) || InField(b, r, v)
    ensures HasStar(a + "," + b, r) <==> HasStar(a, r) || HasStar(b, r)
  {
    hide Items, ParseItem;
    ItemsConcat(a, b);
    var x, y := Items(a), Items(b);
    assert forall i :: 0 <= i < |x| ==> (x + y)[i] == x[i];
    assert forall i :: 0 <= i < |y| ==> (x + y)[|x| + i] == y[i];
  }

  /** "a-b" asks for the values from a to b, and "a-b/c" for every c-th of them, if
      they lie in the bounds and in order; otherwise the field is refused. */
  lemma RangeTexts(a: nat, b: nat, c: nat, r: Bounds)
    requires NamesAreWords(r) && a <= MAX_INT64 && b <= MAX_INT64 && c <= MAX_INT64
    ensures ParseItem(Decimal(a) + "-" + Decimal(b), r) ==
            if r.min <= a <= b <= r.max then Some(Item(a, b, 1, false)) else None
    ensures ParseItem(Decimal(a) + "-" + Decimal(b) + "/" + Decimal(c), r) ==
            if r.min <= a <= b <= r.max then Some(Item(a, b, c, false)) else None
  {
    hide Decimal, SplitOn, ParseIntOrName, MustParseInt;
    var low, high, step := Decimal(a), Decimal(b), Decimal(c);
    var range := low + ['-'] + high;
    NumberText(a, r);
    NumberText(b, r);
    NumberText(c, r);
    NumberSplits(a, '/');
    NumberSplits(b, '/');
    NumberSplits(c, '/');
    NumberSplits(a, '-');
    NumberSplits(b, '-');
    assert low + "-" + high == range && low + "-" + high + "/" + step == range + ['/'] + step;
    SplitSingle(range, '/');
    SplitFirst(range, '/', step);
    SplitSingle(step, '/');
    SplitFirst(low, '-', high);
    SplitSingle(high, '-');
  }

  /** Empty items count for nothing. */
  lemma EmptyItems(a: string, r: Bounds, v: nat)
    ensures Items("") == [] && Items(a + ",") == Items(a) == Items("," + a)
    ensures Accepted("", r) && !InField("", r, v) && !HasStar("", r)
  {
    ItemsConcat(a, "");
    ItemsConcat("", a);
    assert a + "," + "" == a + "," && "" + "," + a == "," + a;
    NoItems();
    assert Items(a) + [] == Items(a) && [] + Items(a) == Items(a);
  }

  lemma NoItems()
    ensures Items("") == []
  {
    var parts := SplitOn("", ',');
    assert parts == [""];
    assert parts[1..] == [];
  }

  /** A range of names, in any case. */
  lemma NameRangeText(a: string, b: string, r: Bounds)
    requires Lower(a) in r.names && Lower(b) in r.names && a != "*" && a != "?"
    requires '/' !in a && '-' !in a && '/' !in b && '-' !in b
    ensures var low, high := r.names[Lower(a)], r.names[Lower(b)];
            ParseItem(a + "-" + b, r) ==
            if r.min <= low <= high <= r.max then Some(Item(low, high, 1, false)) else None
  {
    hide SplitOn, MustParseInt, Lower;
    assert a + "-" + b == a + ['-'] + b;
    SplitSingle(a + ['-'] + b, '/');
    SplitFirst(a, '-', b);
    SplitSingle(b, '-');
  }

  /** A step is a number, never a name or a sign alone, and so is a value that is not
      a name. */
  lemma NumbersNeeded(a: string, t: string, r: Bounds)
    requires '/' !in a && '/' !in t && Atoi(t).None?
    ensures ParseItem(a + "/" + t, r).None?
    ensures '-' !in t && t != "*" && t != "?" && Lower(t) !in r.names ==> ParseItem(t, r).None?
  {
    hide SplitOn, Lower, Atoi;
    assert a + "/" + t == a + ['/'] + t;
    SplitFirst(a, '/', t);
    SplitSingle(t, '/');
    if '-' !in t {
      SplitSingle(t, '-');
    }
  }

  /** Two hyphens or two slashes are refused. */
  lemma TooManyParts(a: string, b: string, c: string, r: Bounds)
    requires '/' !in a && '-' !in a && '/' !in b && '-' !in b && '/' !in c && '-' !in c
    ensures ParseItem(a + "/" + b + "/" + c, r).None?
    ensures a != "*" && a != "?" ==> ParseItem(a + "-" + b + "-" + c, r).None?
  {
    hide SplitOn, ParseIntOrName, MustParseInt;
    assert a + "/" + b + "/" + c == a + ['/'] + (b + ['/'] + c);
    SplitFirst(a, '/', b + ['/'] + c);
    SplitFirst(b, '/', c);
    SplitSingle(c, '/');
    var text := a + "-" + b + "-" + c;
    assert text == a + ['-'] + (b + ['-'] + c);
    SplitSingle(text, '/');
    SplitFirst(a, '-', b + ['-'] + c);
    SplitFirst(b, '-', c);
    SplitSingle(c, '-');
  }

  /** A name, in any case, stands for its number. */
  lemma NameText(text: string, r: Bounds)
    requires Lower(text) in r.names && '/' !in text && '-' !in text && text != "*" && text != "?"
    requires r.min <= r.names[Lower(text)] <= r.max
    ensures ParseItem(text, r) == Some(Item(r.names[Lower(text)], r.names[Lower(text)], 1, false))
  {
    hide SplitOn, MustParseInt;
    SplitSingle(text, '/');
    SplitSingle(text, '-');
  }

  /** Capital letters count as small ones. */
  lemma LowerIs(c: char)
    ensures 'A' <= c <= 'Z' ==> LowerChar(c) as int == c as int + 32
    ensures 'a' <= c <= 'z' ==> LowerChar(c) == c
  {}

  const MONTH_TEXTS: seq<string> :=
    ["jan", "feb", "mar", "apr", "may", "jun", "jul", "aug", "sep", "oct", "nov", "dec"]
  const DAY_TEXTS: seq<string> := ["sun", "mon", "tue", "wed", "thu", "fri", "sat"]

  /** The months are numbered from one and the days of the week from zero. */
  lemma Names(k: nat)
    ensures k < 12 ==> MONTH_TEXTS[k] in MONTH_NAMES && MONTH_NAMES[MONTH_TEXTS[k]] == k + 1
    ensures k < 7 ==> DAY_TEXTS[k] in DAY_NAMES && DAY_NAMES[DAY_TEXTS[k]] == k
  {}

  lemma DayLetters(k: nat)
    requires k < 7
    ensures var t := DAY_TEXTS[k];
            |t| == 3 && Lower(t) == t && '/' !in t && '-' !in t && ',' !in t && t != "*" && t != "?"
  {
    LowerLetters(DAY_TEXTS[k]);
  }

  lemma {:induction false} LowerLetters(s: string)
    requires forall i :: 0 <= i < |s| ==> 'a' <= s[i] <= 'z'
    ensures Lower(s) == s
  {
    if s != [] {
      LowerLetters(s[1..]);
    }
  }

  /** The name of a day of the week selects that day. */
  lemma DayNameField(k: nat)
    requires k < 7
    ensures Accepted(DAY_TEXTS[k], DOW) && !HasStar(DAY_TEXTS[k], DOW)
    ensures forall v: nat :: InField(DAY_TEXTS[k], DOW, v) <==> v == k
  {
    hide Accepted, InField, HasStar, ParseItem, Lower, DAY_NAMES;
    Names(k);
    DayLetters(k);
    NameText(DAY_TEXTS[k], DOW);
    OneItem(DAY_TEXTS[k], DOW, Item(k, k, 1, false));
  }

  // The day rule

  /** Midnight of a day of the month and a day of the week. */
  function MidnightLine(dom: string, dow: string): seq<string> {
    [Decimal(0), Decimal(0), Decimal(0), dom, "*", dow]
  }

  lemma MidnightIs(dom: string, dow: string, u: int)
    ensures Describes(MidnightLine(dom, dow), u) <==>
              var inDom := InField(dom, DOM, DayOf(Date(u)));
              var inDow := InField(dow, DOW, WeekdayOf(Date(u)));
              u % DAY == 0 && if HasStar(dom, DOM) || HasStar(dow, DOW) then inDom && inDow else inDom || inDow
  {
    hide InField, HasStar, Decimal, DayOf, MonthOf, WeekdayOf, Date, Hour, Minute, Second, FIELDS;
    ZeroFields();
    StarField("*", 1, MONTHS) by {
      InFields();
    }
    TimeOfDay(u);
    MidnightParts(u);
  }

  lemma InFields()
    ensures SECONDS in FIELDS && MINUTES in FIELDS && HOURS in FIELDS && DOM in FIELDS && MONTHS in FIELDS && DOW in FIELDS
  {
    assert FIELDS[0] == SECONDS && FIELDS[1] == MINUTES && FIELDS[2] == HOURS;
    assert FIELDS[3] == DOM && FIELDS[4] == MONTHS && FIELDS[5] == DOW;
  }

  lemma MidnightParts(u: int)
    ensures u % DAY == 0 <==> Hour(u) == 0 && Minute(u) == 0 && Second(u) == 0
  {
    TimeOfDay(u);
    assert u % DAY == 3600 * Hour(u) + 60 * Minute(u) + Second(u);
  }

  lemma ZeroFields()
    ensures forall v: nat :: InField(Decimal(0), SECONDS, v) <==> v == 0
    ensures forall v: nat :: InField(Decimal(0), MINUTES, v) <==> v == 0
    ensures forall v: nat :: InField(Decimal(0), HOURS, v) <==> v == 0
  {
    hide InField, Decimal, FIELDS;
    InFields();
    SingleField(0, 1, SECONDS);
    SingleField(0, 1, MINUTES);
    SingleField(0, 1, HOURS);
  }

  /** A day of the month and a day of the week: either is enough if both are
      given, and the given one decides if the other is a star. */
  lemma DayRule(a: nat, b: nat, u: int)
    requires 1 <= a <= 31 && b <= 6
    ensures Describes(MidnightLine(Decimal(a), Decimal(b)), u) <==>
              u % DAY == 0 && (DayOf(Date(u)) == a || WeekdayOf(Date(u)) == b)
    ensures Describes(MidnightLine(Decimal(a), "*"), u) <==> u % DAY == 0 && DayOf(Date(u)) == a
    ensures Describes(MidnightLine("*", Decimal(b)), u) <==> u % DAY == 0 && WeekdayOf(Date(u)) == b
  {
    hide InField, HasStar, Decimal, DayOf, WeekdayOf, Date, Describes, FIELDS;
    InFields();
    NoStar(a, DOM);
    NoStar(b, DOW);
    SingleField(a, 1, DOM);
    SingleField(b, 1, DOW);
    StarField("*", 1, DOM);
    StarField("*", 1, DOW);
    MidnightIs(Decimal(a), Decimal(b), u);
    MidnightIs(Decimal(a), "*", u);
    MidnightIs("*", Decimal(b), u);
  }

  lemma NoStar(a: nat, r: Bounds)
    requires r in FIELDS && r.min <= a <= r.max
    ensures !HasStar(Decimal(a), r)
  {
    hide Decimal, ParseItem, FIELDS, Accepted, InField;
    FieldNamesAreWords(r);
    SingleText(a, 1, r);
    NumberSplits(a, ',');
    OneItem(Decimal(a), r, Item(a, a, 1, false));
  }

  /** The line for one time on one day of the year. */
  function DateLine(s: nat, m: nat, h: nat, day: nat, month: nat): seq<string> {
    [Decimal(s), Decimal(m), Decimal(h), Decimal(day), Decimal(month), "*"]
  }

  lemma TimeFields(s: nat, m: nat, h: nat, u: int)
    requires s < 60 && m < 60 && h < 24
    ensures u % DAY == 3600 * h + 60 * m + s <==>
              InField(Decimal(s), SECONDS, Second(u)) && InField(Decimal(m), MINUTES, Minute(u))
              && InField(Decimal(h), HOURS, Hour(u))
  {
    hide InField, Decimal, Hour, Minute, Second, FIELDS;
    InFields();
    OnlyValue(s, SECONDS, Second(u));
    OnlyValue(m, MINUTES, Minute(u));
    OnlyValue(h, HOURS, Hour(u));
    TimeParts(u, h, m, s);
  }

  lemma DayFields(day: nat, month: nat, d: int)
    requires 1 <= day <= 31 && 1 <= month <= 12
    ensures InField(Decimal(month), MONTHS, MonthOf(d)) <==> MonthOf(d) == month
    ensures InField(Decimal(day), DOM, DayOf(d)) <==> DayOf(d) == day
    ensures InField("*", DOW, WeekdayOf(d)) && HasStar("*", DOW)
  {
    hide InField, HasStar, Decimal, FIELDS, DayOf, MonthOf, WeekdayOf;
    InFields();
    OnlyValue(day, DOM, DayOf(d));
    OnlyValue(month, MONTHS, MonthOf(d));
    AnyWeekday(WeekdayOf(d));
  }

  /** Six fields in their places. */
  lemma DateLineIs(s: nat, m: nat, h: nat, day: nat, month: nat, u: int)
    requires s < 60 && m < 60 && h < 24 && 1 <= day <= 31 && 1 <= month <= 12
    ensures Describes(DateLine(s, m, h, day, month), u) <==>
              u % DAY == 3600 * h + 60 * m + s && DayOf(Date(u)) == day && MonthOf(Date(u)) == month
  {
    hide InField, HasStar, Decimal, DayOf, MonthOf, WeekdayOf, Hour, Minute, Second, Date;
    TimeFields(s, m, h, u);
    DayFields(day, month, Date(u));
  }

  lemma OnlyValue(a: nat, r: Bounds, v: nat)
    requires r in FIELDS && r.min <= a <= r.max
    ensures (InField(Decimal(a), r, v) <==> v == a) && !HasStar(Decimal(a), r)
  {
    hide InField, HasStar, Decimal, FIELDS;
    SingleField(a, 1, r);
    NoStar(a, r);
  }

  lemma AnyWeekday(v: nat)
    requires v <= 6
    ensures InField("*", DOW, v) && HasStar("*", DOW)
  {
    hide InField, HasStar, FIELDS;
    InFields();
    StarField("*", 1, DOW);
  }

  lemma TimeParts(u: int, h: nat, m: nat, s: nat)
    requires s < 60 && m < 60 && h < 24
    ensures u % DAY == 3600 * h + 60 * m + s <==> Hour(u) == h && Minute(u) == m && Second(u) == s
  {
    TimeOfDay(u);
    assert u % DAY == 3600 * Hour(u) + 60 * Minute(u) + Second(u);
  }

  // From the text to the next activation

  /** The line for midnight of weekday w describes exactly those midnights. */
  lemma WeekdayLine(w: nat, u: int)
    requires w < 7
    ensures Describes(MidnightLine("*", DAY_TEXTS[w]), u) <==>
              u % DAY == 0 && (Date(u) - (DayNumber(1970, 1, 4) + w)) % 7 == 0
  {
    hide InField, HasStar, DayOf, WeekdayOf, Date, Describes, FIELDS, DayNumber;
    InFields();
    DayNameField(w);
    StarField("*", 1, DOM);
    MidnightIs("*", DAY_TEXTS[w], u);
    WeekdayIff(Date(u), w);
  }

  /** The first such midnight after t, at most a week later. */
  lemma WeekdaySoon(w: nat, t: int) returns (u: int)
    requires w < 7
    ensures t < u * NANOS <= t + 7 * DAY * NANOS && u % DAY == 0
    ensures (Date(u) - (DayNumber(1970, 1, 4) + w)) % 7 == 0
  {
    var base := DayNumber(1970, 1, 4) + w;
    var week := 7 * DAY * NANOS;
    var k := (t - base * DAY * NANOS) / week + 1;
    u := (base + 7 * k) * DAY;
    assert Date(u) == base + 7 * k;
    assert u * NANOS == base * DAY * NANOS + k * week;
  }

  lemma SoonIsEligible(s: SpecSchedule, t: int, u: int)
    requires t < u * NANOS <= t + 7 * DAY * NANOS && Matches(s, u)
    ensures Eligible(s, t, u)
  {
    hide Matches, YearOf;
    var first := FirstCandidate(t);
    YearBounds(Date(first));
    YearBounds(Date(u));
    YearLength(Year(first) + 1);
    assert Date(u) <= Date(first) + 7;
    if Year(u) > Year(first) + 1 {
      YearStartMonotone(Year(first) + 2, Year(u));
    }
  }

  /** Parse and Next together, for "0 0 0 * * mon" and its like: the next midnight
      of that day of the week, counted in whole weeks from 1970-01-04. */
  method NextWeekday(w: nat, t: int) returns (r: Time)
    requires w < 7
    ensures r.At? && t < r.ns <= t + 7 * DAY * NANOS && r.ns % (DAY * NANOS) == 0
    ensures (r.ns / (DAY * NANOS) - (DayNumber(1970, 1, 4) + w)) % 7 == 0
  {
    hide Accepted, Describes, Matches, Eligible, ScheduleOf, Represents, Hangs, DayNumber, FIELDS;
    var f := MidnightLine("*", DAY_TEXTS[w]);
    LineAccepted(w);
    var parsed := ParseFields(f);
    var s := parsed.spec;
    ghost var soon := WeekdaySoon(w, t);
    WeekdayLine(w, soon);
    ParsedMeaning(s, f, soon);
    SoonIsEligible(s, t, soon);
    r := Next(s, t);
    ghost var u :| r.ns == u * NANOS && Eligible(s, t, u) && forall x :: Eligible(s, t, x) ==> u <= x;
    EligibleMatches(s, t, u);
    ParsedMeaning(s, f, u);
    WeekdayLine(w, u);
    WholeDays(u, r.ns);
  }

  lemma EligibleMatches(s: SpecSchedule, t: int, u: int)
    requires Eligible(s, t, u)
    ensures t < u * NANOS && Matches(s, u)
  {}

  lemma WholeDays(u: int, ns: int)
    requires u % DAY == 0 && ns == u * NANOS
    ensures ns % (DAY * NANOS) == 0 && ns / (DAY * NANOS) == Date(u)
  {
    assert u == DAY * Date(u);
    assert ns == DAY * NANOS * Date(u);
  }

  lemma LineAccepted(w: nat)
    requires w < 7
    ensures AcceptedUpTo(MidnightLine("*", DAY_TEXTS[w]), 6)
  {
    hide Accepted, Decimal;
    InFields();
    SingleField(0, 1, SECONDS);
    SingleField(0, 1, MINUTES);
    SingleField(0, 1, HOURS);
    StarField("*", 1, DOM);
    StarField("*", 1, MONTHS);
    DayNameField(w);
  }
}
