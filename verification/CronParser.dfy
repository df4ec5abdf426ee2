/** The field parser of pkg/cron/parser.go and what a parsed schedule means. */
module CronParser {
  import opened Machine
  import opened Bits
  import opened BitSets
  import opened Strings
  import Calendar
  import opened CronNext

  const MAX_UINT64: nat := Pow2(64) - 1

  datatype Bounds = Bounds(min: nat, max: nat, names: map<string, nat>) {
    predicate Valid() { min <= max < 63 }
  }

  const MONTH_NAMES: map<string, nat> := map[
    "jan" := 1, "feb" := 2, "mar" := 3, "apr" := 4, "may" := 5, "jun" := 6,
    "jul" := 7, "aug" := 8, "sep" := 9, "oct" := 10, "nov" := 11, "dec" := 12]
  const DAY_NAMES: map<string, nat> := map[
    "sun" := 0, "mon" := 1, "tue" := 2, "wed" := 3, "thu" := 4, "fri" := 5, "sat" := 6]

  const SECONDS: Bounds := Bounds(0, 59, map[])
  const MINUTES: Bounds := Bounds(0, 59, map[])
  const HOURS: Bounds := Bounds(0, 23, map[])
  const DOM: Bounds := Bounds(1, 31, map[])
  const MONTHS: Bounds := Bounds(1, 12, MONTH_NAMES)
  const DOW: Bounds := Bounds(0, 6, DAY_NAMES)

  /** The six fields of a crontab line, in order. */
  const FIELDS: seq<Bounds> := [SECONDS, MINUTES, HOURS, DOM, MONTHS, DOW]

  /** mustParseInt, with None for its panic. */
  function MustParseInt(s: string): (r: Option<nat>)
    ensures r.Some? ==> r.value <= MAX_INT64
  {
    var n := Atoi(s);
    if n.Some? && n.value >= 0 then Some(n.value) else None
  }

  function ParseIntOrName(s: string, names: map<string, nat>): Option<nat> {
    if Lower(s) in names then Some(names[Lower(s)]) else MustParseInt(s)
  }

  /** What one item of a field asks for. */
  datatype Item = Item(start: nat, end: nat, step: nat, star: bool) {
    /** The item covers value v; a step of zero covers nothing. */
    predicate Covers(v: nat) {
      start <= v <= end && step >= 1 && (v - start) % step == 0
    }
  }

  /** getRange up to its call of getBits, with None for a panic. */
  function ParseItem(expr: string, r: Bounds): (item: Option<Item>)
    ensures item.Some? ==> r.min <= item.value.start <= item.value.end <= r.max
    ensures item.Some? ==> item.value.step <= MAX_INT64
  {
    var rangeAndStep := SplitOn(expr, '/');
    var lowAndHigh := SplitOn(rangeAndStep[0], '-');
    var star := lowAndHigh[0] == "*" || lowAndHigh[0] == "?";
    var start := if star then Some(r.min) else ParseIntOrName(lowAndHigh[0], r.names);
    var end :=
      if star then Some(r.max)
      else if |lowAndHigh| == 1 then start
      else if |lowAndHigh| == 2 then ParseIntOrName(lowAndHigh[1], r.names)
      else None;
    var step :=
      if |rangeAndStep| == 1 then Some(1)
      else if |rangeAndStep| == 2 then MustParseInt(rangeAndStep[1])
      else None;
    if start.None? || end.None? || step.None? then None
    else
      var last := if |rangeAndStep| == 2 && |lowAndHigh| == 1 then r.max else end.value;
      if start.value < r.min || last > r.max || start.value > last then None
      else Some(Item(start.value, last, step.value, star))
  }

  /** No name of the field looks like a number. */
  ghost predicate NamesAreWords(r: Bounds) {
    forall n :: n in r.names ==> n == "" || !IsDigit(n[0])
  }

  lemma FieldNamesAreWords(r: Bounds)
    requires r in FIELDS
    ensures NamesAreWords(r) && r.Valid()
  {}

  lemma NumberText(n: nat, r: Bounds)
    requires NamesAreWords(r) && n <= MAX_INT64
    ensures ParseIntOrName(Decimal(n), r.names) == Some(n) && MustParseInt(Decimal(n)) == Some(n)
    ensures Decimal(n) != "*" && Decimal(n) != "?"
  {
    hide Decimal, Atoi;
    AtoiReadsItoa(n);
    var d := Decimal(n);
    assert IsDigit(d[0]) && Lower(d)[0] == d[0];
  }

  lemma NumberSplits(n: nat, c: char)
    requires !IsDigit(c)
    ensures c !in Decimal(n)
  {
    DecimalChars(n, c);
  }

  /** "a-b/c" */
  lemma RangeStepText(a: nat, b: nat, c: nat, r: Bounds)
    requires NamesAreWords(r) && r.min <= a <= b <= r.max <= MAX_INT64 && c <= MAX_INT64
    ensures ParseItem(Decimal(a) + "-" + Decimal(b) + "/" + Decimal(c), r) == Some(Item(a, b, c, false))
  {
    hide Decimal, SplitOn, ParseIntOrName, MustParseInt;
    var low, high, step := Decimal(a), Decimal(b), Decimal(c);
    var range := low + ['-'] + high;
    NumberText(a, r);
    NumberText(b, r);
    NumberText(c, r);
    NumberSplits(a, '/');
    NumberSplits(b, '/');
    NumberSplits(c, '/');
    NumberSplits(a, '-');
    NumberSplits(b, '-');
    assert low + "-" + high + "/" + step == range + ['/'] + step;
    SplitFirst(range, '/', step);
    SplitSingle(step, '/');
    SplitFirst(low, '-', high);
    SplitSingle(high, '-');
  }

  /** "a" stands for a alone, "a/c" for a to the maximum in steps of c. */
  lemma SingleText(a: nat, c: nat, r: Bounds)
    requires NamesAreWords(r) && r.min <= a <= r.max <= MAX_INT64 && c <= MAX_INT64
    ensures ParseItem(Decimal(a), r) == Some(Item(a, a, 1, false))
    ensures ParseItem(Decimal(a) + "/" + Decimal(c), r) == Some(Item(a, r.max, c, false))
  {
    hide Decimal, SplitOn, ParseIntOrName, MustParseInt;
    NumberText(a, r);
    NumberText(c, r);
    NumberSplits(a, '/');
    NumberSplits(a, '-');
    NumberSplits(c, '/');
    SplitSingle(Decimal(a), '/');
    SplitSingle(Decimal(a), '-');
    SplitFirst(Decimal(a), '/', Decimal(c));
    SplitSingle(Decimal(c), '/');
    assert Decimal(a) + "/" + Decimal(c) == Decimal(a) + ['/'] + Decimal(c);
  }

  /** "*" and "?" cover the whole field, and carry the star. */
  lemma StarText(star: string, c: nat, r: Bounds)
    requires star in ["*", "?"] && r.min <= r.max && c <= MAX_INT64 && NamesAreWords(r)
    ensures ParseItem(star, r) == Some(Item(r.min, r.max, 1, true))
    ensures ParseItem(star + "/" + Decimal(c), r) == Some(Item(r.min, r.max, c, true))
  {
    hide Decimal, SplitOn, ParseIntOrName, MustParseInt;
    NumberText(c, r);
    NumberSplits(c, '/');
    SplitSingle(star, '/');
    SplitSingle(star, '-');
    SplitFirst(star, '/', Decimal(c));
    SplitSingle(Decimal(c), '/');
    assert star + "/" + Decimal(c) == star + ['/'] + Decimal(c);
  }

  lemma NextMultiple(min: nat, i: nat, step: nat, v: nat)
    requires step >= 1 && min <= i && (i - min) % step == 0 && i <= v < i + step
    ensures (v - min) % step == 0 <==> v == i
  {
    DivModUnique(v - min, step, (i - min) / step, v - i);
  }

  lemma StepKeepsMultiple(min: nat, i: nat, step: nat)
    requires step >= 1 && min <= i && (i - min) % step == 0
    ensures (i + step - min) % step == 0
  {
    DivModUnique(i + step - min, step, (i - min) / step + 1, 0);
  }

  lemma ShiftForm(min: nat, max: nat, v: nat)
    requires min <= max < 63 && v < 64
    ensures Bit(BitAnd(Complement(64, ShiftLeft(64, MAX_UINT64, max + 1)), ShiftLeft(64, MAX_UINT64, min)), v)
        <==> min <= v <= max
  {
    hide Pow2, ShiftLeft, Complement, BitAnd;
    var hi, lo := ShiftLeft(64, MAX_UINT64, max + 1), ShiftLeft(64, MAX_UINT64, min);
    BitOfAnd(Complement(64, hi), lo, v);
    BitOfComplement(64, hi, v);
    BitOfShift(64, MAX_UINT64, max + 1, v);
    BitOfShift(64, MAX_UINT64, min, v);
    if v >= min {
      AllOnes(v - min);
    }
    if v >= max + 1 {
      AllOnes(v - (max + 1));
    }
  }

  lemma AllOnes(k: nat)
    requires k < 64
    ensures Bit(MAX_UINT64, k)
  {
    hide Pow2;
    BitOfZero(k);
    BitOfComplement(64, 0, k);
  }

  /** A call returns bits, panics, or never returns. */
  datatype Outcome = Bits(bits: nat) | Panic | Endless

  /** The variable of the loop of getBits after n turns, in 64-bit arithmetic. */
  function LoopVar(min: nat, step: nat, n: nat): nat {
    if n == 0 then min else (LoopVar(min, step, n - 1) + step) % TWO64
  }

  /** The call of getBits returns: it has no loop to run, or the loop's guard
      fails after some number of turns. */
  ghost predicate Ends(min: nat, max: nat, step: nat) {
    step == 1 || exists n: nat :: LoopVar(min, step, n) > max
  }

  lemma {:induction false} LoopVarStays(min: nat, n: nat)
    requires min < TWO64
    ensures LoopVar(min, 0, n) == min
  {
    if n > 0 {
      LoopVarStays(min, n - 1);
    }
  }

  /** Small steps add up, one by one, without wrapping around. */
  lemma {:induction false} LoopVarGrows(min: nat, step: nat, n: nat)
    requires min < 63 && 1 <= step < 63 && n <= 63
    ensures n <= LoopVar(min, step, n) <= min + 63 * n
  {
    if n > 0 {
      LoopVarGrows(min, step, n - 1);
    }
  }

  /** The loop ends exactly for steps other than zero. */
  lemma EndsIff(min: nat, max: nat, step: nat)
    requires min <= max < 63 && step <= MAX_INT64
    ensures Ends(min, max, step) <==> step >= 1
  {
    if step == 0 {
      forall n: nat
        ensures LoopVar(min, step, n) <= max
      {
        LoopVarStays(min, n);
      }
    } else if step <= max {
      LoopVarGrows(min, step, max + 1);
    } else {
      assert LoopVar(min, step, 1) == min + step by {
        assert LoopVar(min, step, 0) == min;
      }
    }
  }

  /** getBits: its shift form and its loop form both set exactly the multiples
      of step from min to max, whenever the call returns. */
  method GetBits(min: nat, max: nat, step: nat) returns (out: Outcome)
    requires min <= max < 63 && step <= MAX_INT64
    ensures out.Bits? <==> Ends(min, max, step)
    ensures out.Endless? <==> !Ends(min, max, step)
    ensures out.Bits? ==>
              step >= 1
              && forall v :: 0 <= v < 64 ==> (Bit(out.bits, v) <==> min <= v <= max && (v - min) % step == 0)
  {
    hide Ends;
    EndsIff(min, max, step);
    if step == 0 {
      return Endless;
    }
    var bits := Multiples(min, max, step);
    out := Bits(bits);
  }

  /** The call of getBits that returns. */
  method Multiples(min: nat, max: nat, step: nat) returns (bits: nat)
    requires min <= max < 63 && 1 <= step <= MAX_INT64
    ensures forall v :: 0 <= v < 64 ==> (Bit(bits, v) <==> min <= v <= max && (v - min) % step == 0)
  {
    hide Bit, BitOr, BitAnd, Pow2, ShiftLeft, Complement;
    if step == 1 {
      bits := BitAnd(Complement(64, ShiftLeft(64, MAX_UINT64, max + 1)), ShiftLeft(64, MAX_UINT64, min));
      forall v | 0 <= v < 64
        ensures Bit(bits, v) <==> min <= v <= max && (v - min) % step == 0
      {
        ShiftForm(min, max, v);
      }
      return;
    }
    bits := 0;
    var i := min;
    forall v: nat
      ensures !Bit(0, v)
    {
      BitOfZero(v);
    }
    while i <= max
      invariant min <= i && (i - min) % step == 0
      invariant forall v :: 0 <= v < 64 ==> (Bit(bits, v) <==> min <= v < i && v <= max && (v - min) % step == 0)
      decreases max + 1 - i
    {
      ghost var old_i, old_bits := i, bits;
      bits := BitOr(bits, Pow2(i));
      i := i + step;
      StepKeepsMultiple(min, old_i, step);
      forall v | 0 <= v < 64
        ensures Bit(bits, v) <==> min <= v < i && v <= max && (v - min) % step == 0
      {
        BitOfOr(old_bits, Pow2(old_i), v);
        BitOfPow2(old_i, v);
        if old_i <= v < i {
          NextMultiple(min, old_i, step, v);
        }
      }
    }
  }

  /** The items of a comma-separated field. */
  function Items(field: string): seq<string> { NonEmpty(SplitOn(field, ',')) }

  predicate Fine(expr: string, r: Bounds) {
    ParseItem(expr, r).Some? && ParseItem(expr, r).value.step >= 1
  }

  /** The call of getBits for this item never returns. */
  ghost predicate HangsOn(expr: string, r: Bounds) {
    ParseItem(expr, r).Some?
    && var item := ParseItem(expr, r).value; !Ends(item.start, item.end, item.step)
  }

  /** Some item hangs, and all before it are fine. */
  ghost predicate Hangs(field: string, r: Bounds) {
    exists k :: 0 <= k < |Items(field)| && (forall i :: 0 <= i < k ==> Fine(Items(field)[i], r))
             && HangsOn(Items(field)[k], r)
  }

  predicate Accepted(field: string, r: Bounds) {
    forall i :: 0 <= i < |Items(field)| ==> Fine(Items(field)[i], r)
  }

  /** Some item of the field covers v. */
  predicate InField(field: string, r: Bounds, v: nat) {
    exists i :: 0 <= i < |Items(field)| && ItemCovers(Items(field)[i], r, v)
  }

  predicate ItemCovers(expr: string, r: Bounds, v: nat) {
    ParseItem(expr, r).Some? && ParseItem(expr, r).value.Covers(v)
  }

  predicate IsStar(expr: string, r: Bounds) {
    ParseItem(expr, r).Some? && ParseItem(expr, r).value.star
  }

  predicate HasStar(field: string, r: Bounds) {
    exists i :: 0 <= i < |Items(field)| && IsStar(Items(field)[i], r)
  }

  /** The bits that one item contributes. */
  ghost predicate ItemBits(expr: string, r: Bounds, bits: nat) {
    forall v :: 0 <= v < 64 ==>
      (Bit(bits, v) <==> if v == STAR_BIT then IsStar(expr, r) else ItemCovers(expr, r, v))
  }

  /** getRange */
  method GetRange(expr: string, r: Bounds) returns (out: Outcome)
    requires r.Valid()
    ensures out.Panic? <==> ParseItem(expr, r).None?
    ensures out.Bits? <==> Fine(expr, r)
    ensures out.Endless? <==> HangsOn(expr, r)
    ensures out.Bits? ==> ItemBits(expr, r, out.bits)
  {
    hide ParseItem, Bit, BitOr, Pow2, Ends;
    var item := ParseItem(expr, r);
    if item.None? {
      return Panic;
    }
    EndsIff(item.value.start, item.value.end, item.value.step);
    out := GetBits(item.value.start, item.value.end, item.value.step);
    if !out.Bits? {
      return;
    }
    var bits := out.bits;
    var extra := if item.value.star then Pow2(STAR_BIT) else 0;
    forall v | 0 <= v < 64
      ensures Bit(BitOr(bits, extra), v) <==> if v == STAR_BIT then IsStar(expr, r) else ItemCovers(expr, r, v)
    {
      BitOfOr(bits, extra, v);
      BitOfPow2(STAR_BIT, v);
      BitOfZero(v);
    }
    out := Bits(BitOr(bits, extra));
  }

  /** A field whose first bad item panics does not hang. */
  lemma DoesNotHang(field: string, r: Bounds, k: nat)
    requires r.Valid() && k <= |Items(field)| && forall i :: 0 <= i < k ==> Fine(Items(field)[i], r)
    requires k < |Items(field)| ==> ParseItem(Items(field)[k], r).None?
    ensures !Hangs(field, r)
  {
    hide Ends, ParseItem, Items;
    forall i | 0 <= i < k
      ensures !HangsOn(Items(field)[i], r)
    {
      var item := ParseItem(Items(field)[i], r).value;
      assert Fine(Items(field)[i], r);
      EndsIff(item.start, item.end, item.step);
    }
  }

  /** getField: the bits are the union of what the items ask for; the call
      panics at the first malformed item and hangs at the first zero step,
      whichever comes first. */
  method GetField(field: string, r: Bounds) returns (out: Outcome)
    requires r.Valid()
    ensures out.Bits? <==> Accepted(field, r)
    ensures out.Bits? ==>
              forall v :: 0 <= v < 64 ==>
                (Bit(out.bits, v) <==> if v == STAR_BIT then HasStar(field, r) else InField(field, r, v))
    ensures out.Endless? <==> Hangs(field, r)
  {
    hide ParseItem, Bit, BitOr, Items, Ends;
    var exprs := Items(field);
    var bits := 0;
    forall v: nat
      ensures !Bit(0, v)
    {
      BitOfZero(v);
    }
    for k := 0 to |exprs|
      invariant forall i :: 0 <= i < k ==> Fine(exprs[i], r)
      invariant forall v :: 0 <= v < 64 ==>
                  (Bit(bits, v) <==> exists i :: 0 <= i < k && Contributes(exprs[i], r, v))
    {
      var part := GetRange(exprs[k], r);
      if part.Panic? {
        DoesNotHang(field, r, k);
        return part;
      }
      if part.Endless? {
        return part;
      }
      ghost var before := bits;
      bits := BitOr(bits, part.bits);
      forall v | 0 <= v < 64
        ensures Bit(bits, v) <==> exists i :: 0 <= i < k + 1 && Contributes(exprs[i], r, v)
      {
        BitOfOr(before, part.bits, v);
      }
    }
    DoesNotHang(field, r, |exprs|);
    out := Bits(bits);
  }

  predicate Contributes(expr: string, r: Bounds, v: nat) {
    if v == STAR_BIT then IsStar(expr, r) else ItemCovers(expr, r, v)
  }

  /** Accepted fields set no other bit outside their bounds. */
  lemma InFieldWithinBounds(field: string, r: Bounds, v: nat)
    requires r.Valid() && InField(field, r, v)
    ensures r.min <= v <= r.max
  {}

  /** all: every value of the bounds, and the star bit. */
  method All(r: Bounds) returns (bits: nat)
    requires r.Valid()
    ensures forall v :: 0 <= v < 64 ==> (Bit(bits, v) <==> r.min <= v <= r.max || v == STAR_BIT)
  {
    hide Bit, BitOr, Pow2;
    var out := GetBits(r.min, r.max, 1);
    bits := out.bits;
    forall v | 0 <= v < 64
      ensures Bit(BitOr(bits, Pow2(STAR_BIT)), v) <==> r.min <= v <= r.max || v == STAR_BIT
    {
      BitOfOr(bits, Pow2(STAR_BIT), v);
      BitOfPow2(STAR_BIT, v);
    }
    bits := BitOr(bits, Pow2(STAR_BIT));
  }

  /** The bit set holds exactly the values of the field, and its star. */
  ghost predicate Represents(bits: nat, field: string, r: Bounds) {
    forall v :: 0 <= v < 64 ==>
      (Test(bits, v) <==> if v == STAR_BIT then HasStar(field, r) else InField(field, r, v))
  }

  /** What Parse makes of six fields: a schedule, an error, or no return. */
  datatype Parsed = Scheduled(spec: SpecSchedule) | Refused | Stuck

  ghost predicate AcceptedUpTo(f: seq<string>, n: nat)
    requires n <= |f| == 6
  {
    forall j :: 0 <= j < n ==> Accepted(f[j], FIELDS[j])
  }

  /** The fields second, minute, hour, day of month, month and day of week are
      parsed in order; the first that is not accepted decides what happens. */
  method ParseFields(f: seq<string>) returns (s: Parsed)
    requires |f| == 6
    ensures s.Scheduled? <==> AcceptedUpTo(f, 6)
    ensures s.Scheduled? ==> ScheduleOf(s.spec, f)
    ensures s.Stuck? <==> exists i :: 0 <= i < 6 && AcceptedUpTo(f, i) && Hangs(f[i], FIELDS[i])
  {
    hide Accepted, Represents, Hangs;
    var second := FieldBits(f[0], SECONDS);
    if !second.Bits? {
      return Failure(second);
    }
    var minute := FieldBits(f[1], MINUTES);
    if !minute.Bits? {
      return Failure(minute);
    }
    var hour := FieldBits(f[2], HOURS);
    if !hour.Bits? {
      return Failure(hour);
    }
    var dom := FieldBits(f[3], DOM);
    if !dom.Bits? {
      return Failure(dom);
    }
    var month := FieldBits(f[4], MONTHS);
    if !month.Bits? {
      return Failure(month);
    }
    var dow := FieldBits(f[5], DOW);
    if !dow.Bits? {
      return Failure(dow);
    }
    s := Scheduled(SpecSchedule(second.bits, minute.bits, hour.bits, dom.bits, month.bits, dow.bits));
  }

  function Failure(out: Outcome): Parsed
    requires !out.Bits?
  {
    if out.Panic? then Refused else Stuck
  }

  method FieldBits(field: string, r: Bounds) returns (out: Outcome)
    requires r.Valid()
    ensures out.Bits? <==> Accepted(field, r)
    ensures out.Bits? ==> Represents(out.bits, field, r)
    ensures out.Endless? <==> Hangs(field, r)
  {
    hide Accepted, Bit, InField, HasStar, Hangs;
    out := GetField(field, r);
    if out.Bits? {
      forall v | 0 <= v < 64
        ensures Test(out.bits, v) <==> Bit(out.bits, v)
      {
        TestIsBit(out.bits, v);
      }
    }
  }

  ghost predicate ScheduleOf(s: SpecSchedule, f: seq<string>)
    requires |f| == 6
  {
    && Represents(s.second, f[0], SECONDS) && Represents(s.minute, f[1], MINUTES)
    && Represents(s.hour, f[2], HOURS) && Represents(s.dom, f[3], DOM)
    && Represents(s.month, f[4], MONTHS) && Represents(s.dow, f[5], DOW)
  }

  /** The documented meaning of a crontab line at second u. */
  ghost predicate Describes(f: seq<string>, u: int)
    requires |f| == 6
  {
    var inDom := InField(f[3], DOM, Calendar.DayOf(Date(u)));
    var inDow := InField(f[5], DOW, Calendar.WeekdayOf(Date(u)));
    && InField(f[0], SECONDS, Second(u)) && InField(f[1], MINUTES, Minute(u)) && InField(f[2], HOURS, Hour(u))
    && InField(f[4], MONTHS, Calendar.MonthOf(Date(u)))
    && (if HasStar(f[3], DOM) || HasStar(f[5], DOW) then inDom && inDow else inDom || inDow)
  }

  /** A parsed schedule is active exactly when its crontab line says so. */
  lemma ParsedMeaning(s: SpecSchedule, f: seq<string>, u: int)
    requires |f| == 6 && ScheduleOf(s, f)
    ensures Matches(s, u) <==> Describes(f, u)
  {
    hide InField, HasStar, Test, Calendar.DayOf, Calendar.MonthOf, Calendar.WeekdayOf, Hour, Minute, Second, Date;
  }

  // Field texts

  /** A field that is one item. */
  lemma OneItem(text: string, r: Bounds, item: Item)
    requires text != "" && ',' !in text && ParseItem(text, r) == Some(item) && r.Valid()
    ensures Items(text) == [text]
    ensures item.step >= 1 ==> Accepted(text, r) && forall v: nat :: InField(text, r, v) <==> item.Covers(v)
    ensures item.step == 0 ==> Hangs(text, r)
    ensures HasStar(text, r) <==> item.star
  {
    hide ParseItem, SplitOn, Ends;
    SplitSingle(text, ',');
    assert NonEmpty([text]) == [text];
    assert Items(text)[0] == text;
    EndsIff(item.start, item.end, item.step);
    forall v
      ensures InField(text, r, v) <==> item.Covers(v)
    {
      assert ItemCovers(Items(text)[0], r, v) <==> item.Covers(v);
    }
    assert IsStar(Items(text)[0], r) <==> item.star;
    assert item.step == 0 ==> HangsOn(Items(text)[0], r);
  }

  /** The text "a-b/c" in each of the six fields: every c-th value from a to b,
      and a parser that never returns if c is zero. */
  lemma RangeField(a: nat, b: nat, c: nat, r: Bounds)
    requires r in FIELDS && r.min <= a <= b <= r.max && c <= MAX_INT64
    ensures var text := Decimal(a) + "-" + Decimal(b) + "/" + Decimal(c);
            && (c >= 1 ==> Accepted(text, r) && forall v: nat :: InField(text, r, v) <==> a <= v <= b && (v - a) % c == 0)
            && (c == 0 ==> Hangs(text, r))
            && !HasStar(text, r)
  {
    hide Decimal, Accepted, InField, Hangs, HasStar, ParseItem, FIELDS;
    FieldNamesAreWords(r);
    RangeStepText(a, b, c, r);
    NumberSplits(a, ',');
    NumberSplits(b, ',');
    NumberSplits(c, ',');
    OneItem(Decimal(a) + "-" + Decimal(b) + "/" + Decimal(c), r, Item(a, b, c, false));
  }

  /** The texts "a" and "a/c" in each of the six fields. */
  lemma SingleField(a: nat, c: nat, r: Bounds)
    requires r in FIELDS && r.min <= a <= r.max && c <= MAX_INT64
    ensures Accepted(Decimal(a), r) && forall v: nat :: InField(Decimal(a), r, v) <==> v == a
    ensures var text := Decimal(a) + "/" + Decimal(c);
            && (c >= 1 ==> Accepted(text, r) && forall v: nat :: InField(text, r, v) <==> a <= v <= r.max && (v - a) % c == 0)
            && (c == 0 ==> Hangs(text, r))
  {
    hide Decimal, Accepted, InField, Hangs, HasStar, ParseItem, FIELDS;
    FieldNamesAreWords(r);
    SingleText(a, c, r);
    NumberSplits(a, ',');
    NumberSplits(c, ',');
    OneItem(Decimal(a), r, Item(a, a, 1, false));
    OneItem(Decimal(a) + "/" + Decimal(c), r, Item(a, r.max, c, false));
  }

  /** A star with a step in each of the six fields. */
  lemma StarField(star: string, c: nat, r: Bounds)
    requires r in FIELDS && star in ["*", "?"] && c <= MAX_INT64
    ensures Accepted(star, r) && HasStar(star, r) && forall v: nat :: InField(star, r, v) <==> r.min <= v <= r.max
    ensures var text := star + "/" + Decimal(c);
            && (c >= 1 ==> Accepted(text, r))
            && (c >= 1 ==> forall v: nat :: InField(text, r, v) <==> r.min <= v <= r.max && (v - r.min) % c == 0)
            && (c == 0 ==> Hangs(text, r))
            && HasStar(text, r)
  {
    hide Decimal, Accepted, InField, Hangs, HasStar, ParseItem, FIELDS;
    FieldNamesAreWords(r);
    StarText(star, c, r);
    NumberSplits(c, ',');
    OneItem(star, r, Item(r.min, r.max, 1, true));
    OneItem(star + "/" + Decimal(c), r, Item(r.min, r.max, c, true));
  }
}
