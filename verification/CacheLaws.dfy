/** The cache as its callers see it: how long a value is found, what each
    operation answers in terms of what Get would have answered, and the key hash
    at fixed keys. */
module CacheLaws {
  import opened Machine
  import opened Strings
  import opened Djb33
  import opened TimedCache
  import opened ShardedStores

  // How long a value is found

  predicate Writes<V>(op: Op<V>) { op.Set? || op.Add? || op.Replace? }

  /** The operation can change what is stored under k; the janitor does not count. */
  predicate Touches<V>(op: Op<V>, k: Key) {
    op.Flush? || ((Writes(op) || op.Delete?) && op.k == k)
  }

  /** The duration asked for, where zero stands for the default of the cache. */
  function InForce(d: int, default: int): int { if d == 0 then default else d }

  /** Item i is under k, or it has expired and was cleared away. */
  ghost predicate Holds<V>(m: Store<V>, k: Key, i: Item<V>, now: int) {
    if k in m then m[k] == i else Stale(i, now)
  }

  lemma {:induction false} RunConcat<V>(m: Store<V>, a: seq<Call<V>>, b: seq<Call<V>>, default: int)
    ensures LazyRun(m, a + b, default) == LazyRun(m, a, default) + LazyRun(LazyState(m, a, default), b, default)
    decreases |a|
  {
    hide LazyStep;
    if a == [] {
      assert a + b == b;
    } else {
      assert (a + b)[0] == a[0] && (a + b)[1..] == a[1..] + b;
      RunConcat(LazyStep(m, a[0].op, default, a[0].now).0, a[1..], b, default);
    }
  }

  lemma {:induction false} StaysHeld<V>(m: Store<V>, calls: seq<Call<V>>, default: int, k: Key, i: Item<V>, now: int, later: int)
    requires Holds(m, k, i, now) && Monotone(calls, now) && now <= later
    requires forall j :: 0 <= j < |calls| ==> !Touches(calls[j].op, k) && calls[j].now <= later
    ensures Holds(LazyState(m, calls, default), k, i, later)
    decreases |calls|
  {
    if calls != [] {
      var c := calls[0];
      MonotoneTail(calls, now);
      StaysHeld(LazyStep(m, c.op, default, c.now).0, calls[1..], default, k, i, c.now, later);
    }
  }

  /** A write that is answered with success, then other calls that do not touch the
      key, the janitor among them, then a lookup: it finds the value exactly until
      the duration in force has passed, and for ever if that is not positive. */
  lemma WriteThenGet<V>(m: Store<V>, write: Call<V>, between: seq<Call<V>>, get: Call<V>, default: int)
    requires Writes(write.op) && LazyStep(m, write.op, default, write.now).1 == Done
    requires Monotone(between, write.now) && 0 <= write.now <= get.now
    requires forall j :: 0 <= j < |between| ==> !Touches(between[j].op, write.op.k) && between[j].now <= get.now
    requires (get.op.Get? || get.op.GetWithExpiration?) && get.op.k == write.op.k
    requires write.now + InForce(write.op.d, default) < 0x8000_0000_0000_0000
    ensures var life := InForce(write.op.d, default);
            var answers := LazyRun(m, [write] + between + [get], default);
            && answers != []
            && answers[|answers| - 1] ==
               if life > 0 && get.now > write.now + life then Missing
               else if get.op.Get? then Found(write.op.x)
               else FoundUntil(write.op.x, if life > 0 then Some(write.now + life) else None)
  {
    var k, life := write.op.k, InForce(write.op.d, default);
    var i := Item(write.op.x, if life > 0 then write.now + life else 0);
    var m1 := LazyStep(m, write.op, default, write.now).0;
    assert m1[k] == i;
    StaysHeld(m1, between, default, k, i, write.now, get.now);
    var m2 := LazyState(m1, between, default);
    RunConcat(m, [write] + between, [get], default);
    assert ([write] + between)[1..] == between;
    assert LazyState(m, [write] + between, default) == m2;
    assert LazyRun(m2, [get], default) == [LazyStep(m2, get.op, default, get.now).1];
  }

  // What the operations answer

  function Lookup<V>(m: Store<V>, k: Key, now: int): Result<V> { LazyStep(m, Op<V>.Get(k), 0, now).1 }

  /** Add succeeds exactly where Get would miss, Replace exactly where it would find
      something; a failure changes nothing. */
  lemma AddReplaceAnswer<V>(m: Store<V>, op: Op<V>, default: int, now: int)
    requires op.Add? || op.Replace?
    ensures var (m', r) := LazyStep(m, op, default, now);
            && (r == Done <==> (Lookup(m, op.k, now) == Missing) == op.Add?)
            && (r != Done ==> r == Error && m' == m)
            && (Lookup(m, op.k, now) == Missing || Lookup(m, op.k, now).Found?)
  {}

  /** Afterwards Delete and Flush have removed what they name and nothing else. */
  lemma DeleteAnswer<V>(m: Store<V>, op: Op<V>, default: int, now: int, k: Key, later: int)
    requires op.Delete? || op.Flush?
    ensures Lookup(LazyStep(m, op, default, now).0, k, later) ==
            if op.Flush? || op.k == k then Missing else Lookup(m, k, later)
  {}

  /** Items lists exactly what Get would find, with its value. */
  lemma ItemsAnswer<V>(m: Store<V>, default: int, now: int, k: Key)
    ensures var r := LazyStep(m, Op<V>.Items, default, now).1;
            r.Listing? && Lookup(m, k, now) == if k in r.live then Found(r.live[k].value) else Missing
  {}

  /** A write, a lookup or a listing does not change what other keys answer, nor
      does the janitor change any key, from then on. */
  lemma OthersKept<V>(m: Store<V>, op: Op<V>, default: int, now: int, k: Key, later: int)
    requires !Touches(op, k) && now <= later
    ensures Lookup(LazyStep(m, op, default, now).0, k, later) == Lookup(m, k, later)
  {}

  // The key hash

  lemma HashOfNothing()
    ensures Hash(0, []) == 5381 && Hash(1, []) == 5382
  {}

  /** The key "abc" under the seed 0x12345678. */
  lemma HashVector()
    ensures Hash(0x12345678, [0x61, 0x62, 0x63]) == 0x70fd289e
  {
    var k: Key := [0x61, 0x62, 0x63];
    assert Length32(k) == 3;
    assert Start(0x12345678, k) == 0x12346b80 by {
      assert 3 as bv32 == (3 as nat) as bv32;
    }
    assert Fold(0x12346b80, k, 1) == Mix(0x12346b80, 0x61) == 0x58c1dbe1;
    assert Fold(0x12346b80, k, 2) == Mix(0x58c1dbe1, 0x62) == 0x70fd5863;
  }

  /** Below 2^32 shards the bucket is the hash modulo their number. */
  lemma BucketIs(seed: bv32, n: nat, k: Key)
    requires 1 <= n < 0x1_0000_0000
    ensures Shardable(n) && Bucket(seed, n, k) == Hash(seed, k) as nat % n
  {
    hide Hash;
  }
}
