/** The expiring cache of pkg/cache/cache.go against a timed map in which items
    vanish at their expiry. Each operation sees one clock reading, now. */
module TimedCache {
  import opened Machine
  import opened Djb33
  import opened Strings

  datatype Item<V> = Item(value: V, expiration: int)

  type Store<V> = map<Key, Item<V>>

  const NO_EXPIRATION: int := -1
  const DEFAULT_EXPIRATION: int := 0

  /** The value of n in an int64. */
  function Int64(n: int): (r: int)
    ensures -TWO63 <= r < TWO63
    ensures -TWO63 <= n < TWO63 ==> r == n
    ensures TWO63 <= n < TWO64 ==> r == n - TWO64
  {
    (n + TWO63) % TWO64 - TWO63
  }

  /** The expiry that set records for duration d: zero means never. */
  function ExpiryFor(d: int, default: int, now: int): int {
    var d' := if d == DEFAULT_EXPIRATION then default else d;
    if d' > 0 then Int64(now + d') else 0
  }

  /** Item.Expired */
  predicate Expired<V>(item: Item<V>, now: int) {
    item.expiration != 0 && now > item.expiration
  }

  /** The copies of Expired that Get, DeleteExpired and Items inline. */
  predicate Stale<V>(item: Item<V>, now: int) {
    item.expiration > 0 && now > item.expiration
  }

  datatype Op<V> =
    | Set(k: Key, x: V, d: int)
    | Add(k: Key, x: V, d: int)
    | Replace(k: Key, x: V, d: int)
    | Get(k: Key)
    | GetWithExpiration(k: Key)
    | Delete(k: Key)
    | DeleteExpired
    | Items
    | Flush

  datatype Result<V> =
    | Done
    | Error
    | Missing
    | Found(x: V)
    | FoundUntil(x: V, until: Option<int>)
    | Listing(live: Store<V>)

  function Live<V>(m: Store<V>, now: int): (l: Store<V>)
    ensures forall k :: k in l <==> k in m && !Stale(m[k], now)
    ensures forall k :: k in l ==> l[k] == m[k]
  {
    map k | k in m && !Stale(m[k], now) :: m[k]
  }

  predicate Present<V>(m: Store<V>, k: Key, now: int) { k in m && !Stale(m[k], now) }

  function Put<V>(m: Store<V>, op: Op<V>, default: int, now: int): Store<V>
    requires op.Set? || op.Add? || op.Replace?
  {
    m[op.k := Item(op.x, ExpiryFor(op.d, default, now))]
  }

  /** One operation of the cache: expired items stay in the map until the
      janitor or an overwrite removes them. */
  function LazyStep<V>(m: Store<V>, op: Op<V>, default: int, now: int): (Store<V>, Result<V>) {
    match op
    case Set(_, _, _) => (Put(m, op, default, now), Done)
    case Add(k, _, _) => if Present(m, k, now) then (m, Error) else (Put(m, op, default, now), Done)
    case Replace(k, _, _) => if Present(m, k, now) then (Put(m, op, default, now), Done) else (m, Error)
    case Get(k) => (m, if Present(m, k, now) then Found(m[k].value) else Missing)
    case GetWithExpiration(k) =>
      (m, if !Present(m, k, now) then Missing
          else FoundUntil(m[k].value, if m[k].expiration > 0 then Some(m[k].expiration) else None))
    case Delete(k) => (m - {k}, Done)
    case DeleteExpired => (Live(m, now), Done)
    case Items => (m, Listing(Live(m, now)))
    case Flush => (map[], Done)
  }

  /** The reference: a timed map that holds live items only and knows no janitor. */
  function TimedStep<V>(m: Store<V>, op: Op<V>, default: int, now: int): (Store<V>, Result<V>) {
    var live := Live(m, now);
    match op
    case Set(k, x, d) => (live[k := Item(x, ExpiryFor(d, default, now))], Done)
    case Add(k, x, d) => if k in live then (live, Error) else (live[k := Item(x, ExpiryFor(d, default, now))], Done)
    case Replace(k, x, d) => if k in live then (live[k := Item(x, ExpiryFor(d, default, now))], Done) else (live, Error)
    case Get(k) => (live, if k in live then Found(live[k].value) else Missing)
    case GetWithExpiration(k) =>
      (live, if k !in live then Missing
             else FoundUntil(live[k].value, if live[k].expiration > 0 then Some(live[k].expiration) else None))
    case Delete(k) => (live - {k}, Done)
    case DeleteExpired => (live, Done)
    case Items => (live, Listing(live))
    case Flush => (map[], Done)
  }

  /** The two stores show the same live items from now on. */
  ghost predicate SameLive<V>(a: Store<V>, b: Store<V>, now: int) { Live(a, now) == Live(b, now) }

  lemma SameLiveLater<V>(a: Store<V>, b: Store<V>, now: int, later: int)
    requires SameLive(a, b, now) && now <= later
    ensures SameLive(a, b, later)
  {
    forall k
      ensures k in Live(a, later) <==> k in Live(b, later)
      ensures k in Live(a, later) ==> Live(a, later)[k] == Live(b, later)[k]
    {
      assert k in Live(a, now) <==> k in Live(b, now);
    }
  }

  lemma LivePut<V>(a: Store<V>, b: Store<V>, k: Key, item: Item<V>, now: int)
    requires SameLive(a, b, now)
    ensures SameLive(a[k := item], Live(b, now)[k := item], now)
  {
    var a', b' := a[k := item], Live(b, now)[k := item];
    assert forall j :: j in Live(a, now) <==> j in Live(b, now);
    assert forall j :: j in Live(a', now) <==> j in Live(b', now);
  }

  lemma LiveDelete<V>(a: Store<V>, b: Store<V>, k: Key, now: int)
    requires SameLive(a, b, now)
    ensures SameLive(a - {k}, Live(b, now) - {k}, now)
  {
    var a', b' := a - {k}, Live(b, now) - {k};
    assert forall j :: j in Live(a, now) <==> j in Live(b, now);
    assert forall j :: j in Live(a', now) <==> j in Live(b', now);
  }

  lemma LiveTwice<V>(b: Store<V>, now: int)
    ensures Live(Live(b, now), now) == Live(b, now)
  {}

  lemma StepAgrees<V>(a: Store<V>, b: Store<V>, op: Op<V>, default: int, now: int)
    requires SameLive(a, b, now)
    ensures LazyStep(a, op, default, now).1 == TimedStep(b, op, default, now).1
    ensures SameLive(LazyStep(a, op, default, now).0, TimedStep(b, op, default, now).0, now)
  {
    LiveTwice(a, now);
    LiveTwice(b, now);
    if op.Set? || op.Add? || op.Replace? {
      LivePut(a, b, op.k, Item(op.x, ExpiryFor(op.d, default, now)), now);
    } else if op.Delete? {
      LiveDelete(a, b, op.k, now);
    }
    if !op.DeleteExpired? && !op.Items? && !op.Flush? {
      assert op.k in Live(a, now) <==> op.k in Live(b, now);
    }
  }

  /** A timed operation. */
  datatype Call<V> = Call(op: Op<V>, now: int)

  ghost predicate Monotone<V>(calls: seq<Call<V>>, now: int) {
    && (forall i :: 0 <= i < |calls| ==> now <= calls[i].now)
    && (forall i, j :: 0 <= i < j < |calls| ==> calls[i].now <= calls[j].now)
  }

  /** The results of a run of the cache, without those of the janitor. */
  function LazyRun<V>(m: Store<V>, calls: seq<Call<V>>, default: int): seq<Result<V>>
    decreases |calls|
  {
    if calls == [] then []
    else
      var (m', r) := LazyStep(m, calls[0].op, default, calls[0].now);
      (if calls[0].op.DeleteExpired? then [] else [r]) + LazyRun(m', calls[1..], default)
  }

  function TimedRun<V>(m: Store<V>, calls: seq<Call<V>>, default: int): seq<Result<V>>
    decreases |calls|
  {
    if calls == [] then []
    else
      var (m', r) := TimedStep(m, calls[0].op, default, calls[0].now);
      [r] + TimedRun(m', calls[1..], default)
  }

  function WithoutJanitor<V>(calls: seq<Call<V>>): seq<Call<V>> {
    if calls == [] then []
    else (if calls[0].op.DeleteExpired? then [] else [calls[0]]) + WithoutJanitor(calls[1..])
  }

  /** Wherever the janitor runs, every other operation answers as the timed map. */
  lemma {:induction false} CacheRefinesTimedMap<V>(a: Store<V>, b: Store<V>, calls: seq<Call<V>>, default: int, now: int)
    requires SameLive(a, b, now) && Monotone(calls, now)
    ensures LazyRun(a, calls, default) == TimedRun(b, WithoutJanitor(calls), default)
    decreases |calls|
  {
    if calls != [] {
      var c := calls[0];
      SameLiveLater(a, b, now, c.now);
      var a' := LazyStep(a, c.op, default, c.now).0;
      MonotoneTail(calls, now);
      if c.op.DeleteExpired? {
        assert SameLive(a', b, c.now) by {
          assert Live(a', c.now) == Live(a, c.now);
        }
        CacheRefinesTimedMap(a', b, calls[1..], default, c.now);
        assert LazyRun(a, calls, default) == LazyRun(a', calls[1..], default);
        assert WithoutJanitor(calls) == WithoutJanitor(calls[1..]);
      } else {
        StepAgrees(a, b, c.op, default, c.now);
        var b' := TimedStep(b, c.op, default, c.now).0;
        CacheRefinesTimedMap(a', b', calls[1..], default, c.now);
        var w := WithoutJanitor(calls);
        assert w[0] == c && w[1..] == WithoutJanitor(calls[1..]);
      }
    }
  }

  lemma MonotoneTail<V>(calls: seq<Call<V>>, now: int)
    requires Monotone(calls, now) && calls != []
    ensures Monotone(calls[1..], calls[0].now)
  {}

  /** Two runs that differ only in where and how often the janitor ran agree. */
  lemma JanitorInvisible<V>(m: Store<V>, calls: seq<Call<V>>, calls': seq<Call<V>>, default: int, now: int)
    requires Monotone(calls, now) && Monotone(calls', now)
    requires WithoutJanitor(calls) == WithoutJanitor(calls')
    ensures LazyRun(m, calls, default) == LazyRun(m, calls', default)
  {
    CacheRefinesTimedMap(m, m, calls, default, now);
    CacheRefinesTimedMap(m, m, calls', default, now);
  }

  /** On an item that set has stored, Expired and its inlined copies agree at
      every later instant exactly if the expiry fits an int64. */
  lemma ExpiredAgreesIff<V>(x: V, d: int, now: int)
    requires 0 <= now < TWO63 && 0 < d < TWO63
    ensures var item := Item(x, ExpiryFor(d, NO_EXPIRATION, now));
            (forall later :: now <= later < TWO63 ==> (Expired(item, later) <==> Stale(item, later)))
            <==> now + d < TWO63
  {
    var item := Item(x, ExpiryFor(d, NO_EXPIRATION, now));
    if now + d >= TWO63 {
      assert Expired(item, now) && !Stale(item, now);
    }
  }

  /** Every stored expiry is zero or positive. */
  ghost predicate NoWrap<V>(m: Store<V>) { forall k :: k in m ==> m[k].expiration >= 0 }

  ghost predicate Fits<V>(c: Call<V>, default: int) {
    0 <= c.now && (c.op.Set? || c.op.Add? || c.op.Replace? ==>
      c.now + (if c.op.d == DEFAULT_EXPIRATION then default else c.op.d) < TWO63)
  }

  function LazyState<V>(m: Store<V>, calls: seq<Call<V>>, default: int): Store<V>
    decreases |calls|
  {
    if calls == [] then m
    else LazyState(LazyStep(m, calls[0].op, default, calls[0].now).0, calls[1..], default)
  }

  /** In every state reached by operations whose expiries fit, the definitions
      of expiry agree on every item. */
  lemma {:induction false} ExpiredAgreesReachable<V>(m: Store<V>, calls: seq<Call<V>>, default: int, k: Key, now: int)
    requires NoWrap(m) && forall i :: 0 <= i < |calls| ==> Fits(calls[i], default)
    ensures var m' := LazyState(m, calls, default);
            NoWrap(m') && (k in m' ==> (Expired(m'[k], now) <==> Stale(m'[k], now)))
    decreases |calls|
  {
    if calls != [] {
      var m1 := LazyStep(m, calls[0].op, default, calls[0].now).0;
      assert Fits(calls[0], default);
      assert NoWrap(m1);
      assert forall i :: 0 <= i < |calls[1..]| ==> calls[1..][i] == calls[i + 1];
      ExpiredAgreesReachable(m1, calls[1..], default, k, now);
    }
  }
}
