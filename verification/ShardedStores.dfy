/** The sharded cache of pkg/cache/sharded.go on values: shards chosen by the
    key hash, against one flat store. */
module ShardedStores {
  import opened Strings
  import opened Djb33
  import opened TimedCache

  /** The modulus uint32(n) is not zero; otherwise every lookup panics. */
  predicate Shardable(n: nat) { n % 0x1_0000_0000 != 0 }

  /** h % uint32(n) */
  function Reduce(h: nat, n: nat): (i: nat)
    requires Shardable(n)
    ensures i < n
  {
    var m := n % 0x1_0000_0000;
    assert 1 <= m <= n;
    h % m
  }

  /** The index of the shard of a key among n. */
  function Bucket(seed: bv32, n: nat, k: Key): (i: nat)
    requires Shardable(n)
    ensures i < n
  {
    Reduce(Hash(seed, k) as nat, n)
  }

  /** A key only ever lives in its own bucket. */
  ghost predicate InBuckets<V>(shards: seq<Store<V>>, seed: bv32) {
    Shardable(|shards|) && forall i, k :: 0 <= i < |shards| && k in shards[i] ==> Bucket(seed, |shards|, k) == i
  }

  /** All shards as one store. */
  function Flat<V>(shards: seq<Store<V>>): Store<V> {
    if shards == [] then map[] else Flat(shards[..|shards| - 1]) + shards[|shards| - 1]
  }

  lemma {:induction false} FlatKeys<V>(shards: seq<Store<V>>, k: Key)
    ensures k in Flat(shards) <==> exists i :: 0 <= i < |shards| && k in shards[i]
  {
    if shards != [] {
      var init := shards[..|shards| - 1];
      FlatKeys(init, k);
      if i :| 0 <= i < |shards| && k in shards[i] {
        if i < |init| {
          assert k in init[i];
        }
      }
    }
  }

  lemma {:induction false} FlatAt<V>(shards: seq<Store<V>>, k: Key, b: nat)
    requires b < |shards| && forall i :: 0 <= i < |shards| && k in shards[i] ==> i == b
    ensures k in Flat(shards) <==> k in shards[b]
    ensures k in Flat(shards) ==> Flat(shards)[k] == shards[b][k]
  {
    FlatKeys(shards, k);
    var n := |shards| - 1;
    if b < n {
      assert k !in shards[n];
      FlatAt(shards[..n], k, b);
    } else {
      assert b == n;
    }
  }

  lemma FlatBucket<V>(shards: seq<Store<V>>, seed: bv32, k: Key)
    requires InBuckets(shards, seed)
    ensures var b := Bucket(seed, |shards|, k);
            (k in Flat(shards) <==> k in shards[b]) && (k in Flat(shards) ==> Flat(shards)[k] == shards[b][k])
  {
    hide Bucket;
    FlatAt(shards, k, Bucket(seed, |shards|, k));
  }

  function LiveAll<V>(shards: seq<Store<V>>, now: int): (r: seq<Store<V>>)
    ensures |r| == |shards|
  {
    seq(|shards|, i requires 0 <= i < |shards| => Live(shards[i], now))
  }

  function Empty<V>(n: nat): (r: seq<Store<V>>)
    ensures |r| == n
  {
    seq(n, _ => map[])
  }

  predicate Keyed<V>(op: Op<V>) { !op.DeleteExpired? && !op.Items? && !op.Flush? }

  /** One operation of the sharded cache. */
  function ShardStep<V>(shards: seq<Store<V>>, op: Op<V>, seed: bv32, default: int, now: int)
    : (out: (seq<Store<V>>, Result<V>))
    requires Keyed(op) ==> Shardable(|shards|)
    ensures |out.0| == |shards|
  {
    if Keyed(op) then
      var b := Bucket(seed, |shards|, op.k);
      var (m, r) := LazyStep(shards[b], op, default, now);
      (shards[b := m], r)
    else if op.DeleteExpired? then (LiveAll(shards, now), Done)
    else if op.Items? then (shards, Listing(Flat(LiveAll(shards, now))))
    else (Empty(|shards|), Done)
  }

  /** A keyed operation touches its key only. */
  lemma KeyedStep<V>(m: Store<V>, op: Op<V>, default: int, now: int)
    requires Keyed(op)
    ensures var m' := LazyStep(m, op, default, now).0;
            forall k :: k != op.k ==> (k in m' <==> k in m) && (k in m ==> m'[k] == m[k])
  {}

  /** A keyed operation depends on its key only. */
  lemma KeyedLocal<V>(m: Store<V>, w: Store<V>, op: Op<V>, default: int, now: int)
    requires Keyed(op) && (op.k in m <==> op.k in w) && (op.k in m ==> m[op.k] == w[op.k])
    ensures var (m', r) := LazyStep(m, op, default, now); var (w', q) := LazyStep(w, op, default, now);
            r == q && (op.k in m' <==> op.k in w') && (op.k in m' ==> m'[op.k] == w'[op.k])
  {}

  lemma KeyedAgrees<V>(shards: seq<Store<V>>, op: Op<V>, seed: bv32, default: int, now: int)
    requires InBuckets(shards, seed) && Keyed(op)
    ensures var (shards', r) := ShardStep(shards, op, seed, default, now);
            InBuckets(shards', seed) && LazyStep(Flat(shards), op, default, now) == (Flat(shards'), r)
  {
    hide Bucket, Flat, LazyStep;
    var b := Bucket(seed, |shards|, op.k);
    var (shards', r) := ShardStep(shards, op, seed, default, now);
    var (flat', q) := LazyStep(Flat(shards), op, default, now);
    FlatBucket(shards, seed, op.k);
    KeyedStep(shards[b], op, default, now);
    KeyedStep(Flat(shards), op, default, now);
    KeyedLocal(Flat(shards), shards[b], op, default, now);
    forall i, k | 0 <= i < |shards'| && k in shards'[i]
      ensures Bucket(seed, |shards'|, k) == i
    {
      if i == b && k != op.k {
        assert k in shards[b];
      }
    }
    forall k
      ensures k in flat' <==> k in Flat(shards')
      ensures k in flat' ==> flat'[k] == Flat(shards')[k]
    {
      FlatBucket(shards, seed, k);
      FlatBucket(shards', seed, k);
    }
    assert flat' == Flat(shards');
  }

  lemma LiveAgrees<V>(shards: seq<Store<V>>, seed: bv32, now: int)
    requires InBuckets(shards, seed)
    ensures InBuckets(LiveAll(shards, now), seed)
    ensures Flat(LiveAll(shards, now)) == Live(Flat(shards), now)
  {
    hide Bucket, Flat;
    var r := LiveAll(shards, now);
    assert forall i, k :: 0 <= i < |r| && k in r[i] ==> k in shards[i];
    forall k
      ensures k in Flat(r) <==> k in Live(Flat(shards), now)
      ensures k in Flat(r) ==> Flat(r)[k] == Flat(shards)[k]
    {
      FlatBucket(shards, seed, k);
      FlatBucket(r, seed, k);
    }
    assert Flat(r) == Live(Flat(shards), now);
  }

  lemma {:induction false} FlatEmpty<V>(n: nat)
    ensures Flat(Empty<V>(n)) == map[]
  {
    forall k
      ensures k !in Flat(Empty<V>(n))
    {
      FlatKeys(Empty<V>(n), k);
    }
  }

  /** One step of the sharded cache is one step of the flat cache. */
  lemma ShardStepAgrees<V>(shards: seq<Store<V>>, op: Op<V>, seed: bv32, default: int, now: int)
    requires InBuckets(shards, seed)
    ensures var (shards', r) := ShardStep(shards, op, seed, default, now);
            InBuckets(shards', seed) && LazyStep(Flat(shards), op, default, now) == (Flat(shards'), r)
  {
    hide Bucket, Flat;
    if Keyed(op) {
      KeyedAgrees(shards, op, seed, default, now);
    } else {
      LiveAgrees(shards, seed, now);
      FlatEmpty<V>(|shards|);
    }
  }

  function FlatRun<V>(m: Store<V>, calls: seq<Call<V>>, default: int): seq<Result<V>>
    decreases |calls|
  {
    if calls == [] then []
    else
      var (m', r) := LazyStep(m, calls[0].op, default, calls[0].now);
      [r] + FlatRun(m', calls[1..], default)
  }

  function ShardedRun<V>(shards: seq<Store<V>>, calls: seq<Call<V>>, seed: bv32, default: int): seq<Result<V>>
    requires Shardable(|shards|)
    decreases |calls|
  {
    if calls == [] then []
    else
      var (shards', r) := ShardStep(shards, calls[0].op, seed, default, calls[0].now);
      [r] + ShardedRun(shards', calls[1..], seed, default)
  }

  /** Any sequence of operations answers the same on n shards as on one cache. */
  lemma {:induction false} ShardedIsFlat<V>(shards: seq<Store<V>>, calls: seq<Call<V>>, seed: bv32, default: int)
    requires Shardable(|shards|) && InBuckets(shards, seed)
    ensures ShardedRun(shards, calls, seed, default) == FlatRun(Flat(shards), calls, default)
    decreases |calls|
  {
    hide InBuckets, Flat, ShardStep, LazyStep;
    if calls != [] {
      var c := calls[0];
      ShardStepAgrees(shards, c.op, seed, default, c.now);
      ShardedIsFlat(ShardStep(shards, c.op, seed, default, c.now).0, calls[1..], seed, default);
    }
  }

  /** From newly made, empty shards. */
  lemma NewShardedIsFlat<V>(n: nat, calls: seq<Call<V>>, seed: bv32, default: int)
    requires Shardable(n)
    ensures ShardedRun(Empty<V>(n), calls, seed, default) == FlatRun(map[], calls, default)
  {
    hide Bucket;
    FlatEmpty<V>(n);
    ShardedIsFlat(Empty<V>(n), calls, seed, default);
  }

  // Every number of shards

  /** One operation for every number of shards: None is the panic of a keyed
      operation that divides by the modulus zero. */
  function TotalStep<V>(shards: seq<Store<V>>, op: Op<V>, seed: bv32, default: int, now: int)
    : (out: (seq<Store<V>>, Option<Result<V>>))
    ensures |out.0| == |shards|
  {
    if Keyed(op) && !Shardable(|shards|) then (shards, None)
    else
      var (shards', r) := ShardStep(shards, op, seed, default, now);
      (shards', Some(r))
  }

  /** The answers of a run, or None if it panics. */
  function TotalRun<V>(shards: seq<Store<V>>, calls: seq<Call<V>>, seed: bv32, default: int): Option<seq<Result<V>>>
    decreases |calls|
  {
    if calls == [] then Some([])
    else
      var (shards', r) := TotalStep(shards, calls[0].op, seed, default, calls[0].now);
      var rest := TotalRun(shards', calls[1..], seed, default);
      if r.None? || rest.None? then None else Some([r.value] + rest.value)
  }

  lemma {:induction false} ShardableRun<V>(shards: seq<Store<V>>, calls: seq<Call<V>>, seed: bv32, default: int)
    requires Shardable(|shards|)
    ensures TotalRun(shards, calls, seed, default) == Some(ShardedRun(shards, calls, seed, default))
    decreases |calls|
  {
    hide ShardStep;
    if calls != [] {
      ShardableRun(ShardStep(shards, calls[0].op, seed, default, calls[0].now).0, calls[1..], seed, default);
    }
  }

  ghost predicate AnyKeyed<V>(calls: seq<Call<V>>) { exists i :: 0 <= i < |calls| && Keyed(calls[i].op) }

  lemma AnyKeyedCons<V>(calls: seq<Call<V>>)
    requires calls != []
    ensures AnyKeyed(calls) <==> Keyed(calls[0].op) || AnyKeyed(calls[1..])
  {
    if AnyKeyed(calls) && !Keyed(calls[0].op) {
      var i :| 0 <= i < |calls| && Keyed(calls[i].op);
      assert Keyed(calls[1..][i - 1].op);
    }
    if AnyKeyed(calls[1..]) {
      var i :| 0 <= i < |calls[1..]| && Keyed(calls[1..][i].op);
      assert Keyed(calls[i + 1].op);
    }
  }

  /** Dropping expired items, for every number of shards. */
  lemma LiveShards<V>(shards: seq<Store<V>>, seed: bv32, now: int)
    requires if Shardable(|shards|) then InBuckets(shards, seed) else shards == Empty<V>(|shards|)
    ensures var live := LiveAll(shards, now);
            && (if Shardable(|live|) then InBuckets(live, seed) else live == Empty<V>(|live|))
            && Flat(live) == Live(Flat(shards), now)
  {
    hide Shardable, InBuckets;
    if Shardable(|shards|) {
      LiveAgrees(shards, seed, now);
    } else {
      FlatEmpty<V>(|shards|);
      assert LiveAll(shards, now) == shards;
      assert Live<V>(map[], now) == map[];
    }
  }

  /** With the modulus zero a run panics at its first keyed operation; the others
      find the shards empty, as on the flat cache. */
  lemma {:induction false} UnshardableRun<V>(n: nat, calls: seq<Call<V>>, seed: bv32, default: int)
    requires !Shardable(n)
    ensures TotalRun(Empty<V>(n), calls, seed, default) ==
            if AnyKeyed(calls) then None else Some(FlatRun(map[], calls, default))
    decreases |calls|
  {
    hide Shardable;
    if calls != [] {
      var c := calls[0];
      AnyKeyedCons(calls);
      if !Keyed(c.op) {
        FlatEmpty<V>(n);
        assert LiveAll(Empty<V>(n), c.now) == Empty<V>(n);
        assert Live<V>(map[], c.now) == map[];
        UnshardableRun<V>(n, calls[1..], seed, default);
      }
    }
  }

  /** The answers on n new shards are those on one cache, or a panic exactly if
      uint32(n) is zero and some operation has a key. */
  lemma NewTotalRun<V>(n: nat, calls: seq<Call<V>>, seed: bv32, default: int)
    ensures TotalRun(Empty<V>(n), calls, seed, default) ==
            if !Shardable(n) && AnyKeyed(calls) then None else Some(FlatRun(map[], calls, default))
  {
    hide Shardable, TotalRun, FlatRun;
    if Shardable(n) {
      ShardableRun(Empty<V>(n), calls, seed, default);
      NewShardedIsFlat(n, calls, seed, default);
    } else {
      UnshardableRun(n, calls, seed, default);
    }
  }

  /** The sharded cache answers every run as one cache exactly if uint32(n) is
      not zero. */
  lemma ShardedIsFlatIff<V>(n: nat, seed: bv32, default: int)
    ensures (forall calls: seq<Call<V>> :: TotalRun(Empty<V>(n), calls, seed, default) == Some(FlatRun(map[], calls, default)))
        <==> Shardable(n)
  {
    hide Shardable, TotalRun, FlatRun;
    forall calls: seq<Call<V>>
      ensures TotalRun(Empty<V>(n), calls, seed, default) ==
              if !Shardable(n) && AnyKeyed(calls) then None else Some(FlatRun(map[], calls, default))
    {
      NewTotalRun(n, calls, seed, default);
    }
    var lookup: seq<Call<V>> := [Call(Get([]), 0)];
    assert Keyed(lookup[0].op);
    assert AnyKeyed(lookup);
    assert !Shardable(n) ==> TotalRun(Empty<V>(n), lookup, seed, default) == None;
  }
}
