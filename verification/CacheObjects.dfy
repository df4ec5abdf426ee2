/** The cache objects of pkg/cache: methods that update the items in place, each
    proved to be one step of the value-level cache. */
module CacheObjects {
  import opened Djb33
  import opened Strings
  import opened TimedCache
  import opened ShardedStores

  class Cache<V> {
    const defaultExpiration: int
    var items: Store<V>
    var onEvicted: bool // whether an eviction callback is set

    /** newCache */
    constructor (de: int)
      ensures items == map[] && !onEvicted
      ensures defaultExpiration == if de == 0 then NO_EXPIRATION else de
    {
      defaultExpiration := if de == 0 then -1 else de;
      items := map[];
      onEvicted := false;
    }

    method Set(k: Key, x: V, d: int, now: int)
      modifies this`items
      ensures items == LazyStep(old(items), Op.Set(k, x, d), defaultExpiration, now).0
    {
      var e := 0;
      var d' := d;
      if d' == DEFAULT_EXPIRATION {
        d' := defaultExpiration;
      }
      if d' > 0 {
        e := Int64(now + d');
      }
      items := items[k := Item(x, e)];
    }

    method Get(k: Key, now: int) returns (r: Result<V>)
      ensures (items, r) == LazyStep(items, Op.Get(k), defaultExpiration, now)
    {
      if k !in items {
        return Missing;
      }
      if items[k].expiration > 0 {
        if now > items[k].expiration {
          return Missing;
        }
      }
      return Found(items[k].value);
    }

    method GetWithExpiration(k: Key, now: int) returns (r: Result<V>)
      ensures (items, r) == LazyStep(items, Op.GetWithExpiration(k), defaultExpiration, now)
    {
      if k !in items {
        return Missing;
      }
      if items[k].expiration > 0 {
        if now > items[k].expiration {
          return Missing;
        }
        return FoundUntil(items[k].value, Some(items[k].expiration));
      }
      return FoundUntil(items[k].value, None);
    }

    method Add(k: Key, x: V, d: int, now: int) returns (r: Result<V>)
      modifies this`items
      ensures (items, r) == LazyStep(old(items), Op.Add(k, x, d), defaultExpiration, now)
    {
      var g := Get(k, now);
      if g.Found? {
        return Error;
      }
      Set(k, x, d, now);
      return Done;
    }

    method Replace(k: Key, x: V, d: int, now: int) returns (r: Result<V>)
      modifies this`items
      ensures (items, r) == LazyStep(old(items), Op.Replace(k, x, d), defaultExpiration, now)
    {
      var g := Get(k, now);
      if !g.Found? {
        return Error;
      }
      Set(k, x, d, now);
      return Done;
    }

    /** delete, with the value to report when a callback is set. */
    method Delete(k: Key) returns (evicted: Option<V>)
      modifies this`items
      ensures items == old(items) - {k}
      ensures evicted == if onEvicted && k in old(items) then Some(old(items)[k].value) else None
    {
      evicted := None;
      if onEvicted {
        if k in items {
          evicted := Some(items[k].value);
        }
      }
      items := items - {k};
    }

    /** DeleteExpired visits the keys in any order and deletes as it goes; every
        deleted item is reported exactly once when a callback is set. */
    method DeleteExpired(now: int) returns (evicted: seq<(Key, V)>)
      modifies this`items
      ensures items == LazyStep(old(items), Op<V>.DeleteExpired, defaultExpiration, now).0
      ensures !onEvicted ==> evicted == []
      ensures onEvicted ==> |evicted| == |old(items).Keys - items.Keys|
      ensures onEvicted ==>
                forall k :: k in old(items) && k !in items ==> (k, old(items)[k].value) in evicted
    {
      evicted := [];
      var todo := items.Keys;
      while todo != {}
        invariant todo <= items.Keys <= old(items).Keys
        invariant forall k :: k in items ==> items[k] == old(items)[k]
        invariant forall k :: k in old(items) && k !in todo ==> (k in items <==> !Stale(old(items)[k], now))
        invariant !onEvicted ==> evicted == []
        invariant onEvicted ==> |evicted| == |old(items).Keys - items.Keys|
        invariant onEvicted ==>
                    forall k :: k in old(items) && k !in items ==> (k, old(items)[k].value) in evicted
        decreases todo
      {
        var k :| k in todo;
        todo := todo - {k};
        if items[k].expiration > 0 && now > items[k].expiration {
          ghost var gone := old(items).Keys - items.Keys;
          var ov := Delete(k);
          assert old(items).Keys - items.Keys == gone + {k};
          if ov.Some? {
            evicted := evicted + [(k, ov.value)];
          }
        }
      }
      assert items == Live(old(items), now);
    }

    method Items(now: int) returns (m: Store<V>)
      ensures (items, Listing(m)) == LazyStep(items, Op<V>.Items, defaultExpiration, now)
    {
      m := map[];
      var todo := items.Keys;
      while todo != {}
        invariant todo <= items.Keys
        invariant forall k :: k in m <==> k in items && k !in todo && !Stale(items[k], now)
        invariant forall k :: k in m ==> m[k] == items[k]
        decreases todo
      {
        var k :| k in todo;
        todo := todo - {k};
        if items[k].expiration > 0 {
          if now > items[k].expiration {
            continue;
          }
        }
        m := m[k := items[k]];
      }
      assert m == Live(items, now);
    }

    method Flush()
      modifies this`items
      ensures items == LazyStep(old(items), Op<V>.Flush, defaultExpiration, 0).0
    {
      items := map[];
    }
  }

  class ShardedCache<V> {
    const seed: bv32
    const cs: seq<Cache<V>>
    const defaultExpiration: int

    /** newShardedCache with n empty shards, for every n */
    constructor (n: nat, seed: bv32, de: int)
      ensures Valid() && Shards() == Empty<V>(n) && this.seed == seed && fresh(cs)
    {
      hide Bucket;
      var list: seq<Cache<V>> := [];
      for i := 0 to n
        invariant |list| == i && fresh(list)
        invariant forall j, k :: 0 <= j < k < i ==> list[j] != list[k]
        invariant forall j :: 0 <= j < i ==>
                    list[j].items == map[] && list[j].defaultExpiration == if de == 0 then NO_EXPIRATION else de
      {
        var c := new Cache<V>(de);
        list := list + [c];
      }
      this.seed := seed;
      cs := list;
      defaultExpiration := if de == 0 then -1 else de;
      new;
      assert Shards() == Empty<V>(n);
    }

    ghost predicate Valid()
      reads this, cs
    {
      && (forall i, j :: 0 <= i < j < |cs| ==> cs[i] != cs[j])
      && (forall i :: 0 <= i < |cs| ==> cs[i].defaultExpiration == defaultExpiration)
      && (if Shardable(|cs|) then InBuckets(Shards(), seed) else Shards() == Empty<V>(|cs|))
    }

    ghost function Shards(): (s: seq<Store<V>>)
      reads this, cs
      ensures |s| == |cs|
    {
      seq(|cs|, i requires 0 <= i < |cs| reads this, cs => cs[i].items)
    }

    /** bucket: the index of the shard of a key, or None for the panic of a
        division by zero. */
    method BucketOf(k: Key) returns (i: Option<nat>)
      ensures i.Some? <==> Shardable(|cs|)
      ensures i.Some? ==> i.value == Bucket(seed, |cs|, k)
    {
      var h := Unrolled(seed, k);
      if |cs| % 0x1_0000_0000 == 0 {
        return None;
      }
      i := Some(Reduce(h as nat, |cs|));
    }

    method Set(k: Key, x: V, d: int, now: int) returns (r: Option<Result<V>>)
      requires Valid()
      modifies cs
      ensures Valid() && (Shards(), r) == TotalStep(old(Shards()), Op.Set(k, x, d), seed, defaultExpiration, now)
    {
      hide Bucket, Shardable, InBuckets;
      var b := BucketOf(k);
      if b.None? {
        return None;
      }
      KeyedAgrees(Shards(), Op.Set(k, x, d), seed, defaultExpiration, now);
      cs[b.value].Set(k, x, d, now);
      r := Some(Done);
      assert Shards() == ShardStep(old(Shards()), Op.Set(k, x, d), seed, defaultExpiration, now).0;
    }

    method Add(k: Key, x: V, d: int, now: int) returns (r: Option<Result<V>>)
      requires Valid()
      modifies cs
      ensures Valid() && (Shards(), r) == TotalStep(old(Shards()), Op.Add(k, x, d), seed, defaultExpiration, now)
    {
      hide Bucket, LazyStep, Shardable, InBuckets;
      var b := BucketOf(k);
      if b.None? {
        return None;
      }
      KeyedAgrees(Shards(), Op.Add(k, x, d), seed, defaultExpiration, now);
      var answer := cs[b.value].Add(k, x, d, now);
      r := Some(answer);
      assert Shards() == ShardStep(old(Shards()), Op.Add(k, x, d), seed, defaultExpiration, now).0;
    }

    method Replace(k: Key, x: V, d: int, now: int) returns (r: Option<Result<V>>)
      requires Valid()
      modifies cs
      ensures Valid() && (Shards(), r) == TotalStep(old(Shards()), Op.Replace(k, x, d), seed, defaultExpiration, now)
    {
      hide Bucket, LazyStep, Shardable, InBuckets;
      var b := BucketOf(k);
      if b.None? {
        return None;
      }
      KeyedAgrees(Shards(), Op.Replace(k, x, d), seed, defaultExpiration, now);
      var answer := cs[b.value].Replace(k, x, d, now);
      r := Some(answer);
      assert Shards() == ShardStep(old(Shards()), Op.Replace(k, x, d), seed, defaultExpiration, now).0;
    }

    method Get(k: Key, now: int) returns (r: Option<Result<V>>)
      requires Valid()
      ensures (Shards(), r) == TotalStep(Shards(), Op.Get(k), seed, defaultExpiration, now)
    {
      hide Bucket, Shardable, InBuckets;
      var b := BucketOf(k);
      if b.None? {
        return None;
      }
      var answer := cs[b.value].Get(k, now);
      r := Some(answer);
      assert Shards()[b.value := cs[b.value].items] == Shards();
    }

    method Delete(k: Key) returns (r: Option<Result<V>>)
      requires Valid()
      modifies cs
      ensures Valid() && (Shards(), r) == TotalStep(old(Shards()), Op<V>.Delete(k), seed, defaultExpiration, 0)
    {
      hide Bucket, Shardable, InBuckets;
      var b := BucketOf(k);
      if b.None? {
        return None;
      }
      KeyedAgrees(Shards(), Op<V>.Delete(k), seed, defaultExpiration, 0);
      var evicted := cs[b.value].Delete(k);
      r := Some(Done);
      assert Shards() == ShardStep(old(Shards()), Op<V>.Delete(k), seed, defaultExpiration, 0).0;
    }

    method DeleteExpired(now: int)
      requires Valid()
      modifies cs
      ensures Valid() && Shards() == TotalStep(old(Shards()), Op<V>.DeleteExpired, seed, defaultExpiration, now).0
    {
      hide Bucket, InBuckets;
      LiveShards(Shards(), seed, now);
      for i := 0 to |cs|
        invariant forall j :: 0 <= j < i ==> cs[j].items == Live(old(cs[j].items), now)
        invariant forall j :: i <= j < |cs| ==> cs[j].items == old(cs[j].items)
      {
        var evicted := cs[i].DeleteExpired(now);
      }
      assert Shards() == LiveAll(old(Shards()), now);
    }

    method Flush()
      requires Valid()
      modifies cs
      ensures Valid() && Shards() == TotalStep(old(Shards()), Op<V>.Flush, seed, defaultExpiration, 0).0
    {
      hide Bucket;
      for i := 0 to |cs|
        invariant forall j :: 0 <= j < i ==> cs[j].items == map[]
      {
        cs[i].Flush();
      }
      assert Shards() == Empty<V>(|cs|);
    }

    /** Items: one map per shard; together they are the flat listing. */
    method Items(now: int) returns (r: seq<Store<V>>)
      requires Valid()
      ensures r == LiveAll(Shards(), now)
      ensures Flat(r) == Live(Flat(Shards()), now)
    {
      hide Bucket, InBuckets, Flat;
      r := [];
      for i := 0 to |cs|
        invariant |r| == i && forall j :: 0 <= j < i ==> r[j] == Live(cs[j].items, now)
      {
        var m := cs[i].Items(now);
        r := r + [m];
      }
      LiveShards(Shards(), seed, now);
      assert r == LiveAll(Shards(), now);
    }
  }
}
