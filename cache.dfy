/**
 * The sharded cache of pkg/gzcache/cache.go (`CacheNode`): a power-of-two
 * number of shards, a key routed to the shard selected by the low bits of
 * its hash, and the cache-wide operations that visit every shard.
 *
 * The seeded `maphash` of a key is the function `hash`, fixed when the
 * cache is built; the background cleaner goroutine is represented by the
 * flag it sets and by `CleanExpired`, the operation its ticker runs.
 */
module Gzcache {
  import opened Wrappers
  import opened CacheSpec
  import opened CacheShard
  import RandomHelpers
  import Sequences

  /** `defaultShardCount` */
  const DefaultShardCount := 256

  /** `a & b` on non-negative integers, bit by bit from the lowest. */
  function BitAnd(a: nat, b: nat): (r: nat)
    ensures r <= a && r <= b
  {
    if a == 0 || b == 0 then 0
    else 2 * BitAnd(a / 2, b / 2) + (if a % 2 == 1 && b % 2 == 1 then 1 else 0)
  }

  function Pow2(k: nat): (r: nat)
    ensures r > 0
  {
    if k == 0 then 1 else 2 * Pow2(k - 1)
  }

  /** The exponent of the highest power of two not above `n`. */
  function Log2(n: nat): nat
    requires n > 0
  {
    if n == 1 then 0 else 1 + Log2(n / 2)
  }

  /** `isPowerOfTwo`: `n > 0 && n & (n - 1) == 0`. */
  predicate IsPowerOfTwo(n: int)
    ensures IsPowerOfTwo(n) ==> n == 1 || (n > 0 && n % 2 == 0)
  {
    OddBitAnd(n);
    n > 0 && BitAnd(n, n - 1) == 0
  }

  /** An odd number above one shares its upper bits with its predecessor. */
  lemma OddBitAnd(n: int)
    ensures n > 1 && n % 2 == 1 ==> BitAnd(n, n - 1) == 2 * (n / 2) > 0
  {
    if n > 1 && n % 2 == 1 {
      assert (n - 1) / 2 == n / 2 && (n - 1) % 2 == 0;
      BitAndSelf(n / 2);
    }
  }

  lemma BitAndSelf(a: nat)
    ensures BitAnd(a, a) == a
  {
  }

  /** The bit test accepts exactly the powers of two. */
  lemma {:induction false} PowerOfTwoIff(n: int)
    ensures IsPowerOfTwo(n) <==> n > 0 && n == Pow2(Log2(n))
    decreases if n > 0 then n else 0
  {
    if n > 1 {
      var m := n / 2;
      PowerOfTwoIff(m);
      if n % 2 == 0 {
        assert (n - 1) / 2 == m - 1 && (n - 1) % 2 == 1;
        assert BitAnd(n, n - 1) == 2 * BitAnd(m, m - 1);
      } else {
        assert (n - 1) / 2 == m && (n - 1) % 2 == 0;
        BitAndSelf(m);
        assert BitAnd(n, n - 1) == 2 * m;
        assert Pow2(Log2(n)) == 2 * Pow2(Log2(m));
      }
    }
  }

  /** With `count` a power of two, `h & (count - 1)` is `h` modulo `count`: the low bits of the hash pick the shard. */
  lemma {:induction false} MaskIsModulo(h: nat, k: nat)
    ensures BitAnd(h, Pow2(k) - 1) == h % Pow2(k)
  {
    if k == 0 {
      assert BitAnd(h, 0) == 0;
    } else if h == 0 {
      assert BitAnd(0, Pow2(k) - 1) == 0;
    } else {
      var p := Pow2(k - 1);
      var m := 2 * p - 1;
      assert Pow2(k) == 2 * p;
      ModUnique(m, 2, p - 1, 1);
      MaskIsModulo(h / 2, k - 1);
      DivModPair(h, p);
      calc {
        BitAnd(h, m);
        2 * BitAnd(h / 2, p - 1) + h % 2;
        2 * ((h / 2) % p) + h % 2;
        h % (2 * p);
      }
    }
  }

  lemma DivModPair(h: nat, p: nat)
    requires p > 0
    ensures h % (2 * p) == 2 * ((h / 2) % p) + h % 2
  {
    var q, r := (h / 2) / p, (h / 2) % p;
    assert h / 2 == p * q + r;
    assert h == (2 * p) * q + (2 * r + h % 2);
    ModUnique(h, 2 * p, q, 2 * r + h % 2);
  }

  /** Quotient and remainder are the only pair with `a == d * q + r` and `0 <= r < d`. */
  lemma ModUnique(a: int, d: int, q: int, r: int)
    requires d > 0 && 0 <= r < d && a == d * q + r
    ensures a / d == q && a % d == r
  {
    var q0, r0 := a / d, a % d;
    assert d * (q - q0) == r0 - r;
    MulBoundZero(d, q - q0);
  }

  lemma MulBoundZero(d: int, x: int)
    requires d > 0 && -d < d * x < d
    ensures x == 0
  {
  }

  /** Go's `/` on `int`: the quotient truncated toward zero. */
  function TruncDiv(a: int, b: int): (q: int)
    requires b > 0
    ensures a >= 0 ==> q == a / b
    ensures a < 0 ==> q == -((-a) / b)
  {
    if a >= 0 then a / b else -((-a) / b)
  }

  /** Doubling a power of two gives a power of two. */
  lemma PowerOfTwoDouble(m: nat)
    requires IsPowerOfTwo(m)
    ensures IsPowerOfTwo(2 * m)
  {
    assert (2 * m - 1) / 2 == m - 1 && (2 * m - 1) % 2 == 1;
    assert BitAnd(2 * m, 2 * m - 1) == 2 * BitAnd(m, m - 1);
  }

  lemma DefaultIsPowerOfTwo()
    ensures IsPowerOfTwo(DefaultShardCount)
  {
    assert IsPowerOfTwo(1);
    PowerOfTwoDouble(1);
    PowerOfTwoDouble(2);
    PowerOfTwoDouble(4);
    PowerOfTwoDouble(8);
    PowerOfTwoDouble(16);
    PowerOfTwoDouble(32);
    PowerOfTwoDouble(64);
    PowerOfTwoDouble(128);
  }

  /** The shard count `New` settles on. */
  function ShardCount(shardCount: int): (n: int)
    ensures IsPowerOfTwo(n)
    ensures IsPowerOfTwo(shardCount) ==> n == shardCount
    ensures !IsPowerOfTwo(shardCount) ==> n == DefaultShardCount
  {
    DefaultIsPowerOfTwo();
    if IsPowerOfTwo(shardCount) then shardCount else DefaultShardCount
  }

  /**
   * The per-shard capacity `(capacity + count - 1) / count` on Go's 64-bit
   * `int`: the sum wraps around, and the division truncates toward zero.
   */
  function ShardCapacity(capacity: int, count: int): (c: int)
    requires count > 0
    ensures RandomHelpers.MinInt64 <= c <= RandomHelpers.MaxInt64
  {
    TruncDiv(RandomHelpers.Wrap64(capacity + count - 1), count)
  }

  /**
   * Where the sum does not overflow, the capacity is rounded up per shard:
   * an unbounded cache (capacity <= 0) gets unbounded shards, a bounded one
   * gets shards whose capacities add up to at least the requested total and
   * exceed it by less than one per shard.
   */
  lemma ShardCapacityBounds(capacity: int, count: int)
    requires count > 0
    requires RandomHelpers.MinInt64 <= capacity && capacity + count - 1 <= RandomHelpers.MaxInt64
    ensures ShardCapacity(capacity, count) > 0 <==> capacity > 0
    ensures capacity > 0 ==> capacity <= count * ShardCapacity(capacity, count) < capacity + count
  {
    assert RandomHelpers.Wrap64(capacity + count - 1) == capacity + count - 1;
    RoundUpBounds(capacity, count);
  }

  /** Rounding up by `(capacity + count - 1) / count`, on unbounded integers. */
  lemma RoundUpBounds(capacity: int, count: int)
    requires count > 0
    ensures TruncDiv(capacity + count - 1, count) > 0 <==> capacity > 0
    ensures capacity > 0 ==> capacity <= count * TruncDiv(capacity + count - 1, count) < capacity + count
  {
    if capacity > 0 {
      var a := capacity + count - 1;
      assert a == count * (a / count) + a % count;
    } else if capacity + count - 1 >= 0 {
      assert capacity + count - 1 < count;
    }
  }

  /**
   * Within `count - 1` of the largest `int` the sum wraps around: such a
   * bounded request gives every shard a negative capacity, so the shards,
   * and the cache, are unbounded.
   */
  lemma ShardCapacityWraps(capacity: int, count: int)
    requires 2 <= count <= 0x4000_0000_0000_0000
    requires RandomHelpers.MaxInt64 - count + 1 < capacity <= RandomHelpers.MaxInt64
    ensures capacity > 0 && ShardCapacity(capacity, count) < 0
  {
    var w := RandomHelpers.Wrap64(capacity + count - 1);
    assert w == capacity + count - 1 - 0x1_0000_0000_0000_0000;
    assert -w >= count;
    assert (-w) / count >= 1;
  }

  /** `CacheNode` */
  class Cache<V> {
    const shards: seq<Shard<V>>
    /** `shardMask` */
    const mask: nat
    /** `maphash` under the cache's seed. */
    const hash: string -> nat
    /** `onEvict`, shared by the shards through `parent`. */
    const hook: EvictHook<V>
    const cleanInterval: int
    var cleanerRunning: bool

    /** `getShard`: the index of the shard `key` belongs to. */
    function ShardOf(key: string): (i: nat)
      ensures i <= mask
    {
      BitAnd(hash(key), mask)
    }

    /**
     * The cache invariant: a power-of-two number of distinct shards, the
     * mask one less, every shard valid and sharing the callback, and every
     * key stored in the shard it is routed to.
     */
    ghost predicate Valid()
      reads this, shards
    {
      && IsPowerOfTwo(|shards|) && mask == |shards| - 1
      && (forall i, j | 0 <= i < j < |shards| :: shards[i] != shards[j])
      && (forall i | 0 <= i < |shards| :: shards[i].hook == hook && shards[i].Valid())
      && (forall i, k | 0 <= i < |shards| && k in shards[i].items :: ShardOf(k) == i)
    }

    /** Each shard's entries, in recency order, shard by shard. */
    ghost function Contents(): seq<seq<Entry<V>>>
      reads this, shards
    {
      seq(|shards|, i requires 0 <= i < |shards| reads shards => shards[i].entries)
    }

    /** `New(capacity, shardCount, cleanInterval)`, with the seeded hash as `hash`. */
    constructor (capacity: int, shardCount: int, cleanInterval: int, hash: string -> nat)
      ensures Valid() && |shards| == ShardCount(shardCount) && this.hash == hash
      ensures forall i | 0 <= i < |shards| :: shards[i].entries == [] && shards[i].capacity == ShardCapacity(capacity, |shards|)
      ensures !hook.installed && hook.calls == []
      ensures cleanerRunning <==> cleanInterval > 0
    {
      var count := ShardCount(shardCount);
      var shardCap := ShardCapacity(capacity, count);
      var h := new EvictHook();
      var ss: seq<Shard<V>> := [];
      while |ss| < count
        invariant |ss| <= count
        invariant forall i | 0 <= i < |ss| :: fresh(ss[i]) && ss[i].Valid() && ss[i].entries == [] && ss[i].capacity == shardCap && ss[i].hook == h
        invariant forall i, j | 0 <= i < j < |ss| :: ss[i] != ss[j]
        invariant !h.installed && h.calls == []
      {
        var s := new Shard(shardCap, h);
        ss := ss + [s];
      }
      shards := ss;
      mask := count - 1;
      this.hash := hash;
      hook := h;
      this.cleanInterval := cleanInterval;
      cleanerRunning := cleanInterval > 0;
    }

    lemma ShardOfInRange(key: string)
      requires Valid()
      ensures ShardOf(key) < |shards|
    {
    }

    /** `Set(key, value, ttl)` at time `now`: only the key's shard changes. */
    method Set(key: string, value: V, ttl: int, now: int)
      requires Valid()
      modifies shards, hook`calls
      ensures Valid()
      ensures var i, o := ShardOf(key), AfterSet(old(Contents()[ShardOf(key)]), key, value, ttl, now, shards[ShardOf(key)].capacity);
        Contents() == old(Contents())[i := o.entries]
        && hook.calls == old(hook.calls) + (if hook.installed then o.evicted else [])
    {
      ghost var c0 := Contents();
      var s := shards[ShardOf(key)];
      s.Set(key, value, ttl, now);
      assert forall j | 0 <= j < |shards| && j != ShardOf(key) :: shards[j].entries == c0[j];
      assert Contents() == c0[ShardOf(key) := s.entries];
    }

    /** `Get(key)` at time `now`. */
    method Get(key: string, now: int) returns (found: Option<V>)
      requires Valid()
      modifies shards, hook`calls
      ensures Valid()
      ensures var i, o := ShardOf(key), AfterGet(old(Contents()[ShardOf(key)]), key, now);
        Contents() == old(Contents())[i := o.entries] && found == o.found
        && hook.calls == old(hook.calls) + (if hook.installed then o.evicted else [])
    {
      ghost var c0 := Contents();
      var s := shards[ShardOf(key)];
      found := s.Get(key, now);
      assert forall j | 0 <= j < |shards| && j != ShardOf(key) :: shards[j].entries == c0[j];
      assert Contents() == c0[ShardOf(key) := s.entries];
    }

    /** `Delete(key)` */
    method Delete(key: string)
      requires Valid()
      modifies shards, hook`calls
      ensures Valid()
      ensures var i, o := ShardOf(key), AfterDelete(old(Contents()[ShardOf(key)]), key);
        Contents() == old(Contents())[i := o.entries]
        && hook.calls == old(hook.calls) + (if hook.installed then o.evicted else [])
    {
      var s := shards[ShardOf(key)];
      s.Delete(key);
    }

    /** `SetOnEvict(cb)`: `install` says whether `cb` is non-nil. */
    method SetOnEvict(install: bool)
      modifies hook`installed
      ensures hook.installed == install
    {
      hook.installed := install;
    }

    /** `Len`: the sum of the shard counters, clamped at zero. */
    method Len() returns (n: int)
      ensures n == if CountSum(shards) < 0 then 0 else CountSum(shards)
      ensures Valid() ==> n == EntryCount(Contents())
    {
      var total := 0;
      var i := 0;
      while i < |shards|
        invariant i <= |shards| && total == CountSum(shards[..i])
      {
        assert shards[..i + 1][..i] == shards[..i];
        total := total + shards[i].count;
        i := i + 1;
      }
      assert shards[..i] == shards;
      if Valid() {
        CountSumIsEntryCount(shards);
      }
      if total < 0 {
        return 0;
      }
      return total;
    }

    /** The shard counters added up, shard by shard. */
    static ghost function CountSum(ss: seq<Shard<V>>): int
      reads ss
    {
      if ss == [] then 0 else CountSum(ss[..|ss| - 1]) + ss[|ss| - 1].count
    }

    /** Valid shards count their entries, so the counters add up to the number of cached entries. */
    static lemma {:induction false} CountSumIsEntryCount(ss: seq<Shard<V>>)
      requires forall i | 0 <= i < |ss| :: ss[i].Valid()
      ensures CountSum(ss) == EntryCount(seq(|ss|, i requires 0 <= i < |ss| reads ss => ss[i].entries))
    {
      if ss != [] {
        var init := ss[..|ss| - 1];
        CountSumIsEntryCount(init);
        var cs := seq(|ss|, i requires 0 <= i < |ss| reads ss => ss[i].entries);
        assert cs[..|ss| - 1] == seq(|init|, i requires 0 <= i < |init| reads init => init[i].entries);
        var last := ss[|ss| - 1];
        assert last.count == |last.items| == |last.order| == |last.entries|;
      }
    }

    /** `Keys`: the keys of every shard's map, shard after shard. */
    method Keys() returns (keys: seq<string>)
      ensures multiset(keys) == KeyBag(shards)
    {
      keys := [];
      var i := 0;
      while i < |shards|
        invariant i <= |shards| && multiset(keys) == KeyBag(shards[..i])
      {
        var acc := keys;
        keys := shards[i].AppendKeys(keys);
        assert keys == acc + keys[|acc|..];
        assert shards[..i + 1][..i] == shards[..i];
        i := i + 1;
      }
      assert shards[..i] == shards;
    }

    /** The keys held by the maps of `ss`, with repetition. */
    static ghost function KeyBag(ss: seq<Shard<V>>): multiset<string>
      reads ss
    {
      if ss == [] then multiset{} else KeyBag(ss[..|ss| - 1]) + multiset(ss[|ss| - 1].items.Keys)
    }

    /** `Keys` lists every cached key exactly once: a key lives only in the shard it is routed to. */
    lemma KeysOnce(k: string)
      requires Valid()
      ensures KeyBag(shards)[k] == if k in shards[ShardOf(k)].items then 1 else 0
    {
      KeyBagPrefix(k, |shards|);
      assert shards[..|shards|] == shards;
    }

    lemma {:induction false} KeyBagPrefix(k: string, j: nat)
      requires Valid() && j <= |shards|
      ensures KeyBag(shards[..j])[k] == if ShardOf(k) < j && k in shards[ShardOf(k)].items then 1 else 0
    {
      if j > 0 {
        KeyBagPrefix(k, j - 1);
        assert shards[..j][..j - 1] == shards[..j - 1];
      }
    }

    /** `Purge`: every shard emptied; the callback is not called. */
    method Purge()
      requires Valid()
      modifies shards
      ensures Valid() && forall i | 0 <= i < |shards| :: shards[i].entries == []
    {
      var i := 0;
      while i < |shards|
        invariant i <= |shards| && Valid()
        invariant forall j | 0 <= j < i :: shards[j].entries == []
      {
        shards[i].Clear();
        i := i + 1;
      }
    }

    /**
     * `cleanExpired`, one shard after the other, at time `now`: each shard
     * keeps its live entries, and the callback is called for the expired
     * ones (within a shard, in the order the map yields them).
     */
    method CleanExpired(now: int) returns (ghost evicted: seq<Eviction<V>>)
      requires Valid()
      modifies shards, hook`calls
      ensures Valid() && |Contents()| == |old(Contents())|
      ensures forall i | 0 <= i < |shards| :: Contents()[i] == Live(old(Contents())[i], now)
      ensures hook.calls == old(hook.calls) + evicted
      ensures hook.installed ==> multiset(evicted) == ExpiredBag(old(Contents()), now)
      ensures !hook.installed ==> evicted == []
    {
      ghost var c0 := Contents();
      evicted := [];
      var i := 0;
      while i < |shards|
        invariant i <= |shards| == |c0| && Valid()
        invariant CleanProgress(c0, i, now, hook.installed, Contents(), old(hook.calls), hook.calls, evicted)
      {
        ghost var cs, calls := Contents(), hook.calls;
        ghost var ev := SweepShard(i, now);
        CleanProgressStep(c0, i, now, hook.installed, cs, old(hook.calls), calls, evicted, ev);
        evicted := evicted + ev;
        i := i + 1;
      }
      assert c0[..i] == c0;
    }

    /** One shard's `cleanExpired`; the other shards are untouched. */
    method SweepShard(i: nat, now: int) returns (ghost evicted: seq<Eviction<V>>)
      requires Valid() && i < |shards|
      modifies shards[i], hook`calls
      ensures Valid() && Contents() == old(Contents())[i := Live(old(Contents()[i]), now)]
      ensures hook.calls == old(hook.calls) + evicted
      ensures hook.installed ==> multiset(evicted) == multiset(ExpiredEvictions(old(Contents()[i]), now))
      ensures !hook.installed ==> evicted == []
    {
      ghost var c0 := Contents();
      ghost var visits;
      visits, evicted := shards[i].CleanExpired(now);
      forall j, k | 0 <= j < |shards| && k in shards[j].items ensures ShardOf(k) == j {
        assert k in old(shards[j].items);
      }
      assert Contents() == c0[i := Live(c0[i], now)];
    }
  }

  /** The shards of `c0` with the first `i` swept at time `now`. */
  ghost function SweptShards<V>(c0: seq<seq<Entry<V>>>, i: nat, now: int): seq<seq<Entry<V>>>
  {
    seq(|c0|, j requires 0 <= j < |c0| => if j < i then Live(c0[j], now) else c0[j])
  }

  /** Where the cache-wide sweep of `c0` stands after `i` shards. */
  ghost predicate CleanProgress<V>(c0: seq<seq<Entry<V>>>, i: nat, now: int, installed: bool,
                                   cs: seq<seq<Entry<V>>>, calls0: seq<Eviction<V>>, calls: seq<Eviction<V>>, evicted: seq<Eviction<V>>)
  {
    && i <= |c0|
    && cs == SweptShards(c0, i, now)
    && calls == calls0 + evicted
    && (installed ==> multiset(evicted) == ExpiredBag(c0[..i], now))
    && (!installed ==> evicted == [])
  }

  /** Sweeping the next shard advances the cache-wide sweep. */
  lemma CleanProgressStep<V>(c0: seq<seq<Entry<V>>>, i: nat, now: int, installed: bool,
                             cs: seq<seq<Entry<V>>>, calls0: seq<Eviction<V>>, calls: seq<Eviction<V>>, evicted: seq<Eviction<V>>,
                             ev: seq<Eviction<V>>)
    requires CleanProgress(c0, i, now, installed, cs, calls0, calls, evicted) && i < |c0|
    requires installed ==> multiset(ev) == multiset(ExpiredEvictions(cs[i], now))
    requires !installed ==> ev == []
    ensures CleanProgress(c0, i + 1, now, installed, cs[i := Live(cs[i], now)], calls0, calls + ev, evicted + ev)
  {
    assert c0[..i + 1][..i] == c0[..i];
    Sequences.AppendAssoc(calls0, evicted, ev);
  }

  /** The number of entries in all shards. */
  function EntryCount<V>(cs: seq<seq<Entry<V>>>): nat
  {
    if cs == [] then 0 else EntryCount(cs[..|cs| - 1]) + |cs[|cs| - 1]|
  }

  /** The calls a sweep of every shard makes, up to order. */
  ghost function ExpiredBag<V>(cs: seq<seq<Entry<V>>>, now: int): multiset<Eviction<V>>
  {
    if cs == [] then multiset{} else ExpiredBag(cs[..|cs| - 1], now) + multiset(ExpiredEvictions(cs[|cs| - 1], now))
  }
}
