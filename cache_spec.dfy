/**
 * The value-level view of one cache shard (pkg/gzcache/cache.go).
 *
 * A shard is abstracted as the sequence of its entries in recency order,
 * head (most recently used) first, tail (least recently used) last.
 * Every shard operation is a function from that sequence to the next one,
 * together with the calls it makes to the eviction callback.  The classes
 * in modules CacheShard and Gzcache are proved to follow these functions; the properties
 * the cache promises are proved here, once, about the functions.
 */
module CacheSpec {
  import opened Wrappers

  /** An entry's deadline; `Never` is Go's zero `time.Time`. */
  datatype Expiry = Never | At(t: int)

  datatype Entry<V> = Entry(key: string, value: V, expiresAt: Expiry, ttl: int)

  /** One call `onEvict(key, value)`. */
  datatype Eviction<V> = Eviction(key: string, value: V)

  /** The deadline `Set` gives an entry at time `now`. */
  function ExpiryFor(now: int, ttl: int): (e: Expiry)
    ensures e.Never? <==> ttl <= 0
    ensures e.At? ==> e.t == now + ttl && e.t > now
  {
    if ttl > 0 then At(now + ttl) else Never
  }

  /** `!expiresAt.IsZero() && now.After(expiresAt)`: strictly past a set deadline. */
  predicate IsExpired(e: Expiry, now: int)
  {
    e.At? && now > e.t
  }

  ghost predicate UniqueKeys<V>(es: seq<Entry<V>>)
  {
    forall i, j | 0 <= i < j < |es| :: es[i].key != es[j].key
  }

  ghost function KeysOf<V>(es: seq<Entry<V>>): set<string>
  {
    set i | 0 <= i < |es| :: es[i].key
  }

  function EvictionOf<V>(e: Entry<V>): Eviction<V>
  {
    Eviction(e.key, e.value)
  }

  /** Position of `key` in the recency list (the map lookup `s.items[key]`). */
  function IndexOf<V>(es: seq<Entry<V>>, key: string): (r: Option<nat>)
    ensures r.Some? ==> r.value < |es| && es[r.value].key == key
    ensures r.None? <==> forall i | 0 <= i < |es| :: es[i].key != key
  {
    if es == [] then None
    else if es[0].key == key then Some(0)
    else match IndexOf(es[1..], key)
      case None => None
      case Some(j) => Some(j + 1)
  }

  function RemoveAt<V>(es: seq<Entry<V>>, i: nat): seq<Entry<V>>
    requires i < |es|
  {
    es[..i] + es[i + 1..]
  }

  /** The callback calls made by `moveToHead` of the node at position `i`. */
  function MoveEvictions<V>(i: nat, e: Entry<V>): seq<Eviction<V>>
  {
    if i == 0 then [] else [EvictionOf(e)]
  }

  datatype Outcome<V> = Outcome(entries: seq<Entry<V>>, found: Option<V>, evicted: seq<Eviction<V>>)

  /**
   * `Set(key, value, ttl)` at time `now` on a shard of capacity `capacity`,
   * with the least recently used entry evicted when a new key overflows
   * a positive capacity (the corrected `removeLRU`, see `CacheShard.Shard.RemoveLRU`).
   */
  function AfterSet<V>(es: seq<Entry<V>>, key: string, value: V, ttl: int, now: int, capacity: int): (r: Outcome<V>)
    ensures r.entries != [] && r.entries[0].key == key && r.entries[0].value == value
    ensures |es| <= |r.entries| <= |es| + 1 && r.found.None?
  {
    var exp := ExpiryFor(now, ttl);
    match IndexOf(es, key)
    case Some(i) =>
      // value and deadline replaced in place; the stored ttl is kept
      var e := Entry(key, value, exp, es[i].ttl);
      Outcome([e] + RemoveAt(es, i), None, MoveEvictions(i, e))
    case None =>
      var grown := [Entry(key, value, exp, ttl)] + es;
      if capacity > 0 && |grown| > capacity then
        Outcome(grown[..|grown| - 1], None, [EvictionOf(grown[|grown| - 1])])
      else
        Outcome(grown, None, [])
  }

  /** `Get(key)` at time `now`, as written: a hit renews the deadline to `now + ttl` whatever the ttl. */
  function AfterGet<V>(es: seq<Entry<V>>, key: string, now: int): (r: Outcome<V>)
    ensures r.found.Some? ==> r.entries != [] && r.entries[0].key == key && r.entries[0].value == r.found.value
    ensures r.found.Some? ==> |r.entries| == |es|
    ensures r.found.None? ==> |r.entries| + |r.evicted| == |es|
  {
    match IndexOf(es, key)
    case None => Outcome(es, None, [])
    case Some(i) =>
      var e := es[i];
      if IsExpired(e.expiresAt, now) then
        Outcome(RemoveAt(es, i), None, [EvictionOf(e)])
      else
        var renewed := e.(expiresAt := At(now + e.ttl));
        Outcome([renewed] + RemoveAt(es, i), Some(e.value), MoveEvictions(i, e))
  }

  /** `Delete(key)`. */
  function AfterDelete<V>(es: seq<Entry<V>>, key: string): (r: Outcome<V>)
    ensures r.found.None? && |r.entries| + |r.evicted| == |es|
  {
    match IndexOf(es, key)
    case None => Outcome(es, None, [])
    case Some(i) => Outcome(RemoveAt(es, i), None, [EvictionOf(es[i])])
  }

  /** The entries `cleanExpired` keeps: those not past a set deadline, in list order. */
  function Live<V>(es: seq<Entry<V>>, now: int): seq<Entry<V>>
  {
    if es == [] then []
    else (if IsExpired(es[0].expiresAt, now) then [] else [es[0]]) + Live(es[1..], now)
  }

  /** The callback calls `cleanExpired` makes, in list order (Go makes them in map order). */
  function ExpiredEvictions<V>(es: seq<Entry<V>>, now: int): seq<Eviction<V>>
  {
    if es == [] then []
    else (if IsExpired(es[0].expiresAt, now) then [EvictionOf(es[0])] else []) + ExpiredEvictions(es[1..], now)
  }

  /**
   * The entries left once `cleanExpired` has visited the keys in `done`:
   * an entry goes when its key has been visited and it is past its deadline.
   */
  ghost function Swept<V>(es: seq<Entry<V>>, done: set<string>, now: int): seq<Entry<V>>
  {
    if es == [] then []
    else
      var kept := if es[0].key in done && IsExpired(es[0].expiresAt, now) then [] else [es[0]];
      kept + Swept(es[1..], done, now)
  }

  /** The callback calls made for the entries `Swept` removes, in list order. */
  ghost function SweptEvictions<V>(es: seq<Entry<V>>, done: set<string>, now: int): seq<Eviction<V>>
  {
    if es == [] then []
    else
      var gone := if es[0].key in done && IsExpired(es[0].expiresAt, now) then [EvictionOf(es[0])] else [];
      gone + SweptEvictions(es[1..], done, now)
  }

  // ---------------------------------------------------------------------
  // Properties of the shard operations
  // ---------------------------------------------------------------------

  lemma {:induction false} IndexOfUnique<V>(es: seq<Entry<V>>, key: string, i: nat)
    requires UniqueKeys(es) && i < |es| && es[i].key == key
    ensures IndexOf(es, key) == Some(i)
  {
    var r := IndexOf(es, key);
    assert r.Some?;
  }

  lemma {:induction false} RemoveAtKeys<V>(es: seq<Entry<V>>, i: nat)
    requires UniqueKeys(es) && i < |es|
    ensures UniqueKeys(RemoveAt(es, i))
    ensures KeysOf(RemoveAt(es, i)) == KeysOf(es) - {es[i].key}
  {
    var r := RemoveAt(es, i);
    forall k | k in KeysOf(es) - {es[i].key} ensures k in KeysOf(r) {
      var j :| 0 <= j < |es| && es[j].key == k;
      if j < i { assert r[j] == es[j]; } else { assert r[j - 1] == es[j]; }
    }
    forall k | k in KeysOf(r) ensures k in KeysOf(es) - {es[i].key} {
      var j :| 0 <= j < |r| && r[j].key == k;
      if j < i { assert r[j] == es[j]; } else { assert r[j] == es[j + 1]; }
    }
  }

  /** Set never duplicates a key, and afterwards the key is the most recently used entry. */
  lemma SetKeepsKeysUnique<V>(es: seq<Entry<V>>, key: string, value: V, ttl: int, now: int, capacity: int)
    requires UniqueKeys(es)
    ensures var r := AfterSet(es, key, value, ttl, now, capacity).entries;
      UniqueKeys(r) && |r| > 0 && r[0].key == key && r[0].value == value && r[0].expiresAt == ExpiryFor(now, ttl)
  {
    match IndexOf(es, key)
    case Some(i) =>
      RemoveAtKeys(es, i);
      var rest := RemoveAt(es, i);
      assert forall j | 0 <= j < |rest| :: rest[j].key in KeysOf(rest);
    case None =>
      assert forall j | 0 <= j < |es| :: es[j].key != key;
  }

  /**
   * Set on a key already present replaces its value and deadline, moves it
   * to the head, keeps the stored ttl and the number of entries, and calls
   * the callback with the key and its NEW value unless it already was the head.
   */
  lemma SetExisting<V>(es: seq<Entry<V>>, i: nat, value: V, ttl: int, now: int, capacity: int)
    requires UniqueKeys(es) && i < |es|
    ensures var o := AfterSet(es, es[i].key, value, ttl, now, capacity);
      && o.entries == [Entry(es[i].key, value, ExpiryFor(now, ttl), es[i].ttl)] + RemoveAt(es, i)
      && |o.entries| == |es|
      && o.evicted == (if i == 0 then [] else [Eviction(es[i].key, value)])
  {
    IndexOfUnique(es, es[i].key, i);
  }

  /**
   * Set on a new key inserts it at the head with its own ttl; if that
   * pushes the shard over a positive capacity, exactly the old tail (the
   * least recently used entry) is dropped and reported to the callback.
   */
  lemma SetNew<V>(es: seq<Entry<V>>, key: string, value: V, ttl: int, now: int, capacity: int)
    requires key !in KeysOf(es)
    ensures var o := AfterSet(es, key, value, ttl, now, capacity);
      var grown := [Entry(key, value, ExpiryFor(now, ttl), ttl)] + es;
      if capacity > 0 && |grown| > capacity then
        o.entries == grown[..|es|] && o.evicted == [EvictionOf(grown[|es|])]
      else
        o.entries == grown && o.evicted == []
  {
    assert forall i | 0 <= i < |es| :: es[i].key in KeysOf(es);
  }

  /** A shard that is within a positive capacity stays within it. */
  lemma SetWithinCapacity<V>(es: seq<Entry<V>>, key: string, value: V, ttl: int, now: int, capacity: int)
    requires UniqueKeys(es) && capacity > 0 && |es| <= capacity
    ensures |AfterSet(es, key, value, ttl, now, capacity).entries| <= capacity
  {
    match IndexOf(es, key)
    case Some(i) =>
    case None =>
  }

  /** With capacity <= 0 no key is ever dropped by Set. */
  lemma UnboundedSetKeepsAll<V>(es: seq<Entry<V>>, key: string, value: V, ttl: int, now: int, capacity: int)
    requires UniqueKeys(es) && capacity <= 0
    ensures var r := AfterSet(es, key, value, ttl, now, capacity).entries;
      KeysOf(r) == KeysOf(es) + {key} && |r| == |KeysOf(es) + {key}|
  {
    var r := AfterSet(es, key, value, ttl, now, capacity).entries;
    SetKeepsKeysUnique(es, key, value, ttl, now, capacity);
    match IndexOf(es, key)
    case Some(i) =>
      assert r == [r[0]] + RemoveAt(es, i);
      RemoveAtKeys(es, i);
      KeysOfCons(r[0], RemoveAt(es, i));
      KeysOfUniqueCard(r);
    case None =>
      KeysOfCons(r[0], es);
      assert r == [r[0]] + es;
      KeysOfUniqueCard(r);
  }

  /** Moving an entry to the front, possibly with new contents under the same key, keeps keys unique. */
  lemma MoveToFrontUnique<V>(es: seq<Entry<V>>, i: nat, e: Entry<V>)
    requires UniqueKeys(es) && i < |es| && e.key == es[i].key
    ensures UniqueKeys([e] + RemoveAt(es, i))
  {
    RemoveAtKeys(es, i);
    var rest := RemoveAt(es, i);
    assert forall j | 0 <= j < |rest| :: rest[j].key in KeysOf(rest);
  }

  lemma KeysOfCons<V>(e: Entry<V>, es: seq<Entry<V>>)
    ensures KeysOf([e] + es) == {e.key} + KeysOf(es)
  {
    var s := [e] + es;
    forall k | k in KeysOf(es) ensures k in KeysOf(s) {
      var j :| 0 <= j < |es| && es[j].key == k;
      assert s[j + 1] == es[j];
    }
    assert s[0] == e;
  }

  lemma {:induction false} KeysOfUniqueCard<V>(es: seq<Entry<V>>)
    requires UniqueKeys(es)
    ensures |KeysOf(es)| == |es|
  {
    if es != [] {
      KeysOfUniqueCard(es[1..]);
      KeysOfCons(es[0], es[1..]);
      assert es == [es[0]] + es[1..];
      assert es[0].key !in KeysOf(es[1..]);
    }
  }

  /** Get of an absent key is a miss and changes nothing. */
  lemma GetAbsent<V>(es: seq<Entry<V>>, key: string, now: int)
    requires key !in KeysOf(es)
    ensures AfterGet(es, key, now) == Outcome(es, None, [])
  {
    assert forall i | 0 <= i < |es| :: es[i].key in KeysOf(es);
  }

  /**
   * Get of a present key: past its deadline it is removed and reported to
   * the callback, and the result is a miss; otherwise it is a hit, the key
   * moves to the head and its deadline becomes `now + ttl`.
   */
  lemma GetPresent<V>(es: seq<Entry<V>>, i: nat, now: int)
    requires UniqueKeys(es) && i < |es|
    ensures var o := AfterGet(es, es[i].key, now);
      if IsExpired(es[i].expiresAt, now) then
        o.found == None && o.entries == RemoveAt(es, i) && o.evicted == [EvictionOf(es[i])]
      else
        o.found == Some(es[i].value) && o.entries == [es[i].(expiresAt := At(now + es[i].ttl))] + RemoveAt(es, i)
        && o.evicted == MoveEvictions(i, es[i])
  {
    IndexOfUnique(es, es[i].key, i);
  }

  /**
   * Sliding expiration: after a hit, a second Get no later than `ttl`
   * after the first one hits again.
   */
  lemma SlidingTtl<V>(es: seq<Entry<V>>, key: string, now: int, later: int)
    requires UniqueKeys(es)
    requires AfterGet(es, key, now).found.Some?
    requires now <= later
    requires var i := IndexOf(es, key).value; later <= now + es[i].ttl
    ensures AfterGet(AfterGet(es, key, now).entries, key, later).found == AfterGet(es, key, now).found
  {
    var i := IndexOf(es, key).value;
    var r := AfterGet(es, key, now).entries;
    assert r[0].key == key;
    IndexOfUnique(r, key, 0);
  }

  /**
   * The renewal `now + ttl` also applies to an entry set with ttl <= 0:
   * such an entry, meant never to expire, gets a deadline at or before the
   * read, and any later Get misses and removes it.
   */
  lemma NeverExpiringEntryExpiresAfterRead<V>(es: seq<Entry<V>>, key: string, now: int, later: int)
    requires UniqueKeys(es)
    requires AfterGet(es, key, now).found.Some?
    requires var i := IndexOf(es, key).value; es[i].ttl <= 0 && es[i].expiresAt == Never
    requires later > now
    ensures AfterGet(AfterGet(es, key, now).entries, key, later).found == None
    ensures key !in KeysOf(AfterGet(AfterGet(es, key, now).entries, key, later).entries)
  {
    var r := AfterGet(es, key, now).entries;
    var i := IndexOf(es, key).value;
    RemoveAtKeys(es, i);
    var rest := RemoveAt(es, i);
    assert forall j | 0 <= j < |rest| :: rest[j].key in KeysOf(rest);
    assert r[0].key == key && r[1..] == rest;
    assert UniqueKeys(r);
    IndexOfUnique(r, key, 0);
    RemoveAtKeys(r, 0);
  }

  /** Delete removes exactly the key, keeping the order of the others. */
  lemma DeleteRemovesKey<V>(es: seq<Entry<V>>, key: string)
    requires UniqueKeys(es)
    ensures var o := AfterDelete(es, key);
      UniqueKeys(o.entries) && KeysOf(o.entries) == KeysOf(es) - {key}
      && (key in KeysOf(es) <==> |o.evicted| == 1)
  {
    match IndexOf(es, key)
    case Some(i) =>
      RemoveAtKeys(es, i);
    case None =>
      assert key !in KeysOf(es);
  }

  /** The sweep keeps exactly the entries that are not past a set deadline, in order. */
  lemma {:induction false} LiveIsExactlyUnexpired<V>(es: seq<Entry<V>>, now: int)
    ensures forall e :: e in Live(es, now) <==> e in es && !IsExpired(e.expiresAt, now)
    ensures |Live(es, now)| + |ExpiredEvictions(es, now)| == |es|
  {
    if es != [] {
      LiveIsExactlyUnexpired(es[1..], now);
      assert es == [es[0]] + es[1..];
    }
  }

  /** Entries that never expire survive every sweep. */
  lemma {:induction false} SweepKeepsNever<V>(es: seq<Entry<V>>, now: int)
    ensures forall e | e in es && e.expiresAt == Never :: e in Live(es, now)
  {
    LiveIsExactlyUnexpired(es, now);
  }

  lemma {:induction false} LiveUnique<V>(es: seq<Entry<V>>, now: int)
    requires UniqueKeys(es)
    ensures UniqueKeys(Live(es, now)) && KeysOf(Live(es, now)) <= KeysOf(es)
  {
    if es != [] {
      LiveUnique(es[1..], now);
      var t := Live(es[1..], now);
      assert es == [es[0]] + es[1..];
      KeysOfCons(es[0], es[1..]);
      assert es[0].key !in KeysOf(es[1..]);
      if !IsExpired(es[0].expiresAt, now) {
        KeysOfCons(es[0], t);
      }
    }
  }

  lemma {:induction false} SweptNothing<V>(es: seq<Entry<V>>, now: int)
    ensures Swept(es, {}, now) == es && SweptEvictions(es, {}, now) == []
  {
    if es != [] {
      SweptNothing(es[1..], now);
      assert es == [es[0]] + es[1..];
    }
  }

  lemma {:induction false} SweptEverything<V>(es: seq<Entry<V>>, done: set<string>, now: int)
    requires KeysOf(es) <= done
    ensures Swept(es, done, now) == Live(es, now)
    ensures SweptEvictions(es, done, now) == ExpiredEvictions(es, now)
  {
    if es != [] {
      KeysOfCons(es[0], es[1..]);
      assert es == [es[0]] + es[1..];
      SweptEverything(es[1..], done, now);
    }
  }

  /** Visiting more keys is sweeping what the first visit left. */
  lemma {:induction false} SweptTwice<V>(es: seq<Entry<V>>, a: set<string>, b: set<string>, now: int)
    ensures Swept(es, a + b, now) == Swept(Swept(es, a, now), b, now)
  {
    if es != [] {
      var e, t := es[0], es[1..];
      SweptTwice(t, a, b, now);
      var sa := Swept(t, a, now);
      if e.key in a && IsExpired(e.expiresAt, now) {
        assert Swept(es, a, now) == sa;
      } else {
        assert Swept(es, a, now) == [e] + sa;
        assert ([e] + sa)[1..] == sa;
      }
    }
  }

  /** The calls of a sweep in two visits are those of one visit, up to order. */
  lemma {:induction false} SweptEvictionsTwice<V>(es: seq<Entry<V>>, a: set<string>, b: set<string>, now: int)
    ensures EvictionsSplit(es, a, b, now)
  {
    if es != [] {
      SweptEvictionsTwice(es[1..], a, b, now);
      if !IsExpired(es[0].expiresAt, now) {
        EvictionsSplitKept(es, a, b, now);
      } else if es[0].key in a {
        EvictionsSplitFirst(es, a, b, now);
      } else {
        EvictionsSplitSecond(es, a, b, now);
      }
    }
  }

  /** The calls of a sweep of `a + b` are those of `a` and then of `b` over what `a` left, up to order. */
  ghost predicate EvictionsSplit<V>(es: seq<Entry<V>>, a: set<string>, b: set<string>, now: int)
  {
    multiset(SweptEvictions(es, a + b, now))
      == multiset(SweptEvictions(es, a, now)) + multiset(SweptEvictions(Swept(es, a, now), b, now))
  }

  lemma EvictionsSplitKept<V>(es: seq<Entry<V>>, a: set<string>, b: set<string>, now: int)
    requires es != [] && EvictionsSplit(es[1..], a, b, now) && !IsExpired(es[0].expiresAt, now)
    ensures EvictionsSplit(es, a, b, now)
  {
    var e, t := es[0], es[1..];
    var sa := Swept(t, a, now);
    assert SweptEvictions(es, a + b, now) == SweptEvictions(t, a + b, now);
    assert SweptEvictions(es, a, now) == SweptEvictions(t, a, now);
    assert Swept(es, a, now) == [e] + sa;
    assert ([e] + sa)[1..] == sa;
    assert SweptEvictions([e] + sa, b, now) == SweptEvictions(sa, b, now);
  }

  lemma EvictionsSplitFirst<V>(es: seq<Entry<V>>, a: set<string>, b: set<string>, now: int)
    requires es != [] && EvictionsSplit(es[1..], a, b, now) && IsExpired(es[0].expiresAt, now) && es[0].key in a
    ensures EvictionsSplit(es, a, b, now)
  {
    var e, t := es[0], es[1..];
    assert SweptEvictions(es, a + b, now) == [EvictionOf(e)] + SweptEvictions(t, a + b, now);
    assert SweptEvictions(es, a, now) == [EvictionOf(e)] + SweptEvictions(t, a, now);
    assert Swept(es, a, now) == Swept(t, a, now);
    MultisetConsLeft(EvictionOf(e), SweptEvictions(t, a + b, now), SweptEvictions(t, a, now), SweptEvictions(Swept(t, a, now), b, now));
  }

  lemma EvictionsSplitSecond<V>(es: seq<Entry<V>>, a: set<string>, b: set<string>, now: int)
    requires es != [] && EvictionsSplit(es[1..], a, b, now) && IsExpired(es[0].expiresAt, now) && es[0].key !in a
    ensures EvictionsSplit(es, a, b, now)
  {
    var e, t := es[0], es[1..];
    var sa := Swept(t, a, now);
    assert Swept(es, a, now) == [e] + sa;
    assert ([e] + sa)[1..] == sa;
    assert SweptEvictions(es, a, now) == SweptEvictions(t, a, now);
    if e.key in b {
      assert SweptEvictions(es, a + b, now) == [EvictionOf(e)] + SweptEvictions(t, a + b, now);
      assert SweptEvictions([e] + sa, b, now) == [EvictionOf(e)] + SweptEvictions(sa, b, now);
      MultisetConsRight(EvictionOf(e), SweptEvictions(t, a + b, now), SweptEvictions(t, a, now), SweptEvictions(sa, b, now));
    } else {
      assert SweptEvictions(es, a + b, now) == SweptEvictions(t, a + b, now);
      assert SweptEvictions([e] + sa, b, now) == SweptEvictions(sa, b, now);
    }
  }

  lemma MultisetConsLeft<T>(x: T, xs: seq<T>, ys: seq<T>, zs: seq<T>)
    requires multiset(xs) == multiset(ys) + multiset(zs)
    ensures multiset([x] + xs) == multiset([x] + ys) + multiset(zs)
  {
  }

  lemma MultisetConsRight<T>(x: T, xs: seq<T>, ys: seq<T>, zs: seq<T>)
    requires multiset(xs) == multiset(ys) + multiset(zs)
    ensures multiset([x] + xs) == multiset(ys) + multiset([x] + zs)
  {
  }

  /** Visiting one present key removes that entry exactly when it is past its deadline. */
  lemma {:induction false} SweptOne<V>(es: seq<Entry<V>>, i: nat, now: int)
    requires i < |es| && forall j | 0 <= j < |es| && j != i :: es[j].key != es[i].key
    ensures Swept(es, {es[i].key}, now) == (if IsExpired(es[i].expiresAt, now) then RemoveAt(es, i) else es)
  {
    var k := es[i].key;
    if i == 0 {
      SweptNothing(es[1..], now);
      SweptUnvisited(es[1..], k, now);
      assert es == [es[0]] + es[1..];
    } else {
      SweptOne(es[1..], i - 1, now);
      assert es[1..][i - 1] == es[i];
      assert es[0].key != k;
      RemoveAtCons(es, i);
    }
  }

  lemma RemoveAtCons<V>(es: seq<Entry<V>>, i: nat)
    requires 0 < i < |es|
    ensures RemoveAt(es, i) == [es[0]] + RemoveAt(es[1..], i - 1)
  {
    assert es[..i] == [es[0]] + es[1..][..i - 1];
    assert es[i + 1..] == es[1..][i..];
  }

  /** ... and reports it to the callback exactly then. */
  lemma {:induction false} SweptOneEvictions<V>(es: seq<Entry<V>>, i: nat, now: int)
    requires i < |es| && forall j | 0 <= j < |es| && j != i :: es[j].key != es[i].key
    ensures SweptEvictions(es, {es[i].key}, now) == (if IsExpired(es[i].expiresAt, now) then [EvictionOf(es[i])] else [])
  {
    var k := es[i].key;
    if i == 0 {
      SweptNothing(es[1..], now);
      SweptUnvisited(es[1..], k, now);
    } else {
      SweptOneEvictions(es[1..], i - 1, now);
      assert es[1..][i - 1] == es[i];
      assert es[0].key != k;
    }
  }

  /** Visiting a key no entry holds changes nothing. */
  lemma {:induction false} SweptUnvisited<V>(es: seq<Entry<V>>, k: string, now: int)
    requires forall j | 0 <= j < |es| :: es[j].key != k
    ensures Swept(es, {k}, now) == Swept(es, {}, now)
    ensures SweptEvictions(es, {k}, now) == SweptEvictions(es, {}, now)
  {
    if es != [] {
      SweptUnvisited(es[1..], k, now);
    }
  }

  /** The entries left after visiting the keys `ks` one at a time, in that order. */
  ghost function SweptInOrder<V>(es: seq<Entry<V>>, ks: seq<string>, now: int): seq<Entry<V>>
    decreases |ks|
  {
    if ks == [] then es
    else Swept(SweptInOrder(es, ks[..|ks| - 1], now), {ks[|ks| - 1]}, now)
  }

  /** The callback calls made while visiting the keys `ks` in that order. */
  ghost function EvictionsInOrder<V>(es: seq<Entry<V>>, ks: seq<string>, now: int): seq<Eviction<V>>
    decreases |ks|
  {
    if ks == [] then []
    else EvictionsInOrder(es, ks[..|ks| - 1], now) + SweptEvictions(SweptInOrder(es, ks[..|ks| - 1], now), {ks[|ks| - 1]}, now)
  }

  ghost function Visited(ks: seq<string>): set<string>
  {
    set k | k in ks
  }

  /** The order of the visits does not matter: visiting `ks` one by one is visiting the set of them at once. */
  lemma {:induction false} SweptInOrderIsSwept<V>(es: seq<Entry<V>>, ks: seq<string>, now: int)
    ensures SweptInOrder(es, ks, now) == Swept(es, Visited(ks), now)
    ensures multiset(EvictionsInOrder(es, ks, now)) == multiset(SweptEvictions(es, Visited(ks), now))
    decreases |ks|
  {
    if ks == [] {
      SweptNothing(es, now);
      assert Visited(ks) == {};
    } else {
      var init, last := ks[..|ks| - 1], ks[|ks| - 1];
      SweptInOrderIsSwept(es, init, now);
      assert Visited(ks) == Visited(init) + {last} by {
        assert ks == init + [last];
      }
      SweptTwice(es, Visited(init), {last}, now);
      SweptEvictionsTwice(es, Visited(init), {last}, now);
    }
  }

  /**
   * `cleanExpired` visits every key of the shard once, in whatever order the
   * map yields them; afterwards exactly the live entries are left, in list
   * order, and the callback has been called for exactly the expired ones.
   */
  lemma SweepAll<V>(es: seq<Entry<V>>, ks: seq<string>, now: int)
    requires forall k | k in KeysOf(es) :: k in ks
    ensures SweptInOrder(es, ks, now) == Live(es, now)
    ensures multiset(EvictionsInOrder(es, ks, now)) == multiset(ExpiredEvictions(es, now))
  {
    SweptInOrderIsSwept(es, ks, now);
    SweptEverything(es, Visited(ks), now);
  }
}
