/**
 * One shard of the cache in pkg/gzcache/cache.go: the key→node map, the
 * recency list and the live counter, updated in place by its methods.
 *
 * The intrusive doubly linked list (`head`, `tail` and the nodes' `prev`
 * and `next` pointers) is represented by the sequence of the keys it links,
 * `head` first; a node's contents (value, deadline, ttl) live in the map.
 * Clock reads are the parameter `now`.  The cache-wide `onEvict` callback
 * is the shared object `EvictHook`, which records every call made to it.
 */
module CacheShard {
  import opened Wrappers
  import opened CacheSpec
  import Sequences

  /** The `onEvict` field of the cache: whether a callback is installed, and every call made to it. */
  class EvictHook<V> {
    var installed: bool
    var calls: seq<Eviction<V>>

    constructor ()
      ensures !installed && calls == []
    {
      installed := false;
      calls := [];
    }
  }

  /** The list with the node of `key` unlinked. */
  function Unlink(order: seq<string>, key: string): (r: seq<string>)
    ensures forall k :: k in r <==> k in order && k != key
  {
    if order == [] then []
    else (if order[0] == key then [] else [order[0]]) + Unlink(order[1..], key)
  }

  /** Unlinking a key held once is removing its position. */
  lemma {:induction false} UnlinkAt(order: seq<string>, i: nat)
    requires i < |order| && forall j | 0 <= j < |order| && j != i :: order[j] != order[i]
    ensures Unlink(order, order[i]) == order[..i] + order[i + 1..]
  {
    if i == 0 {
      assert order[1..] == order[..0] + order[1..];
      assert order[0] !in order[1..];
      UnlinkMissing(order[1..], order[0]);
    } else {
      UnlinkAt(order[1..], i - 1);
      assert order[..i] + order[i + 1..] == [order[0]] + (order[1..][..i - 1] + order[1..][i..]);
    }
  }

  lemma {:induction false} UnlinkMissing(order: seq<string>, key: string)
    requires key !in order
    ensures Unlink(order, key) == order
  {
    if order != [] {
      UnlinkMissing(order[1..], key);
      assert order == [order[0]] + order[1..];
    }
  }

  /**
   * The map and the list hold the same nodes, each key once, and `entries`
   * is their contents in list order.
   */
  ghost predicate Consistent<V>(items: map<string, Entry<V>>, order: seq<string>, entries: seq<Entry<V>>)
  {
    && |entries| == |order| == |items|
    && (forall i | 0 <= i < |order| :: order[i] in items && items[order[i]] == entries[i] && entries[i].key == order[i])
    && UniqueKeys(entries)
  }

  /** Moving the node at `i`, with new contents `e`, to the head keeps the map and the list in step. */
  lemma ConsistentMoveToFront<V>(items: map<string, Entry<V>>, order: seq<string>, entries: seq<Entry<V>>, i: nat, e: Entry<V>)
    requires Consistent(items, order, entries) && i < |order| && e.key == order[i]
    ensures Consistent(items[order[i] := e], [order[i]] + (order[..i] + order[i + 1..]), [e] + RemoveAt(entries, i))
  {
    MoveToFrontUnique(entries, i, e);
    var order' := [order[i]] + (order[..i] + order[i + 1..]);
    var entries' := [e] + (entries[..i] + entries[i + 1..]);
    forall j | 0 <= j < |order'| ensures order'[j] in items[order[i] := e] && items[order[i] := e][order'[j]] == entries'[j] && entries'[j].key == order'[j] {
      if 0 < j {
        var k := if j <= i then j - 1 else j;
        assert order'[j] == order[k] && entries'[j] == entries[k];
        assert k != i;
        assert entries[k].key != entries[i].key;
      }
    }
  }

  /** Unlinking the node at `i` and deleting its key keeps the map and the list in step. */
  lemma ConsistentRemove<V>(items: map<string, Entry<V>>, order: seq<string>, entries: seq<Entry<V>>, i: nat)
    requires Consistent(items, order, entries) && i < |order|
    ensures Consistent(items - {order[i]}, order[..i] + order[i + 1..], RemoveAt(entries, i))
    ensures |items - {order[i]}| == |items| - 1
  {
    RemoveAtKeys(entries, i);
    var order' := order[..i] + order[i + 1..];
    var entries' := entries[..i] + entries[i + 1..];
    forall j | 0 <= j < |order'| ensures order'[j] in items - {order[i]} && (items - {order[i]})[order'[j]] == entries'[j] && entries'[j].key == order'[j] {
      var k := if j < i then j else j + 1;
      assert order'[j] == order[k] && entries'[j] == entries[k];
      assert entries[k].key != entries[i].key;
    }
  }

  /** Linking a new key in front of the head keeps the map and the list in step. */
  lemma ConsistentAdd<V>(items: map<string, Entry<V>>, order: seq<string>, entries: seq<Entry<V>>, e: Entry<V>)
    requires Consistent(items, order, entries) && e.key !in items
    ensures Consistent(items[e.key := e], [e.key] + order, [e] + entries)
    ensures |items[e.key := e]| == |items| + 1
  {
    forall j | 0 <= j < |entries| ensures entries[j].key != e.key {
      assert order[j] in items;
    }
    ConsKeepsUnique(entries, e);
    var items', order', entries' := items[e.key := e], [e.key] + order, [e] + entries;
    forall j | 0 <= j < |order'| ensures order'[j] in items' && items'[order'[j]] == entries'[j] && entries'[j].key == order'[j] {
      if j > 0 {
        assert order'[j] == order[j - 1] && entries'[j] == entries[j - 1];
      }
    }
  }

  /** A key not among the entries can be put in front of them. */
  lemma ConsKeepsUnique<V>(entries: seq<Entry<V>>, e: Entry<V>)
    requires UniqueKeys(entries) && forall j | 0 <= j < |entries| :: entries[j].key != e.key
    ensures UniqueKeys([e] + entries)
  {
    var entries' := [e] + entries;
    forall a, b | 0 <= a < b < |entries'| ensures entries'[a].key != entries'[b].key {
      if a > 0 {
        assert entries'[a] == entries[a - 1] && entries'[b] == entries[b - 1];
      } else {
        assert entries'[b] == entries[b - 1];
      }
    }
  }

  /**
   * Where a sweep of `e0` stands after visiting `visits`: the entries left,
   * and the calls made since `calls0`, `evicted`.
   */
  ghost predicate SweepProgress<V>(e0: seq<Entry<V>>, visits: seq<string>, now: int, installed: bool,
                                   es: seq<Entry<V>>, calls0: seq<Eviction<V>>, calls: seq<Eviction<V>>, evicted: seq<Eviction<V>>)
  {
    && es == SweptInOrder(e0, visits, now)
    && calls == calls0 + evicted
    && (installed ==> evicted == EvictionsInOrder(e0, visits, now))
    && (!installed ==> evicted == [])
  }

  /** Visiting one more key advances the sweep. */
  lemma SweepProgressStep<V>(e0: seq<Entry<V>>, visits: seq<string>, now: int, installed: bool,
                             es: seq<Entry<V>>, calls0: seq<Eviction<V>>, calls: seq<Eviction<V>>, evicted: seq<Eviction<V>>,
                             key: string, visited: seq<Eviction<V>>)
    requires SweepProgress(e0, visits, now, installed, es, calls0, calls, evicted)
    requires visited == if installed then SweptEvictions(es, {key}, now) else []
    ensures SweepProgress(e0, visits + [key], now, installed, Swept(es, {key}, now), calls0, calls + visited, evicted + visited)
  {
    assert (visits + [key])[..|visits|] == visits;
    Sequences.AppendAssoc(calls0, evicted, visited);
  }

  class Shard<V> {
    const capacity: int
    /** `items`: each key's node contents. */
    var items: map<string, Entry<V>>
    /** The recency list, by key: `head` first, `tail` last. */
    var order: seq<string>
    var count: int
    /** `s.parent.onEvict` */
    const hook: EvictHook<V>

    /** What the list holds, head first: the abstract state of `CacheSpec`. */
    ghost var entries: seq<Entry<V>>

    /**
     * The shard invariant: the list and the map hold the same nodes, each
     * key once, `entries` is their contents in list order, and `count` is
     * their number.
     */
    ghost predicate Valid()
      reads this
    {
      Consistent(items, order, entries) && count == |items|
    }

    constructor (capacity: int, hook: EvictHook<V>)
      ensures Valid() && this.capacity == capacity && this.hook == hook && entries == []
    {
      this.capacity := capacity;
      this.hook := hook;
      items := map[];
      order := [];
      count := 0;
      entries := [];
    }

    /** The map holds exactly the listed keys. */
    lemma ItemKeys()
      requires Valid()
      ensures KeysOf(entries) == items.Keys
    {
      KeysOfUniqueCard(entries);
      assert KeysOf(entries) <= items.Keys by {
        forall k | k in KeysOf(entries) ensures k in items {
          var i :| 0 <= i < |entries| && entries[i].key == k;
        }
      }
      assert |items.Keys - KeysOf(entries)| == 0;
    }

    /** Position of `key` in the list, where the spec's `IndexOf` finds it. */
    lemma IndexOfItem(key: string) returns (i: nat)
      requires Valid() && key in items
      ensures i < |order| && order[i] == key && IndexOf(entries, key) == Some(i)
      ensures forall j | 0 <= j < |order| && j != i :: order[j] != key && entries[j].key != key
    {
      ItemKeys();
      assert key in KeysOf(entries);
      i :| 0 <= i < |entries| && entries[i].key == key;
      IndexOfUnique(entries, key, i);
      forall j | 0 <= j < |order| && j != i ensures order[j] != key && entries[j].key != key {
        assert entries[j].key != entries[i].key;
      }
    }

    lemma IndexOfMissing(key: string)
      requires Valid() && key !in items
      ensures IndexOf(entries, key) == None
    {
      forall i | 0 <= i < |entries| ensures entries[i].key != key {
        assert order[i] in items;
      }
    }

    /** `addNode`: link `key` in front of the head. */
    method AddNode(key: string)
      modifies this`order
      ensures order == [key] + old(order)
    {
      order := [key] + order;
    }

    /** `removeNode`: unlink the node at position `i`, then call the callback, if installed, with its key and value. */
    method RemoveNode(key: string, ghost i: nat)
      requires i < |order| && order[i] == key && key in items
      requires forall j | 0 <= j < |order| && j != i :: order[j] != key
      modifies this`order, hook`calls
      ensures order == old(order[..i] + order[i + 1..])
      ensures hook.calls == old(hook.calls) + (if hook.installed then [Eviction(key, items[key].value)] else [])
    {
      UnlinkAt(order, i);
      order := Unlink(order, key);
      if hook.installed {
        hook.calls := hook.calls + [Eviction(key, items[key].value)];
      }
    }

    /**
     * `moveToHead`: a node that is not already the head goes through
     * `removeNode`, so the callback is called for it although it stays.
     */
    method MoveToHead(key: string, ghost i: nat)
      requires i < |order| && order[i] == key && key in items
      requires forall j | 0 <= j < |order| && j != i :: order[j] != key
      modifies this`order, hook`calls
      ensures order == [key] + old(order[..i] + order[i + 1..])
      ensures hook.calls == old(hook.calls) + (if hook.installed && i != 0 then [Eviction(key, items[key].value)] else [])
    {
      if key == order[0] {
        assert i == 0;
        return;
      }
      RemoveNode(key, i);
      AddNode(key);
    }

    /**
     * `removeLRU`, corrected: the tail is remembered before it is unlinked,
     * so the map entry deleted is the evicted node's own.
     */
    method RemoveLRU()
      requires Valid()
      modifies this, hook`calls
      ensures Valid() && items.Keys <= old(items.Keys)
      ensures old(entries) == [] ==> entries == [] && hook.calls == old(hook.calls)
      ensures old(entries) != [] ==>
        && entries == old(entries[..|entries| - 1])
        && hook.calls == old(hook.calls) + (if hook.installed then [EvictionOf(old(entries[|entries| - 1]))] else [])
    {
      if order == [] {
        return;
      }
      var lru := order[|order| - 1];
      ghost var n := |order|;
      forall j | 0 <= j < n - 1 ensures order[j] != lru {
        assert entries[j].key != entries[n - 1].key;
      }
      RemoveNode(lru, n - 1);
      items := items - {lru};
      count := count - 1;
      entries := entries[..n - 1];
    }

    /**
     * `removeLRU` as written: after unlinking the tail it deletes the key
     * of `s.tail`, which by then is the NEW tail (or nil).  With one node
     * that dereferences nil (`panics`); with two or more, the evicted key
     * stays in the map while the new tail, still linked, leaves it, and the
     * shard invariant is broken.
     */
    method RemoveLRUAsWritten() returns (panics: bool)
      requires Valid()
      modifies this, hook`calls
      ensures panics <==> |old(order)| == 1
      ensures old(order) != [] ==> order == old(order[..|order| - 1])
      ensures |old(order)| >= 2 ==>
        && items == old(items) - {old(order[|order| - 2])}
        && old(order[|order| - 1]) in items && old(order[|order| - 1]) !in order
        && order[|order| - 1] !in items
        && !Valid()
    {
      panics := false;
      if order == [] {
        return;
      }
      ghost var n := |order|;
      forall j | 0 <= j < n - 1 ensures order[j] != order[n - 1] {
        assert entries[j].key != entries[n - 1].key;
      }
      RemoveNode(order[|order| - 1], n - 1);
      if order == [] {
        panics := true;
        return;
      }
      assert order[n - 2] != old(order[n - 1]) by {
        assert old(entries[n - 2].key != entries[n - 1].key);
      }
      items := items - {order[|order| - 1]};
      count := count - 1;
    }

    /** `Set` on this shard: the node is updated in place or linked in front, then the corrected LRU eviction. */
    method Set(key: string, value: V, ttl: int, now: int)
      requires Valid()
      modifies this, hook`calls
      ensures Valid() && items.Keys <= old(items.Keys) + {key}
      ensures var o := AfterSet(old(entries), key, value, ttl, now, capacity);
        entries == o.entries && hook.calls == old(hook.calls) + (if hook.installed then o.evicted else [])
    {
      var expiresAt := Never;
      if ttl > 0 {
        expiresAt := At(now + ttl);
      }
      if key in items {
        Replace(key, value, expiresAt, ttl, now);
      } else {
        Insert(Entry(key, value, expiresAt, ttl), now);
      }
    }

    /** The first branch of `Set`: a present node gets the new value and deadline and moves to the head. */
    method Replace(key: string, value: V, expiresAt: Expiry, ghost ttl: int, ghost now: int)
      requires Valid() && key in items && expiresAt == ExpiryFor(now, ttl)
      modifies this, hook`calls
      ensures Valid() && items.Keys == old(items.Keys)
      ensures var o := AfterSet(old(entries), key, value, ttl, now, capacity);
        entries == o.entries && hook.calls == old(hook.calls) + (if hook.installed then o.evicted else [])
    {
      ghost var i := IndexOfItem(key);
      SetExisting(entries, i, value, ttl, now, capacity);
      var node := items[key].(value := value, expiresAt := expiresAt);
      ConsistentMoveToFront(items, order, entries, i, node);
      items := items[key := node];
      MoveToHead(key, i);
      entries := [node] + RemoveAt(entries, i);
    }

    /** The second branch of `Set`: a new node is linked at the head, and the tail is evicted if that overflows a positive capacity. */
    method Insert(node: Entry<V>, ghost now: int)
      requires Valid() && node.key !in items && node.expiresAt == ExpiryFor(now, node.ttl)
      modifies this, hook`calls
      ensures Valid() && items.Keys <= old(items.Keys) + {node.key}
      ensures var o := AfterSet(old(entries), node.key, node.value, node.ttl, now, capacity);
        entries == o.entries && hook.calls == old(hook.calls) + (if hook.installed then o.evicted else [])
    {
      ItemKeys();
      SetNew(entries, node.key, node.value, node.ttl, now, capacity);
      ConsistentAdd(items, order, entries, node);
      items := items[node.key := node];
      AddNode(node.key);
      count := count + 1;
      entries := [node] + entries;
      if capacity > 0 && count > capacity {
        RemoveLRU();
      }
    }

    /**
     * `Get` on this shard: a miss for an absent key; an expired node is
     * unlinked and deleted; otherwise the deadline is renewed to
     * `now + ttl` and the node moves to the head.
     */
    method Get(key: string, now: int) returns (found: Option<V>)
      requires Valid()
      modifies this, hook`calls
      ensures Valid() && items.Keys <= old(items.Keys)
      ensures var o := AfterGet(old(entries), key, now);
        entries == o.entries && found == o.found && hook.calls == old(hook.calls) + (if hook.installed then o.evicted else [])
    {
      if key !in items {
        IndexOfMissing(key);
        return None;
      }
      ghost var i := IndexOfItem(key);
      GetPresent(entries, i, now);
      var node := items[key];
      if node.expiresAt.At? && now > node.expiresAt.t {
        Drop(key, i);
        return None;
      }
      Renew(key, i, now);
      return Some(node.value);
    }

    /** Unlink the node at position `i` and delete its key: the expired branch of `Get`, and `Delete`. */
    method Drop(key: string, ghost i: nat)
      requires Valid() && i < |order| && order[i] == key
      modifies this, hook`calls
      ensures Valid() && items.Keys == old(items.Keys) - {key}
      ensures entries == RemoveAt(old(entries), i)
      ensures hook.calls == old(hook.calls) + (if hook.installed then [EvictionOf(old(entries[i]))] else [])
    {
      forall j | 0 <= j < |order| && j != i ensures order[j] != key {
        assert entries[j].key != entries[i].key;
      }
      ConsistentRemove(items, order, entries, i);
      RemoveNode(key, i);
      items := items - {key};
      count := count - 1;
      entries := RemoveAt(entries, i);
    }

    /** The hit branch of `Get`: the deadline becomes `now + ttl` and the node moves to the head. */
    method Renew(key: string, ghost i: nat, now: int)
      requires Valid() && i < |order| && order[i] == key
      modifies this, hook`calls
      ensures Valid() && items.Keys == old(items.Keys)
      ensures entries == [old(entries[i]).(expiresAt := At(now + old(entries[i]).ttl))] + RemoveAt(old(entries), i)
      ensures hook.calls == old(hook.calls) + (if hook.installed then MoveEvictions(i, old(entries[i])) else [])
    {
      forall j | 0 <= j < |order| && j != i ensures order[j] != key {
        assert entries[j].key != entries[i].key;
      }
      var node := items[key];
      var renewed := node.(expiresAt := At(now + node.ttl));
      ConsistentMoveToFront(items, order, entries, i, renewed);
      items := items[key := renewed];
      MoveToHead(key, i);
      entries := [renewed] + RemoveAt(entries, i);
    }

    /** `Delete` on this shard. */
    method Delete(key: string)
      requires Valid()
      modifies this, hook`calls
      ensures Valid() && items.Keys == old(items.Keys) - {key}
      ensures var o := AfterDelete(old(entries), key);
        entries == o.entries && hook.calls == old(hook.calls) + (if hook.installed then o.evicted else [])
    {
      if key in items {
        ghost var i := IndexOfItem(key);
        Drop(key, i);
      } else {
        IndexOfMissing(key);
      }
    }

    /** `Purge` on this shard: a fresh map, no list, a zero counter; the callback is not called. */
    method Clear()
      modifies this
      ensures Valid() && items == map[] && order == [] && entries == [] && count == 0
    {
      items := map[];
      order := [];
      count := 0;
      entries := [];
    }

    /** The inner loop of `Keys`: every key of the map appended to `acc`, each once, in no set order. */
    method AppendKeys(acc: seq<string>) returns (r: seq<string>)
      ensures |r| >= |acc| && r[..|acc|] == acc
      ensures multiset(r[|acc|..]) == multiset(items.Keys)
    {
      r := acc;
      var rest := items.Keys;
      ghost var seen: set<string> := {};
      while rest != {}
        invariant seen !! rest && seen + rest == items.Keys
        invariant |r| >= |acc| && r[..|acc|] == acc
        invariant multiset(r[|acc|..]) == multiset(seen)
        decreases |rest|
      {
        var k :| k in rest;
        assert (r + [k])[|acc|..] == r[|acc|..] + [k];
        r := r + [k];
        rest := rest - {k};
        seen := seen + {k};
      }
    }

    /**
     * `cleanExpired` on this shard: every key of the map is visited once,
     * in no set order, and a node past its set deadline is unlinked and
     * deleted, with the callback called for it.
     */
    method CleanExpired(now: int) returns (ghost visits: seq<string>, ghost evicted: seq<Eviction<V>>)
      requires Valid()
      modifies this, hook`calls
      ensures Valid() && entries == SweptInOrder(old(entries), visits, now) == Live(old(entries), now)
      ensures items.Keys <= old(items.Keys)
      ensures hook.calls == old(hook.calls) + evicted
      ensures hook.installed ==> evicted == EvictionsInOrder(old(entries), visits, now)
      ensures hook.installed ==> multiset(evicted) == multiset(ExpiredEvictions(old(entries), now))
      ensures !hook.installed ==> evicted == []
    {
      ghost var e0, c0 := entries, hook.calls;
      visits, evicted := [], [];
      var rest := items.Keys;
      ItemKeys();
      while rest != {}
        invariant Valid() && rest <= items.Keys <= old(items.Keys)
        invariant forall k | k in KeysOf(e0) :: k in rest || k in visits
        invariant SweepProgress(e0, visits, now, hook.installed, entries, c0, hook.calls, evicted)
        decreases |rest|
      {
        var key :| key in rest;
        ghost var es, calls := entries, hook.calls;
        ghost var visited := Visit(key, now);
        SweepProgressStep(e0, visits, now, hook.installed, es, c0, calls, evicted, key, visited);
        visits, evicted := visits + [key], evicted + visited;
        rest := rest - {key};
      }
      SweepAll(e0, visits, now);
    }

    /** One iteration of `cleanExpired`: the node of `key` is unlinked and deleted when past its set deadline. */
    method Visit(key: string, now: int) returns (ghost visited: seq<Eviction<V>>)
      requires Valid() && key in items
      modifies this, hook`calls
      ensures Valid() && old(items.Keys) - {key} <= items.Keys <= old(items.Keys)
      ensures entries == Swept(old(entries), {key}, now)
      ensures visited == (if hook.installed then SweptEvictions(old(entries), {key}, now) else [])
      ensures hook.calls == old(hook.calls) + visited
    {
      visited := if hook.installed then SweptEvictions(entries, {key}, now) else [];
      ghost var i := IndexOfItem(key);
      SweptOne(entries, i, now);
      SweptOneEvictions(entries, i, now);
      var node := items[key];
      if node.expiresAt.At? && now > node.expiresAt.t {
        Drop(key, i);
      }
    }
  }
}
