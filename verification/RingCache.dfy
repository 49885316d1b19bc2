/**
 A bounded cache: a map and a ring of its keys. A full cache reuses the ring slot
 under the cursor and forgets the key that was there.
 */
module RingCache {
  import opened Wrappers

  datatype Cache<K, V> = Cache(entries: map<K, V>, keys: seq<Option<K>>, cursor: nat)

  function Empty<K, V>(capacity: nat): Cache<K, V> {
    Cache(map[], seq(capacity, _ => None), 0)
  }

  function Store<K(==), V>(c: Cache<K, V>, capacity: nat, k: K, v: V): Cache<K, V>
    requires c.cursor < |c.keys| && capacity > 0
  {
    if k in c.entries then c.(entries := c.entries[k := v])
    else
      var kept :=
        if |c.entries| >= capacity && c.keys[c.cursor].Some? then c.entries - {c.keys[c.cursor].value} else c.entries;
      Cache(kept[k := v], c.keys[c.cursor := Some(k)], (c.cursor + 1) % capacity)
  }

  /** The first `used` ring slots name the cached keys, each exactly once. */
  ghost predicate Names<K, V>(keys: seq<Option<K>>, used: nat, entries: map<K, V>) {
    && used <= |keys|
    && (forall i :: 0 <= i < used ==> keys[i].Some? && keys[i].value in entries)
    && (forall i, j :: 0 <= i < j < used ==> keys[i] != keys[j])
    && (forall k :: k in entries ==> exists i :: 0 <= i < used && keys[i] == Some(k))
  }

  /** Ring and map are in bijection, within the capacity. */
  ghost predicate Bijective<K, V>(c: Cache<K, V>, capacity: nat) {
    && capacity > 0 && |c.keys| == capacity && c.cursor < capacity && |c.entries| <= capacity
    && (|c.entries| < capacity ==> c.cursor == |c.entries|)
    && Names(c.keys, |c.entries|, c.entries)
  }

  lemma EmptyIsBijective<K, V>(capacity: nat)
    requires capacity > 0
    ensures Bijective(Empty<K, V>(capacity), capacity)
  {
  }

  lemma RemoveOne<K, V>(m: map<K, V>, k: K)
    requires k in m
    ensures |m - {k}| == |m| - 1
  {
    assert (m - {k}).Keys == m.Keys - {k};
  }

  lemma NamesFill<K, V>(keys: seq<Option<K>>, used: nat, entries: map<K, V>, k: K, v: V)
    requires Names(keys, used, entries) && used < |keys| && k !in entries
    ensures Names(keys[used := Some(k)], used + 1, entries[k := v])
  {
    var keys', entries' := keys[used := Some(k)], entries[k := v];
    forall x | x in entries' ensures exists i :: 0 <= i < used + 1 && keys'[i] == Some(x) {
      if x == k {
        assert keys'[used] == Some(x);
      } else {
        var i :| 0 <= i < used && keys[i] == Some(x);
        assert keys'[i] == Some(x);
      }
    }
  }

  lemma NamesReplace<K, V>(keys: seq<Option<K>>, used: nat, entries: map<K, V>, at: nat, k: K, v: V)
    requires Names(keys, used, entries) && at < used && k !in entries
    ensures Names(keys[at := Some(k)], used, (entries - {keys[at].value})[k := v])
  {
    var keys', entries' := keys[at := Some(k)], (entries - {keys[at].value})[k := v];
    forall x | x in entries' ensures exists i :: 0 <= i < used && keys'[i] == Some(x) {
      if x == k {
        assert keys'[at] == Some(x);
      } else {
        var i :| 0 <= i < used && keys[i] == Some(x);
        assert keys'[i] == Some(x);
      }
    }
    forall i | 0 <= i < used ensures keys'[i].Some? && keys'[i].value in entries' {
      assert i != at ==> keys[i] != keys[at];
    }
  }

  /**
   Storing keeps the bijection and therefore the bound; the stored key is cached,
   every other cached key keeps its value, and at most one key is forgotten.
   */
  lemma StoreKeepsBijection<K, V>(c: Cache<K, V>, capacity: nat, k: K, v: V)
    requires Bijective(c, capacity)
    ensures c.cursor < |c.keys| && capacity > 0
    ensures Bijective(Store(c, capacity, k, v), capacity)
    ensures var c' := Store(c, capacity, k, v);
      && k in c'.entries && c'.entries[k] == v
      && (forall x :: x in c'.entries && x != k ==> x in c.entries && c'.entries[x] == c.entries[x])
      && |c'.entries| >= |c.entries|
  {
    hide Names;
    if k in c.entries {
      StoreAgain(c, capacity, k, v);
    } else if |c.entries| < capacity {
      StoreWithRoom(c, capacity, k, v);
    } else {
      StoreWhenFull(c, capacity, k, v);
    }
  }

  lemma StoreAgain<K, V>(c: Cache<K, V>, capacity: nat, k: K, v: V)
    requires Bijective(c, capacity) && k in c.entries
    ensures Bijective(c.(entries := c.entries[k := v]), capacity)
    ensures |c.entries[k := v]| == |c.entries|
  {
    hide Names;
    assert c.entries[k := v].Keys == c.entries.Keys;
    NamesUpdate(c.keys, |c.entries|, c.entries, k, v);
  }

  lemma StoreWithRoom<K, V>(c: Cache<K, V>, capacity: nat, k: K, v: V)
    requires Bijective(c, capacity) && k !in c.entries && |c.entries| < capacity
    ensures Bijective(Cache(c.entries[k := v], c.keys[c.cursor := Some(k)], (c.cursor + 1) % capacity), capacity)
    ensures |c.entries[k := v]| == |c.entries| + 1
  {
    hide Names;
    var n := |c.entries|;
    NamesFill(c.keys, n, c.entries, k, v);
    CursorMoves(n, capacity);
  }

  lemma CursorMoves(n: nat, capacity: nat)
    requires n < capacity
    ensures (n + 1) % capacity == if n + 1 < capacity then n + 1 else 0
  {
  }

  lemma StoreWhenFull<K, V>(c: Cache<K, V>, capacity: nat, k: K, v: V)
    requires Bijective(c, capacity) && k !in c.entries && |c.entries| == capacity
    ensures c.keys[c.cursor].Some?
    ensures var kept := (c.entries - {c.keys[c.cursor].value})[k := v];
      && Bijective(Cache(kept, c.keys[c.cursor := Some(k)], (c.cursor + 1) % capacity), capacity)
      && |kept| == |c.entries|
  {
    hide Names;
    NamedSlot(c.keys, |c.entries|, c.entries, c.cursor);
    NamesReplace(c.keys, |c.entries|, c.entries, c.cursor, k, v);
    RemoveOne(c.entries, c.keys[c.cursor].value);
  }

  lemma NamesUpdate<K, V>(keys: seq<Option<K>>, used: nat, entries: map<K, V>, k: K, v: V)
    requires Names(keys, used, entries) && k in entries
    ensures Names(keys, used, entries[k := v])
  {
  }

  lemma NamedSlot<K, V>(keys: seq<Option<K>>, used: nat, entries: map<K, V>, i: nat)
    requires Names(keys, used, entries) && i < used
    ensures keys[i].Some? && keys[i].value in entries
  {
  }

  // ---------------------------------------------------------------- how long a key is kept

  datatype Put<K, V> = Put(key: K, value: V)

  /** The cache after storing all of them. */
  ghost function StoreAll<K, V>(c: Cache<K, V>, capacity: nat, puts: seq<Put<K, V>>): (r: Cache<K, V>)
    requires Bijective(c, capacity)
    ensures Bijective(r, capacity)
  {
    if puts == [] then c
    else
      var before, p := StoreAll(c, capacity, puts[..|puts| - 1]), puts[|puts| - 1];
      StoreKeepsBijection(before, capacity, p.key, p.value);
      Store(before, capacity, p.key, p.value)
  }

  /** How many of them bring a key that is not cached. */
  ghost function NewKeys<K, V>(c: Cache<K, V>, capacity: nat, puts: seq<Put<K, V>>): nat
    requires Bijective(c, capacity)
  {
    if puts == [] then 0
    else
      var before := puts[..|puts| - 1];
      NewKeys(c, capacity, before)
        + if puts[|puts| - 1].key in StoreAll(c, capacity, before).entries then 0 else 1
  }

  /** `k` sits in slot `p`, and the cursor is `n` slots past it. */
  ghost predicate SitsAt<K, V>(c: Cache<K, V>, capacity: nat, k: K, p: nat, n: nat) {
    && Bijective(c, capacity) && p < |c.entries| && c.keys[p] == Some(k) && k in c.entries
    && n < capacity && c.cursor == Ahead(p, n, capacity)
  }

  /** The slot `n` steps after the one past `p`. */
  function Ahead(p: nat, n: nat, capacity: nat): int {
    if p + 1 + n < capacity then p + 1 + n else p + 1 + n - capacity
  }

  lemma OneAhead(p: nat, n: nat, capacity: nat)
    requires p < capacity && n < capacity
    ensures 0 <= Ahead(p, n, capacity) < capacity && (Ahead(p, n, capacity) == p <==> n == capacity - 1)
    ensures n + 1 < capacity ==> (Ahead(p, n, capacity) + 1) % capacity == Ahead(p, n + 1, capacity)
  {
    CursorMoves(Ahead(p, n, capacity), capacity);
  }

  /** What storing a new key does to ring and cursor. */
  lemma StoreMoves<K, V>(c: Cache<K, V>, capacity: nat, k: K, v: V)
    requires Bijective(c, capacity) && k !in c.entries
    ensures c.cursor < |c.keys| == capacity && (c.cursor == |c.entries| || |c.entries| == capacity)
    ensures var r := Store(c, capacity, k, v);
      && r.keys == c.keys[c.cursor := Some(k)] && r.cursor == (c.cursor + 1) % capacity
      && (forall x :: x in c.entries && (|c.entries| < capacity || c.keys[c.cursor] != Some(x)) ==> x in r.entries)
  {
    hide Names;
  }

  lemma OtherSlotKept<K, V>(c: Cache<K, V>, capacity: nat, k: K, p: nat, n: nat, put: Put<K, V>)
    requires SitsAt(c, capacity, k, p, n) && n < capacity - 1 && put.key !in c.entries
    ensures SitsAt(Store(c, capacity, put.key, put.value), capacity, k, p, n + 1)
  {
    hide *;
    SitsThere(c, capacity, k, p, n);
    StoreMoves(c, capacity, put.key, put.value);
    StoreKeepsBijection(c, capacity, put.key, put.value);
    OneAhead(p, n, capacity);
    OtherKey(c, capacity, k, p);
    SitsHere(Store(c, capacity, put.key, put.value), capacity, k, p, n + 1);
  }

  lemma SitsHere<K, V>(c: Cache<K, V>, capacity: nat, k: K, p: nat, n: nat)
    requires Bijective(c, capacity) && p < |c.entries| && p < |c.keys| && c.keys[p] == Some(k) && k in c.entries
    requires n < capacity && c.cursor == Ahead(p, n, capacity)
    ensures SitsAt(c, capacity, k, p, n)
  {
    hide Names;
  }

  lemma StoreGrows<K, V>(c: Cache<K, V>, capacity: nat, k: K, v: V)
    requires Bijective(c, capacity)
    ensures |Store(c, capacity, k, v).entries| >= |c.entries|
    ensures k !in c.entries && |c.entries| < capacity ==> |Store(c, capacity, k, v).entries| == |c.entries| + 1
  {
    if k in c.entries {
      assert c.entries[k := v].Keys == c.entries.Keys;
      assert |c.entries[k := v]| == |c.entries[k := v].Keys| && |c.entries| == |c.entries.Keys|;
    } else if |c.entries| < capacity {
      StoreWithRoom(c, capacity, k, v);
    } else {
      StoreKeepsBijection(c, capacity, k, v);
      StoreWhenFull(c, capacity, k, v);
    }
  }

  lemma OtherKey<K, V>(c: Cache<K, V>, capacity: nat, k: K, p: nat)
    requires Bijective(c, capacity) && p < |c.entries| && c.keys[p] == Some(k) && k in c.entries && c.cursor != p
    ensures c.cursor < |c.keys| && |c.keys| == capacity
    ensures |c.entries| >= capacity ==> c.keys[c.cursor] != Some(k)
  {
  }

  lemma SameKeyKept<K, V>(c: Cache<K, V>, capacity: nat, k: K, p: nat, n: nat, put: Put<K, V>)
    requires SitsAt(c, capacity, k, p, n) && put.key in c.entries
    ensures SitsAt(Store(c, capacity, put.key, put.value), capacity, k, p, n)
  {
    StoreKeepsBijection(c, capacity, put.key, put.value);
    StoreGrows(c, capacity, put.key, put.value);
    hide Bijective;
  }

  /** A key is kept through fewer than `capacity` new keys, in its slot. */
  lemma {:induction false} KeptFor<K, V>(c: Cache<K, V>, capacity: nat, k: K, p: nat, puts: seq<Put<K, V>>)
    requires SitsAt(c, capacity, k, p, 0) && NewKeys(c, capacity, puts) < capacity
    ensures SitsAt(StoreAll(c, capacity, puts), capacity, k, p, NewKeys(c, capacity, puts))
  {
    hide SitsAt;
    hide Bijective;
    hide Store;
    if puts == [] {
      SitsThere(c, capacity, k, p, 0);
    } else {
      var before, put := puts[..|puts| - 1], puts[|puts| - 1];
      SitsThere(c, capacity, k, p, 0);
      KeptFor(c, capacity, k, p, before);
      var b, n := StoreAll(c, capacity, before), NewKeys(c, capacity, before);
      if put.key in b.entries {
        SameKeyKept(b, capacity, k, p, n, put);
      } else {
        OtherSlotKept(b, capacity, k, p, n, put);
      }
    }
  }

  lemma SitsThere<K, V>(c: Cache<K, V>, capacity: nat, k: K, p: nat, n: nat)
    requires SitsAt(c, capacity, k, p, n)
    ensures Bijective(c, capacity) && p < |c.entries| <= capacity == |c.keys| && c.keys[p] == Some(k) && k in c.entries
    ensures n < capacity && c.cursor == Ahead(p, n, capacity)
  {
    hide Names;
  }

  /**
   First in, first out: a key is kept through any stores with fewer than `capacity` new keys after
   its own, and the `capacity`-th new key takes its slot.
   */
  lemma EvictedInTurn<K, V>(c: Cache<K, V>, capacity: nat, k: K, p: nat, puts: seq<Put<K, V>>, last: Put<K, V>)
    requires SitsAt(c, capacity, k, p, 0) && NewKeys(c, capacity, puts) < capacity
    requires last.key !in StoreAll(c, capacity, puts).entries
    ensures k in StoreAll(c, capacity, puts).entries
    ensures k in StoreAll(c, capacity, puts + [last]).entries <==> NewKeys(c, capacity, puts) + 1 < capacity
  {
    SitsThere(c, capacity, k, p, 0);
    StoreAllSnoc(c, capacity, puts, last);
    KeptFor(c, capacity, k, p, puts);
    var b, n := StoreAll(c, capacity, puts), NewKeys(c, capacity, puts);
    SitsThere(b, capacity, k, p, n);
    hide *;
    if n + 1 < capacity {
      OtherSlotKept(b, capacity, k, p, n, last);
      SitsThere(Store(b, capacity, last.key, last.value), capacity, k, p, n + 1);
    } else {
      OneAhead(p, n, capacity);
      OldestGoes(b, capacity, k, p, last);
    }
  }

  lemma StoreAllSnoc<K, V>(c: Cache<K, V>, capacity: nat, puts: seq<Put<K, V>>, last: Put<K, V>)
    requires Bijective(c, capacity)
    ensures StoreAll(c, capacity, puts).cursor < |StoreAll(c, capacity, puts).keys|
    ensures StoreAll(c, capacity, puts + [last]) == Store(StoreAll(c, capacity, puts), capacity, last.key, last.value)
  {
    assert (puts + [last])[..|puts|] == puts;
    hide Names;
    hide Store;
  }

  lemma OldestGoes<K, V>(c: Cache<K, V>, capacity: nat, k: K, p: nat, last: Put<K, V>)
    requires Bijective(c, capacity) && p < |c.entries| && c.keys[p] == Some(k) && k in c.entries && c.cursor == p
    requires last.key !in c.entries
    ensures k !in Store(c, capacity, last.key, last.value).entries
  {
  }

  /** A key that was not cached sits, once stored, right before the cursor, with the value stored. */
  lemma StoredSits<K, V>(c: Cache<K, V>, capacity: nat, k: K, v: V)
    requires Bijective(c, capacity) && k !in c.entries
    ensures SitsAt(Store(c, capacity, k, v), capacity, k, c.cursor, 0)
    ensures Store(c, capacity, k, v).entries[k] == v
  {
    hide *;
    StoreMoves(c, capacity, k, v);
    StoreKeepsBijection(c, capacity, k, v);
    StoreGrows(c, capacity, k, v);
    NextSlot(c.cursor, capacity);
    SitsHere(Store(c, capacity, k, v), capacity, k, c.cursor, 0);
  }

  lemma NextSlot(p: nat, capacity: nat)
    requires p < capacity
    ensures (p + 1) % capacity == Ahead(p, 0, capacity)
  {
    CursorMoves(p, capacity);
  }
}
