// The response cache: a bounded LRU whose entire contents belong to one gold snapshot.
module Cache {
  import opened Basics

  datatype Entry<V> = Entry(key: string, value: V)

  // Entries run from least to most recently used.
  datatype CacheState<V> = CacheState(snapshot: Option<string>, entries: seq<Entry<V>>, hits: nat, misses: nat, evictions: nat)

  function Find<V>(entries: seq<Entry<V>>, key: string): Option<V> {
    if entries == [] then None
    else if entries[0].key == key then Some(entries[0].value)
    else Find(entries[1..], key)
  }

  function Without<V>(entries: seq<Entry<V>>, key: string): seq<Entry<V>> {
    if entries == [] then []
    else if entries[0].key == key then Without(entries[1..], key)
    else [entries[0]] + Without(entries[1..], key)
  }

  ghost predicate DistinctKeys<V>(entries: seq<Entry<V>>) {
    forall i, j :: 0 <= i < j < |entries| ==> entries[i].key != entries[j].key
  }

  function Newest<V>(entries: seq<Entry<V>>, n: nat): seq<Entry<V>> {
    if |entries| <= n then entries else entries[|entries| - n..]
  }

  // The state after a lookup: another snapshot's contents are dropped, a hit becomes most recent.
  function AfterGet<V>(s: CacheState<V>, snapshot: Option<string>, key: string): CacheState<V> {
    if snapshot != s.snapshot then s.(snapshot := snapshot, entries := [], misses := s.misses + 1)
    else
      match Find(s.entries, key)
      case None => s.(misses := s.misses + 1)
      case Some(v) => s.(entries := Without(s.entries, key) + [Entry(key, v)], hits := s.hits + 1)
  }

  function Held<V>(s: CacheState<V>, snapshot: Option<string>, key: string): Option<V> {
    if snapshot != s.snapshot then None else Find(s.entries, key)
  }

  // The state after a store: the entry becomes most recent and the oldest beyond the bound go.
  function AfterPut<V>(s: CacheState<V>, snapshot: Option<string>, key: string, value: V, bound: nat): CacheState<V> {
    var held := if snapshot != s.snapshot then [] else s.entries;
    var all := Without(held, key) + [Entry(key, value)];
    CacheState(snapshot, Newest(all, bound), s.hits, s.misses, s.evictions + (|all| - |Newest(all, bound)|))
  }

  function AfterClear<V>(s: CacheState<V>): CacheState<V> {
    s.(snapshot := None, entries := [])
  }

  lemma {:induction false} WithoutSpec<V>(entries: seq<Entry<V>>, key: string)
    ensures forall e :: e in Without(entries, key) <==> e in entries && e.key != key
    ensures forall i :: 0 <= i < |Without(entries, key)| ==>
              Without(entries, key)[i] in entries && Without(entries, key)[i].key != key
    ensures |Without(entries, key)| <= |entries|
    ensures Find(entries, key).None? <==> Without(entries, key) == entries
  {
    if entries != [] {
      WithoutSpec(entries[1..], key);
      assert entries == [entries[0]] + entries[1..];
    }
  }

  lemma {:induction false} WithoutStaysDistinct<V>(entries: seq<Entry<V>>, key: string)
    requires DistinctKeys(entries)
    ensures DistinctKeys(Without(entries, key))
  {
    if entries != [] {
      var rest := Without(entries[1..], key);
      WithoutStaysDistinct(entries[1..], key);
      WithoutSpec(entries[1..], key);
      assert forall i :: 0 <= i < |rest| ==> rest[i] in entries[1..];
    }
  }

  lemma {:induction false} WithoutRemovesOne<V>(entries: seq<Entry<V>>, key: string)
    requires DistinctKeys(entries)
    ensures |Without(entries, key)| == if Find(entries, key).Some? then |entries| - 1 else |entries|
  {
    if entries != [] {
      WithoutRemovesOne(entries[1..], key);
      FindSpec(entries[1..], key);
    }
  }

  // Moving a key to the most recent end keeps the keys distinct.
  lemma MoveToEndSpec<V>(entries: seq<Entry<V>>, e: Entry<V>)
    requires DistinctKeys(entries)
    ensures DistinctKeys(Without(entries, e.key) + [e])
    ensures |Without(entries, e.key) + [e]| == if Find(entries, e.key).Some? then |entries| else |entries| + 1
  {
    WithoutSpec(entries, e.key);
    WithoutStaysDistinct(entries, e.key);
    WithoutRemovesOne(entries, e.key);
  }

  lemma {:induction false} FindSpec<V>(entries: seq<Entry<V>>, key: string)
    ensures Find(entries, key).None? <==> forall e :: e in entries ==> e.key != key
    ensures Find(entries, key).Some? ==> Entry(key, Find(entries, key).value) in entries
    ensures DistinctKeys(entries) ==> forall e :: e in entries && e.key == key ==> Find(entries, key) == Some(e.value)
  {
    if entries != [] {
      FindSpec(entries[1..], key);
      assert entries == [entries[0]] + entries[1..];
    }
  }

  class SnapshotCache<V> {
    var entries: seq<Entry<V>>
    var snapshot: Option<string>
    const maxEntries: nat
    var hits: nat
    var misses: nat
    var evictions: nat

    ghost predicate Valid()
      reads this
    {
      DistinctKeys(entries) && |entries| <= maxEntries
    }

    ghost function State(): CacheState<V>
      reads this
    {
      CacheState(snapshot, entries, hits, misses, evictions)
    }

    constructor (maxEntries: nat)
      ensures Valid() && this.maxEntries == maxEntries
      ensures State() == CacheState(None, [], 0, 0, 0)
    {
      this.maxEntries := maxEntries;
      entries, snapshot, hits, misses, evictions := [], None, 0, 0, 0;
    }

    method Reset(snapshotId: Option<string>)
      modifies this`entries, this`snapshot
      ensures entries == [] && snapshot == snapshotId
    {
      entries := [];
      snapshot := snapshotId;
    }

    method Get(snapshotId: Option<string>, key: string) returns (value: Option<V>)
      requires Valid()
      modifies this
      ensures Valid()
      ensures State() == AfterGet(old(State()), snapshotId, key)
      ensures value == Held(old(State()), snapshotId, key)
      ensures value.Some? ==> snapshotId == old(snapshot) && Entry(key, value.value) in old(entries)
      ensures value.None? ==> snapshotId != old(snapshot) || forall e :: e in old(entries) ==> e.key != key
      ensures snapshot == snapshotId
      ensures hits == old(hits) + (if value.Some? then 1 else 0) && misses == old(misses) + (if value.Some? then 0 else 1)
    {
      FindSpec(entries, key);
      if snapshotId != snapshot {
        Reset(snapshotId);
        misses := misses + 1;
        return None;
      }
      value := Find(entries, key);
      if value.None? {
        misses := misses + 1;
        return None;
      }
      MoveToEndSpec(entries, Entry(key, value.value));
      entries := Without(entries, key) + [Entry(key, value.value)];
      hits := hits + 1;
    }

    // Drops the least recently used entries until the bound holds.
    method Shrink()
      requires DistinctKeys(entries)
      modifies this`entries, this`evictions
      ensures Valid()
      ensures entries == Newest(old(entries), maxEntries)
      ensures evictions == old(evictions) + (|old(entries)| - |entries|)
    {
      while |entries| > maxEntries
        invariant |entries| <= |old(entries)| && entries == old(entries)[|old(entries)| - |entries|..]
        invariant |entries| >= maxEntries || entries == old(entries)
        invariant evictions == old(evictions) + (|old(entries)| - |entries|)
      {
        entries := entries[1..];
        evictions := evictions + 1;
      }
    }

    method Put(snapshotId: Option<string>, key: string, value: V)
      requires Valid()
      modifies this
      ensures Valid()
      ensures State() == AfterPut(old(State()), snapshotId, key, value, maxEntries)
      ensures snapshot == snapshotId && (maxEntries > 0 ==> entries != [] && entries[|entries| - 1] == Entry(key, value))
      ensures forall e :: e in entries ==> e == Entry(key, value) || (snapshotId == old(snapshot) && e in old(entries) && e.key != key)
      ensures snapshotId == old(snapshot) && (|old(entries)| < maxEntries || Find(old(entries), key).Some?) ==>
                forall e :: e in old(entries) && e.key != key ==> e in entries
    {
      ghost var held := if snapshotId != snapshot then [] else entries;
      WithoutSpec(held, key);
      if snapshotId != snapshot {
        Reset(snapshotId);
      }
      MoveToEndSpec(entries, Entry(key, value));
      entries := Without(entries, key) + [Entry(key, value)];
      Shrink();
    }

    method Clear()
      modifies this
      ensures Valid()
      ensures State() == AfterClear(old(State()))
      ensures entries == [] && snapshot == None && (hits, misses, evictions) == old((hits, misses, evictions))
    {
      Reset(None);
    }
  }
}
