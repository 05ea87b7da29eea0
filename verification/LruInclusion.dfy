// Two caches of different bounds under the same calls.
module LruInclusion {
  import opened Basics
  import opened Cache

  datatype Call<V> =
    | Get(snapshot: Option<string>, key: string)
    | Put(snapshot: Option<string>, key: string, value: V)
    | Clear

  function Next<V>(s: CacheState<V>, call: Call<V>, bound: nat): CacheState<V> {
    match call
    case Get(snapshot, key) => AfterGet(s, snapshot, key)
    case Put(snapshot, key, value) => AfterPut(s, snapshot, key, value, bound)
    case Clear => AfterClear(s)
  }

  function Run<V>(calls: seq<Call<V>>, bound: nat): CacheState<V> {
    if calls == [] then CacheState(None, [], 0, 0, 0)
    else Next(Run(calls[..|calls| - 1], bound), calls[|calls| - 1], bound)
  }

  // a is obtained from b by leaving entries out.
  ghost predicate Sub<V>(a: seq<Entry<V>>, b: seq<Entry<V>>) {
    if a == [] then true
    else if b == [] then false
    else if a[0] == b[0] then Sub(a[1..], b[1..])
    else Sub(a, b[1..])
  }

  lemma {:induction false} SubSelf<V>(a: seq<Entry<V>>)
    ensures Sub(a, a)
  {
    if a != [] {
      SubSelf(a[1..]);
    }
  }

  lemma {:induction false} SubTail<V>(a: seq<Entry<V>>, b: seq<Entry<V>>)
    requires Sub(a, b) && a != []
    ensures b != [] && Sub(a[1..], b[1..]) && Sub(a[1..], b)
    decreases |b|, 0
  {
    if a[0] != b[0] {
      SubTail(a, b[1..]);
    }
    SubExtendFront(a[1..], b[1..], b[0]);
    assert [b[0]] + b[1..] == b;
  }

  lemma {:induction false} SubExtendFront<V>(a: seq<Entry<V>>, b: seq<Entry<V>>, e: Entry<V>)
    requires Sub(a, b)
    ensures Sub(a, [e] + b)
    decreases |b|, 1
  {
    assert ([e] + b)[1..] == b;
    if a != [] && a[0] == e {
      SubTail(a, b);
    }
  }

  lemma {:induction false} SubAppend<V>(a: seq<Entry<V>>, b: seq<Entry<V>>, e: Entry<V>)
    requires Sub(a, b)
    ensures Sub(a + [e], b + [e]) && Sub(a, b + [e])
  {
    if b == [] {
      assert a + [e] == b + [e];
      SubSelf(a + [e]);
    } else {
      assert (b + [e])[1..] == b[1..] + [e];
      if a == [] {
        SubAppend(a, b[1..], e);
        SubExtendFront(a + [e], b[1..] + [e], b[0]);
        assert [b[0]] + (b[1..] + [e]) == b + [e];
      } else if a[0] == b[0] {
        SubAppend(a[1..], b[1..], e);
        assert (a + [e])[1..] == a[1..] + [e];
      } else {
        SubAppend(a, b[1..], e);
      }
    }
  }

  lemma {:induction false} SubMembers<V>(a: seq<Entry<V>>, b: seq<Entry<V>>)
    requires Sub(a, b)
    ensures forall e :: e in a ==> e in b
    ensures |a| <= |b|
  {
    if a != [] {
      SubMembers(if a[0] == b[0] then a[1..] else a, b[1..]);
      assert a == [a[0]] + a[1..] && b == [b[0]] + b[1..];
    }
  }

  lemma {:induction false} SubWithout<V>(a: seq<Entry<V>>, b: seq<Entry<V>>, key: string)
    requires Sub(a, b)
    ensures Sub(Without(a, key), Without(b, key))
  {
    if a != [] {
      if a[0] == b[0] {
        SubWithout(a[1..], b[1..], key);
        if a[0].key != key {
          assert Without(a, key)[1..] == Without(a[1..], key) && Without(b, key)[1..] == Without(b[1..], key);
        }
      } else {
        SubWithout(a, b[1..], key);
        SubExtendFront(Without(a, key), Without(b[1..], key), b[0]);
      }
    }
  }

  // The smaller cache a holds a subsequence of the larger b, and is full unless they agree.
  ghost predicate Included<V>(a: CacheState<V>, b: CacheState<V>, n: nat, m: nat) {
    && a.snapshot == b.snapshot
    && DistinctKeys(a.entries) && DistinctKeys(b.entries)
    && |a.entries| <= n && |b.entries| <= m
    && Sub(a.entries, b.entries)
    && (|a.entries| == n || a.entries == b.entries)
    && a.hits <= b.hits
  }

  lemma HitCarriesOver<V>(a: CacheState<V>, b: CacheState<V>, n: nat, m: nat, snapshot: Option<string>, key: string)
    requires Included(a, b, n, m)
    ensures Held(a, snapshot, key).Some? ==> Held(b, snapshot, key) == Held(a, snapshot, key)
  {
    SubMembers(a.entries, b.entries);
    FindSpec(a.entries, key);
    FindSpec(b.entries, key);
  }

  lemma GetKeepsInclusion<V>(a: CacheState<V>, b: CacheState<V>, n: nat, m: nat, snapshot: Option<string>, key: string)
    requires Included(a, b, n, m)
    ensures Included(AfterGet(a, snapshot, key), AfterGet(b, snapshot, key), n, m)
  {
    if snapshot == a.snapshot {
      HitCarriesOver(a, b, n, m, snapshot, key);
      if Find(b.entries, key).Some? {
        var e := Entry(key, Find(b.entries, key).value);
        WithoutSpec(a.entries, key);
        MoveToEndSpec(a.entries, e);
        MoveToEndSpec(b.entries, e);
        SubWithout(a.entries, b.entries, key);
        SubAppend(Without(a.entries, key), Without(b.entries, key), e);
      }
    }
  }

  // Eviction in both: the larger cache never drops an entry the smaller one keeps.
  lemma EvictKeepsInclusion<V>(a: seq<Entry<V>>, b: seq<Entry<V>>, n: nat, m: nat)
    requires n <= m && DistinctKeys(a) && DistinctKeys(b) && |a| <= n + 1 && |b| <= m + 1
    requires Sub(a, b) && (|b| > m ==> |a| > n) && (|a| >= n || a == b)
    ensures var a', b' := Newest(a, n), Newest(b, m);
            DistinctKeys(a') && DistinctKeys(b') && Sub(a', b') && (|a'| == n || a' == b')
  {
    if |a| > n {
      SubTail(a, b);
      assert Newest(a, n) == a[1..];
    }
    if |b| > m {
      assert Newest(b, m) == b[1..];
    }
  }

  lemma StoreKeepsInclusion<V>(a: seq<Entry<V>>, b: seq<Entry<V>>, n: nat, m: nat, e: Entry<V>)
    requires n <= m && DistinctKeys(a) && DistinctKeys(b) && |a| <= n && |b| <= m
    requires Sub(a, b) && (|a| == n || a == b)
    ensures var a', b' := Newest(Without(a, e.key) + [e], n), Newest(Without(b, e.key) + [e], m);
            DistinctKeys(a') && DistinctKeys(b') && Sub(a', b') && (|a'| == n || a' == b')
  {
    MoveToEndSpec(a, e);
    MoveToEndSpec(b, e);
    assert Find(a, e.key).Some? ==> Find(b, e.key).Some? by {
      SubMembers(a, b);
      FindSpec(a, e.key);
      FindSpec(b, e.key);
    }
    SubWithout(a, b, e.key);
    SubAppend(Without(a, e.key), Without(b, e.key), e);
    EvictKeepsInclusion(Without(a, e.key) + [e], Without(b, e.key) + [e], n, m);
  }

  lemma PutKeepsInclusion<V>(a: CacheState<V>, b: CacheState<V>, n: nat, m: nat, snapshot: Option<string>, key: string, value: V)
    requires n <= m && Included(a, b, n, m)
    ensures Included(AfterPut(a, snapshot, key, value, n), AfterPut(b, snapshot, key, value, m), n, m)
  {
    if snapshot == a.snapshot {
      StoreKeepsInclusion(a.entries, b.entries, n, m, Entry(key, value));
    } else {
      StoreKeepsInclusion([], [], n, m, Entry(key, value));
    }
  }

  // For the same calls, with whatever snapshot ids, the recency order of the smaller cache is a
  // subsequence of the larger's: it never has more hits, and neither exceeds its bound.
  lemma {:induction false} LargerCacheIncludesSmaller<V>(calls: seq<Call<V>>, n: nat, m: nat)
    requires n <= m
    ensures Included(Run(calls, n), Run(calls, m), n, m)
  {
    if calls != [] {
      var init := calls[..|calls| - 1];
      LargerCacheIncludesSmaller(init, n, m);
      match calls[|calls| - 1]
      case Get(snapshot, key) => GetKeepsInclusion(Run(init, n), Run(init, m), n, m, snapshot, key);
      case Put(snapshot, key, value) => PutKeepsInclusion(Run(init, n), Run(init, m), n, m, snapshot, key, value);
      case Clear =>
    }
  }
}
