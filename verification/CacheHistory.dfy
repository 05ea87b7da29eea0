// When a lookup hits, told from the calls alone.
module CacheHistory {
  import opened Basics
  import opened Cache
  import opened LruInclusion

  // What a lookup returns after these calls.
  function Answer<V>(calls: seq<Call<V>>, bound: nat, snapshot: Option<string>, key: string): Option<V> {
    Held(Run(calls, bound), snapshot, key)
  }

  // The key a call used: one it stored, or one it looked up and was given.
  function UsedBy<V>(calls: seq<Call<V>>, bound: nat, j: nat): Option<string>
    requires j < |calls|
  {
    match calls[j]
    case Put(_, key, _) => Some(key)
    case Get(snapshot, key) => if Answer(calls[..j], bound, snapshot, key).Some? then Some(key) else None
    case Clear => None
  }

  predicate Keeps<V>(call: Call<V>, snapshot: Option<string>) {
    !call.Clear? && call.snapshot == snapshot
  }

  // v was the last value stored under the key, at p, and since then there was no clear and no call with
  // another snapshot id.
  ghost predicate LastPut<V>(calls: seq<Call<V>>, snapshot: Option<string>, key: string, v: V, p: nat) {
    && p < |calls| && calls[p] == Call.Put(snapshot, key, v)
    && forall j :: p < j < |calls| ==> Keeps(calls[j], snapshot) && !(calls[j].Put? && calls[j].key == key)
  }

  ghost predicate LastUse<V>(calls: seq<Call<V>>, bound: nat, key: string, u: nat) {
    && u < |calls| && UsedBy(calls, bound, u) == Some(key)
    && forall j :: u < j < |calls| ==> UsedBy(calls, bound, j) != Some(key)
  }

  // The keys used after call u.
  function UsedSince<V>(calls: seq<Call<V>>, bound: nat, u: nat): set<string> {
    set j | u < j < |calls| && UsedBy(calls, bound, j).Some? :: UsedBy(calls, bound, j).value
  }

  /******* The recency order *******/

  function KeysOf<V>(entries: seq<Entry<V>>): set<string> {
    if entries == [] then {} else {entries[0].key} + KeysOf(entries[1..])
  }

  // The keys more recent than the given one.
  function KeysAfter<V>(entries: seq<Entry<V>>, key: string): set<string> {
    if entries == [] then {}
    else if entries[0].key == key then KeysOf(entries[1..])
    else KeysAfter(entries[1..], key)
  }

  lemma {:induction false} KeysOfMember<V>(entries: seq<Entry<V>>, k: string)
    ensures k in KeysOf(entries) <==> Find(entries, k).Some?
  {
    if entries != [] {
      KeysOfMember(entries[1..], k);
    }
  }

  lemma {:induction false} KeysOfSize<V>(entries: seq<Entry<V>>)
    ensures |KeysOf(entries)| <= |entries|
    ensures DistinctKeys(entries) ==> |KeysOf(entries)| == |entries|
  {
    if entries != [] {
      var k, rest := entries[0].key, entries[1..];
      KeysOfSize(rest);
      KeysOfMember(rest, k);
      FindSpec(rest, k);
      assert KeysOf(entries) == KeysOf(rest) + {k};
      if k in KeysOf(rest) {
        assert KeysOf(entries) == KeysOf(rest);
      }
    }
  }

  lemma {:induction false} KeysOfMoved<V>(entries: seq<Entry<V>>, e: Entry<V>)
    ensures KeysOf(Without(entries, e.key) + [e]) == KeysOf(entries) + {e.key}
  {
    if entries == [] {
      assert [e][1..] == [];
    } else {
      KeysOfMoved(entries[1..], e);
      if entries[0].key != e.key {
        assert (Without(entries, e.key) + [e])[1..] == Without(entries[1..], e.key) + [e];
      }
    }
  }

  // Moving another key to the recent end puts it after every key, and changes nothing else.
  lemma {:induction false} MovedAfter<V>(entries: seq<Entry<V>>, e: Entry<V>, key: string)
    requires key != e.key
    ensures Find(Without(entries, e.key) + [e], key) == Find(entries, key)
    ensures Find(entries, key).Some? ==> KeysAfter(Without(entries, e.key) + [e], key) == KeysAfter(entries, key) + {e.key}
  {
    if entries == [] {
      assert [e][1..] == [];
    } else {
      var rest := Without(entries[1..], e.key) + [e];
      if entries[0].key == e.key {
        MovedAfter(entries[1..], e, key);
      } else {
        assert (Without(entries, e.key) + [e])[1..] == rest;
        if entries[0].key == key {
          KeysOfMoved(entries[1..], e);
        } else {
          MovedAfter(entries[1..], e, key);
        }
      }
    }
  }

  lemma {:induction false} MovedIsLast<V>(entries: seq<Entry<V>>, e: Entry<V>)
    ensures Find(Without(entries, e.key) + [e], e.key) == Some(e.value)
    ensures KeysAfter(Without(entries, e.key) + [e], e.key) == {}
  {
    if entries == [] {
      assert [e][1..] == [];
    } else {
      MovedIsLast(entries[1..], e);
      if entries[0].key != e.key {
        assert (Without(entries, e.key) + [e])[1..] == Without(entries[1..], e.key) + [e];
      }
    }
  }

  lemma {:induction false} AfterIsLess<V>(entries: seq<Entry<V>>, key: string)
    requires Find(entries, key).Some?
    ensures |KeysAfter(entries, key)| < |entries|
  {
    KeysOfSize(entries[1..]);
    if entries[0].key != key {
      AfterIsLess(entries[1..], key);
    }
  }

  // Eviction keeps a key exactly when fewer than n keys are more recent.
  lemma {:induction false} NewestKeeps<V>(entries: seq<Entry<V>>, n: nat, key: string)
    requires DistinctKeys(entries)
    ensures Find(Newest(entries, n), key) ==
            if Find(entries, key).Some? && |KeysAfter(entries, key)| < n then Find(entries, key) else None
    ensures Find(Newest(entries, n), key).Some? ==> KeysAfter(Newest(entries, n), key) == KeysAfter(entries, key)
  {
    if |entries| <= n {
      if Find(entries, key).Some? {
        AfterIsLess(entries, key);
      }
    } else {
      var rest := entries[1..];
      assert Newest(entries, n) == Newest(rest, n);
      NewestKeeps(rest, n, key);
      if entries[0].key == key {
        KeysOfSize(rest);
        FindSpec(rest, key);
        assert Find(rest, key).None?;
      }
    }
  }

  /******* One key's history *******/

  // The key's last value and the keys used since its last use, as long as the snapshot lasts.
  function Track<V>(calls: seq<Call<V>>, bound: nat, snapshot: Option<string>, key: string): Option<(V, set<string>)> {
    if calls == [] then None
    else
      var n := |calls| - 1;
      var c, t, used := calls[n], Track(calls[..n], bound, snapshot, key), UsedBy(calls, bound, n);
      if !Keeps(c, snapshot) then None
      else if c.Put? && c.key == key then Some((c.value, {}))
      else if t.None? || used.None? then t
      else if used == Some(key) then Some((t.value.0, {}))
      else Some((t.value.0, t.value.1 + {used.value}))
  }

  lemma UsedByPrefix<V>(calls: seq<Call<V>>, bound: nat, n: nat, j: nat)
    requires j < n <= |calls|
    ensures UsedBy(calls[..n], bound, j) == UsedBy(calls, bound, j)
  {
    assert calls[..n][..j] == calls[..j];
  }

  predicate Stores<V>(c: Call<V>, key: string) {
    c.Put? && c.key == key
  }

  lemma LastPutStep<V>(calls: seq<Call<V>>, snapshot: Option<string>, key: string, v: V, p: nat)
    requires calls != [] && !Stores(calls[|calls| - 1], key)
    ensures LastPut(calls, snapshot, key, v, p) <==>
            p < |calls| - 1 && Keeps(calls[|calls| - 1], snapshot) && LastPut(calls[..|calls| - 1], snapshot, key, v, p)
  {
    var init := calls[..|calls| - 1];
    assert forall j :: 0 <= j < |init| ==> init[j] == calls[j];
  }

  // The value Track carries is that of the last put, if there is one.
  ghost predicate IsLastPut<V(!new)>(calls: seq<Call<V>>, snapshot: Option<string>, key: string, t: Option<(V, set<string>)>) {
    if t.Some? then exists p: nat :: LastPut(calls, snapshot, key, t.value.0, p)
    else forall v, p: nat :: !LastPut(calls, snapshot, key, v, p)
  }

  lemma LastPutStays<V(!new)>(calls: seq<Call<V>>, snapshot: Option<string>, key: string, t: Option<(V, set<string>)>, t': Option<(V, set<string>)>)
    requires calls != [] && !Stores(calls[|calls| - 1], key) && IsLastPut(calls[..|calls| - 1], snapshot, key, t)
    requires if Keeps(calls[|calls| - 1], snapshot) && t.Some? then t'.Some? && t'.value.0 == t.value.0 else t'.None?
    ensures IsLastPut(calls, snapshot, key, t')
  {
    forall v, p: nat
      ensures LastPut(calls, snapshot, key, v, p) <==>
              p < |calls| - 1 && Keeps(calls[|calls| - 1], snapshot) && LastPut(calls[..|calls| - 1], snapshot, key, v, p)
    {
      LastPutStep(calls, snapshot, key, v, p);
    }
    if t'.Some? {
      var p: nat :| LastPut(calls[..|calls| - 1], snapshot, key, t.value.0, p);
      assert LastPut(calls, snapshot, key, t'.value.0, p);
    }
  }

  lemma {:induction false} TrackIsLastPut<V(!new)>(calls: seq<Call<V>>, bound: nat, snapshot: Option<string>, key: string)
    ensures IsLastPut(calls, snapshot, key, Track(calls, bound, snapshot, key))
  {
    if calls != [] {
      var n := |calls| - 1;
      var c := calls[n];
      if Stores(c, key) {
        if Keeps(c, snapshot) {
          assert LastPut(calls, snapshot, key, c.value, n);
        } else {
          assert forall v, p: nat :: !LastPut(calls, snapshot, key, v, p);
        }
      } else {
        TrackIsLastPut(calls[..n], bound, snapshot, key);
        LastPutStays(calls, snapshot, key, Track(calls[..n], bound, snapshot, key), Track(calls, bound, snapshot, key));
      }
    }
  }

  lemma {:induction false} TrackIsLastUse<V>(calls: seq<Call<V>>, bound: nat, snapshot: Option<string>, key: string)
    ensures var t := Track(calls, bound, snapshot, key);
            t.Some? ==> exists u: nat :: LastUse(calls, bound, key, u) && t.value.1 == UsedSince(calls, bound, u)
  {
    var t := Track(calls, bound, snapshot, key);
    if t.Some? {
      var n := |calls| - 1;
      var init, used := calls[..n], UsedBy(calls, bound, n);
      if used == Some(key) {
        assert LastUse(calls, bound, key, n) && UsedSince(calls, bound, n) == {};
      } else {
        TrackIsLastUse(init, bound, snapshot, key);
        var u: nat :| LastUse(init, bound, key, u) && Track(init, bound, snapshot, key).value.1 == UsedSince(init, bound, u);
        UseStays(calls, bound, key, u);
      }
    }
  }

  lemma UseStays<V>(calls: seq<Call<V>>, bound: nat, key: string, u: nat)
    requires calls != [] && UsedBy(calls, bound, |calls| - 1) != Some(key) && LastUse(calls[..|calls| - 1], bound, key, u)
    ensures LastUse(calls, bound, key, u)
    ensures var used := UsedBy(calls, bound, |calls| - 1);
            UsedSince(calls, bound, u) ==
            UsedSince(calls[..|calls| - 1], bound, u) + if used.Some? then {used.value} else {}
  {
    var n := |calls| - 1;
    forall j | 0 <= j < n ensures UsedBy(calls[..n], bound, j) == UsedBy(calls, bound, j) {
      UsedByPrefix(calls, bound, n, j);
    }
  }

  lemma LastUseIsOne<V>(calls: seq<Call<V>>, bound: nat, key: string, u: nat, u': nat)
    requires LastUse(calls, bound, key, u) && LastUse(calls, bound, key, u')
    ensures u == u'
  {
  }

  lemma LastPutIsOne<V>(calls: seq<Call<V>>, snapshot: Option<string>, key: string, v: V, p: nat, v': V, p': nat)
    requires LastPut(calls, snapshot, key, v, p) && LastPut(calls, snapshot, key, v', p')
    ensures p == p' && v == v'
  {
  }

  /******* The cache against the history *******/

  // The cache holds the key exactly when fewer keys than the bound were used since, and then with those
  // keys after it.
  ghost predicate Agrees<V>(s: CacheState<V>, bound: nat, snapshot: Option<string>, key: string, t: Option<(V, set<string>)>) {
    if snapshot != s.snapshot then t.None?
    else
      && Find(s.entries, key) == (if t.Some? && |t.value.1| < bound then Some(t.value.0) else None)
      && (Find(s.entries, key).Some? ==> t.value.1 == KeysAfter(s.entries, key))
  }

  ghost predicate Bounded<V>(s: CacheState<V>, bound: nat) {
    DistinctKeys(s.entries) && |s.entries| <= bound
  }

  lemma {:induction false} RunIsBounded<V>(calls: seq<Call<V>>, bound: nat)
    ensures Bounded(Run(calls, bound), bound)
  {
    LargerCacheIncludesSmaller(calls, bound, bound);
  }

  lemma GetAgrees<V>(s: CacheState<V>, bound: nat, snapshot: Option<string>, key: string, t: Option<(V, set<string>)>, k: string)
    requires Bounded(s, bound) && Agrees(s, bound, snapshot, key, t)
    ensures var t' := if Held(s, snapshot, k).None? || t.None? then t
                      else if k == key then Some((t.value.0, {})) else Some((t.value.0, t.value.1 + {k}));
            Agrees(AfterGet(s, snapshot, k), bound, snapshot, key, t')
  {
    if snapshot == s.snapshot && Find(s.entries, k).Some? {
      var e := Entry(k, Find(s.entries, k).value);
      MoveToEndSpec(s.entries, e);
      if k == key {
        MovedIsLast(s.entries, e);
        AfterIsLess(s.entries, key);
      } else {
        MovedAfter(s.entries, e, key);
        if Find(s.entries, key).Some? {
          AfterIsLess(Without(s.entries, k) + [e], key);
        } else if t.Some? {
          Grows(t.value.1, k);
        }
      }
    }
  }

  lemma Grows(a: set<string>, k: string)
    ensures |a| <= |a + {k}|
  {
    if k in a {
      assert a + {k} == a;
    } else {
      assert |a + {k}| == |a| + 1;
    }
  }

  lemma PutAgrees<V>(s: CacheState<V>, bound: nat, snapshot: Option<string>, key: string, t: Option<(V, set<string>)>, k: string, v: V)
    requires Bounded(s, bound) && Agrees(s, bound, snapshot, key, t)
    ensures var t' := if k == key then Some((v, {}))
                      else if t.None? then None else Some((t.value.0, t.value.1 + {k}));
            Agrees(AfterPut(s, snapshot, k, v, bound), bound, snapshot, key, t')
  {
    var held := if snapshot != s.snapshot then [] else s.entries;
    var e := Entry(k, v);
    var all := Without(held, k) + [e];
    MoveToEndSpec(held, e);
    NewestKeeps(all, bound, key);
    if k == key {
      MovedIsLast(held, e);
    } else {
      MovedAfter(held, e, key);
      if t.Some? {
        Grows(t.value.1, k);
      }
    }
  }

  lemma {:induction false} RunAgrees<V>(calls: seq<Call<V>>, bound: nat, snapshot: Option<string>, key: string)
    ensures Agrees(Run(calls, bound), bound, snapshot, key, Track(calls, bound, snapshot, key))
  {
    if calls != [] {
      var n := |calls| - 1;
      var c, init := calls[n], calls[..n];
      RunAgrees(init, bound, snapshot, key);
      RunIsBounded(init, bound);
      if Keeps(c, snapshot) {
        var s, t := Run(init, bound), Track(init, bound, snapshot, key);
        match c
        case Get(_, k) => GetAgrees(s, bound, snapshot, key, t, k);
        case Put(_, k, v) => PutAgrees(s, bound, snapshot, key, t, k, v);
      } else {
        OtherSnapshotDrops(Run(init, bound), c, bound, snapshot, key);
      }
    }
  }

  lemma OtherSnapshotDrops<V>(s: CacheState<V>, c: Call<V>, bound: nat, snapshot: Option<string>, key: string)
    requires !Keeps(c, snapshot)
    ensures Agrees(Next(s, c, bound), bound, snapshot, key, None)
  {
  }

  // Exactly when a lookup hits, and with what, after any calls with any snapshot ids: v was the last value
  // stored under the key, there was no clear and no call with another snapshot id since, and since the
  // key's last use fewer other keys than the bound were stored or found.
  lemma LookupHitsExactly<V(!new)>(calls: seq<Call<V>>, bound: nat, snapshot: Option<string>, key: string, v: V)
    ensures Answer(calls, bound, snapshot, key) == Some(v) <==>
            exists p: nat, u: nat :: LastPut(calls, snapshot, key, v, p) && LastUse(calls, bound, key, u)
                                     && |UsedSince(calls, bound, u)| < bound
  {
    var t := Track(calls, bound, snapshot, key);
    RunAgrees(calls, bound, snapshot, key);
    TrackIsLastPut(calls, bound, snapshot, key);
    TrackIsLastUse(calls, bound, snapshot, key);
    if t.Some? {
      var p: nat :| LastPut(calls, snapshot, key, t.value.0, p);
      var u: nat :| LastUse(calls, bound, key, u) && t.value.1 == UsedSince(calls, bound, u);
      forall v', p': nat, u': nat | LastPut(calls, snapshot, key, v', p') && LastUse(calls, bound, key, u') ensures v' == t.value.0 && u' == u {
        LastPutIsOne(calls, snapshot, key, v', p', t.value.0, p);
        LastUseIsOne(calls, bound, key, u, u');
      }
    }
  }

  /******* The counters *******/

  // How many lookups there were, and how many of them were answered.
  function Lookups<V>(calls: seq<Call<V>>): nat {
    if calls == [] then 0 else Lookups(calls[..|calls| - 1]) + if calls[|calls| - 1].Get? then 1 else 0
  }

  function Answered<V>(calls: seq<Call<V>>, bound: nat): nat {
    if calls == [] then 0
    else
      var n := |calls| - 1;
      Answered(calls[..n], bound) + if calls[n].Get? && UsedBy(calls, bound, n).Some? then 1 else 0
  }

  lemma {:induction false} CountersCount<V>(calls: seq<Call<V>>, bound: nat)
    ensures var s := Run(calls, bound); s.hits == Answered(calls, bound) && s.hits + s.misses == Lookups(calls)
  {
    if calls != [] {
      CountersCount(calls[..|calls| - 1], bound);
    }
  }
}
