/** The diff database: reads and writes through a cache over a fixed store, and snapshots of the cache
    (pkg/db/diffdb/db.go). */
module DiffDb {
  import opened Basics
  import opened Codec
  import opened KeyOrder
  import opened DiffCache

  // ---------------------------------------------------------------- the store below

  function AtLeastOne(limit: int): nat { if limit < 1 then 1 else limit }

  /** The entries of a range of the ordered store; unless `limit` is -1, the first `limit` of them, at least one. */
  method IterateRange(store: Store, start: Bytes, end: Bytes, limit: int, reverse: bool) returns (kv: seq<Entry>)
    ensures Ordered(kv, reverse)
    ensures forall e :: e in kv ==> e.key in store && store[e.key] == e.value && InRange(e.key, start, end)
    ensures limit != -1 ==> |kv| <= AtLeastOne(limit)
    ensures forall k :: k in store && InRange(k, start, end) && !HasKey(kv, k) ==>
              limit != -1 && |kv| == AtLeastOne(limit) && forall e :: e in kv ==> Before(e.key, k, reverse)
  {
    hide InRange, Before, Ordered, Sorted;
    var all: seq<Entry> := [];
    var keys := store.Keys;
    while keys != {}
      invariant keys <= store.Keys && DistinctKeys(all)
      invariant forall e :: e in all ==> e.key !in keys && e.key in store && store[e.key] == e.value && InRange(e.key, start, end)
      invariant forall k :: k in store && k !in keys && InRange(k, start, end) ==> Entry(k, store[k]) in all
      decreases |keys|
    {
      var key :| key in keys;
      keys := keys - {key};
      if InRange(key, start, end) {
        all := all + [Entry(key, store[key])];
      }
    }
    kv := Sorted(all, reverse);
    SortedOrdered(all, reverse);
    forall e ensures e in kv <==> e in all { SortedContents(all, reverse, e); }
    if limit != -1 {
      var count := AtLeastOne(limit);
      if |kv| > count {
        ghost var whole := kv;
        OrderedPrefix(whole, reverse, count);
        kv := kv[..count];
        forall k | k in store && InRange(k, start, end) && !HasKey(kv, k)
          ensures forall e :: e in kv ==> Before(e.key, k, reverse)
        {
          assert Entry(k, store[k]) in whole;
          AfterPrefix(whole, reverse, count, Entry(k, store[k]));
        }
      }
    }
  }

  lemma {:induction false} OrderedPrefix(r: seq<Entry>, reverse: bool, n: nat)
    requires Ordered(r, reverse) && n <= |r|
    ensures Ordered(r[..n], reverse)
  {
    hide Before;
    if n > 0 {
      OrderedPrefix(r[1..], reverse, n - 1);
      assert r[..n][1..] == r[1..][..n - 1];
    }
  }

  lemma PrefixAt(r: seq<Entry>, n: nat, i: nat)
    requires n <= |r| && i < |r|
    ensures i < n ==> HasKey(r[..n], r[i].key)
  {
    if i < n { assert r[..n][i] == r[i]; }
  }

  lemma AfterPrefix(r: seq<Entry>, reverse: bool, n: nat, e: Entry)
    requires Ordered(r, reverse) && 1 <= n <= |r| && e in r && !HasKey(r[..n], e.key)
    ensures forall f :: f in r[..n] ==> Before(f.key, e.key, reverse)
  {
    hide Before, Ordered;
    var i :| 0 <= i < |r| && r[i] == e;
    PrefixAt(r, n, i);
    forall f | f in r[..n] ensures Before(f.key, e.key, reverse) {
      var j :| 0 <= j < n && r[..n][j] == f;
      OrderedAt(r, reverse, j, i);
    }
  }

  // ---------------------------------------------------------------- merging

  /** The entries whose key is not among those of `cached`. */
  function Missing(stored: seq<Entry>, cached: seq<Entry>): seq<Entry> {
    if stored == [] then []
    else if HasKey(cached, stored[0].key) then Missing(stored[1..], cached)
    else [stored[0]] + Missing(stored[1..], cached)
  }

  function Limited(r: seq<Entry>, limit: int): seq<Entry> {
    if limit > -1 && |r| > limit then r[..limit] else r
  }

  /** mergeSortLimit. */
  method MergeSortLimit(cached: seq<Entry>, stored: seq<Entry>, reverse: bool, limit: int) returns (result: seq<Entry>)
    ensures result == Limited(Sorted(cached + Missing(stored, cached), reverse), limit)
  {
    hide Sorted, HasKey;
    var existing: set<Bytes> := {};
    result := [];
    NoKeys();
    for i := 0 to |cached|
      invariant result == cached[..i]
      invariant forall k :: k in existing <==> HasKey(cached[..i], k)
    {
      HasKeyGrows(cached, i);
      existing := existing + {cached[i].key};
      result := result + [cached[i]];
    }
    assert cached[..|cached|] == cached;
    ghost var whole := cached + Missing(stored, cached);
    for i := 0 to |stored|
      invariant result + Missing(stored[i..], cached) == whole
    {
      ghost var before := result;
      assert stored[i..][1..] == stored[i + 1..];
      if stored[i].key !in existing {
        result := result + [stored[i]];
        assert before + ([stored[i]] + Missing(stored[i + 1..], cached)) == result + Missing(stored[i + 1..], cached);
      }
    }
    assert result == whole;
    result := Sorted(result, reverse);
    if limit > -1 && |result| > limit {
      result := result[..limit];
    }
  }

  lemma NoKeys()
    ensures forall k :: !HasKey([], k)
  {
  }

  lemma HasKeyGrows(r: seq<Entry>, i: nat)
    requires i < |r|
    ensures forall k :: HasKey(r[..i + 1], k) <==> HasKey(r[..i], k) || k == r[i].key
  {
    assert r[..i + 1] == r[..i] + [r[i]];
    forall k ensures HasKey(r[..i + 1], k) <==> HasKey(r[..i], k) || k == r[i].key {
      if HasKey(r[..i], k) {
        var j :| 0 <= j < i && r[..i][j].key == k;
        assert r[..i + 1][j].key == k;
      }
      if k == r[i].key { assert r[..i + 1][i].key == k; }
    }
  }

  lemma {:induction false} NothingMissing(stored: seq<Entry>, cached: seq<Entry>)
    requires forall i :: 0 <= i < |stored| ==> HasKey(cached, stored[i].key)
    ensures Missing(stored, cached) == []
  {
    hide HasKey;
    if stored != [] { NothingMissing(stored[1..], cached); }
  }

  // ---------------------------------------------------------------- what a range reads in

  /** Only stored values were added to the cache. */
  ghost predicate ReadIn(base: Store, before: Cache, after: Cache) {
    && (forall k :: k in before ==> k in after && after[k] == before[k])
    && (forall k :: k in after && k !in before ==> k in base && after[k] == CacheValue(Some(base[k]), base[k], false, false))
  }

  lemma ReadInNothing(base: Store, c: Cache)
    ensures ReadIn(base, c, c)
  {
  }

  lemma ReadInStep(base: Store, before: Cache, after: Cache, k: Bytes)
    requires ReadIn(base, before, after) && k in base && k !in after
    ensures ReadIn(base, before, after[k := CacheValue(Some(base[k]), base[k], false, false)])
  {
  }

  lemma ReadInKeepsView(base: Store, before: Cache, after: Cache)
    requires Consistent(base, before) && ReadIn(base, before, after)
    ensures Consistent(base, after) && View(base, after) == View(base, before)
  {
  }

  /** The live cache entries of a range are entries of the view, and all of them once the stored ones are read in. */
  lemma CachedRange(base: Store, c: Cache, prefix: Bytes, start: Bytes, end: Bytes, k: Bytes, v: Bytes)
    ensures LiveBetween(c, prefix, start, end, k, v) ==>
              prefix + k in View(base, c) && View(base, c)[prefix + k] == v && InRange(k, start, end)
    ensures prefix + k in View(base, c) && View(base, c)[prefix + k] == v && InRange(k, start, end) && prefix + k in c ==>
              LiveBetween(c, prefix, start, end, k, v)
  {
    hide InRange;
  }

  // ---------------------------------------------------------------- the first entry of a range

  ghost predicate InRangeOf(m: Store, prefix: Bytes, start: Bytes, end: Bytes, k: Bytes) {
    prefix + k in m && InRange(k, start, end)
  }

  /** `k` is the first key of the range. */
  ghost predicate IsFirst(m: Store, prefix: Bytes, start: Bytes, end: Bytes, reverse: bool, k: Bytes) {
    && InRangeOf(m, prefix, start, end, k)
    && (forall l :: InRangeOf(m, prefix, start, end, l) ==> l == k || Before(k, l, reverse))
  }

  /** `r` is the first entry of the range, or nothing if the range is empty. */
  ghost predicate IsFirstOnly(r: seq<Entry>, m: Store, prefix: Bytes, start: Bytes, end: Bytes, reverse: bool) {
    if r == [] then forall k :: !InRangeOf(m, prefix, start, end, k)
    else |r| == 1 && IsFirst(m, prefix, start, end, reverse, r[0].key)
  }

  /** The first visible entry of the range is cached, or it is the first stored one. */
  ghost predicate FirstReachable(base: Store, c: Cache, prefix: Bytes, start: Bytes, end: Bytes, reverse: bool) {
    forall k :: IsFirst(View(base, c), prefix, start, end, reverse, k) ==>
      prefix + k in c || IsFirst(base, prefix, start, end, reverse, k)
  }

  lemma {:induction false} FirstAmong(keys: set<Bytes>, reverse: bool) returns (k: Bytes)
    requires keys != {}
    ensures k in keys && forall l :: l in keys ==> l == k || Before(k, l, reverse)
    decreases |keys|
  {
    hide Before;
    var x :| x in keys;
    if keys - {x} == {} {
      assert keys == {x};
      return x;
    }
    var y := FirstAmong(keys - {x}, reverse);
    BeforeTotal(x, y, reverse);
    k := if Before(x, y, reverse) then x else y;
    forall l | l in keys ensures l == k || Before(k, l, reverse) {
      if k == x && l != x && l != y { BeforeTransitive(x, y, l, reverse); }
    }
  }

  lemma BeforePrefixed(p: Bytes, a: Bytes, b: Bytes, reverse: bool)
    ensures Before(p + a, p + b, reverse) <==> Before(a, b, reverse)
  {
    hide Less;
    LessPrefixed(p, a, b);
    LessPrefixed(p, b, a);
  }

  /** A range that is not empty has a first key. */
  lemma FirstExists(m: Store, prefix: Bytes, start: Bytes, end: Bytes, reverse: bool, some: Bytes) returns (k: Bytes)
    requires InRangeOf(m, prefix, start, end, some)
    ensures IsFirst(m, prefix, start, end, reverse, k)
  {
    hide Before, InRange;
    var keys := set f | f in m && InRange(f, prefix + start, prefix + end);
    InRangePrefixed(prefix, some, start, end);
    assert prefix + some in keys;
    var f := FirstAmong(keys, reverse);
    BetweenHasPrefix(prefix, f, start, end);
    k := f[|prefix|..];
    forall l | InRangeOf(m, prefix, start, end, l) ensures l == k || Before(k, l, reverse) {
      InRangePrefixed(prefix, l, start, end);
      BeforePrefixed(prefix, k, l, reverse);
      SamePrefix(prefix, k, l);
    }
  }

  lemma FirstIsUnique(m: Store, prefix: Bytes, start: Bytes, end: Bytes, reverse: bool, k: Bytes, l: Bytes)
    requires IsFirst(m, prefix, start, end, reverse, k) && IsFirst(m, prefix, start, end, reverse, l)
    ensures k == l
  {
    hide Before, InRange;
    BeforeTotal(k, l, reverse);
  }

  /** What the store returned for the limit 1 is the first stored key of the range. */
  lemma OneStored(base: Store, kv: seq<Entry>, prefix: Bytes, start: Bytes, end: Bytes, reverse: bool, k: Bytes)
    requires |kv| <= 1
    requires forall e :: e in kv ==> e.key in base && InRange(e.key, prefix + start, prefix + end)
    requires forall f :: f in base && InRange(f, prefix + start, prefix + end) && !HasKey(kv, f) ==>
               |kv| == 1 && forall e :: e in kv ==> Before(e.key, f, reverse)
    ensures HasKey(kv, prefix + k) <==> IsFirst(base, prefix, start, end, reverse, k)
  {
    hide Before, InRange;
    InRangePrefixed(prefix, k, start, end);
    if HasKey(kv, prefix + k) {
      assert kv[0] in kv && kv[0].key == prefix + k;
      forall l | InRangeOf(base, prefix, start, end, l) ensures l == k || Before(k, l, reverse) {
        InRangePrefixed(prefix, l, start, end);
        BeforePrefixed(prefix, k, l, reverse);
        SamePrefix(prefix, k, l);
      }
    } else if IsFirst(base, prefix, start, end, reverse, k) {
      var e := kv[0];
      BetweenHasPrefix(prefix, e.key, start, end);
      var l := e.key[|prefix|..];
      BeforePrefixed(prefix, l, k, reverse);
      assert InRangeOf(base, prefix, start, end, l);
      BeforeTotal(k, l, reverse);
    }
  }

  /** With the limit 1 the right entry comes out exactly when it is reachable. */
  lemma LimitOne(base: Store, before: Cache, after: Cache, kv: seq<Entry>, all: seq<Entry>,
                 prefix: Bytes, start: Bytes, end: Bytes, reverse: bool)
    requires Consistent(base, before) && ReadIn(base, before, after)
    requires forall k :: k in after <==> k in before || HasKey(kv, k)
    requires forall k: Bytes :: HasKey(kv, prefix + k) <==> IsFirst(base, prefix, start, end, reverse, k)
    requires Ordered(all, reverse)
    requires forall k: Bytes, v: Bytes :: Entry(k, v) in all <==> LiveBetween(after, prefix, start, end, k, v)
    ensures IsFirstOnly(Limited(all, 1), View(base, before), prefix, start, end, reverse) <==>
            FirstReachable(base, before, prefix, start, end, reverse)
  {
    hide Before, InRange, View, Ordered, Consistent, IsFirst, LiveBetween;
    var view := View(base, before);
    var r := Limited(all, 1);
    ReadInKeepsView(base, before, after);
    if FirstReachable(base, before, prefix, start, end, reverse) {
      ReachableIsFound(base, before, after, kv, all, prefix, start, end, reverse);
    }
    if IsFirstOnly(r, view, prefix, start, end, reverse) {
      forall k | IsFirst(view, prefix, start, end, reverse, k)
        ensures prefix + k in before || IsFirst(base, prefix, start, end, reverse, k)
      {
        FoundIsReachable(base, before, after, kv, all, prefix, start, end, reverse, k);
      }
    }
  }

  lemma FirstInRange(m: Store, prefix: Bytes, start: Bytes, end: Bytes, reverse: bool, k: Bytes)
    requires IsFirst(m, prefix, start, end, reverse, k)
    ensures InRangeOf(m, prefix, start, end, k)
  {
  }

  lemma FoundIsReachable(base: Store, before: Cache, after: Cache, kv: seq<Entry>, all: seq<Entry>,
                         prefix: Bytes, start: Bytes, end: Bytes, reverse: bool, k: Bytes)
    requires forall k :: k in after <==> k in before || HasKey(kv, k)
    requires forall k: Bytes :: HasKey(kv, prefix + k) <==> IsFirst(base, prefix, start, end, reverse, k)
    requires forall k: Bytes, v: Bytes :: Entry(k, v) in all <==> LiveBetween(after, prefix, start, end, k, v)
    requires IsFirstOnly(Limited(all, 1), View(base, before), prefix, start, end, reverse)
    requires IsFirst(View(base, before), prefix, start, end, reverse, k)
    ensures prefix + k in before || IsFirst(base, prefix, start, end, reverse, k)
  {
    hide Before, InRange, View, Ordered, Consistent, IsFirst;
    FirstInRange(View(base, before), prefix, start, end, reverse, k);
    FirstIsUnique(View(base, before), prefix, start, end, reverse, k, all[0].key);
    assert Entry(k, all[0].value) in all;
  }

  lemma ReachableIsFound(base: Store, before: Cache, after: Cache, kv: seq<Entry>, all: seq<Entry>,
                         prefix: Bytes, start: Bytes, end: Bytes, reverse: bool)
    requires Consistent(base, before) && ReadIn(base, before, after)
    requires forall k :: k in after <==> k in before || HasKey(kv, k)
    requires forall k: Bytes :: HasKey(kv, prefix + k) <==> IsFirst(base, prefix, start, end, reverse, k)
    requires Ordered(all, reverse)
    requires forall k: Bytes, v: Bytes :: Entry(k, v) in all <==> LiveBetween(after, prefix, start, end, k, v)
    requires FirstReachable(base, before, prefix, start, end, reverse)
    ensures IsFirstOnly(Limited(all, 1), View(base, before), prefix, start, end, reverse)
  {
    hide Before, InRange, View, Ordered, Consistent, IsFirst, LiveBetween;
    var view := View(base, before);
    ReadInKeepsView(base, before, after);
    if some :| InRangeOf(view, prefix, start, end, some) {
      var k := FirstExists(view, prefix, start, end, reverse, some);
      FirstInRange(view, prefix, start, end, reverse, k);
      CachedRange(base, after, prefix, start, end, k, view[prefix + k]);
      assert Entry(k, view[prefix + k]) in all;
      CachedRange(base, after, prefix, start, end, all[0].key, all[0].value);
      assert all[0] == Entry(all[0].key, all[0].value);
      HeadIsFirst(view, all, prefix, start, end, reverse, k);
    } else {
      forall e | e in all ensures InRangeOf(view, prefix, start, end, e.key) {
        assert e == Entry(e.key, e.value);
        CachedRange(base, after, prefix, start, end, e.key, e.value);
      }
      Inhabited(all);
    }
  }

  lemma HeadIsFirst(view: Store, all: seq<Entry>, prefix: Bytes, start: Bytes, end: Bytes, reverse: bool, k: Bytes)
    requires Ordered(all, reverse) && IsFirst(view, prefix, start, end, reverse, k)
    requires exists v :: Entry(k, v) in all
    requires InRangeOf(view, prefix, start, end, all[0].key)
    ensures all[0].key == k
  {
    hide Before, InRange, Ordered;
    var v :| Entry(k, v) in all;
    var i :| 0 <= i < |all| && all[i] == Entry(k, v);
    if i > 0 {
      OrderedAt(all, reverse, 0, i);
      BeforeTotal(all[0].key, k, reverse);
    }
  }

  /** A pending deletion can hide a stored entry from a limited range: with 2 deleted, 1 is not found. */
  lemma HiddenByDeletion()
    ensures
      var base: Store := map[[1] := [7], [2] := [8]];
      var c: Cache := map[[2] := CacheValue(Some([8]), [8], false, true)];
      Consistent(base, c) && InRangeOf(View(base, c), [], [0], [9], [1]) && !FirstReachable(base, c, [], [0], [9], true)
  {
    var base: Store := map[[1] := [7], [2] := [8]];
    var c: Cache := map[[2] := CacheValue(Some([8]), [8], false, true)];
    var k: Bytes, l: Bytes := [1], [2];
    assert [] + k == k && [] + l == l;
    var view := View(base, c);
    assert view == map[[1] := [7]];
    assert k != l && !Less(l, k) && InRange(k, [0], [9]) && InRange(l, [0], [9]);
    forall j: Bytes | InRangeOf(view, [], [0], [9], j) ensures j == k { assert [] + j == j; }
    assert IsFirst(view, [], [0], [9], true, k);
    assert InRangeOf(base, [], [0], [9], l);
  }

  // ---------------------------------------------------------------- Database

  lemma InView(base: Store, c: Cache, k: Bytes)
    ensures k in View(base, c) ==> k in c || k in base
  {
  }

  lemma OrderedLimited(r: seq<Entry>, reverse: bool, limit: int)
    requires Ordered(r, reverse)
    ensures Ordered(Limited(r, limit), reverse)
    ensures forall e :: e in Limited(r, limit) ==> e in r
  {
    hide Ordered;
    if limit > -1 && |r| > limit { OrderedPrefix(r, reverse, limit); }
  }

  /** Every stored entry that was read in is among the cached ones. */
  lemma AllCached(c: Cache, prefix: Bytes, start: Bytes, end: Bytes, cached: seq<Entry>, stored: seq<Entry>)
    requires forall k: Bytes, v: Bytes :: Entry(k, v) in cached <==> LiveBetween(c, prefix, start, end, k, v)
    requires forall i :: 0 <= i < |stored| ==>
               prefix + stored[i].key in c && !c[prefix + stored[i].key].deleted && InRange(stored[i].key, start, end)
    ensures forall i :: 0 <= i < |stored| ==> HasKey(cached, stored[i].key)
  {
    hide InRange;
    forall i | 0 <= i < |stored| ensures HasKey(cached, stored[i].key) {
      assert LiveBetween(c, prefix, start, end, stored[i].key, c[prefix + stored[i].key].value);
      assert Entry(stored[i].key, c[prefix + stored[i].key].value) in cached;
    }
  }

  class Database {
    const store: Store
    const prefix: Bytes
    var cache: CacheDB
    var snapshots: map<nat, CacheDB>
    var snapshotCount: nat

    /** Every cache agrees with the store, and no two of them are shared. */
    ghost predicate Valid()
      reads this, cache, snapshots.Values
    {
      && Consistent(store, cache.data)
      && (forall id :: id in snapshots ==> id < snapshotCount && snapshots[id] != cache && Consistent(store, snapshots[id].data))
      && (forall i, j :: i in snapshots && j in snapshots && i != j ==> snapshots[i] != snapshots[j])
    }

    /** The contents of the database as its users see them. */
    ghost function Contents(): Store
      reads this, cache
    {
      View(store, cache.data)
    }

    ghost function SnapshotContents(id: nat): Store
      requires id in snapshots
      reads this, snapshots.Values
    {
      View(store, snapshots[id].data)
    }

    constructor (base: Store, keyPrefix: Bytes)
      ensures Valid() && store == base && prefix == keyPrefix && fresh(cache)
      ensures Contents() == base && cache.data == map[] && snapshots == map[] && snapshotCount == 0
    {
      store, prefix, snapshots, snapshotCount := base, keyPrefix, map[], 0;
      cache := new CacheDB();
    }

    method Get(key: Bytes) returns (r: Option<Bytes>)
      requires Valid()
      modifies cache
      ensures Valid() && Contents() == old(Contents())
      ensures r == if prefix + key in Contents() then Some(Contents()[prefix + key]) else None
    {
      hide Consistent;
      var cached := cache.Get(prefix + key);
      match cached {
        case Present(value) => return Some(value);
        case Deleted => return None;
        case Unknown =>
      }
      if prefix + key !in store {
        return None;
      }
      CachingKeepsView(store, cache.data, prefix + key);
      cache.CacheStored(prefix + key, store[prefix + key]);
      return Some(store[prefix + key]);
    }

    method Set(key: Bytes, value: Bytes)
      requires Valid()
      modifies cache
      ensures Valid() && Contents() == old(Contents())[prefix + key := value]
      ensures forall k :: k in cache.data && cache.data[k].deleted ==> k in old(cache.data) && old(cache.data)[k].deleted
    {
      hide Consistent, View;
      var prefixedKey := prefix + key;
      if prefixedKey in cache.data {
        SettingChangesView(store, cache.data, prefixedKey, value);
        cache.Set(prefixedKey, value);
        return;
      }
      var dataExist := EnsureCache(prefixedKey);
      SettingChangesView(store, cache.data, prefixedKey, value);
      if dataExist {
        cache.Set(prefixedKey, value);
        return;
      }
      cache.Add(prefixedKey, value);
    }

    method Del(key: Bytes)
      requires Valid()
      modifies cache
      ensures Valid() && Contents() == old(Contents()) - {prefix + key}
      ensures forall k :: k in cache.data && cache.data[k].deleted ==>
                k == prefix + key || (k in old(cache.data) && old(cache.data)[k].deleted)
    {
      hide View;
      var prefixedKey := prefix + key;
      if prefixedKey !in cache.data {
        var _ := EnsureCache(prefixedKey);
      }
      DeletingChangesView(store, cache.data, prefixedKey);
      cache.Del(prefixedKey);
    }

    /** ensureCache. */
    method EnsureCache(key: Bytes) returns (exists_: bool)
      requires Valid() && key !in cache.data
      modifies cache
      ensures Valid() && Contents() == old(Contents())
      ensures exists_ <==> key in store
      ensures cache.data == if key in store then old(cache.data)[key := CacheValue(Some(store[key]), store[key], false, false)] else old(cache.data)
    {
      hide Consistent, View;
      if key !in store {
        return false;
      }
      CachingKeepsView(store, cache.data, key);
      cache.CacheStored(key, store[key]);
      return true;
    }

    /** Range: always entries of the contents in order; without a limit, all of the range. With the limit 1 the
        first of the range, exactly when that is cached or nothing stored comes before it. */
    method Range(start: Bytes, end: Bytes, limit: int, reverse: bool) returns (r: seq<Entry>)
      requires Valid()
      modifies cache
      ensures Valid() && Contents() == old(Contents()) && ReadIn(store, old(cache.data), cache.data)
      ensures Ordered(r, reverse)
      ensures forall k: Bytes, v: Bytes :: Entry(k, v) in r ==>
                prefix + k in Contents() && Contents()[prefix + k] == v && InRange(k, start, end)
      ensures limit > -1 ==> |r| <= limit
      ensures limit == -1 ==> IsRange(r, Contents(), prefix, start, end, reverse)
      ensures limit == 1 ==>
                (IsFirstOnly(r, Contents(), prefix, start, end, reverse) <==>
                 FirstReachable(store, old(cache.data), prefix, start, end, reverse))
    {
      hide Consistent, View, InRange, Ordered, Sorted, LiveBetween, Missing, IsFirst, IsFirstOnly, FirstReachable, Before;
      var kv := IterateRange(store, prefix + start, prefix + end, limit, reverse);
      var stored := ReadStored(kv, start, end);
      ReadInKeepsView(store, old(cache.data), cache.data);
      var cached := cache.DataBetween(prefix, start, end);
      r := MergeSortLimit(cached, stored, reverse, limit);
      AllCached(cache.data, prefix, start, end, cached, stored);
      NothingMissing(stored, cached);
      assert cached + [] == cached;
      SortedOrdered(cached, reverse);
      OrderedLimited(Sorted(cached, reverse), reverse, limit);
      forall k: Bytes, v: Bytes
        ensures Entry(k, v) in Sorted(cached, reverse) <==> LiveBetween(cache.data, prefix, start, end, k, v)
      {
        SortedContents(cached, reverse, Entry(k, v));
      }
      forall k: Bytes, v: Bytes | Entry(k, v) in r
        ensures prefix + k in Contents() && Contents()[prefix + k] == v && InRange(k, start, end)
      {
        CachedRange(store, cache.data, prefix, start, end, k, v);
      }
      if limit == 1 {
        forall k: Bytes ensures HasKey(kv, prefix + k) <==> IsFirst(store, prefix, start, end, reverse, k) {
          OneStored(store, kv, prefix, start, end, reverse, k);
        }
        LimitOne(store, old(cache.data), cache.data, kv, Sorted(cached, reverse), prefix, start, end, reverse);
      }
      if limit == -1 {
        forall k: Bytes, v: Bytes
          ensures Entry(k, v) in r <==> prefix + k in Contents() && Contents()[prefix + k] == v && InRange(k, start, end)
        {
          CachedRange(store, cache.data, prefix, start, end, k, v);
          InRangePrefixed(prefix, k, start, end);
          if prefix + k in store && InRange(k, start, end) { assert HasKey(kv, prefix + k); }
          InView(store, cache.data, prefix + k);
        }
      }
    }

    /** The loop of Range over the stored entries: those not pending deletion are cached. */
    method ReadStored(kv: seq<Entry>, ghost start: Bytes, ghost end: Bytes) returns (stored: seq<Entry>)
      requires Valid()
      requires forall e :: e in kv ==> e.key in store && store[e.key] == e.value && InRange(e.key, prefix + start, prefix + end)
      modifies cache
      ensures ReadIn(store, old(cache.data), cache.data)
      ensures forall k :: HasKey(kv, k) ==> k in cache.data
      ensures forall k :: k in cache.data ==> k in old(cache.data) || HasKey(kv, k)
      ensures forall i :: 0 <= i < |stored| ==>
                prefix + stored[i].key in cache.data && !cache.data[prefix + stored[i].key].deleted && InRange(stored[i].key, start, end)
    {
      hide Consistent, InRange, ReadIn;
      stored := [];
      ReadInNothing(store, cache.data);
      for i := 0 to |kv|
        invariant ReadIn(store, old(cache.data), cache.data)
        invariant forall j :: 0 <= j < i ==> kv[j].key in cache.data
        invariant forall k :: k in cache.data ==> k in old(cache.data) || HasKey(kv, k)
        invariant forall j :: 0 <= j < |stored| ==>
                    prefix + stored[j].key in cache.data && !cache.data[prefix + stored[j].key].deleted && InRange(stored[j].key, start, end)
      {
        assert kv[i] in kv;
        BetweenHasPrefix(prefix, kv[i].key, start, end);
        var cached := cache.Get(kv[i].key);
        if cached.Deleted? {
          continue;
        }
        if cached.Unknown? {
          ReadInStep(store, old(cache.data), cache.data, kv[i].key);
          cache.CacheStored(kv[i].key, kv[i].value);
        }
        stored := stored + [Entry(kv[i].key[|prefix|..], if cached.Present? then cached.value else [])];
      }
    }

    /** Snapshot. */
    method Snapshot() returns (id: nat)
      requires Valid()
      modifies this`snapshots, this`snapshotCount
      ensures Valid() && Contents() == old(Contents()) && cache == old(cache)
      ensures id == old(snapshotCount) && id in snapshots && SnapshotContents(id) == Contents()
      ensures snapshots.Keys == old(snapshots).Keys + {id} && forall i :: i in old(snapshots) ==> snapshots[i] == old(snapshots)[i]
    {
      hide Consistent, View;
      var copied := cache.Copy();
      id := snapshotCount;
      snapshots := snapshots[id := copied];
      snapshotCount := snapshotCount + 1;
    }

    method DeleteSnapshot(id: nat)
      requires Valid()
      modifies this`snapshots
      ensures Valid() && Contents() == old(Contents()) && cache == old(cache) && snapshots == old(snapshots) - {id}
    {
      hide Consistent, View;
      snapshots := snapshots - {id};
    }

    /** RestoreSnapshot: the contents are those at the time of the snapshot, whatever happened since. */
    method RestoreSnapshot(id: nat) returns (ok: bool)
      requires Valid()
      modifies this`cache, this`snapshots
      ensures Valid() && (ok <==> id in old(snapshots))
      ensures ok ==> Contents() == old(SnapshotContents(id)) && snapshots == old(snapshots) - {id}
      ensures !ok ==> Contents() == old(Contents()) && snapshots == old(snapshots)
    {
      hide Consistent, View;
      if id !in snapshots {
        return false;
      }
      cache := snapshots[id];
      snapshots := snapshots - {id};
      return true;
    }
  }
}
