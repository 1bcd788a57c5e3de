/** The write-back cache of a diff database and the view it gives of the store below
    (pkg/db/diffdb/cachedb.go). */
module DiffCache {
  import opened Basics
  import opened Codec
  import opened KeyOrder

  /** `init` is the stored value before any change, absent for a key that is not stored. */
  datatype CacheValue = CacheValue(init: Option<Bytes>, value: Bytes, dirty: bool, deleted: bool)

  type Cache = map<Bytes, CacheValue>

  // ---------------------------------------------------------------- the view

  /** What the overlay answers for a key. */
  function Live(base: Store, c: Cache, k: Bytes): Option<Bytes> {
    if k in c then (if c[k].deleted then None else Some(c[k].value))
    else if k in base then Some(base[k])
    else None
  }

  /** The store as seen through the cache. */
  function View(base: Store, c: Cache): Store {
    map k | k in base.Keys + c.Keys && Live(base, c, k).Some? :: Live(base, c, k).value
  }

  /** What a cache entry says about the stored value, and how its flags go together. */
  predicate EntryConsistent(base: Store, k: Bytes, v: CacheValue) {
    && v.init == (if k in base then Some(base[k]) else None)
    && (v.init.None? ==> !v.deleted)
    && (v.init.Some? && !v.dirty && !v.deleted ==> v.value == v.init.value)
  }

  ghost predicate Consistent(base: Store, c: Cache) {
    forall k :: k in c ==> EntryConsistent(base, k, c[k])
  }

  /** Caching a stored value does not change the view. */
  lemma CachingKeepsView(base: Store, c: Cache, k: Bytes)
    requires Consistent(base, c) && k !in c && k in base
    ensures
      var cached := c[k := CacheValue(Some(base[k]), base[k], false, false)];
      Consistent(base, cached) && View(base, cached) == View(base, c)
  {
  }

  lemma SettingChangesView(base: Store, c: Cache, k: Bytes, value: Bytes)
    requires Consistent(base, c)
    ensures k in c ==>
              var set1 := c[k := c[k].(deleted := false, dirty := true, value := value)];
              Consistent(base, set1) && View(base, set1) == View(base, c)[k := value]
    ensures k !in c && k !in base ==>
              var added := c[k := CacheValue(None, value, false, false)];
              Consistent(base, added) && View(base, added) == View(base, c)[k := value]
  {
  }

  lemma DeletingChangesView(base: Store, c: Cache, k: Bytes)
    requires Consistent(base, c) && (k in base ==> k in c)
    ensures k in c && c[k].init.None? ==> Consistent(base, c - {k}) && View(base, c - {k}) == View(base, c) - {k}
    ensures k in c && c[k].init.Some? ==>
              var gone := c[k := c[k].(deleted := true)];
              Consistent(base, gone) && View(base, gone) == View(base, c) - {k}
    ensures k !in c ==> View(base, c) == View(base, c) - {k}
  {
  }

  // ---------------------------------------------------------------- cacheDB

  /** What get returns: a value, a pending deletion, or nothing. */
  datatype Cached = Present(value: Bytes) | Deleted | Unknown

  class CacheDB {
    var data: Cache

    constructor ()
      ensures data == map[]
    {
      data := map[];
    }

    /** A value for a key that is not stored. */
    method Add(key: Bytes, value: Bytes)
      modifies this`data
      ensures data == old(data)[key := CacheValue(None, value, false, false)]
    {
      data := data[key := CacheValue(None, value, false, false)];
    }

    /** The stored value of a key. */
    method CacheStored(key: Bytes, value: Bytes)
      modifies this`data
      ensures data == old(data)[key := CacheValue(Some(value), value, false, false)]
    {
      data := data[key := CacheValue(Some(value), value, false, false)];
    }

    method Set(key: Bytes, value: Bytes)
      requires key in data
      modifies this`data
      ensures data == old(data)[key := old(data)[key].(deleted := false, dirty := true, value := value)]
    {
      data := data[key := data[key].(deleted := false, dirty := true, value := value)];
    }

    method Get(key: Bytes) returns (r: Cached)
      ensures r == if key !in data then Unknown else if data[key].deleted then Deleted else Present(data[key].value)
    {
      if key !in data {
        return Unknown;
      }
      if data[key].deleted {
        return Deleted;
      }
      return Present(data[key].value);
    }

    method Del(key: Bytes)
      modifies this`data
      ensures data == if key !in old(data) then old(data)
                      else if old(data)[key].init.None? then old(data) - {key}
                      else old(data)[key := old(data)[key].(deleted := true)]
    {
      if key !in data {
        return;
      }
      if data[key].init.None? {
        data := data - {key};
        return;
      }
      data := data[key := data[key].(deleted := true)];
    }

    /** The live entries from `start` to `end`, in no particular order. */
    method DataBetween(prefix: Bytes, start: Bytes, end: Bytes) returns (r: seq<Entry>)
      ensures DistinctKeys(r)
      ensures forall k: Bytes, v: Bytes :: Entry(k, v) in r <==> LiveBetween(data, prefix, start, end, k, v)
    {
      hide InRange;
      r := [];
      var keys := data.Keys;
      while keys != {}
        invariant keys <= data.Keys && DistinctKeys(r)
        invariant forall i :: 0 <= i < |r| ==> prefix + r[i].key !in keys
        invariant forall k: Bytes, v: Bytes :: Entry(k, v) in r <==> prefix + k !in keys && LiveBetween(data, prefix, start, end, k, v)
        decreases |keys|
      {
        var key :| key in keys;
        keys := keys - {key};
        if !data[key].deleted && InRange(key, prefix + start, prefix + end) {
          BetweenHasPrefix(prefix, key, start, end);
          r := r + [Entry(key[|prefix|..], data[key].value)];
          PickedEntry(data, prefix, start, end, key);
        } else {
          SkippedEntry(data, prefix, start, end, key);
        }
      }
    }

    /** A copy that shares nothing with the original. */
    method Copy() returns (c: CacheDB)
      ensures fresh(c) && c.data == data
    {
      c := new CacheDB();
      var keys := data.Keys;
      while keys != {}
        invariant keys <= data.Keys && fresh(c)
        invariant c.data == map k | k in data && k !in keys :: data[k]
        decreases |keys|
      {
        var key :| key in keys;
        keys := keys - {key};
        c.data := c.data[key := data[key]];
      }
    }
  }

  predicate LiveBetween(data: Cache, prefix: Bytes, start: Bytes, end: Bytes, k: Bytes, v: Bytes) {
    prefix + k in data && !data[prefix + k].deleted && data[prefix + k].value == v && InRange(k, start, end)
  }

  lemma PickedEntry(data: Cache, prefix: Bytes, start: Bytes, end: Bytes, key: Bytes)
    requires key in data && !data[key].deleted && prefix <= key && InRange(key[|prefix|..], start, end)
    ensures LiveBetween(data, prefix, start, end, key[|prefix|..], data[key].value)
    ensures prefix + key[|prefix|..] == key
    ensures forall k: Bytes, v: Bytes :: prefix + k == key && LiveBetween(data, prefix, start, end, k, v) ==>
              Entry(k, v) == Entry(key[|prefix|..], data[key].value)
  {
    assert prefix + key[|prefix|..] == key;
    forall k: Bytes | prefix + k == key ensures k == key[|prefix|..] {
      SamePrefix(prefix, k, key[|prefix|..]);
    }
  }

  lemma SkippedEntry(data: Cache, prefix: Bytes, start: Bytes, end: Bytes, key: Bytes)
    requires key in data && (data[key].deleted || !InRange(key, prefix + start, prefix + end))
    ensures forall k: Bytes, v: Bytes :: prefix + k == key ==> !LiveBetween(data, prefix, start, end, k, v)
  {
    forall k: Bytes, v: Bytes | prefix + k == key ensures !LiveBetween(data, prefix, start, end, k, v) {
      InRangePrefixed(prefix, k, start, end);
    }
  }
}
