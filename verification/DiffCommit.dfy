/** Commit and revert (pkg/db/diffdb/db.go, cachedb.go, diff.go, diff_codec.go). */
module DiffCommit {
  import opened Basics
  import opened Codec
  import opened CodecFields
  import opened CodecReader
  import opened KeyOrder
  import opened DiffCache
  import opened DiffDb

  // ---------------------------------------------------------------- batches

  datatype Op = Put(key: Bytes, value: Bytes) | Delete(key: Bytes)

  function ApplyOp(m: Store, op: Op): Store {
    match op
    case Put(k, v) => m[k := v]
    case Delete(k) => m - {k}
  }

  /** The store after a batch was written. */
  function Apply(m: Store, ops: seq<Op>): Store {
    if ops == [] then m else ApplyOp(Apply(m, ops[..|ops| - 1]), ops[|ops| - 1])
  }

  lemma ApplyStep(m: Store, ops: seq<Op>, op: Op)
    ensures Apply(m, ops + [op]) == ApplyOp(Apply(m, ops), op)
  {
    assert (ops + [op])[..|ops|] == ops;
  }

  lemma {:induction false} ApplyAppend(m: Store, ops: seq<Op>, more: seq<Op>)
    ensures Apply(m, ops + more) == Apply(Apply(m, ops), more)
  {
    if more == [] {
      assert ops + more == ops;
    } else {
      var init, last := more[..|more| - 1], more[|more| - 1];
      assert ops + more == ops + init + [last];
      assert more == init + [last];
      ApplyStep(m, ops + init, last);
      ApplyStep(Apply(m, ops), init, last);
      ApplyAppend(m, ops, init);
    }
  }

  class Batch {
    var ops: seq<Op>

    constructor ()
      ensures ops == []
    {
      ops := [];
    }

    method Set(key: Bytes, value: Bytes)
      modifies this
      ensures ops == old(ops) + [Put(key, value)]
    {
      ops := ops + [Put(key, value)];
    }

    method Del(key: Bytes)
      modifies this
      ensures ops == old(ops) + [Delete(key)]
    {
      ops := ops + [Delete(key)];
    }
  }

  // ---------------------------------------------------------------- diffs

  datatype KV = KV(key: Bytes, value: Bytes)

  datatype Diff = Diff(added: seq<Bytes>, updated: seq<KV>, deleted: seq<KV>)

  /** The diff holds what is needed to go back from `view` to `base`, and nothing else. */
  ghost predicate Undoes(diff: Diff, base: Store, view: Store) {
    && (forall k :: k in diff.added <==> k in view && k !in base)
    && (forall kv :: kv in diff.deleted <==> kv.key in base && kv.key !in view && kv.value == base[kv.key])
    && (forall kv :: kv in diff.updated ==> kv.key in base && kv.key in view && kv.value == base[kv.key])
    && (forall k :: k in base && k in view && base[k] != view[k] ==> KV(k, base[k]) in diff.updated)
  }

  /** The view on the keys already written, the store on the others. */
  ghost function Merged(base: Store, view: Store, done: set<Bytes>): Store {
    map k | k in base.Keys + view.Keys && (if k in done then k in view else k in base) :: if k in done then view[k] else base[k]
  }

  // ---------------------------------------------------------------- commit

  /** What commit does for one key: the batch operation, if any, and the diff. */
  function CommitOps(k: Bytes, v: CacheValue): seq<Op> {
    if v.init.None? then [Put(k, v.value)]
    else if v.deleted then [Delete(k)]
    else if v.dirty then [Put(k, v.value)]
    else []
  }

  function CommitDiff(diff: Diff, k: Bytes, v: CacheValue): Diff {
    if v.init.None? then diff.(added := diff.added + [k])
    else if v.deleted then diff.(deleted := diff.deleted + [KV(k, v.init.value)])
    else if v.dirty then diff.(updated := diff.updated + [KV(k, v.init.value)])
    else diff
  }

  lemma CommitStepStore(base: Store, c: Cache, done: set<Bytes>, k: Bytes, ops: seq<Op>)
    requires Consistent(base, c) && k in c && k !in done
    requires Apply(base, ops) == Merged(base, View(base, c), done)
    ensures Apply(base, ops + CommitOps(k, c[k])) == Merged(base, View(base, c), done + {k})
  {
    hide Apply;
    var op := CommitOps(k, c[k]);
    if op != [] { ApplyStep(base, ops, op[0]); } else { assert ops + op == ops; }
  }

  lemma CommitStepDiff(base: Store, c: Cache, done: set<Bytes>, k: Bytes, diff: Diff)
    requires Consistent(base, c) && k in c && k !in done
    requires Undoes(diff, base, Merged(base, View(base, c), done))
    requires forall kv :: kv in diff.updated ==> kv.key in done
    ensures forall kv :: kv in CommitDiff(diff, k, c[k]).updated ==> kv.key in done + {k}
    ensures Undoes(CommitDiff(diff, k, c[k]), base, Merged(base, View(base, c), done + {k}))
  {
    MergedStep(base, c, done, k);
    UndoesStep(base, Merged(base, View(base, c), done), Merged(base, View(base, c), done + {k}), diff, k, c[k]);
  }

  lemma MergedStep(base: Store, c: Cache, done: set<Bytes>, k: Bytes)
    requires Consistent(base, c) && k in c && k !in done
    ensures
      var m, n := Merged(base, View(base, c), done), Merged(base, View(base, c), done + {k});
      && (k in m <==> k in base) && (k in m ==> m[k] == base[k])
      && (k in n <==> !c[k].deleted) && (k in n ==> n[k] == c[k].value)
      && (forall j :: j != k ==> (j in n <==> j in m))
      && (forall j :: j != k && j in n ==> n[j] == m[j])
  {
  }

  lemma UndoesStep(base: Store, m: Store, n: Store, diff: Diff, k: Bytes, v: CacheValue)
    requires Undoes(diff, base, m) && EntryConsistent(base, k, v)
    requires forall kv :: kv in diff.updated ==> kv.key != k
    requires (k in m <==> k in base) && (k in m ==> m[k] == base[k])
    requires (k in n <==> !v.deleted) && (k in n ==> n[k] == v.value)
    requires forall j :: j != k ==> (j in n <==> j in m)
    requires forall j :: j != k && j in n ==> n[j] == m[j]
    ensures Undoes(CommitDiff(diff, k, v), base, n)
  {
  }

  lemma MergedNone(base: Store, view: Store)
    ensures Merged(base, view, {}) == base && Undoes(Diff([], [], []), base, base)
  {
  }

  lemma MergedAll(base: Store, c: Cache)
    ensures Merged(base, View(base, c), c.Keys) == View(base, c)
  {
  }

  /** Commit: the batch turns the store into the contents, and the diff undoes it. */
  method Commit(db: Database, batch: Batch) returns (diff: Diff)
    requires db.Valid()
    modifies batch
    ensures old(batch.ops) <= batch.ops
    ensures Apply(db.store, batch.ops[|old(batch.ops)|..]) == db.Contents()
    ensures Undoes(diff, db.store, db.Contents())
  {
    hide Consistent, View, Merged, Undoes, Apply, CommitOps, CommitDiff;
    var data := db.cache.data;
    diff := Diff([], [], []);
    ghost var before := batch.ops;
    var keys := data.Keys;
    MergedNone(db.store, View(db.store, data));
    NothingApplied(db.store);
    assert data.Keys - keys == {} && batch.ops[|before|..] == [];
    while keys != {}
      invariant keys <= data.Keys && before <= batch.ops
      invariant Apply(db.store, batch.ops[|before|..]) == Merged(db.store, View(db.store, data), data.Keys - keys)
      invariant Undoes(diff, db.store, Merged(db.store, View(db.store, data), data.Keys - keys))
      invariant forall kv :: kv in diff.updated ==> kv.key in data.Keys - keys
      decreases |keys|
    {
      var key :| key in keys;
      CommitStepStore(db.store, data, data.Keys - keys, key, batch.ops[|before|..]);
      CommitStepDiff(db.store, data, data.Keys - keys, key, diff);
      assert data.Keys - (keys - {key}) == data.Keys - keys + {key};
      keys := keys - {key};
      diff := CommitKey(batch, key, data[key], diff, |before|);
    }
    assert data.Keys - {} == data.Keys;
    MergedAll(db.store, data);
  }

  /** One turn of the loop in commit. */
  method CommitKey(batch: Batch, key: Bytes, value: CacheValue, diff: Diff, ghost start: nat) returns (r: Diff)
    requires start <= |batch.ops|
    modifies batch
    ensures old(batch.ops) <= batch.ops
    ensures batch.ops[start..] == old(batch.ops)[start..] + CommitOps(key, value)
    ensures r == CommitDiff(diff, key, value)
  {
    if value.init.None? {
      batch.Set(key, value.value);
      return diff.(added := diff.added + [key]);
    }
    if value.deleted {
      batch.Del(key);
      return diff.(deleted := diff.deleted + [KV(key, value.init.value)]);
    }
    if value.dirty {
      batch.Set(key, value.value);
      return diff.(updated := diff.updated + [KV(key, value.init.value)]);
    }
    return diff;
  }

  lemma NothingApplied(m: Store)
    ensures Apply(m, []) == m
  {
  }

  // ---------------------------------------------------------------- revert

  function Deletes(keys: seq<Bytes>): seq<Op> { seq(|keys|, i requires 0 <= i < |keys| => Delete(keys[i])) }

  function Puts(kvs: seq<KV>): seq<Op> { seq(|kvs|, i requires 0 <= i < |kvs| => Put(kvs[i].key, kvs[i].value)) }

  /** The batch that RevertDiff writes. */
  function RevertOps(diff: Diff): seq<Op> { Deletes(diff.added) + Puts(diff.deleted) + Puts(diff.updated) }

  lemma {:induction false} ApplyDeletes(m: Store, keys: seq<Bytes>)
    ensures Apply(m, Deletes(keys)) == m - (set k | k in keys)
  {
    if keys == [] {
    } else {
      var init, last := keys[..|keys| - 1], keys[|keys| - 1];
      assert keys == init + [last];
      assert Deletes(keys) == Deletes(init) + [Delete(last)];
      ApplyStep(m, Deletes(init), Delete(last));
      ApplyDeletes(m, init);
    }
  }

  /** Puts of values from `base` set exactly their keys to the values in `base`. */
  lemma {:induction false} ApplyPuts(m: Store, kvs: seq<KV>, base: Store)
    requires forall i :: 0 <= i < |kvs| ==> kvs[i].key in base && kvs[i].value == base[kvs[i].key]
    ensures
      var r := Apply(m, Puts(kvs));
      && (forall k :: k in r <==> k in m || (k in base && KV(k, base[k]) in kvs))
      && (forall k :: k in r ==> r[k] == if k in base && KV(k, base[k]) in kvs then base[k] else m[k])
  {
    if kvs == [] {
    } else {
      var init, last := kvs[..|kvs| - 1], kvs[|kvs| - 1];
      assert kvs == init + [last];
      assert Puts(kvs) == Puts(init) + [Put(last.key, last.value)];
      ApplyStep(m, Puts(init), Put(last.key, last.value));
      ApplyPuts(m, init, base);
      assert forall kv :: kv in kvs <==> kv in init || kv == last;
    }
  }

  /** Writing the reverting batch to the committed store gives back the store before. */
  lemma RevertRestores(diff: Diff, base: Store, view: Store)
    requires Undoes(diff, base, view)
    ensures Apply(view, RevertOps(diff)) == base
  {
    hide Apply, Deletes, Puts;
    var a := Apply(view, Deletes(diff.added));
    ApplyDeletes(view, diff.added);
    var b := Apply(a, Puts(diff.deleted));
    ApplyPuts(a, diff.deleted, base);
    var c := Apply(b, Puts(diff.updated));
    ApplyPuts(b, diff.updated, base);
    ApplyAppend(view, Deletes(diff.added), Puts(diff.deleted));
    ApplyAppend(view, Deletes(diff.added) + Puts(diff.deleted), Puts(diff.updated));
    assert c == base by { RestoredMap(diff, base, view, a, b, c); }
  }

  lemma RestoredMap(diff: Diff, base: Store, view: Store, a: Store, b: Store, c: Store)
    requires Undoes(diff, base, view)
    requires a == view - (set k | k in diff.added)
    requires forall k :: k in b <==> k in a || (k in base && KV(k, base[k]) in diff.deleted)
    requires forall k :: k in b ==> b[k] == if k in base && KV(k, base[k]) in diff.deleted then base[k] else a[k]
    requires forall k :: k in c <==> k in b || (k in base && KV(k, base[k]) in diff.updated)
    requires forall k :: k in c ==> c[k] == if k in base && KV(k, base[k]) in diff.updated then base[k] else b[k]
    ensures c == base
  {
  }

  /** RevertDiff. */
  method RevertDiff(batch: Batch, diff: Diff)
    modifies batch
    ensures batch.ops == old(batch.ops) + RevertOps(diff)
  {
    ghost var before := batch.ops;
    for i := 0 to |diff.added|
      invariant batch.ops == before + Deletes(diff.added)[..i]
    {
      batch.Del(diff.added[i]);
    }
    ghost var deletes := before + Deletes(diff.added);
    assert batch.ops == deletes;
    for i := 0 to |diff.deleted|
      invariant batch.ops == deletes + Puts(diff.deleted)[..i]
    {
      batch.Set(diff.deleted[i].key, diff.deleted[i].value);
    }
    ghost var puts := deletes + Puts(diff.deleted);
    assert batch.ops == puts;
    for i := 0 to |diff.updated|
      invariant batch.ops == puts + Puts(diff.updated)[..i]
    {
      batch.Set(diff.updated[i].key, diff.updated[i].value);
    }
    assert batch.ops == old(batch.ops) + RevertOps(diff);
  }
}
