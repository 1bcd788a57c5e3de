/** The height-indexed parameter store over a diff database (pkg/consensus/liskbft/util.go). */
module DiffParams {
  import opened Basics
  import opened Codec
  import opened KeyOrder
  import opened DiffCache
  import opened DiffDb

  const UINT32: nat := 0x1_0000_0000

  /** bytes.FromUint32: big endian. */
  function FromUint32(n: nat): (s: Bytes)
    requires n < UINT32
    ensures |s| == 4
  {
    [n / 0x100_0000, n / 0x1_0000 % 256, n / 256 % 256, n % 256]
  }

  /** The order of the keys is the order of the heights. */
  lemma HeightOrder(a: nat, b: nat)
    requires a < UINT32 && b < UINT32
    ensures Less(FromUint32(a), FromUint32(b)) <==> a < b
    ensures FromUint32(a) == FromUint32(b) <==> a == b
  {
    DigitsOf(a);
    DigitsOf(b);
    FourBytes(FromUint32(a), FromUint32(b));
    var s, t := FromUint32(a), FromUint32(b);
    FourDigits(s[0], s[1], s[2], s[3], t[0], t[1], t[2], t[3]);
  }

  lemma DigitsOf(n: nat)
    requires n < UINT32
    ensures
      var s: seq<int> := FromUint32(n);
      n == s[0] * 0x100_0000 + s[1] * 0x1_0000 + s[2] * 256 + s[3]
  {
    assert n / 0x1_0000 == n / 256 / 256;
    assert n / 0x100_0000 == n / 256 / 256 / 256;
  }

  lemma FourBytes(s: Bytes, t: Bytes)
    requires |s| == 4 && |t| == 4
    ensures Less(s, t) <==>
            s[0] < t[0] || (s[0] == t[0] && (s[1] < t[1] || (s[1] == t[1] && (s[2] < t[2] || (s[2] == t[2] && s[3] < t[3])))))
    ensures s == t <==> s[0] == t[0] && s[1] == t[1] && s[2] == t[2] && s[3] == t[3]
  {
    assert s[3..][1..] == [] && t[3..][1..] == [];
    assert s[2..][1..] == s[3..] && t[2..][1..] == t[3..];
    assert s[1..][1..] == s[2..] && t[1..][1..] == t[2..];
    assert Less(s[3..], t[3..]) <==> s[3] < t[3];
    assert Less(s[2..], t[2..]) <==> s[2] < t[2] || (s[2] == t[2] && Less(s[3..], t[3..]));
    assert Less(s[1..], t[1..]) <==> s[1] < t[1] || (s[1] == t[1] && Less(s[2..], t[2..]));
    assert Less(s, t) <==> s[0] < t[0] || (s[0] == t[0] && Less(s[1..], t[1..]));
  }

  lemma FourDigits(a0: Byte, a1: Byte, a2: Byte, a3: Byte, b0: Byte, b1: Byte, b2: Byte, b3: Byte)
    ensures
      a0 * 0x100_0000 + a1 * 0x1_0000 + a2 * 256 + a3 < b0 * 0x100_0000 + b1 * 0x1_0000 + b2 * 256 + b3 <==>
      a0 < b0 || (a0 == b0 && (a1 < b1 || (a1 == b1 && (a2 < b2 || (a2 == b2 && a3 < b3)))))
    ensures
      a0 * 0x100_0000 + a1 * 0x1_0000 + a2 * 256 + a3 == b0 * 0x100_0000 + b1 * 0x1_0000 + b2 * 256 + b3 ==>
      a0 == b0 && a1 == b1 && a2 == b2 && a3 == b3
  {
  }

  // ---------------------------------------------------------------- the newest entry up to a height

  /** The newest entry at or below `height`, if there is one. */
  ghost predicate IsNewest(r: Option<Bytes>, contents: Store, prefix: Bytes, height: nat)
    requires height < UINT32
  {
    if r.None? then forall k :: !InRangeOf(contents, prefix, FromUint32(0), FromUint32(height), k)
    else exists k :: IsFirst(contents, prefix, FromUint32(0), FromUint32(height), true, k) && r.value == contents[prefix + k]
  }

  /** The entries under the prefix belong to heights. */
  ghost predicate HeightKeys(contents: Store, prefix: Bytes) {
    forall k :: prefix + k in contents ==> exists h :: 0 <= h < UINT32 && k == FromUint32(h)
  }

  lemma HeightInRange(contents: Store, prefix: Bytes, height: nat, h: nat)
    requires height < UINT32 && h < UINT32
    ensures InRangeOf(contents, prefix, FromUint32(0), FromUint32(height), FromUint32(h)) <==>
            prefix + FromUint32(h) in contents && h <= height
  {
    hide Less, FromUint32;
    HeightOrder(0, h);
    HeightOrder(h, height);
  }

  /** The newest entry is that of the greatest height not above the one asked for. */
  lemma NewestByHeight(r: Option<Bytes>, contents: Store, prefix: Bytes, height: nat, g: nat)
    requires height < UINT32 && HeightKeys(contents, prefix)
    requires g <= height && prefix + FromUint32(g) in contents
    requires forall h :: g < h <= height ==> prefix + FromUint32(h) !in contents
    ensures IsNewest(r, contents, prefix, height) <==> r == Some(contents[prefix + FromUint32(g)])
  {
    hide Less, FromUint32, InRange;
    var lo, hi := FromUint32(0), FromUint32(height);
    HeightInRange(contents, prefix, height, g);
    forall k | InRangeOf(contents, prefix, lo, hi, k) ensures k == FromUint32(g) || Before(FromUint32(g), k, true) {
      var h :| 0 <= h < UINT32 && k == FromUint32(h);
      HeightInRange(contents, prefix, height, h);
      HeightOrder(h, g);
    }
    assert IsFirst(contents, prefix, lo, hi, true, FromUint32(g));
    forall k | IsFirst(contents, prefix, lo, hi, true, k) ensures k == FromUint32(g) {
      FirstIsUnique(contents, prefix, lo, hi, true, k, FromUint32(g));
    }
  }

  /** Below some entry up to height `min`. */
  ghost predicate CoveredBy(contents: Store, prefix: Bytes, min: nat, k: Bytes)
    requires min < UINT32
  {
    exists l :: InRangeOf(contents, prefix, FromUint32(0), FromUint32(min), l) && Less(k, l)
  }

  /** Every deletion still pending under the prefix is covered by an entry up to height `min`. */
  ghost predicate DeletionsCovered(c: Cache, contents: Store, prefix: Bytes, min: nat)
    requires min < UINT32
  {
    forall k :: prefix + k in c && c[prefix + k].deleted ==> CoveredBy(contents, prefix, min, k)
  }

  lemma WiderRange(m: Store, prefix: Bytes, min: nat, height: nat, k: Bytes)
    requires min <= height < UINT32 && InRangeOf(m, prefix, FromUint32(0), FromUint32(min), k)
    ensures InRangeOf(m, prefix, FromUint32(0), FromUint32(height), k)
  {
    hide Less, FromUint32;
    HeightOrder(min, height);
    LeqTransitive(k, FromUint32(min), FromUint32(height));
  }

  /** With all pending deletions covered, the newest entry is reachable from every height at or above `min`. */
  lemma CoveredIsReachable(base: Store, c: Cache, prefix: Bytes, min: nat, height: nat)
    requires min <= height < UINT32 && DeletionsCovered(c, View(base, c), prefix, min)
    ensures FirstReachable(base, c, prefix, FromUint32(0), FromUint32(height), true)
  {
    hide Less, InRange, FromUint32;
    var view := View(base, c);
    var lo, hi := FromUint32(0), FromUint32(height);
    forall k | IsFirst(view, prefix, lo, hi, true, k) && prefix + k !in c
      ensures IsFirst(base, prefix, lo, hi, true, k)
    {
      forall l | InRangeOf(base, prefix, lo, hi, l) ensures l == k || Before(k, l, true) {
        if InRangeOf(view, prefix, lo, hi, l) {
        } else {
          assert prefix + l in c && c[prefix + l].deleted;
          var above :| InRangeOf(view, prefix, lo, FromUint32(min), above) && Less(l, above);
          WiderRange(view, prefix, min, height, above);
          if above != k { LessTransitive(l, above, k); }
        }
      }
    }
  }

  /** getBFTParams: the lookup of the newest entry. */
  method GetParams(db: Database, height: nat) returns (r: Option<Bytes>)
    requires db.Valid() && height < UINT32
    modifies db.cache
    ensures db.Valid() && db.Contents() == old(db.Contents()) && ReadIn(db.store, old(db.cache.data), db.cache.data)
    ensures forall min: nat :: min <= height && DeletionsCovered(old(db.cache.data), db.Contents(), db.prefix, min) ==>
              IsNewest(r, db.Contents(), db.prefix, height)
  {
    hide Consistent, View, InRange, Ordered, FromUint32, DeletionsCovered, FirstReachable, IsFirst, InRangeOf, ReadIn;
    var kv := db.Range(FromUint32(0), FromUint32(height), 1, true);
    if FirstReachable(db.store, old(db.cache.data), db.prefix, FromUint32(0), FromUint32(height), true) {
      if kv != [] {
        assert kv[0] == Entry(kv[0].key, kv[0].value);
        assert kv[0] in kv;
        assert IsFirst(db.Contents(), db.prefix, FromUint32(0), FromUint32(height), true, kv[0].key);
      }
    }
    forall min: nat | min <= height && DeletionsCovered(old(db.cache.data), db.Contents(), db.prefix, min)
      ensures FirstReachable(db.store, old(db.cache.data), db.prefix, FromUint32(0), FromUint32(height), true)
    {
      CoveredIsReachable(db.store, old(db.cache.data), db.prefix, min, height);
    }
    if |kv| != 1 {
      return None;
    }
    return Some(kv[0].value);
  }

  // ---------------------------------------------------------------- pruning

  /** The contents without the entries up to `height` except the newest of them. */
  ghost predicate IsPruned(after: Store, before: Store, prefix: Bytes, height: nat)
    requires height < UINT32
  {
    && (forall k :: k in after ==> k in before && after[k] == before[k])
    && (forall k :: k in before && k !in after <==>
          exists j :: k == prefix + j && InRangeOf(before, prefix, FromUint32(0), FromUint32(height), j)
                   && !IsFirst(before, prefix, FromUint32(0), FromUint32(height), true, j))
  }

  /** The full keys of the first `n` entries. */
  ghost function Removed(prefix: Bytes, kv: seq<Entry>, n: nat): set<Bytes>
    requires n <= |kv|
  {
    set i | 0 <= i < n :: prefix + kv[i].key
  }

  /** The last entry in ascending order is the newest, and the only one. */
  lemma LastIsNewest(m: Store, prefix: Bytes, kv: seq<Entry>, lo: Bytes, hi: Bytes)
    requires IsRange(kv, m, prefix, lo, hi, false) && kv != []
    ensures IsFirst(m, prefix, lo, hi, true, kv[|kv| - 1].key)
    ensures forall i :: 0 <= i < |kv| - 1 ==> Less(kv[i].key, kv[|kv| - 1].key) && !IsFirst(m, prefix, lo, hi, true, kv[i].key)
    ensures forall i :: 0 <= i < |kv| ==> InRangeOf(m, prefix, lo, hi, kv[i].key)
    ensures forall k :: InRangeOf(m, prefix, lo, hi, k) ==> HasKey(kv, k)
  {
    hide Less, InRange, Ordered;
    var last := kv[|kv| - 1].key;
    forall i | 0 <= i < |kv| ensures InRangeOf(m, prefix, lo, hi, kv[i].key) {
      assert kv[i] == Entry(kv[i].key, kv[i].value) && kv[i] in kv;
    }
    forall i | 0 <= i < |kv| - 1 ensures Less(kv[i].key, last) {
      OrderedAt(kv, false, i, |kv| - 1);
    }
    forall k | InRangeOf(m, prefix, lo, hi, k) ensures HasKey(kv, k) {
      assert Entry(k, m[prefix + k]) in kv;
    }
    forall i | 0 <= i < |kv| - 1 ensures !IsFirst(m, prefix, lo, hi, true, kv[i].key) {
      LessTotal(kv[i].key, last);
    }
  }

  lemma NothingInRange(m: Store, prefix: Bytes, lo: Bytes, hi: Bytes)
    requires IsRange([], m, prefix, lo, hi, false)
    ensures forall k :: !InRangeOf(m, prefix, lo, hi, k)
  {
    forall k | prefix + k in m ensures !InRange(k, lo, hi) {
      assert Entry(k, m[prefix + k]) !in [];
    }
  }

  lemma PrunedByRemoving(m: Store, prefix: Bytes, kv: seq<Entry>, height: nat)
    requires height < UINT32 && IsRange(kv, m, prefix, FromUint32(0), FromUint32(height), false)
    ensures IsPruned(m - (if kv == [] then {} else Removed(prefix, kv, |kv| - 1)), m, prefix, height)
  {
    hide Less, InRange, FromUint32, Ordered, IsFirst;
    var lo, hi := FromUint32(0), FromUint32(height);
    if kv == [] {
      NothingInRange(m, prefix, lo, hi);
    } else {
      LastIsNewest(m, prefix, kv, lo, hi);
      var removed := Removed(prefix, kv, |kv| - 1);
      forall k | k in m && k in removed
        ensures exists j :: k == prefix + j && InRangeOf(m, prefix, lo, hi, j) && !IsFirst(m, prefix, lo, hi, true, j)
      {
        var i :| 0 <= i < |kv| - 1 && k == prefix + kv[i].key;
        assert InRangeOf(m, prefix, lo, hi, kv[i].key);
      }
      forall j | InRangeOf(m, prefix, lo, hi, j) && !IsFirst(m, prefix, lo, hi, true, j)
        ensures prefix + j in removed
      {
        var i :| 0 <= i < |kv| && kv[i].key == j;
        assert i != |kv| - 1;
      }
    }
  }

  /** After pruning, the newest entry covers every deletion, those of before included. */
  lemma PrunedIsCovered(before: Cache, after: Cache, m: Store, prefix: Bytes, kv: seq<Entry>, min: nat, height: nat)
    requires min <= height < UINT32 && kv != [] && IsRange(kv, m, prefix, FromUint32(0), FromUint32(height), false)
    requires DeletionsCovered(before, m, prefix, min)
    requires forall k :: k in after && after[k].deleted ==>
               k in Removed(prefix, kv, |kv| - 1) || (k in before && before[k].deleted)
    ensures DeletionsCovered(after, m - Removed(prefix, kv, |kv| - 1), prefix, height)
  {
    hide Less, InRange, FromUint32, Ordered, IsFirst;
    var lo, hi := FromUint32(0), FromUint32(height);
    LastIsNewest(m, prefix, kv, lo, hi);
    var last := kv[|kv| - 1].key;
    var left := m - Removed(prefix, kv, |kv| - 1);
    if prefix + last in Removed(prefix, kv, |kv| - 1) {
      var i :| 0 <= i < |kv| - 1 && prefix + last == prefix + kv[i].key;
      SamePrefix(prefix, last, kv[i].key);
      LessTotal(last, last);
    }
    assert InRangeOf(left, prefix, lo, hi, last);
    forall k | prefix + k in after && after[prefix + k].deleted ensures CoveredBy(left, prefix, height, k) {
      if prefix + k in Removed(prefix, kv, |kv| - 1) {
        var i :| 0 <= i < |kv| - 1 && prefix + k == prefix + kv[i].key;
        SamePrefix(prefix, k, kv[i].key);
      } else {
        var l :| InRangeOf(m, prefix, lo, FromUint32(min), l) && Less(k, l);
        WiderRange(m, prefix, min, height, l);
        var i :| 0 <= i < |kv| && kv[i].key == l;
        if i != |kv| - 1 { LessTransitive(k, l, last); }
      }
    }
  }

  /** With at most one entry in the range nothing is removed. */
  lemma UnprunedIsCovered(before: Cache, after: Cache, base: Store, m: Store, prefix: Bytes, min: nat, height: nat)
    requires min <= height < UINT32 && DeletionsCovered(before, m, prefix, min) && ReadIn(base, before, after)
    ensures DeletionsCovered(after, m, prefix, height)
  {
    hide Less, InRange, FromUint32;
    forall k | prefix + k in after && after[prefix + k].deleted ensures CoveredBy(m, prefix, height, k) {
      var l :| InRangeOf(m, prefix, FromUint32(0), FromUint32(min), l) && Less(k, l);
      WiderRange(m, prefix, min, height, l);
    }
  }

  /** deleteBFTParams: only entries that a newer one at or below `height` supersedes go, and every pending
      deletion stays covered. */
  method DeleteParams(db: Database, height: nat)
    requires db.Valid() && height < UINT32
    modifies db.cache
    ensures db.Valid() && IsPruned(db.Contents(), old(db.Contents()), db.prefix, height)
    ensures forall min: nat :: min <= height && DeletionsCovered(old(db.cache.data), old(db.Contents()), db.prefix, min) ==>
              DeletionsCovered(db.cache.data, db.Contents(), db.prefix, height)
  {
    hide Consistent, View, IsRange, IsPruned, DeletionsCovered, FromUint32, InRange, Ordered, IsFirstOnly, FirstReachable,
      HeightKeys, LiveBetween;
    var kv := db.Range(FromUint32(0), FromUint32(height), -1, false);
    ghost var contents := db.Contents();
    PrunedByRemoving(contents, db.prefix, kv, height);
    if |kv| <= 1 {
      assert contents - {} == contents;
      assert kv != [] ==> Removed(db.prefix, kv, |kv| - 1) == {};
      forall min: nat | min <= height && DeletionsCovered(old(db.cache.data), contents, db.prefix, min)
        ensures DeletionsCovered(db.cache.data, contents, db.prefix, height)
      {
        UnprunedIsCovered(old(db.cache.data), db.cache.data, db.store, contents, db.prefix, min, height);
      }
      return;
    }
    for i := 0 to |kv| - 1
      invariant db.Valid()
      invariant db.Contents() == contents - Removed(db.prefix, kv, i)
      invariant forall k :: k in db.cache.data && db.cache.data[k].deleted ==>
                  k in Removed(db.prefix, kv, i) || (k in old(db.cache.data) && old(db.cache.data)[k].deleted)
    {
      assert Removed(db.prefix, kv, i + 1) == Removed(db.prefix, kv, i) + {db.prefix + kv[i].key};
      db.Del(kv[i].key);
    }
    forall min: nat | min <= height && DeletionsCovered(old(db.cache.data), contents, db.prefix, min)
      ensures DeletionsCovered(db.cache.data, db.Contents(), db.prefix, height)
    {
      PrunedIsCovered(old(db.cache.data), db.cache.data, contents, db.prefix, kv, min, height);
    }
  }

  /** Writing parameters keeps every pending deletion covered. */
  method SetParams(db: Database, height: nat, value: Bytes)
    requires db.Valid() && height < UINT32
    modifies db.cache
    ensures db.Valid() && db.Contents() == old(db.Contents())[db.prefix + FromUint32(height) := value]
    ensures forall min: nat :: min < UINT32 && DeletionsCovered(old(db.cache.data), old(db.Contents()), db.prefix, min) ==>
              DeletionsCovered(db.cache.data, db.Contents(), db.prefix, min)
  {
    hide Consistent, View, FromUint32, DeletionsCovered;
    db.Set(FromUint32(height), value);
    forall min: nat | min < UINT32 && DeletionsCovered(old(db.cache.data), old(db.Contents()), db.prefix, min)
      ensures DeletionsCovered(db.cache.data, db.Contents(), db.prefix, min)
    {
      GrowingIsCovered(old(db.cache.data), db.cache.data, old(db.Contents()), db.Contents(), db.prefix, min);
    }
  }

  lemma GrowingIsCovered(before: Cache, after: Cache, m: Store, n: Store, prefix: Bytes, min: nat)
    requires min < UINT32 && DeletionsCovered(before, m, prefix, min) && m.Keys <= n.Keys
    requires forall k :: k in after && after[k].deleted ==> k in before && before[k].deleted
    ensures DeletionsCovered(after, n, prefix, min)
  {
    hide Less, InRange, FromUint32;
    forall k | prefix + k in after && after[prefix + k].deleted ensures CoveredBy(n, prefix, min, k) {
      var l :| InRangeOf(m, prefix, FromUint32(0), FromUint32(min), l) && Less(k, l);
      assert InRangeOf(n, prefix, FromUint32(0), FromUint32(min), l);
    }
  }

  // ---------------------------------------------------------------- pruning keeps the lookup

  lemma FirstNotPruned(before: Store, after: Store, prefix: Bytes, min: nat, height: nat, k: Bytes)
    requires min <= height < UINT32 && IsPruned(after, before, prefix, min)
    requires IsFirst(before, prefix, FromUint32(0), FromUint32(height), true, k)
    ensures IsFirst(after, prefix, FromUint32(0), FromUint32(height), true, k)
  {
    hide Before, InRange, FromUint32;
    var lo := FromUint32(0);
    if prefix + k !in after {
      var j :| prefix + k == prefix + j && InRangeOf(before, prefix, lo, FromUint32(min), j)
            && !IsFirst(before, prefix, lo, FromUint32(min), true, j);
      SamePrefix(prefix, k, j);
      var l :| InRangeOf(before, prefix, lo, FromUint32(min), l) && !(l == k || Before(k, l, true));
      WiderRange(before, prefix, min, height, l);
    }
  }

  lemma FirstOfPruned(before: Store, after: Store, prefix: Bytes, min: nat, height: nat, k: Bytes)
    requires min <= height < UINT32 && IsPruned(after, before, prefix, min)
    requires IsFirst(after, prefix, FromUint32(0), FromUint32(height), true, k)
    ensures IsFirst(before, prefix, FromUint32(0), FromUint32(height), true, k)
  {
    hide Before, InRange, FromUint32;
    var first := FirstExists(before, prefix, FromUint32(0), FromUint32(height), true, k);
    FirstNotPruned(before, after, prefix, min, height, first);
    FirstIsUnique(after, prefix, FromUint32(0), FromUint32(height), true, first, k);
  }

  /** The newest entry is the same before and after pruning, for every height at or above the minimum. */
  lemma PrunedKeepsNewest(r: Option<Bytes>, before: Store, after: Store, prefix: Bytes, min: nat, height: nat)
    requires min <= height < UINT32 && IsPruned(after, before, prefix, min)
    ensures IsNewest(r, after, prefix, height) <==> IsNewest(r, before, prefix, height)
  {
    hide InRange, FromUint32, IsFirst;
    var lo, hi := FromUint32(0), FromUint32(height);
    forall k ensures IsFirst(before, prefix, lo, hi, true, k) <==> IsFirst(after, prefix, lo, hi, true, k) {
      if IsFirst(before, prefix, lo, hi, true, k) { FirstNotPruned(before, after, prefix, min, height, k); }
      if IsFirst(after, prefix, lo, hi, true, k) { FirstOfPruned(before, after, prefix, min, height, k); }
    }
    forall k | IsFirst(after, prefix, lo, hi, true, k) ensures prefix + k in after && prefix + k in before && after[prefix + k] == before[prefix + k] {
      FirstInRange(after, prefix, lo, hi, true, k);
    }
    forall k | InRangeOf(before, prefix, lo, hi, k) ensures exists l :: InRangeOf(after, prefix, lo, hi, l) {
      var first := FirstExists(before, prefix, lo, hi, true, k);
      FirstInRange(after, prefix, lo, hi, true, first);
    }
    forall k | InRangeOf(after, prefix, lo, hi, k) ensures InRangeOf(before, prefix, lo, hi, k) {}
  }
}
