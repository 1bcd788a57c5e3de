/** Byte order of keys, sorted entry lists and ranges (bytes.Compare and sort.Slice as pkg/db/diffdb uses them). */
module KeyOrder {
  import opened Codec

  type Store = map<Bytes, Bytes>

  datatype Entry = Entry(key: Bytes, value: Bytes)

  /** Lexicographic order. */
  predicate Less(a: Bytes, b: Bytes) {
    if b == [] then false
    else if a == [] then true
    else a[0] < b[0] || (a[0] == b[0] && Less(a[1..], b[1..]))
  }

  predicate Leq(a: Bytes, b: Bytes) { a == b || Less(a, b) }

  predicate InRange(k: Bytes, lo: Bytes, hi: Bytes) { Leq(lo, k) && Leq(k, hi) }

  lemma {:induction false} LessTotal(a: Bytes, b: Bytes)
    ensures a == b || Less(a, b) || Less(b, a)
    ensures !(Less(a, b) && Less(b, a)) && (a == b ==> !Less(a, b))
  {
    if a != [] && b != [] && a[0] == b[0] {
      LessTotal(a[1..], b[1..]);
      if a[1..] == b[1..] { assert a == [a[0]] + a[1..] && b == [b[0]] + b[1..]; }
    }
  }

  lemma {:induction false} LessTransitive(a: Bytes, b: Bytes, c: Bytes)
    requires Less(a, b) && Less(b, c)
    ensures Less(a, c)
  {
    if a != [] && a[0] == b[0] == c[0] { LessTransitive(a[1..], b[1..], c[1..]); }
  }

  lemma LeqTransitive(a: Bytes, b: Bytes, c: Bytes)
    requires Leq(a, b) && Leq(b, c)
    ensures Leq(a, c)
  {
    hide Less;
    if a != b && b != c { LessTransitive(a, b, c); }
  }

  /** A common prefix does not matter to the order. */
  lemma {:induction false} LessPrefixed(p: Bytes, a: Bytes, b: Bytes)
    ensures Less(p + a, p + b) <==> Less(a, b)
  {
    if p == [] {
      assert p + a == a && p + b == b;
    } else {
      assert (p + a)[1..] == p[1..] + a && (p + b)[1..] == p[1..] + b;
      LessPrefixed(p[1..], a, b);
    }
  }

  lemma InRangePrefixed(p: Bytes, k: Bytes, lo: Bytes, hi: Bytes)
    ensures InRange(p + k, p + lo, p + hi) <==> InRange(k, lo, hi)
  {
    hide Less;
    LessPrefixed(p, lo, k);
    LessPrefixed(p, k, hi);
    SamePrefix(p, lo, k);
    SamePrefix(p, k, hi);
  }

  lemma SamePrefix(p: Bytes, a: Bytes, b: Bytes)
    ensures p + a == p + b <==> a == b
  {
    if p + a == p + b { assert a == (p + a)[|p|..] == (p + b)[|p|..] == b; }
  }

  /** Whatever lies between two keys with a common prefix has that prefix. */
  lemma {:induction false} BetweenHasPrefix(p: Bytes, k: Bytes, lo: Bytes, hi: Bytes)
    requires InRange(k, p + lo, p + hi)
    ensures p <= k && k == p + k[|p|..] && InRange(k[|p|..], lo, hi)
  {
    if p == [] {
      assert p + lo == lo && p + hi == hi;
    } else {
      assert (p + lo)[1..] == p[1..] + lo && (p + hi)[1..] == p[1..] + hi;
      assert k != [] && k[0] == p[0];
      BetweenHasPrefix(p[1..], k[1..], lo, hi);
      assert k == [k[0]] + k[1..] && p == [p[0]] + p[1..];
      assert k[|p|..] == k[1..][|p[1..]|..];
    }
  }

  // ---------------------------------------------------------------- sorted lists

  predicate Before(a: Bytes, b: Bytes, reverse: bool) { if reverse then Less(b, a) else Less(a, b) }

  predicate AllAfter(k: Bytes, r: seq<Entry>, reverse: bool) {
    forall i :: 0 <= i < |r| ==> Before(k, r[i].key, reverse)
  }

  /** Every key comes before all later ones. */
  predicate Ordered(r: seq<Entry>, reverse: bool) {
    |r| > 0 ==> AllAfter(r[0].key, r[1..], reverse) && Ordered(r[1..], reverse)
  }

  predicate HasKey(r: seq<Entry>, k: Bytes) { exists i :: 0 <= i < |r| && r[i].key == k }

  predicate DistinctKeys(r: seq<Entry>) { forall i, j :: 0 <= i < j < |r| ==> r[i].key != r[j].key }

  function Inserted(e: Entry, r: seq<Entry>, reverse: bool): seq<Entry> {
    if r == [] then [e]
    else if Before(e.key, r[0].key, reverse) then [e] + r
    else [r[0]] + Inserted(e, r[1..], reverse)
  }

  /** sort.Slice. */
  function Sorted(r: seq<Entry>, reverse: bool): seq<Entry> {
    if r == [] then [] else Inserted(r[0], Sorted(r[1..], reverse), reverse)
  }

  lemma {:induction false} InsertedContents(e: Entry, r: seq<Entry>, reverse: bool, x: Entry)
    ensures x in Inserted(e, r, reverse) <==> x == e || x in r
    ensures |Inserted(e, r, reverse)| == |r| + 1
  {
    if r != [] {
      assert r == [r[0]] + r[1..];
      if !Before(e.key, r[0].key, reverse) { InsertedContents(e, r[1..], reverse, x); }
    }
  }

  lemma {:induction false} SortedContents(r: seq<Entry>, reverse: bool, x: Entry)
    ensures x in Sorted(r, reverse) <==> x in r
    ensures |Sorted(r, reverse)| == |r|
  {
    if r != [] {
      SortedContents(r[1..], reverse, x);
      InsertedContents(r[0], Sorted(r[1..], reverse), reverse, x);
      assert r == [r[0]] + r[1..];
    }
  }

  lemma BeforeTransitive(a: Bytes, b: Bytes, c: Bytes, reverse: bool)
    requires Before(a, b, reverse) && Before(b, c, reverse)
    ensures Before(a, c, reverse)
  {
    hide Less;
    if reverse { LessTransitive(c, b, a); } else { LessTransitive(a, b, c); }
  }

  lemma BeforeTotal(a: Bytes, b: Bytes, reverse: bool)
    ensures a == b || Before(a, b, reverse) || Before(b, a, reverse)
    ensures !(Before(a, b, reverse) && Before(b, a, reverse)) && (a == b ==> !Before(a, b, reverse))
  {
    hide Less;
    LessTotal(a, b);
  }

  lemma AllAfterAbove(k: Bytes, l: Bytes, r: seq<Entry>, reverse: bool)
    requires Before(k, l, reverse) && AllAfter(l, r, reverse)
    ensures AllAfter(k, r, reverse)
  {
    hide Before;
    forall i | 0 <= i < |r| ensures Before(k, r[i].key, reverse) {
      BeforeTransitive(k, l, r[i].key, reverse);
    }
  }

  lemma AllAfterInserted(k: Bytes, e: Entry, r: seq<Entry>, reverse: bool)
    requires Before(k, e.key, reverse) && AllAfter(k, r, reverse)
    ensures AllAfter(k, Inserted(e, r, reverse), reverse)
  {
    hide Before, Inserted;
    var s := Inserted(e, r, reverse);
    forall i | 0 <= i < |s| ensures Before(k, s[i].key, reverse) {
      InsertedContents(e, r, reverse, s[i]);
    }
  }

  lemma {:induction false} InsertedOrdered(e: Entry, r: seq<Entry>, reverse: bool)
    requires Ordered(r, reverse) && !HasKey(r, e.key)
    ensures Ordered(Inserted(e, r, reverse), reverse)
  {
    hide Before;
    if r == [] {
    } else if Before(e.key, r[0].key, reverse) {
      AllAfterAbove(e.key, r[0].key, r[1..], reverse);
      assert ([e] + r)[1..] == r;
    } else {
      assert r[0].key != e.key;
      BeforeTotal(e.key, r[0].key, reverse);
      assert !HasKey(r[1..], e.key);
      InsertedOrdered(e, r[1..], reverse);
      AllAfterInserted(r[0].key, e, r[1..], reverse);
      assert Inserted(e, r, reverse)[1..] == Inserted(e, r[1..], reverse);
    }
  }

  lemma {:induction false} SortedOrdered(r: seq<Entry>, reverse: bool)
    requires DistinctKeys(r)
    ensures Ordered(Sorted(r, reverse), reverse)
  {
    if r != [] {
      SortedOrdered(r[1..], reverse);
      var s := Sorted(r[1..], reverse);
      forall i | 0 <= i < |s| ensures s[i].key != r[0].key {
        SortedContents(r[1..], reverse, s[i]);
        var j :| 0 <= j < |r[1..]| && r[1..][j] == s[i];
        assert r[j + 1] == s[i];
      }
      InsertedOrdered(r[0], s, reverse);
    }
  }

  /** In an ordered list of distinct keys, what is not among the first comes after all of them. */
  lemma {:induction false} OrderedAt(r: seq<Entry>, reverse: bool, i: nat, j: nat)
    requires Ordered(r, reverse) && i < j < |r|
    ensures Before(r[i].key, r[j].key, reverse)
  {
    hide Before;
    if i > 0 { OrderedAt(r[1..], reverse, i - 1, j - 1); } else { assert r[j] == r[1..][j - 1]; }
  }

  // ---------------------------------------------------------------- ranges of a store

  /** `r` lists, in order, exactly the entries of the store from `lo` to `hi` under a key prefix. */
  ghost predicate IsRange(r: seq<Entry>, m: Store, prefix: Bytes, lo: Bytes, hi: Bytes, reverse: bool) {
    && Ordered(r, reverse)
    && (forall k: Bytes, v: Bytes :: Entry(k, v) in r <==> prefix + k in m && m[prefix + k] == v && InRange(k, lo, hi))
  }

  lemma {:induction false} OrderedUnique(r: seq<Entry>, s: seq<Entry>, reverse: bool)
    requires Ordered(r, reverse) && Ordered(s, reverse)
    requires forall e :: e in r <==> e in s
    ensures r == s
  {
    hide Before;
    if r == [] || s == [] {
      Inhabited(r);
      Inhabited(s);
    } else {
      FirstIsSame(r, s, reverse);
      HeadNotInTail(r, reverse);
      HeadNotInTail(s, reverse);
      forall e ensures e in r[1..] <==> e in s[1..] {
        HeadOrTail(r, e);
        HeadOrTail(s, e);
      }
      OrderedUnique(r[1..], s[1..], reverse);
      assert r == [r[0]] + r[1..] && s == [s[0]] + s[1..];
    }
  }

  lemma Inhabited(r: seq<Entry>)
    ensures r == [] || exists e :: e in r
  {
    if r != [] { assert r[0] in r; }
  }

  lemma HeadOrTail(r: seq<Entry>, e: Entry)
    requires r != []
    ensures e in r <==> e == r[0] || e in r[1..]
  {
    assert r == [r[0]] + r[1..];
  }

  lemma HeadNotInTail(r: seq<Entry>, reverse: bool)
    requires Ordered(r, reverse) && r != []
    ensures r[0] !in r[1..]
  {
    hide Before;
    if r[0] in r[1..] {
      var i :| 0 <= i < |r[1..]| && r[1..][i] == r[0];
      BeforeTotal(r[0].key, r[1..][i].key, reverse);
    }
  }

  lemma FirstIsSame(r: seq<Entry>, s: seq<Entry>, reverse: bool)
    requires Ordered(r, reverse) && Ordered(s, reverse) && r != [] && s != []
    requires r[0] in s && s[0] in r
    ensures r[0] == s[0]
  {
    hide Before;
    var i :| 0 <= i < |s| && s[i] == r[0];
    var j :| 0 <= j < |r| && r[j] == s[0];
    if i > 0 && j > 0 {
      OrderedAt(s, reverse, 0, i);
      OrderedAt(r, reverse, 0, j);
      BeforeTotal(r[0].key, s[0].key, reverse);
    }
  }

  /** There is only one such list. */
  lemma RangeUnique(r: seq<Entry>, s: seq<Entry>, m: Store, prefix: Bytes, lo: Bytes, hi: Bytes, reverse: bool)
    requires IsRange(r, m, prefix, lo, hi, reverse) && IsRange(s, m, prefix, lo, hi, reverse)
    ensures r == s
  {
    hide Ordered, InRange;
    forall e ensures e in r <==> e in s {
      assert e == Entry(e.key, e.value);
    }
    OrderedUnique(r, s, reverse);
  }
}
