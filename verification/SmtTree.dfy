/** The sparse Merkle tree of LIP-0039 as hash terms: the canonical root of a map, and what a set of
    updates makes of it (pkg/trie/smt). */
module SmtTree {
  import opened Basics

  /** A key as bits, most significant first. */
  type Key = Bits

  /** A value as bits. */
  type Value = Bits

  type Entries = map<Key, Value>

  /** SHA-256 digests as terms; leaf and branch hashes carry different prefix bytes. */
  datatype Hash = Empty | Leaf(key: Key, value: Value) | Branch(left: Hash, right: Hash)

  /** The keys of `n` bits below a path. */
  predicate Below(p: Bits, n: nat, k: Key) { |k| == n && p <= k }

  ghost predicate AllBelow(p: Bits, n: nat, m: Entries) { forall k :: k in m ==> Below(p, n, k) }

  function Half(m: Entries, p: Bits, b: bool): Entries { map k | k in m && p + [b] <= k :: m[k] }

  lemma BelowEither(p: Bits, n: nat, k: Key)
    requires Below(p, n, k) && |p| < n
    ensures k[|p|] ==> p + [true] <= k && !(p + [false] <= k)
    ensures !k[|p|] ==> p + [false] <= k && !(p + [true] <= k)
  {
    assert k[..|p| + 1] == p + [k[|p|]];
  }

  lemma HalvesBelow(m: Entries, p: Bits, n: nat, b: bool)
    requires AllBelow(p, n, m)
    ensures AllBelow(p + [b], n, Half(m, p, b))
  {
  }

  // ---------------------------------------------------------------- the root of a map

  /** The root of the entries below a path: nothing, a single leaf, or a branch over the two halves. */
  ghost function Root(m: Entries, p: Bits, n: nat): Hash
    requires AllBelow(p, n, m) && |p| <= n
    decreases n - |p|
  {
    if m == map[] then Empty
    else if |p| == n || exists k :: m.Keys == {k} then (var k :| k in m; Leaf(k, m[k]))
    else
      HalvesBelow(m, p, n, false);
      HalvesBelow(m, p, n, true);
      Branch(Root(Half(m, p, false), p + [false], n), Root(Half(m, p, true), p + [true], n))
  }

  // ---------------------------------------------------------------- canonical terms

  /** A branch over these two would collapse. */
  predicate Collapses(l: Hash, r: Hash) { (l.Empty? && !r.Branch?) || (r.Empty? && !l.Branch?) }

  /** The term of a sparse Merkle tree below a path. */
  predicate Canonical(t: Hash, p: Bits, n: nat) {
    match t
    case Empty => true
    case Leaf(k, v) => Below(p, n, k) && v != []
    case Branch(l, r) => |p| < n && Canonical(l, p + [false], n) && Canonical(r, p + [true], n) && !Collapses(l, r)
  }

  /** The value of a key in a term, reading the key from bit `d` on. */
  function Get(t: Hash, k: Key, d: nat): Option<Value> {
    match t
    case Empty => None
    case Leaf(l, v) => if l == k then Some(v) else None
    case Branch(l, r) => if d >= |k| then None else Get(if k[d] then r else l, k, d + 1)
  }

  function Lookup(m: Entries, k: Key): Option<Value> { if k in m then Some(m[k]) else None }

  /** The term holds exactly the entries of the map below the path. */
  ghost predicate Holds(t: Hash, m: Entries, p: Bits, n: nat) {
    forall k :: Below(p, n, k) ==> Get(t, k, |p|) == Lookup(m, k)
  }

  /** A canonical term that is not empty has a key. */
  lemma {:induction false} SomeKey(t: Hash, p: Bits, n: nat) returns (k: Key)
    requires Canonical(t, p, n) && t != Empty
    ensures Below(p, n, k) && Get(t, k, |p|).Some?
  {
    match t
    case Leaf(l, v) => k := l;
    case Branch(l, r) =>
      if l != Empty {
        k := SomeKey(l, p + [false], n);
        BelowEither(p, n, k);
      } else {
        k := SomeKey(r, p + [true], n);
        BelowEither(p, n, k);
      }
  }

  /** A canonical branch has two keys. */
  lemma {:induction false} TwoKeys(t: Hash, p: Bits, n: nat) returns (k: Key, l: Key)
    requires Canonical(t, p, n) && t.Branch?
    ensures k != l && Below(p, n, k) && Below(p, n, l) && Get(t, k, |p|).Some? && Get(t, l, |p|).Some?
  {
    if t.left == Empty {
      k, l := TwoKeys(t.right, p + [true], n);
    } else if t.right == Empty {
      k, l := TwoKeys(t.left, p + [false], n);
    } else {
      k := SomeKey(t.left, p + [false], n);
      l := SomeKey(t.right, p + [true], n);
    }
    BelowEither(p, n, k);
    BelowEither(p, n, l);
  }

  lemma GetBelow(t: Hash, p: Bits, n: nat, k: Key)
    requires t.Branch? && Below(p, n, k) && |p| < n
    ensures Get(t, k, |p|) == Get(if k[|p|] then t.right else t.left, k, |p| + 1)
  {
  }

  lemma HalfHolds(t: Hash, m: Entries, p: Bits, n: nat, b: bool)
    requires t.Branch? && |p| < n && Holds(t, m, p, n)
    ensures Holds(if b then t.right else t.left, Half(m, p, b), p + [b], n)
  {
    forall k | Below(p + [b], n, k) ensures Get(if b then t.right else t.left, k, |p| + 1) == Lookup(Half(m, p, b), k) {
      assert p <= p + [b] <= k;
      BelowEither(p, n, k);
      GetBelow(t, p, n, k);
    }
  }

  /** The canonical term of a map is its root: there is no other one. */
  lemma {:induction false} CanonicalIsRoot(t: Hash, m: Entries, p: Bits, n: nat)
    requires Canonical(t, p, n) && |p| <= n && AllBelow(p, n, m) && Holds(t, m, p, n)
    ensures t == Root(m, p, n)
  {
    match t
    case Empty =>
      forall k | Below(p, n, k) ensures k !in m {
        assert Get(t, k, |p|) == Lookup(m, k);
      }
      assert m == map[];
    case Leaf(k, v) =>
      assert Lookup(m, k) == Get(t, k, |p|) == Some(v);
      forall l | l in m ensures l == k {
        assert Get(t, l, |p|) == Lookup(m, l);
      }
      assert m.Keys == {k};
    case Branch(l, r) =>
      var j, k := TwoKeys(t, p, n);
      assert Lookup(m, j).Some? && Lookup(m, k).Some?;
      HalvesBelow(m, p, n, false);
      HalvesBelow(m, p, n, true);
      HalfHolds(t, m, p, n, false);
      HalfHolds(t, m, p, n, true);
      CanonicalIsRoot(l, Half(m, p, false), p + [false], n);
      CanonicalIsRoot(r, Half(m, p, true), p + [true], n);
  }

  // ---------------------------------------------------------------- updates

  /** What two subtrees make: a branch, unless it would collapse. */
  function Join(l: Hash, r: Hash): Hash {
    if l.Empty? && !r.Branch? then r
    else if r.Empty? && !l.Branch? then l
    else Branch(l, r)
  }

  /** The part of a term on one side of the path; a leaf goes to the side of its key. */
  function Child(t: Hash, d: nat, b: bool): Hash {
    match t
    case Empty => Empty
    case Leaf(k, v) => if d < |k| && k[d] == b then t else Empty
    case Branch(l, r) => if b then r else l
  }

  /** The term after a set of updates; an empty value deletes. */
  ghost function Updated(t: Hash, us: Entries, p: Bits, n: nat): Hash
    requires AllBelow(p, n, us) && |p| <= n
    decreases n - |p|
  {
    if us == map[] then t
    else if |p| == n then (var k :| k in us; if us[k] == [] then Empty else Leaf(k, us[k]))
    else
      HalvesBelow(us, p, n, false);
      HalvesBelow(us, p, n, true);
      Join(Updated(Child(t, |p|, false), Half(us, p, false), p + [false], n),
           Updated(Child(t, |p|, true), Half(us, p, true), p + [true], n))
  }

  lemma ChildCanonical(t: Hash, p: Bits, n: nat, b: bool)
    requires Canonical(t, p, n) && |p| < n
    ensures Canonical(Child(t, |p|, b), p + [b], n)
  {
    if t.Leaf? { BelowEither(p, n, t.key); }
  }

  lemma ChildGet(t: Hash, p: Bits, n: nat, k: Key)
    requires Canonical(t, p, n) && Below(p, n, k) && |p| < n
    ensures Get(Child(t, |p|, k[|p|]), k, |p| + 1) == Get(t, k, |p|)
  {
  }

  lemma JoinCanonical(l: Hash, r: Hash, p: Bits, n: nat)
    requires |p| < n && Canonical(l, p + [false], n) && Canonical(r, p + [true], n)
    ensures Canonical(Join(l, r), p, n)
  {
    if l.Leaf? { assert p <= p + [false] <= l.key; }
    if r.Leaf? { assert p <= p + [true] <= r.key; }
  }

  lemma JoinGet(l: Hash, r: Hash, p: Bits, n: nat, k: Key)
    requires |p| < n && Canonical(l, p + [false], n) && Canonical(r, p + [true], n) && Below(p, n, k)
    ensures Get(Join(l, r), k, |p|) == Get(if k[|p|] then r else l, k, |p| + 1)
  {
    BelowEither(p, n, k);
  }

  lemma {:induction false} UpdatedCanonical(t: Hash, us: Entries, p: Bits, n: nat)
    requires AllBelow(p, n, us) && |p| <= n && Canonical(t, p, n)
    ensures Canonical(Updated(t, us, p, n), p, n)
    decreases n - |p|
  {
    if us != map[] && |p| < n {
      HalvesBelow(us, p, n, false);
      HalvesBelow(us, p, n, true);
      ChildCanonical(t, p, n, false);
      ChildCanonical(t, p, n, true);
      UpdatedCanonical(Child(t, |p|, false), Half(us, p, false), p + [false], n);
      UpdatedCanonical(Child(t, |p|, true), Half(us, p, true), p + [true], n);
      JoinCanonical(Updated(Child(t, |p|, false), Half(us, p, false), p + [false], n),
                    Updated(Child(t, |p|, true), Half(us, p, true), p + [true], n), p, n);
    }
  }

  /** What an update leaves at a key. */
  function Overridden(us: Entries, k: Key, old_: Option<Value>): Option<Value> {
    if k !in us then old_ else if us[k] == [] then None else Some(us[k])
  }

  lemma SameKey(p: Bits, n: nat, k: Key, l: Key)
    requires |p| == n && Below(p, n, k) && Below(p, n, l)
    ensures k == l
  {
    assert k == p && l == p;
  }

  /** A full path leaves room for one key. */
  lemma UpdatedAtEnd(t: Hash, us: Entries, p: Bits, n: nat, k: Key)
    requires AllBelow(p, n, us) && |p| == n && Below(p, n, k)
    ensures Get(Updated(t, us, p, n), k, |p|) == Overridden(us, k, Get(t, k, |p|))
  {
    forall l | l in us ensures l == k { SameKey(p, n, k, l); }
  }

  lemma HalfOverridden(us: Entries, p: Bits, n: nat, k: Key, v: Option<Value>)
    requires Below(p, n, k) && |p| < n
    ensures Below(p + [k[|p|]], n, k) && Overridden(Half(us, p, k[|p|]), k, v) == Overridden(us, k, v)
  {
    BelowEither(p, n, k);
  }

  /** Every updated key has its new value, every other key the old one. */
  lemma {:induction false} UpdatedGet(t: Hash, us: Entries, p: Bits, n: nat, k: Key)
    requires AllBelow(p, n, us) && |p| <= n && Canonical(t, p, n) && Below(p, n, k)
    ensures Get(Updated(t, us, p, n), k, |p|) == Overridden(us, k, Get(t, k, |p|))
    decreases n - |p|
  {
    hide Get, Canonical, Join, Child, Half, Below, Overridden;
    if us == map[] {
      NothingOverridden(k, Get(t, k, |p|));
    } else if |p| == n {
      UpdatedAtEnd(t, us, p, n, k);
    } else {
      HalvesBelow(us, p, n, false);
      HalvesBelow(us, p, n, true);
      ChildCanonical(t, p, n, false);
      ChildCanonical(t, p, n, true);
      var l := Updated(Child(t, |p|, false), Half(us, p, false), p + [false], n);
      var r := Updated(Child(t, |p|, true), Half(us, p, true), p + [true], n);
      UpdatedCanonical(Child(t, |p|, false), Half(us, p, false), p + [false], n);
      UpdatedCanonical(Child(t, |p|, true), Half(us, p, true), p + [true], n);
      KeyIsLonger(p, n, k);
      JoinGet(l, r, p, n, k);
      var b := k[|p|];
      HalfOverridden(us, p, n, k, Get(t, k, |p|));
      ChildGet(t, p, n, k);
      UpdatedGet(Child(t, |p|, b), Half(us, p, b), p + [b], n, k);
    }
  }

  lemma KeyIsLonger(p: Bits, n: nat, k: Key)
    requires Below(p, n, k) && |p| < n
    ensures |p| < |k|
  {
  }

  lemma NothingOverridden(k: Key, v: Option<Value>)
    ensures Overridden(map[], k, v) == v
  {
  }

  /** The map after the updates. */
  function Applied(m: Entries, us: Entries): Entries {
    map k | k in m.Keys + us.Keys && (k in us ==> us[k] != []) :: if k in us then us[k] else m[k]
  }

  /** Updating the root of a map gives the root of the updated map. */
  lemma UpdatedRoot(m: Entries, us: Entries, n: nat, t: Hash)
    requires AllBelow([], n, m) && AllBelow([], n, us) && Canonical(t, [], n) && Holds(t, m, [], n)
    ensures AllBelow([], n, Applied(m, us)) && Holds(Updated(t, us, [], n), Applied(m, us), [], n)
    ensures Canonical(Updated(t, us, [], n), [], n) && Updated(t, us, [], n) == Root(Applied(m, us), [], n)
  {
    hide Updated, Get, Canonical, Root;
    UpdatedCanonical(t, us, [], n);
    forall k | Below([], n, k) ensures Get(Updated(t, us, [], n), k, 0) == Lookup(Applied(m, us), k) {
      UpdatedGet(t, us, [], n, k);
      assert Get(t, k, 0) == Lookup(m, k);
    }
    CanonicalIsRoot(Updated(t, us, [], n), Applied(m, us), [], n);
  }

  /** Two keys that part at the first bit: the one with the bit unset is on the left. */
  lemma RootOfTwo(k: Key, v: Value, l: Key, w: Value, n: nat)
    requires |k| == |l| == n >= 1 && !k[0] && l[0]
    ensures AllBelow([], n, map[k := v, l := w]) && Root(map[k := v, l := w], [], n) == Branch(Leaf(k, v), Leaf(l, w))
  {
    var m := map[k := v, l := w];
    assert [false] <= k && [true] <= l && k != l;
    assert k in m && l in m;
    var a, b := Half(m, [], false), Half(m, [], true);
    assert a == map[k := v] && b == map[l := w];
    assert a.Keys == {k} && b.Keys == {l};
  }
}
