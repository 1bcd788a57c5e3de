/** Proving and verifying one key (pkg/trie/smt/smt.go, utils.go, verify.go). */
module SmtVerify {
  import opened Basics
  import opened SmtTree
  import opened SmtSubtree
  import opened SmtStore
  import opened SmtBins
  import opened SmtPresence
  import opened SmtUpdate
  import opened SmtTrie
  import opened SmtQuery
  import opened SmtProve

  /** A query as it is sent: the bitmap is a byte string, here its bits. */
  datatype Query = Query(key: Key, value: Value, bitmap: Bits)

  /** A digest by what was hashed: nothing, the key and the value of a leaf joined, or two digests. */
  datatype Digest = OfNothing | OfLeaf(data: Bits) | OfBranch(left: Digest, right: Digest)

  datatype Proof = Proof(siblingHashes: seq<Digest>, queries: seq<Query>)

  function DigestOf(h: Hash): Digest {
    match h
    case Empty => OfNothing
    case Leaf(k, v) => OfLeaf(k + v)
    case Branch(l, r) => OfBranch(DigestOf(l), DigestOf(r))
  }

  /** In a tree with keys of one length the digest of a node determines the node. */
  lemma {:induction false} DigestDetermines(a: Hash, b: Hash, path: Bits, n: nat)
    requires Canonical(a, path, n) && Canonical(b, path, n) && DigestOf(a) == DigestOf(b)
    ensures a == b
    decreases a
  {
    match a
    case Empty =>
    case Leaf(k, v) =>
      assert b.Leaf?;
      assert k == (k + v)[..n] && v == (k + v)[n..];
      assert b.key == (b.key + b.value)[..n] && b.value == (b.key + b.value)[n..];
    case Branch(l, r) =>
      assert b.Branch?;
      DigestDetermines(l, b.left, path + [false], n);
      DigestDetermines(r, b.right, path + [true], n);
  }

  function DigestsOf(hs: seq<Hash>): (r: seq<Digest>)
    ensures |r| == |hs| && forall i :: 0 <= i < |r| ==> r[i] == DigestOf(hs[i])
  {
    seq(|hs|, i requires 0 <= i < |hs| => DigestOf(hs[i]))
  }

  lemma DigestsJoin(a: seq<Hash>, b: seq<Hash>)
    ensures DigestsOf(a + b) == DigestsOf(a) + DigestsOf(b)
  {
  }

  // ---------------------------------------------------------------- bitmaps

  /** bytes.FromBools: padded in front to whole bytes. */
  function FromBools(b: seq<bool>): Bits { seq((8 - |b| % 8) % 8, _ => false) + b }

  /** stripPrefixFalse. */
  function Stripped(b: seq<bool>): seq<bool> {
    if b == [] || b[0] then b else Stripped(b[1..])
  }

  lemma {:induction false} StrippedPadding(n: nat, b: seq<bool>)
    requires b != [] ==> b[0]
    ensures Stripped(seq(n, _ => false) + b) == b
  {
    var z := seq(n, _ => false);
    if n == 0 {
      assert z + b == b;
    } else {
      assert (z + b)[1..] == seq(n - 1, _ => false) + b;
      StrippedPadding(n - 1, b);
    }
  }

  /** The first byte is not zero. */
  predicate NoZeroByte(bitmap: Bits) { |bitmap| >= 8 ==> exists i :: 0 <= i < 8 && bitmap[i] }

  method StripPrefixFalse(b: seq<bool>) returns (r: seq<bool>)
    ensures r == Stripped(b)
  {
    r := [];
    var sawTrue := false;
    assert b[0..] == b;
    for i := 0 to |b|
      invariant sawTrue ==> r + b[i..] == Stripped(b)
      invariant !sawTrue ==> r == [] && Stripped(b[i..]) == Stripped(b)
    {
      assert b[i..][1..] == b[i + 1..];
      if sawTrue || b[i] {
        sawTrue := true;
        r := r + [b[i]];
        assert r + b[i + 1..] == r[..|r| - 1] + b[i..];
      }
    }
  }

  // ---------------------------------------------------------------- calculateSiblingHashes

  function CountTrue(b: seq<bool>): nat {
    if b == [] then 0 else (if b[0] then 1 else 0) + CountTrue(b[1..])
  }

  lemma {:induction false} CountTrueSnoc(b: seq<bool>, x: bool)
    ensures CountTrue(b + [x]) == CountTrue(b) + if x then 1 else 0
  {
    if b == [] {
      assert ([] + [x])[1..] == [];
    } else {
      assert (b + [x])[1..] == b[1..] + [x];
      CountTrueSnoc(b[1..], x);
    }
  }

  predicate Distinct(xs: seq<Hash>) { forall i, j :: 0 <= i < j < |xs| ==> xs[i] != xs[j] }

  predicate Apart(xs: seq<Hash>, ys: seq<Hash>) { forall x :: x in xs ==> x !in ys }

  /** calculateSiblingHashes for one query. */
  method CalculateSiblingHashes(query: QueryProof, ancestorHashes: seq<Hash>) returns (siblingHashes: seq<Hash>)
    requires CountTrue(query.bitmap) == |query.siblings| && Distinct(query.siblings)
    requires Apart(query.siblings, ancestorHashes)
    ensures siblingHashes == Reversed(query.siblings)
  {
    hide Reversed;
    var siblings, bitmap := query.siblings, query.bitmap;
    siblingHashes := [];
    NothingReversed(query.siblings[|siblings|..]);
    while |bitmap| > 0
      invariant CountTrue(bitmap) == |siblings| && siblings <= query.siblings
      invariant siblingHashes == Reversed(query.siblings[|siblings|..])
      decreases |bitmap|
    {
      if bitmap[0] {
        var lastIndex := |siblings| - 1;
        var nodeHash := siblings[lastIndex];
        siblings := siblings[..lastIndex];
        var rest := siblingHashes;
        ReversedContents(query.siblings[lastIndex + 1..], nodeHash);
        TakenLater(query.siblings, lastIndex);
        if nodeHash !in siblingHashes && nodeHash !in ancestorHashes {
          siblingHashes := siblingHashes + [nodeHash];
        }
        assert query.siblings[lastIndex..][1..] == query.siblings[lastIndex + 1..];
        ReversedStep(query.siblings[lastIndex..]);
      }
      bitmap := bitmap[1..];
    }
    assert query.siblings[0..] == query.siblings;
  }

  lemma NothingReversed(xs: seq<Hash>)
    requires xs == []
    ensures Reversed(xs) == []
  {
  }

  lemma ReversedStep(xs: seq<Hash>)
    requires xs != []
    ensures Reversed(xs) == Reversed(xs[1..]) + [xs[0]]
  {
  }

  lemma {:induction false} ReversedContents(xs: seq<Hash>, x: Hash)
    ensures x in Reversed(xs) <==> x in xs
  {
    if xs != [] {
      ReversedContents(xs[1..], x);
      assert xs == [xs[0]] + xs[1..];
    }
  }

  lemma TakenLater(xs: seq<Hash>, i: nat)
    requires Distinct(xs) && i < |xs|
    ensures xs[i] !in xs[i + 1..]
  {
  }

  lemma {:induction false} ReversedAppend(xs: seq<Hash>, ys: seq<Hash>)
    ensures Reversed(xs + ys) == Reversed(ys) + Reversed(xs)
  {
    if xs == [] {
      assert xs + ys == ys;
    } else {
      assert (xs + ys)[1..] == xs[1..] + ys;
      ReversedAppend(xs[1..], ys);
    }
  }

  // ---------------------------------------------------------------- siblings are never ancestors

  ghost predicate SiblingFine(x: Hash, p: Bits, size: nat) { x != Empty && Under(x, p) && Size(x) < size }

  ghost predicate AncestorFine(x: Hash, p: Bits) { Under(x, p) }

  /** The siblings along a path are not empty, differ from each other and from everything on the path. */
  lemma {:induction false} SiblingsApart(t: Hash, p: Bits, n: nat, k: Key)
    requires Canonical(t, p, n) && Below(p, n, k)
    ensures
      var tr := FullTrace(t, k, |p|);
      && (forall i :: 0 <= i < |tr.siblings| ==> SiblingFine(tr.siblings[i], p, Size(t)))
      && (forall i :: 0 <= i < |tr.ancestors| ==> AncestorFine(tr.ancestors[i], p))
      && AncestorFine(PathEnd(t, k, |p|), p)
      && Distinct(tr.siblings) && Apart(tr.siblings, tr.ancestors + [PathEnd(t, k, |p|)])
      && CountTrue(tr.bitmap) == |tr.siblings| && |tr.bitmap| <= n - |p|
    decreases t
  {
    CanonicalUnder(t, p, n, p);
    if t.Branch? {
      BelowEither(p, n, k);
      var b := k[|p|];
      var c, sb := Toward(t, k, |p|), Aside(t, k, |p|);
      SiblingsApart(c, p + [b], n, k);
      ApartStep(t, p, n, k, b, c, sb);
    }
  }

  lemma ApartStep(t: Hash, p: Bits, n: nat, k: Key, b: bool, c: Hash, sb: Hash)
    requires t.Branch? && Canonical(t, p, n) && Below(p, n, k) && |p| < n && b == k[|p|]
    requires c == Toward(t, k, |p|) && sb == Aside(t, k, |p|)
    requires
      var tr := FullTrace(c, k, |p| + 1);
      var e := PathEnd(c, k, |p| + 1);
      && (forall i :: 0 <= i < |tr.siblings| ==> SiblingFine(tr.siblings[i], p + [b], Size(c)))
      && (forall i :: 0 <= i < |tr.ancestors| ==> AncestorFine(tr.ancestors[i], p + [b]))
      && AncestorFine(e, p + [b])
      && Distinct(tr.siblings) && Apart(tr.siblings, tr.ancestors + [e])
      && CountTrue(tr.bitmap) == |tr.siblings| && |tr.bitmap| <= n - |p| - 1
    ensures
      var tr := FullTrace(t, k, |p|);
      var e := PathEnd(t, k, |p|);
      && (forall i :: 0 <= i < |tr.siblings| ==> SiblingFine(tr.siblings[i], p, Size(t)))
      && (forall i :: 0 <= i < |tr.ancestors| ==> AncestorFine(tr.ancestors[i], p))
      && AncestorFine(e, p)
      && Distinct(tr.siblings) && Apart(tr.siblings, tr.ancestors + [e])
      && CountTrue(tr.bitmap) == |tr.siblings| && |tr.bitmap| <= n - |p|
  {
    hide Canonical, Under, Distinct;
    var low, tr := FullTrace(c, k, |p| + 1), FullTrace(t, k, |p|);
    var e := PathEnd(c, k, |p| + 1);
    UnderThis(t, p, n, b, sb);
    forall i | 0 <= i < |low.siblings| ensures SiblingFine(low.siblings[i], p, Size(t)) && low.siblings[i] != sb {
      assert SiblingFine(low.siblings[i], p + [b], Size(c));
      UnderPrefix(low.siblings[i], p, p + [b]);
    }
    forall i | 0 <= i < |low.ancestors| ensures AncestorFine(low.ancestors[i], p) && (sb != Empty ==> low.ancestors[i] != sb) {
      assert AncestorFine(low.ancestors[i], p + [b]);
      UnderPrefix(low.ancestors[i], p, p + [b]);
    }
    UnderPrefix(e, p, p + [b]);
    CountTrueSnoc(low.bitmap, sb != Empty);
    ApartLists(t, sb, low, tr, e);
  }

  lemma UnderThis(t: Hash, p: Bits, n: nat, b: bool, sb: Hash)
    requires t.Branch? && Canonical(t, p, n) && sb == if b then t.left else t.right
    ensures Under(t, p) && Under(sb, p) && (sb != Empty ==> !Under(sb, p + [b])) && Size(sb) < Size(t)
  {
    CanonicalUnder(t, p, n, p);
    if sb != Empty {
      assert (p + [b])[|p|] != (p + [!b])[|p|];
      NotUnder(sb, p + [!b], p + [b], n);
    }
  }

  lemma ApartLists(t: Hash, sb: Hash, low: Trace, tr: Trace, e: Hash)
    requires tr == Raised(low, t, sb) && Size(sb) < Size(t)
    requires Distinct(low.siblings) && Apart(low.siblings, low.ancestors + [e])
    requires forall x :: x in low.siblings ==> x != sb && x != t
    requires sb != Empty ==> sb != e && sb !in low.ancestors
    ensures Distinct(tr.siblings) && Apart(tr.siblings, tr.ancestors + [e])
  {
    hide Distinct, Size;
    var first: seq<Hash> := if sb == Empty then [] else [sb];
    DistinctCons(first, low.siblings);
    assert tr.ancestors + [e] == [t] + (low.ancestors + [e]);
    ApartJoin(first, low.siblings, [t], low.ancestors + [e]);
  }

  lemma DistinctCons(first: seq<Hash>, xs: seq<Hash>)
    requires |first| <= 1 && Distinct(xs) && Apart(first, xs)
    ensures Distinct(first + xs)
  {
    var all := first + xs;
    forall i, j | 0 <= i < j < |all| ensures all[i] != all[j] {
      if i < |first| {
        assert all[i] in first && all[j] == xs[j - |first|];
      } else {
        assert all[i] == xs[i - |first|] && all[j] == xs[j - |first|];
      }
    }
  }

  lemma ApartJoin(a: seq<Hash>, b: seq<Hash>, c: seq<Hash>, d: seq<Hash>)
    requires Apart(a, c) && Apart(a, d) && Apart(b, c) && Apart(b, d)
    ensures Apart(a + b, c + d)
  {
  }

  // ---------------------------------------------------------------- Prove

  /** The proof of a key against the term of a trie. */
  function ProofOf(t: Hash, k: Key): Proof {
    var q := QueryOf(t, k, 0);
    Proof(DigestsOf(Reversed(q.siblings)), [Query(q.key, q.value, FromBools(q.bitmap))])
  }

  /** Prove for one key; None for a key of another length. */
  method Prove(trie: Trie, db: Db, k: Key) returns (r: Option<Proof>)
    requires trie.Valid(db)
    ensures r == if |k| == 8 * trie.keyLength then Some(ProofOf(trie.root, k)) else None
  {
    hide Coherent, Canonical, Holds, Present, AllBelow, Record, QueryOf, Reversed, Distinct, Apart, CountTrue;
    var root := GetSubtree(db, trie.root);
    if root.None? {
      return None;
    }
    var query := GenerateQueryProof(db, root.value, k, 0, 8 * trie.keyLength, trie.root, []);
    if query.None? {
      return None;
    }
    QueryFine(trie.root, k, 8 * trie.keyLength);
    var siblingHashes := CalculateSiblingHashes(query.value, query.value.ancestors);
    return Some(Proof(DigestsOf(siblingHashes), [Query(query.value.key, query.value.value, FromBools(query.value.bitmap))]));
  }

  lemma QueryFine(t: Hash, k: Key, n: nat)
    requires Canonical(t, [], n) && |k| == n
    ensures
      var q := QueryOf(t, k, 0);
      CountTrue(q.bitmap) == |q.siblings| && Distinct(q.siblings) && Apart(q.siblings, q.ancestors)
  {
    hide Canonical, Distinct, CountTrue, FullTrace, PathEnd, Under, Size;
    SiblingsApart(t, [], n, k);
  }

  // ---------------------------------------------------------------- Verify

  /** CalculateRoot for one query: from the bottom of the path to the root; None when the sibling hashes run out. */
  function Climb(h: Digest, k: Key, bits: seq<bool>, siblings: seq<Digest>): Option<Digest>
    requires |bits| <= |k|
    decreases |bits|
  {
    if bits == [] then Some(h)
    else if bits[0] && siblings == [] then None
    else
      var sibling := if bits[0] then siblings[0] else OfNothing;
      var rest := if bits[0] then siblings[1..] else siblings;
      Climb(if k[|bits| - 1] then OfBranch(sibling, h) else OfBranch(h, sibling), k, bits[1..], rest)
  }

  /** The digest a query stands for. */
  function QueryHash(q: Query): Digest { if q.value == [] then OfNothing else OfLeaf(q.key + q.value) }

  function CommonPrefix(a: seq<bool>, b: seq<bool>): (r: nat)
    ensures r <= |a| && r <= |b| && a[..r] == b[..r]
  {
    if a == [] || b == [] || a[0] != b[0] then 0
    else
      var r := CommonPrefix(a[1..], b[1..]);
      assert a[..1 + r] == [a[0]] + a[1..][..r] && b[..1 + r] == [b[0]] + b[1..][..r];
      1 + r
  }

  lemma {:induction false} CommonPrefixLongest(a: seq<bool>, b: seq<bool>, n: nat)
    requires n <= |a| && n <= |b| && a[..n] == b[..n]
    ensures CommonPrefix(a, b) >= n
  {
    if n > 0 {
      assert a[0] == a[..n][0] == b[..n][0] == b[0];
      assert a[1..][..n - 1] == a[..n][1..] == b[..n][1..] == b[1..][..n - 1];
      CommonPrefixLongest(a[1..], b[1..], n - 1);
    }
  }

  /** Verify for one key. A bitmap longer than the query key makes the slicing of its path panic. */
  predicate Accepts(k: Key, proof: Proof, root: Digest, n: nat) {
    && |proof.queries| == 1 && |k| == n
    && var q := proof.queries[0];
    && NoZeroByte(q.bitmap)
    && var bits := Stripped(q.bitmap);
    && (k != q.key ==> |bits| <= CommonPrefix(k, q.key))
    && |bits| <= |q.key|
    && Climb(QueryHash(q), q.key, bits, proof.siblingHashes) == Some(root)
  }

  method CalculateRoot(siblingHashes: seq<Digest>, q: Query, bits: seq<bool>) returns (r: Option<Digest>)
    requires |bits| <= |q.key|
    ensures r == Climb(QueryHash(q), q.key, bits, siblingHashes)
  {
    var hash, binaryBitmap, nextSiblingHash := QueryHash(q), bits, 0;
    assert siblingHashes[0..] == siblingHashes;
    while |binaryBitmap| > 0
      invariant |binaryBitmap| <= |q.key| && 0 <= nextSiblingHash <= |siblingHashes|
      invariant Climb(hash, q.key, binaryBitmap, siblingHashes[nextSiblingHash..]) == Climb(QueryHash(q), q.key, bits, siblingHashes)
      decreases |binaryBitmap|
    {
      var siblingHash := OfNothing;
      if binaryBitmap[0] {
        if |siblingHashes| == nextSiblingHash {
          return None;
        }
        siblingHash := siblingHashes[nextSiblingHash];
        assert siblingHashes[nextSiblingHash..][1..] == siblingHashes[nextSiblingHash + 1..];
        nextSiblingHash := nextSiblingHash + 1;
      }
      var dir := q.key[|binaryBitmap| - 1];
      hash := if !dir then OfBranch(hash, siblingHash) else OfBranch(siblingHash, hash);
      binaryBitmap := binaryBitmap[1..];
    }
    return Some(hash);
  }

  method Verify(k: Key, proof: Proof, root: Digest, n: nat) returns (ok: bool)
    ensures ok <==> Accepts(k, proof, root, n)
  {
    hide Climb, Stripped, CommonPrefix;
    if |proof.queries| != 1 || |k| != n {
      return false;
    }
    var q := proof.queries[0];
    if |q.bitmap| >= 8 && !(exists i :: 0 <= i < 8 && q.bitmap[i]) {
      return false;
    }
    var bits := StripPrefixFalse(q.bitmap);
    if k != q.key && |bits| > CommonPrefix(k, q.key) {
      return false;
    }
    if |bits| > |q.key| {
      return false;
    }
    var calculatedRoot := CalculateRoot(proof.siblingHashes, q, bits);
    return calculatedRoot == Some(root);
  }

  // ---------------------------------------------------------------- completeness

  /** Climbing the collected path of a term arrives at the term. */
  lemma {:induction false} ClimbTrace(t: Hash, k: Key, bit: nat, q: Key, up: seq<bool>, rest: seq<Digest>)
    requires |up| == bit && |q| == |k|
    requires
      var tr := FullTrace(t, k, bit);
      bit + |tr.bitmap| <= |k| && q[..bit + |tr.bitmap|] == k[..bit + |tr.bitmap|]
    ensures
      var tr := FullTrace(t, k, bit);
      Climb(DigestOf(PathEnd(t, k, bit)), q, tr.bitmap + up, DigestsOf(Reversed(tr.siblings)) + rest) == Climb(DigestOf(t), q, up, rest)
    decreases t
  {
    hide Climb, Reversed, DigestOf, DigestsOf;
    var tr := FullTrace(t, k, bit);
    if t.Branch? && bit < |k| {
      var c, sb := Toward(t, k, bit), Aside(t, k, bit);
      var low := FullTrace(c, k, bit + 1);
      assert q[bit] == q[..bit + |tr.bitmap|][bit] == k[..bit + |tr.bitmap|][bit] == k[bit];
      var first: seq<Hash> := if sb == Empty then [] else [sb];
      ClimbTrace(c, k, bit + 1, q, [sb != Empty] + up, DigestsOf(first) + rest);
      assert tr.bitmap + up == low.bitmap + ([sb != Empty] + up);
      ReversedAppend(first, low.siblings);
      ReverseShort(first);
      DigestsJoin(Reversed(low.siblings), first);
      assert DigestsOf(Reversed(tr.siblings)) + rest == DigestsOf(Reversed(low.siblings)) + (DigestsOf(first) + rest);
      ClimbOne(t, k, bit, q, up, rest);
    } else {
      NothingReversed(tr.siblings);
      assert [] + up == up && DigestsOf([]) + rest == rest;
    }
  }

  lemma ClimbOne(t: Hash, k: Key, bit: nat, q: Key, up: seq<bool>, rest: seq<Digest>)
    requires t.Branch? && bit < |k| == |q| && |up| == bit && q[bit] == k[bit]
    ensures
      var sb := Aside(t, k, bit);
      var first: seq<Hash> := if sb == Empty then [] else [sb];
      Climb(DigestOf(Toward(t, k, bit)), q, [sb != Empty] + up, DigestsOf(first) + rest) == Climb(DigestOf(t), q, up, rest)
  {
    var sb := Aside(t, k, bit);
    var first: seq<Hash> := if sb == Empty then [] else [sb];
    var bits, sibs := [sb != Empty] + up, DigestsOf(first) + rest;
    assert bits[1..] == up;
    if sb == Empty { assert sibs == rest; } else { assert sibs[1..] == rest; }
  }

  /** The deepest sibling on a path is never empty. */
  lemma {:induction false} DeepestNotEmpty(t: Hash, p: Bits, n: nat, k: Key)
    requires Canonical(t, p, n) && t.Branch? && Below(p, n, k)
    ensures
      var tr := FullTrace(t, k, |p|);
      tr.bitmap != [] && tr.bitmap[0]
    decreases t
  {
    BelowEither(p, n, k);
    var c := Toward(t, k, |p|);
    if c.Branch? { DeepestNotEmpty(c, p + [k[|p|]], n, k); }
  }

  /** What stands at the end of the path shares the path. */
  lemma {:induction false} EndOnPath(t: Hash, p: Bits, n: nat, k: Key)
    requires Canonical(t, p, n) && Below(p, n, k)
    ensures
      var tr, e := FullTrace(t, k, |p|), PathEnd(t, k, |p|);
      && |p| + |tr.bitmap| <= n && !e.Branch?
      && (e.Leaf? ==> |e.key| == n && e.value != [] && e.key[..|p| + |tr.bitmap|] == k[..|p| + |tr.bitmap|])
      && Get(t, k, |p|) == Get(e, k, |p| + |tr.bitmap|)
    decreases t
  {
    if t.Branch? {
      BelowEither(p, n, k);
      EndOnPath(Toward(t, k, |p|), p + [k[|p|]], n, k);
    } else if t.Leaf? {
      assert t.key[..|p|] == p == k[..|p|];
    }
  }

  lemma FromBoolsStripped(b: seq<bool>)
    requires b != [] ==> b[0]
    ensures Stripped(FromBools(b)) == b && NoZeroByte(FromBools(b))
  {
    var pad := (8 - |b| % 8) % 8;
    StrippedPadding(pad, b);
    if b != [] { assert FromBools(b)[pad] == b[0]; }
  }

  /** Completeness: the proof of any key is accepted against the root, and its query carries the stored value,
      or shows an empty place or another leaf on the path of the key. */
  lemma ProofIsAccepted(t: Hash, k: Key, n: nat)
    requires Canonical(t, [], n) && |k| == n
    ensures Accepts(k, ProofOf(t, k), DigestOf(t), n)
    ensures
      var q := ProofOf(t, k).queries[0];
      match Get(t, k, 0)
      case Some(v) => q.key == k && q.value == v
      case None => q.key != k || q.value == []
  {
    hide Canonical, FullTrace, PathEnd, Climb, Stripped, CommonPrefix, Reversed, NoZeroByte, FromBools;
    EndOnPath(t, [], n, k);
    if t.Branch? { DeepestNotEmpty(t, [], n, k); } else { ShortTrace(t, k); }
    var tr, e := FullTrace(t, k, 0), PathEnd(t, k, 0);
    FromBoolsStripped(tr.bitmap);
    var q := ProofOf(t, k).queries[0];
    assert q.key[..|tr.bitmap|] == k[..|tr.bitmap|];
    CommonPrefixLongest(k, q.key, |tr.bitmap|);
    ClimbTrace(t, k, 0, q.key, [], []);
    assert tr.bitmap + [] == tr.bitmap && DigestsOf(Reversed(tr.siblings)) + [] == DigestsOf(Reversed(tr.siblings));
    ClimbNothing(DigestOf(t), q.key);
  }

  lemma ShortTrace(t: Hash, k: Key)
    requires !t.Branch?
    ensures FullTrace(t, k, 0).bitmap == []
  {
  }

  lemma ClimbNothing(t: Digest, k: Key)
    ensures Climb(t, k, [], []) == Some(t)
  {
  }

  // ---------------------------------------------------------------- soundness

  /** The part of a term after the first `n` bits of a key, if there are so many branches. */
  function Descend(t: Hash, k: Key, n: nat): Option<Hash>
    requires n <= |k|
  {
    if n == 0 then Some(t)
    else
      var above := Descend(t, k, n - 1);
      if above.None? || !above.value.Branch? then None else Some(Toward(above.value, k, n - 1))
  }

  /** Whatever climbs to the digest of a term is the digest of what is found on the way down. */
  lemma {:induction false} ClimbedIsThere(h: Digest, k: Key, bits: seq<bool>, siblings: seq<Digest>, t: Hash)
    requires |bits| <= |k| && Climb(h, k, bits, siblings) == Some(DigestOf(t))
    ensures Descend(t, k, |bits|).Some? && DigestOf(Descend(t, k, |bits|).value) == h
    decreases |bits|
  {
    if bits != [] {
      var sibling := if bits[0] then siblings[0] else OfNothing;
      var rest := if bits[0] then siblings[1..] else siblings;
      var parent := if k[|bits| - 1] then OfBranch(sibling, h) else OfBranch(h, sibling);
      ClimbedIsThere(parent, k, bits[1..], rest, t);
    }
  }

  lemma {:induction false} DescendGet(t: Hash, q: Key, d: nat, n: nat, k: Key)
    requires |k| == n && d <= n && d <= |q| && k[..d] == q[..d] && Descend(t, q, d).Some?
    ensures Get(t, k, 0) == Get(Descend(t, q, d).value, k, d)
  {
    if d > 0 {
      assert k[..d - 1] == k[..d][..d - 1] == q[..d][..d - 1] == q[..d - 1];
      assert k[d - 1] == k[..d][d - 1] == q[..d][d - 1] == q[d - 1];
      DescendGet(t, q, d - 1, n, k);
    }
  }

  lemma {:induction false} DescendCanonical(t: Hash, q: Key, d: nat, n: nat)
    requires Canonical(t, [], n) && d <= |q| && Descend(t, q, d).Some?
    ensures Canonical(Descend(t, q, d).value, q[..d], n)
  {
    if d > 0 {
      DescendCanonical(t, q, d - 1, n);
      assert q[..d] == q[..d - 1] + [q[d - 1]];
    }
  }

  /** What a query says about a key: that it has the value, or that it is not there. */
  function Claim(q: Query, k: Key): Option<Value> { if q.key == k && q.value != [] then Some(q.value) else None }

  /** The query cannot be read in two ways: its key has the right length, or it shows an empty place, or its data does
      not begin with the key asked for. */
  predicate Clear(q: Query, k: Key) { |q.key| == |k| || q.value == [] || !(k <= q.key + q.value) }

  /** Soundness: an accepted query tells the truth about the key if and only if it is clear. */
  lemma AcceptedIsTrue(k: Key, proof: Proof, t: Hash, n: nat)
    requires Canonical(t, [], n) && Accepts(k, proof, DigestOf(t), n)
    ensures Get(t, k, 0) == Claim(proof.queries[0], k) <==> Clear(proof.queries[0], k)
  {
    hide Climb, Stripped, NoZeroByte, Descend;
    var q := proof.queries[0];
    var bits := Stripped(q.bitmap);
    ClimbedIsThere(QueryHash(q), q.key, bits, proof.siblingHashes, t);
    if k != q.key {
      var c := CommonPrefix(k, q.key);
      assert k[..|bits|] == k[..c][..|bits|] == q.key[..c][..|bits|] == q.key[..|bits|];
    }
    DescendGet(t, q.key, |bits|, n, k);
    DescendCanonical(t, q.key, |bits|, n);
    if q.value != [] { LeafRead(Descend(t, q.key, |bits|).value, q, k, |bits|, n); }
  }

  lemma LeafRead(u: Hash, q: Query, k: Key, d: nat, n: nat)
    requires DigestOf(u) == OfLeaf(q.key + q.value) && q.value != [] && |k| == n && (u.Leaf? ==> |u.key| == n && u.value != [])
    ensures Get(u, k, d) == Claim(q, k) <==> Clear(q, k)
  {
    assert u.Leaf? && u.key + u.value == q.key + q.value;
    var data := q.key + q.value;
    assert u.key == data[..n] && u.value == data[n..];
    assert q.key == data[..|q.key|] && q.value == data[|q.key|..];
  }

  /** Soundness against the map of a trie. */
  lemma AcceptedAgreesWithMap(k: Key, proof: Proof, m: Entries, t: Hash, n: nat)
    requires Canonical(t, [], n) && Holds(t, m, [], n) && Accepts(k, proof, DigestOf(t), n)
    ensures Lookup(m, k) == Claim(proof.queries[0], k) <==> Clear(proof.queries[0], k)
  {
    hide Accepts, Get, Canonical, Claim, Clear;
    AcceptedLength(k, proof, DigestOf(t), n);
    AcceptedIsTrue(k, proof, t, n);
    assert Below([], n, k);
  }

  lemma AcceptedLength(k: Key, proof: Proof, root: Digest, n: nat)
    requires Accepts(k, proof, root, n)
    ensures |k| == n && |proof.queries| == 1
  {
    hide Climb, Stripped, CommonPrefix, NoZeroByte;
  }

  /** Not every accepted query is true: where the first byte of the value counts as part of the key, the only key of
      a tree passes as absent. */
  lemma PresentPassesAsAbsent(k: Key, v: Value)
    requires |v| > 8
    ensures
      var q := Query(k + v[..8], v[8..], []);
      && Accepts(k, Proof([], [q]), DigestOf(Leaf(k, v)), |k|)
      && Claim(q, k) == None && Get(Leaf(k, v), k, 0) == Some(v)
  {
    hide CommonPrefix, Climb;
    var key := k + v[..8];
    assert key + v[8..] == k + v;
    assert key != k by { assert |key| == |k| + 8; }
    assert Stripped([]) == [];
    ClimbNothing(OfLeaf(k + v), key);
  }

  /** Proving and verifying a key of a trie always succeeds, and tells whether the key is there. */
  method ProveAndVerify(trie: Trie, db: Db, k: Key) returns (ok: bool, value: Option<Value>)
    requires trie.Valid(db) && |k| == 8 * trie.keyLength
    ensures ok && value == Lookup(trie.entries, k)
  {
    hide Coherent, Canonical, Present, AllBelow, Accepts, ProofOf, Holds;
    var proof := Prove(trie, db, k);
    if proof.None? {
      return false, None;
    }
    ProofIsAccepted(trie.root, k, 8 * trie.keyLength);
    OneQuery(trie.root, k, 8 * trie.keyLength);
    ok := Verify(k, proof.value, DigestOf(trie.root), 8 * trie.keyLength);
    AcceptedAgreesWithMap(k, proof.value, trie.entries, trie.root, 8 * trie.keyLength);
    value := Claim(proof.value.queries[0], k);
  }

  lemma OneQuery(t: Hash, k: Key, n: nat)
    requires Canonical(t, [], n) && |k| == n
    ensures |ProofOf(t, k).queries| == 1 && |ProofOf(t, k).queries[0].key| == n
  {
    hide Canonical, FullTrace, PathEnd, Reversed, FromBools;
    EndOnPath(t, [], n, k);
  }
}
