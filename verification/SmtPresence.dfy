/** What of a tree is in the database, and how updating parts of a subtree leaves the other parts alone. */
module SmtPresence {
  import opened Basics
  import opened SmtTree
  import opened SmtLayers
  import opened SmtSubtree
  import opened SmtStore
  import opened SmtBins

  type Table = map<Hash, Data>

  /** Under every hash lies the encoding of its own subtree. */
  ghost predicate Coherent(m: Table) {
    forall t :: t in m ==> m[t] == Encoded(Record(SubOf(t, 0)))
  }

  /** Every stub below a term at depth `d` of a subtree is stored. */
  predicate Present(m: Table, t: Hash, d: nat)
    requires d <= HEIGHT
  {
    match t
    case Branch(l, r) =>
      if d == HEIGHT then t in m && Present(m, l, 1) && Present(m, r, 1)
      else Present(m, l, d + 1) && Present(m, r, d + 1)
    case _ => true
  }

  lemma PresentJoin(m: Table, l: Hash, r: Hash, d: nat)
    requires d < HEIGHT && Present(m, l, d + 1) && Present(m, r, d + 1)
    ensures Present(m, Join(l, r), d)
  {
  }

  // ---------------------------------------------------------------- frames

  /** All keys of a term lie below a path. */
  predicate Under(t: Hash, p: Bits) {
    match t
    case Empty => true
    case Leaf(k, _) => p <= k
    case Branch(l, r) => Under(l, p) && Under(r, p)
  }

  lemma {:induction false} CanonicalUnder(t: Hash, p: Bits, n: nat, q: Bits)
    requires Canonical(t, p, n) && q <= p
    ensures Under(t, q)
  {
    match t
    case Empty =>
    case Leaf(k, _) => assert q <= p <= k;
    case Branch(l, r) =>
      CanonicalUnder(l, p + [false], n, q);
      CanonicalUnder(r, p + [true], n, q);
  }

  /** Two paths that part at some bit. */
  predicate Diverge(p: Bits, q: Bits) { exists i :: 0 <= i < |p| && i < |q| && p[i] != q[i] }

  lemma {:induction false} NotUnder(t: Hash, p: Bits, q: Bits, n: nat)
    requires Canonical(t, p, n) && t != Empty && Diverge(p, q)
    ensures !Under(t, q)
  {
    var i :| 0 <= i < |p| && i < |q| && p[i] != q[i];
    match t
    case Leaf(k, _) => assert k[i] == p[i];
    case Branch(l, r) =>
      assert (p + [false])[i] == p[i] && (p + [true])[i] == p[i];
      if l != Empty { NotUnder(l, p + [false], q, n); } else { NotUnder(r, p + [true], q, n); }
  }

  /** Nothing was stored or deleted except terms under the path. */
  ghost predicate Frame(before: Table, after: Table, p: Bits) {
    forall t :: !Under(t, p) ==> (t in before <==> t in after)
  }

  lemma {:induction false} PresentFrame(before: Table, after: Table, t: Hash, d: nat, q: Bits, p: Bits, n: nat)
    requires d <= HEIGHT && Canonical(t, q, n) && Diverge(q, p) && Frame(before, after, p) && Present(before, t, d)
    ensures Present(after, t, d)
  {
    if t.Branch? {
      var i :| 0 <= i < |p| && i < |q| && p[i] != q[i];
      assert (q + [false])[i] == q[i] && (q + [true])[i] == q[i];
      var e := if d == HEIGHT then 1 else d + 1;
      PresentFrame(before, after, t.left, e, q + [false], p, n);
      PresentFrame(before, after, t.right, e, q + [true], p, n);
      NotUnder(t, q, p, n);
    }
  }

  lemma FrameTransitive(a: Table, b: Table, c: Table, p: Bits)
    requires Frame(a, b, p) && Frame(b, c, p)
    ensures Frame(a, c, p)
  {
  }

  lemma {:induction false} UnderPrefix(t: Hash, p: Bits, q: Bits)
    requires Under(t, q) && p <= q
    ensures Under(t, p)
  {
    match t
    case Leaf(k, _) => assert p <= q <= k;
    case Branch(l, r) => UnderPrefix(l, p, q); UnderPrefix(r, p, q);
    case Empty =>
  }

  lemma FrameWider(a: Table, b: Table, p: Bits, q: Bits)
    requires Frame(a, b, q) && p <= q
    ensures Frame(a, b, p)
  {
    forall t | !Under(t, p) ensures t in a <==> t in b {
      if Under(t, q) { UnderPrefix(t, p, q); }
    }
  }

  function Size(t: Hash): nat {
    match t
    case Branch(l, r) => 1 + Size(l) + Size(r)
    case _ => 0
  }

  lemma {:induction false} PresentSmaller(m: Table, t: Hash, d: nat, x: Hash)
    requires d <= HEIGHT && Size(t) < Size(x) && Present(m, t, d)
    ensures Present(m - {x}, t, d)
  {
    if t.Branch? {
      var e := if d == HEIGHT then 1 else d + 1;
      PresentSmaller(m, t.left, e, x);
      PresentSmaller(m, t.right, e, x);
    }
  }

  /** Deleting a stub keeps all that is below it. */
  lemma StubDeleted(m: Table, t: Hash)
    requires t.Branch? && Present(m, t, HEIGHT)
    ensures t in m && Present(m, t, 0) && Present(m - {t}, t, 0)
  {
    PresentSmaller(m, t.left, 1, t);
    PresentSmaller(m, t.right, 1, t);
  }

  lemma {:induction false} PresentMore(m: Table, t: Hash, d: nat, x: Hash, data: Data)
    requires d <= HEIGHT && Present(m, t, d)
    ensures Present(m[x := data], t, d)
  {
    if t.Branch? {
      var e := if d == HEIGHT then 1 else d + 1;
      PresentMore(m, t.left, e, x, data);
      PresentMore(m, t.right, e, x, data);
    }
  }

  // ---------------------------------------------------------------- the tips of a subtree

  /** A tip: its node, the path to it, its depth in the subtree, and the number of its first bin. */
  datatype TipInfo = TipInfo(node: Node, path: Bits, depth: nat, offset: nat)

  function Tips(s: Sub<Node>, p: Bits, d: nat, o: nat): (r: seq<TipInfo>)
    requires d + Depth(s) <= HEIGHT
    ensures |r| >= 1
  {
    match s
    case Tip(x) => [TipInfo(x, p, d, o)]
    case Fork(l, r) => Tips(l, p + [false], d + 1, o) + Tips(r, p + [true], d + 1, o + Pow2(HEIGHT - d - 1))
  }

  lemma OneTip(s: Sub<Node>, p: Bits, d: nat, o: nat)
    requires s.Tip? && d <= HEIGHT
    ensures d + Depth(s) <= HEIGHT && Tips(s, p, d, o) == [TipInfo(s.value, p, d, o)]
  {
  }

  lemma ForkTips(s: Sub<Node>, p: Bits, d: nat, o: nat)
    requires s.Fork? && d + Depth(s) <= HEIGHT
    ensures d < HEIGHT && d + 1 + Depth(s.left) <= HEIGHT && d + 1 + Depth(s.right) <= HEIGHT
    ensures Tips(s, p, d, o) == Tips(s.left, p + [false], d + 1, o) + Tips(s.right, p + [true], d + 1, o + Pow2(HEIGHT - d - 1))
  {
    hide Pow2;
  }

  /** The tips are the list of the subtree. */
  lemma {:induction false} TipsAreFlat(s: Sub<Node>, p: Bits, d: nat, o: nat)
    requires d + Depth(s) <= HEIGHT
    ensures |Tips(s, p, d, o)| == |Flat(s, d)|
    ensures forall i :: 0 <= i < |Flat(s, d)| ==> Flat(s, d)[i] == (Tips(s, p, d, o)[i].node, Tips(s, p, d, o)[i].depth)
  {
    if s.Fork? {
      TipsAreFlat(s.left, p + [false], d + 1, o);
      TipsAreFlat(s.right, p + [true], d + 1, o + Pow2(HEIGHT - d - 1));
    }
  }

  function End(t: TipInfo): nat
    requires t.depth <= HEIGHT
  {
    t.offset + Pow2(HEIGHT - t.depth)
  }

  /** A tip within a part of the subtree. */
  predicate TipWithin(t: TipInfo, p: Bits, d: nat, o: nat)
    requires d <= HEIGHT
  {
    && p <= t.path && d <= t.depth <= HEIGHT && |t.path| == |p| + t.depth - d
    && o <= t.offset && End(t) <= o + Pow2(HEIGHT - d)
  }

  lemma {:induction false} TipsWithin(s: Sub<Node>, p: Bits, d: nat, o: nat, i: nat)
    requires d + Depth(s) <= HEIGHT && i < |Tips(s, p, d, o)|
    ensures TipWithin(Tips(s, p, d, o)[i], p, d, o)
  {
    hide Pow2;
    if s.Fork? {
      PowNext(HEIGHT - d);
      var ls := Tips(s.left, p + [false], d + 1, o);
      if i < |ls| {
        TipsWithin(s.left, p + [false], d + 1, o, i);
        assert p <= p + [false];
      } else {
        TipsWithin(s.right, p + [true], d + 1, o + Pow2(HEIGHT - d - 1), i - |ls|);
        assert p <= p + [true];
      }
    }
  }

  /** The bins of the tips follow each other without gaps. */
  lemma {:induction false} TipsInRow(s: Sub<Node>, p: Bits, d: nat, o: nat, i: nat)
    requires d + Depth(s) <= HEIGHT && i < |Tips(s, p, d, o)|
    ensures Tips(s, p, d, o)[0].offset == o
    ensures
      var ts := Tips(s, p, d, o);
      ts[i].depth <= HEIGHT && End(ts[i]) == if i + 1 < |ts| then ts[i + 1].offset else o + Pow2(HEIGHT - d)
  {
    hide Pow2, Flat;
    if s.Fork? {
      PowNext(HEIGHT - d);
      var ls := Tips(s.left, p + [false], d + 1, o);
      TipsInRow(s.left, p + [false], d + 1, o, if i < |ls| then i else 0);
      TipsInRow(s.right, p + [true], d + 1, o + Pow2(HEIGHT - d - 1), if i < |ls| then 0 else i - |ls|);
    }
  }

  lemma {:induction false} TipsDiverge(s: Sub<Node>, p: Bits, d: nat, o: nat, i: nat, j: nat)
    requires d + Depth(s) <= HEIGHT && i < j < |Tips(s, p, d, o)|
    ensures Diverge(Tips(s, p, d, o)[i].path, Tips(s, p, d, o)[j].path)
  {
    hide Pow2;
    var ls := Tips(s.left, p + [false], d + 1, o);
    var o2 := o + Pow2(HEIGHT - d - 1);
    if j < |ls| {
      TipsDiverge(s.left, p + [false], d + 1, o, i, j);
    } else if i >= |ls| {
      TipsDiverge(s.right, p + [true], d + 1, o2, i - |ls|, j - |ls|);
    } else {
      TipsWithin(s.left, p + [false], d + 1, o, i);
      TipsWithin(s.right, p + [true], d + 1, o2, j - |ls|);
      var a, b := Tips(s, p, d, o)[i].path, Tips(s, p, d, o)[j].path;
      assert a[|p|] == (p + [false])[|p|] && b[|p|] == (p + [true])[|p|];
    }
  }
}
