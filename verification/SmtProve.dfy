/** Proofs for one key (pkg/trie/smt/smt.go, utils.go, proof.go). */
module SmtProve {
  import opened Basics
  import opened SmtTree
  import opened SmtLayers
  import opened SmtSubtree
  import opened SmtStore
  import opened SmtBins
  import opened SmtPresence
  import opened SmtAssembly
  import opened SmtUpdate
  import opened SmtQuery

  // ---------------------------------------------------------------- the path of a key in a term

  function Toward(t: Hash, k: Key, bit: nat): Hash
    requires t.Branch? && bit < |k|
  {
    if k[bit] then t.right else t.left
  }

  function Aside(t: Hash, k: Key, bit: nat): Hash
    requires t.Branch? && bit < |k|
  {
    if k[bit] then t.left else t.right
  }

  /** What lies along the path of a key, all the way down. */
  function FullTrace(t: Hash, k: Key, bit: nat): Trace {
    if !t.Branch? || bit >= |k| then NOTHING
    else Raised(FullTrace(Toward(t, k, bit), k, bit + 1), t, Aside(t, k, bit))
  }

  /** Where the path ends. */
  function PathEnd(t: Hash, k: Key, bit: nat): Hash {
    if !t.Branch? || bit >= |k| then t else PathEnd(Toward(t, k, bit), k, bit + 1)
  }

  /** The same down to the lower edge of a subtree. */
  function EdgeTrace(t: Hash, k: Key, bit: nat, d: nat): Trace
    requires d <= HEIGHT
    decreases HEIGHT - d
  {
    if !t.Branch? || bit >= |k| || d == HEIGHT then NOTHING
    else Raised(EdgeTrace(Toward(t, k, bit), k, bit + 1, d + 1), t, Aside(t, k, bit))
  }

  function EdgeEnd(t: Hash, k: Key, bit: nat, d: nat): Hash
    requires d <= HEIGHT
    decreases HEIGHT - d
  {
    if !t.Branch? || bit >= |k| || d == HEIGHT then t else EdgeEnd(Toward(t, k, bit), k, bit + 1, d + 1)
  }

  /** The collection of an upper and a lower part. */
  function Combined(upper: Trace, lower: Trace): Trace {
    Trace(upper.siblings + lower.siblings, upper.ancestors + lower.ancestors, lower.bitmap + upper.bitmap)
  }

  lemma RaisedCombined(upper: Trace, lower: Trace, parent: Hash, sibling: Hash)
    ensures Raised(Combined(upper, lower), parent, sibling) == Combined(Raised(upper, parent, sibling), lower)
  {
    var first := if sibling == Empty then [] else [sibling];
    assert first + (upper.siblings + lower.siblings) == (first + upper.siblings) + lower.siblings;
    assert [parent] + (upper.ancestors + lower.ancestors) == ([parent] + upper.ancestors) + lower.ancestors;
    assert (lower.bitmap + upper.bitmap) + [sibling != Empty] == lower.bitmap + (upper.bitmap + [sibling != Empty]);
  }

  /** The path of a key splits at the lower edge of a subtree. */
  lemma {:induction false} TraceSplits(t: Hash, k: Key, bit: nat, d: nat)
    requires d <= HEIGHT && bit + HEIGHT - d <= |k|
    ensures
      var e := EdgeEnd(t, k, bit, d);
      if e.Branch?
      then FullTrace(t, k, bit) == Combined(EdgeTrace(t, k, bit, d), FullTrace(e, k, bit + HEIGHT - d))
           && PathEnd(t, k, bit) == PathEnd(e, k, bit + HEIGHT - d)
      else FullTrace(t, k, bit) == EdgeTrace(t, k, bit, d) && PathEnd(t, k, bit) == e
    decreases HEIGHT - d
  {
    hide Raised, Combined;
    if t.Branch? && d < HEIGHT {
      TraceSplits(Toward(t, k, bit), k, bit + 1, d + 1);
      var e := EdgeEnd(t, k, bit, d);
      if e.Branch? {
        RaisedCombined(EdgeTrace(Toward(t, k, bit), k, bit + 1, d + 1), FullTrace(e, k, bit + HEIGHT - d), t, Aside(t, k, bit));
      }
    } else if t.Branch? {
      NothingCombined(FullTrace(t, k, bit));
    }
  }

  lemma NothingCombined(tr: Trace)
    ensures Combined(NOTHING, tr) == tr
  {
    assert [] + tr.siblings == tr.siblings && [] + tr.ancestors == tr.ancestors && tr.bitmap + [] == tr.bitmap;
  }

  lemma {:induction false} EdgeCanonical(t: Hash, k: Key, p: Bits, d: nat, n: nat)
    requires d <= HEIGHT && Canonical(t, p, n) && Below(p, n, k) && |p| + HEIGHT - d <= n
    ensures
      var e := EdgeEnd(t, k, |p|, d);
      e.Branch? ==> Canonical(e, k[..|p| + HEIGHT - d], n)
    decreases HEIGHT - d
  {
    if t.Branch? && d < HEIGHT {
      BelowEither(p, n, k);
      EdgeCanonical(Toward(t, k, |p|), k, p + [k[|p|]], d + 1, n);
    } else if t.Branch? {
      assert k[..|p|] == p;
    }
  }

  lemma {:induction false} EdgePresent(m: Table, t: Hash, k: Key, bit: nat, d: nat)
    requires d <= HEIGHT && Present(m, t, d) && bit + HEIGHT - d <= |k|
    ensures
      var e := EdgeEnd(t, k, bit, d);
      e.Branch? ==> e in m && Present(m, e, 0)
    decreases HEIGHT - d
  {
    if t.Branch? && d < HEIGHT {
      EdgePresent(m, Toward(t, k, bit), k, bit + 1, d + 1);
    } else if t.Branch? {
      StubDeleted(m, t);
    }
  }

  // ---------------------------------------------------------------- the tip on the path

  /** The tip whose bins hold the key's bin lies on the key's path. */
  lemma {:induction false} TipOnPath(s: Sub<Node>, p: Bits, d: nat, o: nat, n: nat, k: Key, i: nat)
    requires d + Depth(s) <= HEIGHT && i < |Tips(s, p, d, o)| && Below(p, n, k) && |p| + HEIGHT - d <= n
    requires
      var t := Tips(s, p, d, o)[i];
      t.depth <= HEIGHT && t.offset <= o + Index(k, |p|, HEIGHT - d) < End(t)
    ensures Tips(s, p, d, o)[i].path <= k
  {
    hide Pow2, Index, Tips, Depth, Below, End;
    if s.Fork? {
      ForkTips(s, p, d, o);
      var half := Pow2(HEIGHT - d - 1);
      var ls, rs := Tips(s.left, p + [false], d + 1, o), Tips(s.right, p + [true], d + 1, o + half);
      if i < |ls| {
        TipsWithin(s.left, p + [false], d + 1, o, i);
        IndexSide(p, n, k, d);
        TipOnPath(s.left, p + [false], d + 1, o, n, k, i);
      } else {
        TipsWithin(s.right, p + [true], d + 1, o + half, i - |ls|);
        IndexSide(p, n, k, d);
        TipOnPath(s.right, p + [true], d + 1, o + half, n, k, i - |ls|);
      }
    } else {
      OneTip(s, p, d, o);
      KeyLongEnough(p, n, k);
    }
  }

  /** The key's bin is in the half of its next bit. */
  lemma IndexSide(p: Bits, n: nat, k: Key, d: nat)
    requires d < HEIGHT && Below(p, n, k) && |p| + HEIGHT - d <= n
    ensures
      var half := Pow2(HEIGHT - d - 1);
      && (Index(k, |p|, HEIGHT - d) < half ==>
            Below(p + [false], n, k) && Index(k, |p| + 1, HEIGHT - d - 1) == Index(k, |p|, HEIGHT - d))
      && (Index(k, |p|, HEIGHT - d) >= half ==>
            Below(p + [true], n, k) && half + Index(k, |p| + 1, HEIGHT - d - 1) == Index(k, |p|, HEIGHT - d))
  {
    hide Pow2, Index;
    IndexBit(k, |p|, HEIGHT - d);
    BelowEither(p, n, k);
  }

  /** What the marked subtree evaluates to. */
  lemma {:induction false} MarkedElsewhere(t: Hash, d: nat, i: int)
    requires d <= HEIGHT && !(0 <= i < Count(SubOf(t, d)))
    ensures Eval(Marked(SubOf(t, d), i), JoinItem) == Item(t, None)
    decreases HEIGHT - d
  {
    if t.Branch? && d < HEIGHT {
      MarkedShape(t, d, i);
      MarkedElsewhere(t.left, d + 1, i);
      MarkedElsewhere(t.right, d + 1, i - Count(SubOf(t.left, d + 1)));
    }
  }

  lemma {:induction false} MarkedOnPath(t: Hash, p: Bits, d: nat, o: nat, n: nat, k: Key, i: nat)
    requires d <= HEIGHT && d + Depth(SubOf(t, d)) <= HEIGHT && Below(p, n, k) && |p| + HEIGHT - d <= n
    requires i < |Tips(SubOf(t, d), p, d, o)| && Tips(SubOf(t, d), p, d, o)[i].path <= k
    ensures Eval(Marked(SubOf(t, d), i), JoinItem) == Item(t, Some(EdgeTrace(t, k, |p|, d)))
    ensures
      var tip := Tips(SubOf(t, d), p, d, o)[i];
      tip.node == EdgeNode(EdgeEnd(t, k, |p|, d)) && (tip.node.StubNode? ==> tip.depth == HEIGHT)
    decreases HEIGHT - d
  {
    hide Pow2, Tips, Depth, Below, End, Eval, Marked, EdgeTrace, EdgeEnd, JoinItem, SubOf, Count;
    SubOfShape(t, d);
    if t.Branch? && d < HEIGHT {
      var l, r := SubOf(t.left, d + 1), SubOf(t.right, d + 1);
      var o2 := o + Pow2(HEIGHT - d - 1);
      ForkTips(SubOf(t, d), p, d, o);
      var ls, rs := Tips(l, p + [false], d + 1, o), Tips(r, p + [true], d + 1, o2);
      TipsCount(l, p + [false], d + 1, o);
      TipsCount(r, p + [true], d + 1, o2);
      if i < |ls| {
        TipsWithin(l, p + [false], d + 1, o, i);
        SideOfPath(p, ls[i].path, n, k, false);
        MarkedOnPath(t.left, p + [false], d + 1, o, n, k, i);
        MarkedElsewhere(t.right, d + 1, i - |ls|);
      } else {
        TipsWithin(r, p + [true], d + 1, o2, i - |ls|);
        SideOfPath(p, rs[i - |ls|].path, n, k, true);
        MarkedOnPath(t.right, p + [true], d + 1, o2, n, k, i - |ls|);
        MarkedElsewhere(t.left, d + 1, i);
      }
      MarkedFork(t, k, |p|, d, i);
    } else {
      OneTip(SubOf(t, d), p, d, o);
      MarkedTip(t, k, |p|, d, i);
    }
  }

  lemma SubOfShape(t: Hash, d: nat)
    requires d <= HEIGHT
    ensures t.Branch? && d < HEIGHT ==> SubOf(t, d) == Fork(SubOf(t.left, d + 1), SubOf(t.right, d + 1))
    ensures !(t.Branch? && d < HEIGHT) ==> SubOf(t, d).Tip?
  {
  }

  lemma MarkedTip(t: Hash, k: Key, bit: nat, d: nat, i: nat)
    requires d <= HEIGHT && (!t.Branch? || d == HEIGHT) && i == 0
    ensures Eval(Marked(SubOf(t, d), i), JoinItem) == Item(t, Some(EdgeTrace(t, k, bit, d)))
    ensures EdgeEnd(t, k, bit, d) == t && SubOf(t, d) == Tip(EdgeNode(t))
  {
  }

  lemma MarkedFork(t: Hash, k: Key, bit: nat, d: nat, i: nat)
    requires t.Branch? && d < HEIGHT && bit < |k|
    requires
      var c := Count(SubOf(t.left, d + 1));
      var l, r := Eval(Marked(SubOf(t.left, d + 1), i), JoinItem), Eval(Marked(SubOf(t.right, d + 1), i - c), JoinItem);
      if k[bit] then l == Item(t.left, None) && r == Item(t.right, Some(EdgeTrace(t.right, k, bit + 1, d + 1)))
      else r == Item(t.right, None) && l == Item(t.left, Some(EdgeTrace(t.left, k, bit + 1, d + 1)))
    ensures Eval(Marked(SubOf(t, d), i), JoinItem) == Item(t, Some(EdgeTrace(t, k, bit, d)))
    ensures EdgeEnd(t, k, bit, d) == EdgeEnd(Toward(t, k, bit), k, bit + 1, d + 1)
  {
    hide Raised, Eval, Marked, SubOf, EdgeTrace, EdgeEnd, Count;
    MarkedShape(t, d, i);
    EdgeStep(t, k, bit, d);
  }

  lemma MarkedShape(t: Hash, d: nat, i: int)
    requires t.Branch? && d < HEIGHT
    ensures
      var l, r := SubOf(t.left, d + 1), SubOf(t.right, d + 1);
      Eval(Marked(SubOf(t, d), i), JoinItem) == JoinItem(Eval(Marked(l, i), JoinItem), Eval(Marked(r, i - Count(l)), JoinItem))
  {
    hide JoinItem, Count;
  }

  lemma EdgeStep(t: Hash, k: Key, bit: nat, d: nat)
    requires t.Branch? && d < HEIGHT && bit < |k|
    ensures EdgeTrace(t, k, bit, d) == Raised(EdgeTrace(Toward(t, k, bit), k, bit + 1, d + 1), t, Aside(t, k, bit))
    ensures EdgeEnd(t, k, bit, d) == EdgeEnd(Toward(t, k, bit), k, bit + 1, d + 1)
  {
    hide Raised;
  }

  lemma SideOfPath(p: Bits, q: Bits, n: nat, k: Key, b: bool)
    requires p + [b] <= q <= k && Below(p, n, k)
    ensures Below(p + [b], n, k) && |p| < |k| && k[|p|] == b
  {
    PathSide(p, q, k, b);
  }

  lemma PathSide(p: Bits, q: Bits, k: Key, b: bool)
    requires p + [b] <= q <= k
    ensures p + [b] <= k && k[|p|] == b
  {
    assert k[|p|] == q[|p|] == (p + [b])[|p|];
  }

  // ---------------------------------------------------------------- generateQueryProof

  datatype QueryProof = QueryProof(key: Key, value: Value, bitmap: seq<bool>, siblings: seq<Hash>, ancestors: seq<Hash>)

  /** The query proof of a key: what stands at the end of its path, and what lies along it. */
  function QueryOf(t: Hash, k: Key, bit: nat): QueryProof {
    var tr, e := FullTrace(t, k, bit), PathEnd(t, k, bit);
    match e
    case Leaf(l, v) => QueryProof(l, v, tr.bitmap, tr.siblings, tr.ancestors + [e])
    case _ => QueryProof(k, [], tr.bitmap, tr.siblings, tr.ancestors)
  }

  function QNodes(nodes: seq<Node>): (r: seq<QNode>)
    ensures |r| == |nodes|
  {
    seq(|nodes|, i requires 0 <= i < |nodes| => QNode(HashOf(nodes[i]), nodes[i].EmptyNode?, i))
  }

  lemma {:induction false} MarkedFlat(s: Sub<Node>, d: nat, k: int)
    ensures |Flat(Marked(s, k), d)| == |Flat(s, d)| == Count(s) && Depth(Marked(s, k)) == Depth(s)
    ensures forall j :: 0 <= j < |Flat(s, d)| ==>
              Flat(Marked(s, k), d)[j] == (Item(HashOf(Flat(s, d)[j].0), if j == k then Some(NOTHING) else None), Flat(s, d)[j].1)
  {
    if s.Fork? {
      MarkedFlat(s.left, d + 1, k);
      MarkedFlat(s.right, d + 1, k - Count(s.left));
    }
  }

  /** No tip but an empty one has the empty hash. */
  predicate ProperTips(s: Sub<Node>) {
    match s
    case Tip(x) => HashOf(x) == Empty ==> x.EmptyNode?
    case Fork(l, r) => ProperTips(l) && ProperTips(r)
  }

  lemma {:induction false} SubOfProper(t: Hash, d: nat)
    requires d <= HEIGHT
    ensures ProperTips(SubOf(t, d))
    decreases HEIGHT - d
  {
    if t.Branch? && d < HEIGHT {
      SubOfProper(t.left, d + 1);
      SubOfProper(t.right, d + 1);
    }
  }

  lemma {:induction false} ProperFlat(s: Sub<Node>, d: nat)
    requires ProperTips(s)
    ensures forall j :: 0 <= j < |Flat(s, d)| ==> (HashOf(Flat(s, d)[j].0) == Empty <==> Flat(s, d)[j].0.EmptyNode?)
  {
    if s.Fork? {
      ProperFlat(s.left, d + 1);
      ProperFlat(s.right, d + 1);
    }
  }

  lemma StartTracks(s: Sub<Node>, k: nat)
    requires ProperTips(s) && k < Count(s)
    ensures
      var h := Highest(LayoutOf(s, 0).structure);
      var xs := Cut(Marked(s, k), 0, h, JoinItem);
      && |LayoutOf(s, 0).nodes| == Count(s)
      && Tracks(QNodes(LayoutOf(s, 0).nodes), xs, k, NOTHING, Count(s)) && LayoutOf(s, 0).structure == Depths(xs)
  {
    hide Cut, Flat, Highest, Marked, Depth;
    HighestOfFlat(s, 0);
    MarkedFlat(s, 0, k);
    ProperFlat(s, 0);
    FlatIsCut(Marked(s, k), 0, Depth(s), JoinItem);
  }

  /** The loop that finds the node for a bin. */
  method FindTip(sub: SubTree, binIndex: nat, ghost s: Sub<Node>, ghost p: Bits) returns (i: nat)
    requires sub == Record(s) && Depth(s) <= HEIGHT && binIndex < Pow2(HEIGHT)
    ensures i < |sub.nodes| == |Tips(s, p, 0, 0)| == |Flat(s, 0)|
    ensures
      var t := Tips(s, p, 0, 0)[i];
      t.depth <= HEIGHT && t.offset <= binIndex < End(t)
  {
    hide Tips, Flat, Pow2, Eval, Depth;
    ghost var ts := Tips(s, p, 0, 0);
    TipPosition(s, p, 0);
    RecordAt(s, 0);
    i := 0;
    var binOffset := 0;
    while true
      invariant i < |ts| == |sub.nodes| == |sub.structure| == |Flat(s, 0)| && binOffset == ts[i].offset <= binIndex
      decreases |ts| - i
    {
      TipPosition(s, p, i);
      RecordAt(s, i);
      EndOf(ts[i]);
      var newOffset := Pow2(HEIGHT - sub.structure[i]);
      if binIndex < binOffset + newOffset {
        return;
      }
      binOffset := binOffset + newOffset;
      i := i + 1;
    }
  }

  /** One subtree of generateQueryProof: the node on the path and what was collected. */
  method QuerySubtree(sub: SubTree, k: Key, height: nat, ghost t: Hash, ghost p: Bits, n: nat) returns (node: Node, tr: Trace)
    requires sub == Record(SubOf(t, 0)) && Below(p, n, k) && |p| == height && height + HEIGHT <= n
    ensures node == EdgeNode(EdgeEnd(t, k, height, 0)) && tr == EdgeTrace(t, k, height, 0)
  {
    hide Tips, Flat, Pow2, Eval, Depth, EdgeTrace, EdgeEnd, SubOf, Record, Index, Below, Cut, Marked, Tracks, Highest;
    ghost var s := SubOf(t, 0);
    SubOfTipsOk(t, 0);
    TipsOkMeans(s, 0);
    SubOfProper(t, 0);
    KeyLongEnough(p, n, k);
    var binIndex := Index(k, height, HEIGHT);
    var i := FindTip(sub, binIndex, s, p);
    TipOnPath(s, p, 0, 0, n, k, i);
    MarkedOnPath(t, p, 0, 0, n, k, i);
    TipsCount(s, p, 0, 0);
    TipPosition(s, p, i);
    RecordAt(s, i);
    RecordLists(s);
    StartTracks(s, i);
    var maxStructure := MaxOf(sub.structure);
    tr := CalculateQueryHashes(QNodes(sub.nodes), sub.structure, maxStructure, i, |sub.nodes|, NOTHING, s, i);
    node := sub.nodes[i];
  }

  lemma KeyLongEnough(p: Bits, n: nat, k: Key)
    requires Below(p, n, k)
    ensures |k| == n && p <= k
  {
  }

  lemma RecordLists(s: Sub<Node>)
    ensures Record(s).nodes == LayoutOf(s, 0).nodes && Record(s).structure == LayoutOf(s, 0).structure && |Record(s).structure| == |Flat(s, 0)|
  {
  }

  /** generateQueryProof; None when the key is too short or too long, or a subtree is missing. */
  method GenerateQueryProof(db: Db, sub: SubTree, k: Key, height: nat, n: nat, ghost t: Hash, ghost p: Bits) returns (r: Option<QueryProof>)
    requires Coherent(db.data) && Present(db.data, t, 0) && sub == Record(SubOf(t, 0))
    requires |p| == height && height + HEIGHT <= n && height % 8 == 0 && n % 8 == 0 && Canonical(t, p, n)
    requires |k| == n ==> p <= k
    ensures r == if |k| == n then Some(QueryOf(t, k, height)) else None
    decreases n - height
  {
    hide Coherent, Present, Record, Canonical, EdgeTrace, EdgeEnd, FullTrace, PathEnd, SubOf;
    if |k| != n {
      return None;
    }
    var node, tr := QuerySubtree(sub, k, height, t, p, n);
    ghost var e := EdgeEnd(t, k, height, 0);
    TraceSplits(t, k, height, 0);
    match node {
      case EmptyNode =>
        return Some(QueryProof(k, [], tr.bitmap, tr.siblings, tr.ancestors));
      case LeafNode(l, v) =>
        return Some(QueryProof(l, v, tr.bitmap, tr.siblings, tr.ancestors + [Leaf(l, v)]));
      case StubNode(hash) =>
        EdgeCanonical(t, k, p, 0, n);
        EdgePresent(db.data, t, k, height, 0);
        EdgeNotFull(e, k, height + HEIGHT, n);
        var lowerSubtree := GetSubtree(db, hash);
        if lowerSubtree.None? {
          return None;
        }
        var lower := GenerateQueryProof(db, lowerSubtree.value, k, height + HEIGHT, n, e, k[..height + HEIGHT]);
        if lower.None? {
          return None;
        }
        LowerQuery(t, e, k, height, tr);
        return Some(QueryProof(lower.value.key, lower.value.value, lower.value.bitmap + tr.bitmap,
                               tr.siblings + lower.value.siblings, tr.ancestors + lower.value.ancestors));
    }
  }

  lemma EdgeNotFull(e: Hash, k: Key, bit: nat, n: nat)
    requires e.Branch? && |k| == n && bit <= n && Canonical(e, k[..bit], n)
    ensures bit < n
  {
  }

  lemma LowerQuery(t: Hash, e: Hash, k: Key, bit: nat, tr: Trace)
    requires FullTrace(t, k, bit) == Combined(tr, FullTrace(e, k, bit + HEIGHT)) && PathEnd(t, k, bit) == PathEnd(e, k, bit + HEIGHT)
    ensures
      var lower := QueryOf(e, k, bit + HEIGHT);
      QueryOf(t, k, bit) == QueryProof(lower.key, lower.value, lower.bitmap + tr.bitmap, tr.siblings + lower.siblings, tr.ancestors + lower.ancestors)
  {
    hide FullTrace, PathEnd;
    var low, end := FullTrace(e, k, bit + HEIGHT), PathEnd(e, k, bit + HEIGHT);
    assert (tr.ancestors + low.ancestors) + [end] == tr.ancestors + (low.ancestors + [end]);
  }
}
