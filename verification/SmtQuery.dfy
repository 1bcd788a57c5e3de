/** Collecting the siblings on the path of a key (pkg/trie/smt/utils.go, smt.go). */
module SmtQuery {
  import opened Basics
  import opened SmtTree
  import opened SmtLayers
  import opened SmtSubtree
  import opened SmtStore
  import opened SmtPresence
  import opened SmtAssembly

  // ---------------------------------------------------------------- what is collected

  /** The hashes of siblings that are not empty and of ancestors, from the top down, and for each layer from the
      bottom up whether the sibling is not empty. */
  datatype Trace = Trace(siblings: seq<Hash>, ancestors: seq<Hash>, bitmap: seq<bool>)

  const NOTHING: Trace := Trace([], [], [])

  /** One layer up: the parent and the sibling on the other side. */
  function Raised(tr: Trace, parent: Hash, sibling: Hash): Trace {
    Trace((if sibling == Empty then [] else [sibling]) + tr.siblings, [parent] + tr.ancestors, tr.bitmap + [sibling != Empty])
  }

  /** A node on its way up, with what was collected if the node asked for lies below it. */
  datatype Item = Item(hash: Hash, trace: Option<Trace>)

  function JoinItem(a: Item, b: Item): Item {
    var parent := Branch(a.hash, b.hash);
    if a.trace.Some? then Item(parent, Some(Raised(a.trace.value, parent, b.hash)))
    else if b.trace.Some? then Item(parent, Some(Raised(b.trace.value, parent, a.hash)))
    else Item(parent, None)
  }

  /** The subtree with its tip number `i` marked. */
  function Marked(s: Sub<Node>, i: int): Sub<Item> {
    match s
    case Tip(x) => Tip(Item(HashOf(x), if i == 0 then Some(NOTHING) else None))
    case Fork(l, r) => Fork(Marked(l, i), Marked(r, i - Count(l)))
  }

  type Items = seq<(Item, nat)>

  predicate AtMostOne(xs: Items) { forall i, j :: 0 <= i < j < |xs| ==> xs[i].0.trace.None? || xs[j].0.trace.None? }

  predicate NoneTraced(xs: Items) { forall i :: 0 <= i < |xs| ==> xs[i].0.trace.None? }

  lemma {:induction false} EvalTraced(s: Sub<Node>, i: int)
    ensures Eval(Marked(s, i), JoinItem).trace.Some? <==> 0 <= i < Count(s)
  {
    if s.Fork? {
      EvalTraced(s.left, i);
      EvalTraced(s.right, i - Count(s.left));
    }
  }

  lemma {:induction false} CutTraced(s: Sub<Node>, i: int, d: nat, h: nat)
    ensures AtMostOne(Cut(Marked(s, i), d, h, JoinItem))
    ensures !(0 <= i < Count(s)) ==> NoneTraced(Cut(Marked(s, i), d, h, JoinItem))
  {
    if s.Fork? {
      if d >= h {
        EvalTraced(s, i);
      } else {
        CutTraced(s.left, i, d + 1, h);
        CutTraced(s.right, i - Count(s.left), d + 1, h);
      }
    }
  }

  // ---------------------------------------------------------------- calculateQueryHashes

  /** A node in the lists: its hash, whether it is an empty node, and its number. */
  datatype QNode = QNode(hash: Hash, empty: bool, index: nat)

  /** The list stands for the items; the number asked for is that of the item that carries the trace. */
  ghost predicate Tracks(nodes: seq<QNode>, xs: Items, targetID: nat, tr: Trace, bound: nat) {
    && |nodes| == |xs|
    && forall j :: 0 <= j < |nodes| ==>
         && nodes[j].hash == xs[j].0.hash && (nodes[j].empty <==> nodes[j].hash == Empty) && nodes[j].index < bound
         && (xs[j].0.trace.Some? <==> nodes[j].index == targetID) && (xs[j].0.trace.Some? ==> xs[j].0.trace.value == tr)
  }

  lemma TracksAppend(nodes: seq<QNode>, xs: Items, targetID: nat, tr: Trace, bound: nat, x: QNode, y: (Item, nat))
    requires Tracks(nodes, xs, targetID, tr, bound) && Tracks([x], [y], targetID, tr, bound)
    ensures Tracks(nodes + [x], xs + [y], targetID, tr, bound)
  {
  }

  lemma TracksSuffix(nodes: seq<QNode>, xs: Items, targetID: nat, tr: Trace, bound: nat, k: nat)
    requires Tracks(nodes, xs, targetID, tr, bound) && k <= |nodes|
    ensures Tracks(nodes[k..], xs[k..], targetID, tr, bound)
  {
  }

  lemma TracksFirst(nodes: seq<QNode>, xs: Items, targetID: nat, tr: Trace, bound: nat)
    requires Tracks(nodes, xs, targetID, tr, bound) && nodes != []
    ensures Tracks(nodes[..1], xs[..1], targetID, tr, bound)
  {
  }

  lemma TracksMoreRoom(nodes: seq<QNode>, xs: Items, targetID: nat, tr: Trace, bound: nat, more: nat)
    requires Tracks(nodes, xs, targetID, tr, bound) && bound <= more
    ensures Tracks(nodes, xs, targetID, tr, more)
  {
  }

  /** When the trace has moved on to a new number, lists without it track it just as well. */
  lemma TracksOther(nodes: seq<QNode>, xs: Items, targetID: nat, tr: Trace, bound: nat, newID: nat, newTrace: Trace)
    requires Tracks(nodes, xs, targetID, tr, bound) && NoneTraced(xs) && newID >= bound
    ensures Tracks(nodes, xs, newID, newTrace, bound)
  {
  }

  /** The state of the loop over one layer: `ys` is done, `xs[i..]` still to come. */
  ghost predicate Walking(nextNodes: seq<QNode>, ys: Items, nodes: seq<QNode>, xs: Items, i: nat, targetID: nat, tr: Trace, maxIndex: nat) {
    && i <= |nodes| == |xs| && targetID < maxIndex + i + 1 && (i == 0 ==> targetID < maxIndex)
    && (targetID >= maxIndex ==> NoneTraced(xs[i..]) && targetID < maxIndex + i)
    && Tracks(nextNodes, ys, targetID, tr, maxIndex + i) && Tracks(nodes[i..], xs[i..], targetID, tr, maxIndex)
    && AtMostOne(ys + xs[i..])
  }

  lemma WalkStart(nodes: seq<QNode>, xs: Items, targetID: nat, tr: Trace, maxIndex: nat)
    requires Tracks(nodes, xs, targetID, tr, maxIndex) && targetID < maxIndex && AtMostOne(xs)
    ensures Walking([], [], nodes, xs, 0, targetID, tr, maxIndex)
  {
    assert nodes[0..] == nodes && xs[0..] == xs && [] + xs == xs;
  }

  /** A node of another depth is carried over. */
  lemma WalkOver(nextNodes: seq<QNode>, ys: Items, nodes: seq<QNode>, xs: Items, i: nat, targetID: nat, tr: Trace, maxIndex: nat)
    requires Walking(nextNodes, ys, nodes, xs, i, targetID, tr, maxIndex) && i < |nodes|
    ensures Walking(nextNodes + [nodes[i]], ys + [xs[i]], nodes, xs, i + 1, targetID, tr, maxIndex)
  {
    assert nodes[i..][..1] == [nodes[i]] && xs[i..][..1] == [xs[i]];
    assert nodes[i..][1..] == nodes[i + 1..] && xs[i..][1..] == xs[i + 1..];
    TracksFirst(nodes[i..], xs[i..], targetID, tr, maxIndex);
    TracksSuffix(nodes[i..], xs[i..], targetID, tr, maxIndex, 1);
    TracksMoreRoom(nextNodes, ys, targetID, tr, maxIndex + i, maxIndex + i + 1);
    TracksMoreRoom([nodes[i]], [xs[i]], targetID, tr, maxIndex, maxIndex + i + 1);
    TracksAppend(nextNodes, ys, targetID, tr, maxIndex + i + 1, nodes[i], xs[i]);
    assert (ys + [xs[i]]) + xs[i + 1..] == ys + xs[i..];
    SuffixNoneTraced(xs, i);
  }

  lemma SuffixNoneTraced(xs: Items, i: nat)
    requires i < |xs|
    ensures NoneTraced(xs[i..]) ==> NoneTraced(xs[i + 1..]) && xs[i].0.trace.None?
    ensures i + 1 < |xs| && NoneTraced(xs[i..]) ==> NoneTraced(xs[i + 2..]) && xs[i + 1].0.trace.None?
  {
    if NoneTraced(xs[i..]) {
      forall j | i <= j < |xs| ensures xs[j].0.trace.None? { assert xs[j] == xs[i..][j - i]; }
    }
  }

  /** Who carries the trace in a pair. */
  lemma PairTraced(nextNodes: seq<QNode>, ys: Items, nodes: seq<QNode>, xs: Items, i: nat, targetID: nat, tr: Trace, maxIndex: nat)
    requires Walking(nextNodes, ys, nodes, xs, i, targetID, tr, maxIndex) && i + 1 < |nodes|
    ensures nodes[i].hash == xs[i].0.hash && nodes[i + 1].hash == xs[i + 1].0.hash
    ensures (nodes[i].empty <==> nodes[i].hash == Empty) && (nodes[i + 1].empty <==> nodes[i + 1].hash == Empty)
    ensures xs[i].0.trace.Some? <==> nodes[i].index == targetID
    ensures xs[i + 1].0.trace.Some? <==> nodes[i + 1].index == targetID
    ensures xs[i].0.trace.Some? ==> xs[i].0.trace.value == tr
    ensures xs[i + 1].0.trace.Some? ==> xs[i + 1].0.trace.value == tr
    ensures xs[i].0.trace.Some? || xs[i + 1].0.trace.Some? ==> targetID < maxIndex && NoneTraced(ys) && NoneTraced(xs[i + 2..])
    ensures xs[i].0.trace.Some? ==> xs[i + 1].0.trace.None?
  {
    assert nodes[i..][0] == nodes[i] && nodes[i..][1] == nodes[i + 1];
    assert xs[i..][0] == xs[i] && xs[i..][1] == xs[i + 1];
    var all := ys + xs[i..];
    var k := |ys|;
    assert all[k] == xs[i] && all[k + 1] == xs[i + 1];
    SuffixNoneTraced(xs, i);
    if xs[i].0.trace.Some? || xs[i + 1].0.trace.Some? {
      forall j | 0 <= j < |ys| ensures ys[j].0.trace.None? { assert all[j] == ys[j]; }
      var rest := xs[i + 2..];
      forall j | 0 <= j < |rest| ensures rest[j].0.trace.None? { assert all[k + 2 + j] == rest[j]; }
    }
  }

  /** A pair that does not carry the trace is joined. */
  lemma WalkPairPlain(nextNodes: seq<QNode>, ys: Items, nodes: seq<QNode>, xs: Items, i: nat, targetID: nat, tr: Trace, maxIndex: nat, h: nat)
    requires Walking(nextNodes, ys, nodes, xs, i, targetID, tr, maxIndex) && i + 1 < |nodes|
    requires nodes[i].index != targetID && nodes[i + 1].index != targetID
    ensures
      var parent := QNode(Branch(nodes[i].hash, nodes[i + 1].hash), false, maxIndex + i);
      var y := (JoinItem(xs[i].0, xs[i + 1].0), h);
      Walking(nextNodes + [parent], ys + [y], nodes, xs, i + 2, targetID, tr, maxIndex)
  {
    PairTraced(nextNodes, ys, nodes, xs, i, targetID, tr, maxIndex);
    var parent := QNode(Branch(nodes[i].hash, nodes[i + 1].hash), false, maxIndex + i);
    var y := (JoinItem(xs[i].0, xs[i + 1].0), h);
    assert nodes[i..][2..] == nodes[i + 2..] && xs[i..][2..] == xs[i + 2..];
    TracksSuffix(nodes[i..], xs[i..], targetID, tr, maxIndex, 2);
    TracksMoreRoom(nextNodes, ys, targetID, tr, maxIndex + i, maxIndex + i + 2);
    TargetBelow(nextNodes, ys, nodes, xs, i, targetID, tr, maxIndex);
    TracksAppend(nextNodes, ys, targetID, tr, maxIndex + i + 2, parent, y);
    PlainAtMostOne(ys, xs, i, y);
    SuffixNoneTraced(xs, i);
  }

  lemma TargetBelow(nextNodes: seq<QNode>, ys: Items, nodes: seq<QNode>, xs: Items, i: nat, targetID: nat, tr: Trace, maxIndex: nat)
    requires Walking(nextNodes, ys, nodes, xs, i, targetID, tr, maxIndex)
    ensures targetID < maxIndex + i
  {
  }

  lemma PlainAtMostOne(ys: Items, xs: Items, i: nat, y: (Item, nat))
    requires i + 1 < |xs| && AtMostOne(ys + xs[i..]) && y.0.trace.None?
    ensures AtMostOne((ys + [y]) + xs[i + 2..])
  {
    var all, now := ys + xs[i..], (ys + [y]) + xs[i + 2..];
    forall a, b | 0 <= a < b < |now| ensures now[a].0.trace.None? || now[b].0.trace.None? {
      if a != |ys| && b != |ys| {
        var a1, b1 := (if a < |ys| then a else a + 1), (if b < |ys| then b else b + 1);
        assert now[a] == all[a1] && now[b] == all[b1];
      }
    }
  }

  /** The pair with the trace is joined: the trace moves up to the parent. */
  lemma WalkPairTraced(nextNodes: seq<QNode>, ys: Items, nodes: seq<QNode>, xs: Items, i: nat, targetID: nat, tr: Trace, maxIndex: nat, h: nat)
    requires Walking(nextNodes, ys, nodes, xs, i, targetID, tr, maxIndex) && i + 1 < |nodes|
    requires nodes[i].index == targetID || nodes[i + 1].index == targetID
    ensures
      var parent := QNode(Branch(nodes[i].hash, nodes[i + 1].hash), false, maxIndex + i);
      var y := (JoinItem(xs[i].0, xs[i + 1].0), h);
      var sibling := if nodes[i].index == targetID then nodes[i + 1].hash else nodes[i].hash;
      && targetID < maxIndex
      && Walking(nextNodes + [parent], ys + [y], nodes, xs, i + 2, maxIndex + i, Raised(tr, parent.hash, sibling), maxIndex)
  {
    PairTraced(nextNodes, ys, nodes, xs, i, targetID, tr, maxIndex);
    var parent := QNode(Branch(nodes[i].hash, nodes[i + 1].hash), false, maxIndex + i);
    var y := (JoinItem(xs[i].0, xs[i + 1].0), h);
    var sibling := if nodes[i].index == targetID then nodes[i + 1].hash else nodes[i].hash;
    var newTrace := Raised(tr, parent.hash, sibling);
    assert nodes[i..][2..] == nodes[i + 2..] && xs[i..][2..] == xs[i + 2..];
    TracksSuffix(nodes[i..], xs[i..], targetID, tr, maxIndex, 2);
    TracksOther(nodes[i + 2..], xs[i + 2..], targetID, tr, maxIndex, maxIndex + i, newTrace);
    TracksOther(nextNodes, ys, targetID, tr, maxIndex + i, maxIndex + i, newTrace);
    TracksMoreRoom(nextNodes, ys, maxIndex + i, newTrace, maxIndex + i, maxIndex + i + 2);
    TracksAppend(nextNodes, ys, maxIndex + i, newTrace, maxIndex + i + 2, parent, y);
    var now := (ys + [y]) + xs[i + 2..];
    forall a, b | 0 <= a < b < |now| ensures now[a].0.trace.None? || now[b].0.trace.None? {
      if a < |ys| { assert now[a] == ys[a]; }
      if b > |ys| { assert now[b] == xs[i + 2..][b - |ys| - 1]; }
    }
  }

  lemma WalkEnd(nextNodes: seq<QNode>, ys: Items, nodes: seq<QNode>, xs: Items, targetID: nat, tr: Trace, maxIndex: nat)
    requires Walking(nextNodes, ys, nodes, xs, |nodes|, targetID, tr, maxIndex)
    ensures Tracks(nextNodes, ys, targetID, tr, maxIndex + |nodes|) && targetID < maxIndex + |nodes|
  {
  }

  /** The loop of calculateQueryHashes over one layer. */
  method PassQuery(nodes: seq<QNode>, structure: seq<nat>, height: nat, targetID: nat, maxIndex: nat, tr: Trace, ghost s: Sub<Node>, ghost k: int)
    returns (nextNodes: seq<QNode>, nextStructure: seq<nat>, nextTargetID: nat, nextTrace: Trace)
    requires height >= 1 && targetID < maxIndex
    requires
      var xs := Cut(Marked(s, k), 0, height, JoinItem);
      Tracks(nodes, xs, targetID, tr, maxIndex) && structure == Depths(xs)
    ensures nextTargetID < maxIndex + |nodes|
    ensures
      var ys := Cut(Marked(s, k), 0, height - 1, JoinItem);
      Tracks(nextNodes, ys, nextTargetID, nextTrace, maxIndex + |nodes|) && nextStructure == Depths(ys)
  {
    hide Cut, Pass, Paired, Walking, Tracks, JoinItem, Marked, AtMostOne, Eval;
    ghost var xs := Cut(Marked(s, k), 0, height, JoinItem);
    ghost var whole := Pass(xs, height, JoinItem);
    ghost var ys: Items := [];
    nextNodes, nextStructure, nextTargetID := [], [], targetID;
    var siblings, ancestors, bitmap := [], [], [];
    ghost var now := tr;
    CutTraced(s, k, 0, height);
    PairedWhole(Marked(s, k), height, JoinItem);
    SameLength(nodes, xs, targetID, tr, maxIndex);
    WalkStart(nodes, xs, targetID, tr, maxIndex);
    assert xs[0..] == xs;
    var i := 0;
    while i < |nodes|
      invariant 0 <= i <= |nodes| && |nodes| == |xs| && Paired(xs[i..], height)
      invariant nextStructure == Depths(ys) && ys + Pass(xs[i..], height, JoinItem) == whole
      invariant Walking(nextNodes, ys, nodes, xs, i, nextTargetID, now, maxIndex)
      invariant nextTargetID < maxIndex ==> siblings == [] && ancestors == [] && bitmap == []
      invariant now == Trace(siblings + tr.siblings, ancestors + tr.ancestors, tr.bitmap + bitmap)
      invariant |siblings| <= 1 && |ancestors| <= 1
    {
      PairedStep(xs, i, height);
      PassStep(xs, i, height, JoinItem);
      if structure[i] != height {
        WalkOver(nextNodes, ys, nodes, xs, i, nextTargetID, now, maxIndex);
        nextNodes := nextNodes + [nodes[i]];
        nextStructure := nextStructure + [structure[i]];
        ys := ys + [xs[i]];
        i := i + 1;
        continue;
      }
      var parent := QNode(Branch(nodes[i].hash, nodes[i + 1].hash), false, maxIndex + i);
      ghost var y := (JoinItem(xs[i].0, xs[i + 1].0), height - 1);
      PairTraced(nextNodes, ys, nodes, xs, i, nextTargetID, now, maxIndex);
      if nextTargetID == nodes[i].index || nextTargetID == nodes[i + 1].index {
        WalkPairTraced(nextNodes, ys, nodes, xs, i, nextTargetID, now, maxIndex, height - 1);
        var sibling := if nextTargetID == nodes[i].index then nodes[i + 1] else nodes[i];
        ancestors := ancestors + [parent.hash];
        nextTargetID := parent.index;
        if sibling.empty {
          bitmap := bitmap + [false];
        } else {
          bitmap := bitmap + [true];
          siblings := siblings + [sibling.hash];
        }
        now := Raised(now, parent.hash, sibling.hash);
        OnceRaised(tr, parent.hash, sibling.hash);
      } else {
        WalkPairPlain(nextNodes, ys, nodes, xs, i, nextTargetID, now, maxIndex, height - 1);
      }
      nextNodes := nextNodes + [parent];
      nextStructure := nextStructure + [structure[i] - 1];
      ys := ys + [y];
      i := i + 2;
    }
    assert xs[i..] == [];
    PassNothing(height, JoinItem);
    PassWhole(Marked(s, k), height, JoinItem);
    assert ys == Cut(Marked(s, k), 0, height - 1, JoinItem);
    WalkEnd(nextNodes, ys, nodes, xs, nextTargetID, now, maxIndex);
    ReverseShort(siblings);
    ReverseShort(ancestors);
    nextTrace := Trace(Reversed(siblings) + tr.siblings, Reversed(ancestors) + tr.ancestors, tr.bitmap + bitmap);
  }

  lemma OnceRaised(tr: Trace, parent: Hash, sibling: Hash)
    ensures Raised(Trace([] + tr.siblings, [] + tr.ancestors, tr.bitmap + []), parent, sibling)
         == Trace((if sibling == Empty then [] else [sibling]) + tr.siblings, [parent] + tr.ancestors, tr.bitmap + [sibling != Empty])
  {
    assert [] + tr.siblings == tr.siblings && [] + tr.ancestors == tr.ancestors && tr.bitmap + [] == tr.bitmap;
  }

  lemma SameLength(nodes: seq<QNode>, xs: Items, targetID: nat, tr: Trace, bound: nat)
    requires Tracks(nodes, xs, targetID, tr, bound)
    ensures |nodes| == |xs|
  {
  }

  function Reversed<T>(xs: seq<T>): seq<T> {
    if xs == [] then [] else Reversed(xs[1..]) + [xs[0]]
  }

  lemma ReverseShort(xs: seq<Hash>)
    requires |xs| <= 1
    ensures Reversed(xs) == xs
  {
  }

  /** calculateQueryHashes, started with `targetID` on tip number `k` of the subtree. */
  method CalculateQueryHashes(nodes: seq<QNode>, structure: seq<nat>, height: nat, targetID: nat, maxIndex: nat, tr: Trace, ghost s: Sub<Node>, ghost k: int)
    returns (r: Trace)
    requires targetID < maxIndex && 0 <= k < Count(s)
    requires
      var xs := Cut(Marked(s, k), 0, height, JoinItem);
      Tracks(nodes, xs, targetID, tr, maxIndex) && structure == Depths(xs)
    ensures Eval(Marked(s, k), JoinItem).trace == Some(r)
    decreases height
  {
    hide Cut, Tracks, JoinItem, Marked, Eval;
    if height == 0 {
      TopTracked(nodes, targetID, tr, maxIndex, s, k);
      return tr;
    }
    var nextNodes, nextStructure, nextTargetID, nextTrace := PassQuery(nodes, structure, height, targetID, maxIndex, tr, s, k);
    r := CalculateQueryHashes(nextNodes, nextStructure, height - 1, nextTargetID, maxIndex + |nodes|, nextTrace, s, k);
  }

  lemma TopTracked(nodes: seq<QNode>, targetID: nat, tr: Trace, maxIndex: nat, s: Sub<Node>, k: int)
    requires 0 <= k < Count(s) && Tracks(nodes, Cut(Marked(s, k), 0, 0, JoinItem), targetID, tr, maxIndex)
    ensures Eval(Marked(s, k), JoinItem).trace == Some(tr)
  {
    hide JoinItem;
    CutAt(Marked(s, k), 0, JoinItem);
    EvalTraced(s, k);
    assert nodes[0].hash == Eval(Marked(s, k), JoinItem).hash;
  }
}
