/** The incrementally built tree: append path, root and node locations (pkg/trie/rmt/rmt.go). */
module RmtTree {
  import opened Basics
  import opened RmtRoot

  // ---------------------------------------------------------------- height

  function CeilLog2From(n: nat, k: nat): (r: nat)
    requires k == 0 || Pow2(k - 1) < n
    ensures n <= Pow2(r) && (r == 0 || Pow2(r - 1) < n)
    decreases n - Pow2(k)
  {
    if Pow2(k) >= n then k else CeilLog2From(n, k + 1)
  }

  /** getHeight: ceil(log2(size)) + 1, the number of layers. */
  function HeightOf(size: nat): (h: nat)
    requires size >= 1
    ensures h >= 1 && size <= Pow2(h - 1) && (h >= 2 ==> Pow2(h - 2) < size)
  {
    CeilLog2From(size, 0) + 1
  }

  lemma {:induction false} ShiftToZero(n: nat, k: nat)
    requires n < Pow2(k)
    ensures Shift(n, k) == 0
  {
    ShiftBounds(n, k);
    if Shift(n, k) >= 1 { StartMonotone(1, Shift(n, k), k); }
  }

  // ---------------------------------------------------------------- append path

  /** Roots of the perfect subtrees of the first `Start(m, layer)` leaves, one for each set bit of `m`,
      from the lowest bit to the highest. */
  function Path(values: seq<Value>, m: nat, layer: nat): seq<Hash>
    requires Start(m, layer) <= |values|
    decreases m
  {
    if m == 0 then []
    else
      StartMonotone(m - 1, m, layer);
      StartDouble(m / 2, layer);
      StartMonotone(2 * (m / 2), m, layer);
      (if m % 2 == 1 then [Node(values, m - 1, layer)] else []) + Path(values, m / 2, layer + 1)
  }

  /** The append path of a tree: one perfect subtree for each set bit of its size, smallest first. */
  function AppendPath(values: seq<Value>): seq<Hash> { Path(values, |values|, 0) }

  /** The path of a tree is unchanged by what is appended after the leaves it covers. */
  lemma PathStep(values: seq<Value>, m: nat, layer: nat)
    requires Start(m, layer) <= |values|
    ensures Start(m / 2, layer + 1) <= |values|
    ensures m % 2 == 0 ==> Path(values, m, layer) == Path(values, m / 2, layer + 1)
    ensures m % 2 == 1 ==> Start(m - 1, layer) <= |values|
    ensures m % 2 == 1 ==> Path(values, m, layer) == [Node(values, m - 1, layer)] + Path(values, m / 2, layer + 1)
  {
    StartDouble(m / 2, layer);
    StartMonotone(2 * (m / 2), m, layer);
    if m > 0 { StartMonotone(m - 1, m, layer); }
  }

  lemma {:induction false} PathUnchanged(values: seq<Value>, v: Value, m: nat, layer: nat)
    requires Start(m, layer) <= |values|
    ensures Path(values + [v], m, layer) == Path(values, m, layer)
    decreases m
  {
    if m > 0 {
      StartMonotone(m - 1, m, layer);
      StartDouble(m / 2, layer);
      StartDouble(m - 1, layer);
      StartMonotone(2 * (m / 2), m, layer);
      NodeUnchanged(values, v, m - 1, layer);
      PathUnchanged(values, v, m / 2, layer + 1);
    }
  }

  // ---------------------------------------------------------------- node store

  datatype Location = Location(layer: nat, index: nat)

  /** The database of the tree: where a hash was last saved, and which hash a location holds. */
  datatype NodeStore = NodeStore(locationOf: map<Hash, Location>, hashAt: map<Location, Hash>)

  /** saveNode. */
  function Save(s: NodeStore, h: Hash, loc: Location): NodeStore {
    NodeStore(s.locationOf[h := loc], s.hashAt[loc := h])
  }

  /** Every location of the tree holds the root of the leaves below it. */
  ghost predicate NodesStored(s: NodeStore, values: seq<Value>) {
    forall i: nat, layer: nat :: IsNode(|values|, i, layer) ==> NodeStored(s, values, i, layer)
  }

  predicate NodeStored(s: NodeStore, values: seq<Value>, i: nat, layer: nat) {
    && Start(i, layer) <= |values|
    && Location(layer, i) in s.hashAt
    && s.hashAt[Location(layer, i)] == Node(values, i, layer)
  }

  /** A hash is only ever saved at the layer of its depth. */
  ghost predicate LayersMatch(s: NodeStore) {
    forall h :: h in s.locationOf ==> s.locationOf[h].layer == LeftDepth(h)
  }

  /** The append path element for bit `layer` is saved at its place or, if an equal subtree was
      appended beside it, at its sibling's place. */
  predicate PathElementLocated(s: NodeStore, values: seq<Value>, layer: nat)
  {
    Shift(|values|, layer) % 2 == 1 ==>
      var m := Shift(|values|, layer);
      && Start(m - 1, layer) <= |values|
      && Node(values, m - 1, layer) in s.locationOf
      && s.locationOf[Node(values, m - 1, layer)].index / 2 == m / 2
  }

  /** The location of a leaf hash is that of a leaf with its value, and exactly the appended values have one. */
  ghost predicate LeavesLocated(s: NodeStore, values: seq<Value>) {
    && (forall v :: v in values ==> Leaf(v) in s.locationOf)
    && (forall v :: Leaf(v) in s.locationOf ==>
          s.locationOf[Leaf(v)].index < |values| && values[s.locationOf[Leaf(v)].index] == v)
  }

  ghost predicate PathLocated(s: NodeStore, values: seq<Value>) {
    forall layer: nat :: PathElementLocated(s, values, layer)
  }

  // ---------------------------------------------------------------- the right spine of a grown tree

  /** Node of the grown tree at layer `h` that contains the new last leaf. */
  function Spine(values: seq<Value>, v: Value, h: nat): Hash {
    ShiftBounds(|values|, h);
    Node(values + [v], Shift(|values|, h), h)
  }

  /** The position over the last leaf, one layer up. */
  lemma SpinePositions(n: nat, h: nat)
    ensures
      var s, up := Shift(n, h), Shift(n, h + 1);
      && up == s / 2
      && Start(s, h) <= n < Start(s, h) + Pow2(h)
      && Start(up, h + 1) == Start(2 * up, h) <= n
      && (s % 2 == 1 ==> Start(s - 1, h) + Pow2(h) == Start(s, h))
  {
    hide Pow2;
    ShiftBounds(n, h);
    ShiftBounds(n, h + 1);
    StartDouble(Shift(n, h + 1), h);
    StartDouble(Shift(n, h), h);
  }

  /** One layer up the right spine: on a set bit the spine node is joined to the next append path element. */
  lemma SpineStep(values: seq<Value>, v: Value, h: nat)
    ensures Start(Shift(|values|, h), h) <= |values| && Start(Shift(|values|, h + 1), h + 1) <= |values|
    ensures
      var n := |values|;
      var s := Shift(n, h);
      && (s % 2 == 1 ==>
            && Start(s - 1, h) <= n
            && Path(values, s, h) == [Node(values, s - 1, h)] + Path(values, Shift(n, h + 1), h + 1)
            && Spine(values, v, h + 1) == Branch(Node(values, s - 1, h), Spine(values, v, h)))
      && (s % 2 == 0 ==>
            && Path(values, s, h) == Path(values, Shift(n, h + 1), h + 1)
            && Spine(values, v, h + 1) == Spine(values, v, h))
  {
    hide Start, Shift, Pow2, Node;
    var n := |values|;
    var s, up := Shift(n, h), Shift(n, h + 1);
    SpinePositions(n, h);
    NodeSplit(values + [v], up, h);
    if s % 2 == 1 {
      NodeUnchanged(values, v, s - 1, h);
    }
  }

  /** Exactly on a set bit the next node of the spine is a node of its own. */
  lemma SpineGrows(n: nat, h: nat)
    ensures IsNode(n + 1, Shift(n, h + 1), h + 1) <==> Shift(n, h) % 2 == 1
  {
    hide Start, Shift, Pow2;
    SpinePositions(n, h);
  }

  /** A node of the grown tree that does not contain the new leaf is a node of the old tree. */
  lemma OtherNodesUnchanged(values: seq<Value>, v: Value, i: nat, layer: nat)
    requires IsNode(|values| + 1, i, layer) && i != Shift(|values|, layer)
    ensures IsNode(|values|, i, layer) && Start(i, layer) + Pow2(layer) <= |values|
    ensures Node(values + [v], i, layer) == Node(values, i, layer)
  {
    var n := |values|;
    ShiftBounds(n, layer);
    if i > Shift(n, layer) {
      StartMonotone(Shift(n, layer) + 1, i, layer);
    }
    StartMonotone(i, Shift(n, layer), layer);
    if layer > 0 { assert Pow2(layer - 1) < Pow2(layer); }
    NodeUnchanged(values, v, i, layer);
  }

  /** The node of the spine at this layer is a node of its own. */
  predicate SpineNode(n: nat, layer: nat) {
    layer == 0 || Shift(n, layer - 1) % 2 == 1
  }

  lemma SpineBottom(n: nat)
    ensures IsNode(n + 1, Shift(n, 0), 0)
  {
  }

  lemma SpineIsNode(values: seq<Value>, v: Value, layer: nat)
    ensures IsNode(|values| + 1, Shift(|values|, layer), layer) <==> SpineNode(|values|, layer)
  {
    hide Shift, Start;
    if layer > 0 { SpineGrows(|values|, layer - 1); } else { SpineBottom(|values|); }
  }

  lemma SpineNodeFacts(values: seq<Value>, v: Value, layer: nat)
    ensures IsNode(|values| + 1, Shift(|values|, layer), layer) <==> SpineNode(|values|, layer)
    ensures SpineNode(|values|, layer) ==> LeftDepth(Spine(values, v, layer)) == layer
  {
    hide Node, Start, IsNode, SpineNode;
    SpineIsNode(values, v, layer);
    ShiftBounds(|values|, layer);
    if SpineNode(|values|, layer) {
      NodeDepth(values + [v], Shift(|values|, layer), layer);
    }
  }

  /** The path element for a set bit is a full node. */
  lemma PathElementFacts(values: seq<Value>, layer: nat)
    requires Shift(|values|, layer) % 2 == 1
    ensures Start(Shift(|values|, layer) - 1, layer) + Pow2(layer) <= |values|
    ensures LeftDepth(Node(values, Shift(|values|, layer) - 1, layer)) == layer
  {
    hide Node, Start, Shift;
    var m := Shift(|values|, layer);
    ShiftBounds(|values|, layer);
    StartDouble(m - 1, layer);
    if layer > 0 { assert Pow2(layer - 1) < Pow2(layer); } else { StartZero(m - 1); }
    NodeDepth(values, m - 1, layer);
  }

  // ---------------------------------------------------------------- the store while a leaf is appended

  predicate GrownNodeStored(s: NodeStore, values: seq<Value>, v: Value, h: nat, i: nat, layer: nat) {
    IsNode(|values| + 1, i, layer) && (i != Shift(|values|, layer) || layer <= h) ==>
      NodeStored(s, values + [v], i, layer)
  }

  predicate SpineLocated(s: NodeStore, values: seq<Value>, v: Value, layer: nat) {
    SpineNode(|values|, layer) ==>
      && Spine(values, v, layer) in s.locationOf
      && s.locationOf[Spine(values, v, layer)] == Location(layer, Shift(|values|, layer))
  }

  /** The store after the spine has been saved up to layer `h`. */
  ghost predicate SpineSaved(s: NodeStore, values: seq<Value>, v: Value, h: nat) {
    && (forall i: nat, layer: nat :: GrownNodeStored(s, values, v, h, i, layer))
    && LayersMatch(s)
    && PathLocated(s, values)
    && (forall layer: nat :: layer <= h ==> SpineLocated(s, values, v, layer))
  }

  /** Saving the spine node of a layer keeps every path element's parent. */
  lemma SaveKeepsPathLocated(s: NodeStore, values: seq<Value>, v: Value, h: nat, layer: nat)
    requires SpineNode(|values|, h) && PathElementLocated(s, values, layer)
    ensures PathElementLocated(Save(s, Spine(values, v, h), Location(h, Shift(|values|, h))), values, layer)
  {
    if Shift(|values|, layer) % 2 == 1 {
      PathElementFacts(values, layer);
      SpineNodeFacts(values, v, h);
    }
  }

  lemma SaveKeepsSpineLocated(s: NodeStore, values: seq<Value>, v: Value, h: nat, layer: nat)
    requires SpineNode(|values|, h) && layer <= h && (layer < h ==> SpineLocated(s, values, v, layer))
    ensures SpineLocated(Save(s, Spine(values, v, h), Location(h, Shift(|values|, h))), values, v, layer)
  {
    SpineNodeFacts(values, v, h);
    SpineNodeFacts(values, v, layer);
  }

  lemma SaveKeepsNodes(s: NodeStore, values: seq<Value>, v: Value, h: nat, i: nat, layer: nat)
    requires h > 0 ==> GrownNodeStored(s, values, v, h - 1, i, layer)
    requires h == 0 && IsNode(|values|, i, layer) ==> NodeStored(s, values, i, layer)
    requires SpineNode(|values|, h)
    ensures GrownNodeStored(Save(s, Spine(values, v, h), Location(h, Shift(|values|, h))), values, v, h, i, layer)
  {
    hide Node, Start, Shift, Pow2, IsNode;
    ShiftBounds(|values|, layer);
    if IsNode(|values| + 1, i, layer) && i != Shift(|values|, layer) {
      OtherNodesUnchanged(values, v, i, layer);
    }
  }

  /** Saving the new leaf. */
  lemma SaveLeaf(s: NodeStore, values: seq<Value>, v: Value)
    requires NodesStored(s, values) && LayersMatch(s) && PathLocated(s, values)
    ensures Spine(values, v, 0) == Leaf(v)
    ensures SpineSaved(Save(s, Leaf(v), Location(0, |values|)), values, v, 0)
  {
    assert (values + [v])[|values|..|values| + 1] == [v];
    SaveSpine(s, values, v, 0);
  }

  /** Saving the spine node of layer `h` on top of the lower layers. */
  lemma SaveSpine(s: NodeStore, values: seq<Value>, v: Value, h: nat)
    requires SpineNode(|values|, h)
    requires LayersMatch(s) && PathLocated(s, values)
    requires h == 0 ==> NodesStored(s, values)
    requires h > 0 ==> SpineSaved(s, values, v, h - 1)
    ensures SpineSaved(Save(s, Spine(values, v, h), Location(h, Shift(|values|, h))), values, v, h)
  {
    var s1 := Save(s, Spine(values, v, h), Location(h, Shift(|values|, h)));
    SpineNodeFacts(values, v, h);
    forall i: nat, layer: nat ensures GrownNodeStored(s1, values, v, h, i, layer) {
      SaveKeepsNodes(s, values, v, h, i, layer);
    }
    forall layer: nat ensures PathElementLocated(s1, values, layer) {
      SaveKeepsPathLocated(s, values, v, h, layer);
    }
    forall layer: nat | layer <= h ensures SpineLocated(s1, values, v, layer) {
      SaveKeepsSpineLocated(s, values, v, h, layer);
    }
  }

  /** A layer in which the spine has no node of its own needs no save. */
  lemma SkipSpine(s: NodeStore, values: seq<Value>, v: Value, h: nat)
    requires SpineSaved(s, values, v, h) && !SpineNode(|values|, h + 1)
    ensures SpineSaved(s, values, v, h + 1)
  {
    var up := h + 1;
    SpineNodeFacts(values, v, up);
    forall i: nat, layer: nat ensures GrownNodeStored(s, values, v, up, i, layer) {
      assert GrownNodeStored(s, values, v, h, i, layer);
    }
    forall layer: nat | layer <= up ensures SpineLocated(s, values, v, layer) {
      if layer <= h { assert SpineLocated(s, values, v, layer); }
    }
  }
}
