/** Layer sizes and siblings of an incomplete tree (pkg/trie/rmt/util.go). */
module RmtLayers {
  import opened Basics
  import opened RmtRoot
  import opened RmtTree

  /** `m` is `n / 2^layer`, rounded to the nearest integer and halves down. */
  predicate RoundedHalfDown(n: nat, layer: nat, m: nat) {
    2 * Start(m, layer) - Pow2(layer) < 2 * n <= 2 * Start(m, layer) + Pow2(layer)
  }

  /** Halving once more: an odd count is rounded against the direction the error already has. */
  lemma RoundingStep(n: nat, layer: nat, m: nat)
    requires RoundedHalfDown(n, layer, m)
    ensures
      var next := if n <= Start(m, layer) then m / 2 else (m + 1) / 2;
      && RoundedHalfDown(n, layer + 1, next)
      && (m % 2 == 0 ==> (n <= Start(next, layer + 1) <==> n <= Start(m, layer)))
      && (m % 2 == 1 ==> (n <= Start(next, layer + 1) <==> n > Start(m, layer)))
  {
    var next := if n <= Start(m, layer) then m / 2 else (m + 1) / 2;
    StartDouble(next, layer);
    if m % 2 == 1 {
      if n <= Start(m, layer) { StartDouble(2 * next, layer); } else { StartDouble(m, layer); }
    }
  }

  /** The nodes of a layer are exactly those counted. */
  lemma RoundedCountsNodes(n: nat, layer: nat, m: nat, i: nat)
    requires RoundedHalfDown(n, layer, m)
    ensures i < m <==> IsNode(n, i, layer)
  {
    if i < m { StartMonotone(i, m, layer); } else { StartMonotone(m, i, layer); }
    if layer == 0 { StartZero(i); StartZero(m); } else { assert Pow2(layer) == 2 * Pow2(layer - 1); }
  }

  /** The inner loop of getLayerStructure: halve `layer` times, alternating the rounding direction. */
  method LayerSize(size: nat, layer: nat) returns (max: nat)
    ensures RoundedHalfDown(size, layer, max)
  {
    max := size;
    var r := 0;
    StartZero(size);
    var j := 0;
    while j < layer
      invariant 0 <= j <= layer
      invariant RoundedHalfDown(size, j, max)
      invariant r % 2 == 0 <==> size <= Start(max, j)
    {
      hide Start;
      RoundingStep(size, j, max);
      var even := r % 2 == 0;
      r := r + max % 2;
      max := if even then max / 2 else (max + 1) / 2;
      j := j + 1;
    }
  }

  /** getLayerStructure. */
  method GetLayerStructure(size: nat) returns (structure: seq<nat>)
    requires size >= 1
    ensures |structure| == HeightOf(size)
    ensures forall layer :: 0 <= layer < |structure| ==> RoundedHalfDown(size, layer, structure[layer])
  {
    structure := [];
    var height := HeightOf(size);
    for layer := 0 to height
      invariant |structure| == layer
      invariant forall l :: 0 <= l < layer ==> RoundedHalfDown(size, l, structure[l])
    {
      var max := LayerSize(size, layer);
      structure := structure + [max];
    }
  }

  function Sibling(i: nat): nat { if i % 2 == 0 then i + 1 else i - 1 }

  /** Where the subtree at a position is stored: a position without leaves in its right half is
      its own left child. */
  function Resolve(size: nat, i: nat, layer: nat): Option<Location>
    decreases layer
  {
    if IsNode(size, i, layer) then Some(Location(layer, i))
    else if layer == 0 then None
    else Resolve(size, 2 * i, layer - 1)
  }

  /** Resolving finds a stored node with the same leaves, unless there are none. */
  lemma {:induction false} ResolveFinds(values: seq<Value>, i: nat, layer: nat)
    ensures Resolve(|values|, i, layer).None? <==> Start(i, layer) >= |values|
    ensures
      var r := Resolve(|values|, i, layer);
      r.Some? ==>
        && IsNode(|values|, r.value.index, r.value.layer)
        && Start(r.value.index, r.value.layer) == Start(i, layer) < |values|
        && Node(values, r.value.index, r.value.layer) == Node(values, i, layer)
        && r.value.layer <= layer
    decreases layer
  {
    if IsNode(|values|, i, layer) {
      if layer == 0 { StartZero(i); }
    } else if layer == 0 {
      StartZero(i);
    } else {
      StartDouble(i, layer - 1);
      ResolveFinds(values, 2 * i, layer - 1);
      if Start(i, layer) < |values| {
        NodeSplit(values, i, layer - 1);
      }
    }
  }

  /** getRightSiblingInfo. */
  method GetRightSiblingInfo(nodeIndex: nat, layerIndex: nat, size: nat) returns (r: Option<Location>)
    requires size >= 1 && layerIndex < HeightOf(size)
    ensures r == Resolve(size, Sibling(nodeIndex), layerIndex)
  {
    hide IsNode, RoundedHalfDown, Start;
    var structure := GetLayerStructure(size);
    var i: nat := nodeIndex / 2 * 2 + (nodeIndex + 1) % 2;
    assert i == Sibling(nodeIndex);
    var layer := layerIndex;
    while i >= structure[layer] && layer > 0
      invariant 0 <= layer <= layerIndex
      invariant Resolve(size, i, layer) == Resolve(size, Sibling(nodeIndex), layerIndex)
      decreases layer
    {
      RoundedCountsNodes(size, layer, structure[layer], i);
      i := 2 * i;
      layer := layer - 1;
    }
    RoundedCountsNodes(size, layer, structure[layer], i);
    IndexBelowSize(size, i, layer);
    if i >= size {
      return None;
    }
    return Some(Location(layer, i));
  }

  lemma IndexBelowSize(size: nat, i: nat, layer: nat)
    ensures IsNode(size, i, layer) ==> i < size
    ensures layer == 0 ==> (IsNode(size, i, layer) <==> i < size)
  {
    if i >= size { NotNodeAbove(size, i, layer); }
  }

  lemma NotNodeAbove(size: nat, i: nat, layer: nat)
    requires i >= size
    ensures !IsNode(size, i, layer)
  {
    if layer > 0 { StartMonotone(size, i, layer); assert Start(size, layer) >= size; }
  }
}
