/** The regular Merkle tree of LIP-0031: its recursive root and the nodes of its layers
    (pkg/trie/rmt/root.go, util.go). */
module RmtRoot {
  import opened Basics

  type Value = seq<nat>

  /** SHA-256 digests as terms: `Empty` is the hash of nothing, the other two carry the prefix byte. */
  datatype Hash = Empty | Leaf(value: Value) | Branch(left: Hash, right: Hash)

  // ---------------------------------------------------------------- powers of two

  /** `n >> k`. */
  function Shift(n: nat, k: nat): nat {
    if k == 0 then n else Shift(n, k - 1) / 2
  }

  /** First leaf below the node of layer `layer` at index `i`. */
  function Start(i: nat, layer: nat): nat { i * Pow2(layer) }

  lemma StartDouble(i: nat, layer: nat)
    ensures Start(i, layer + 1) == Start(2 * i, layer)
    ensures Start(2 * i + 1, layer) == Start(2 * i, layer) + Pow2(layer)
    ensures Start(i + 1, layer) == Start(i, layer) + Pow2(layer)
  {
  }

  lemma StartZero(i: nat)
    ensures Start(i, 0) == i
  {
  }

  lemma StartMonotone(i: nat, j: nat, layer: nat)
    requires i <= j
    ensures Start(i, layer) <= Start(j, layer)
    ensures i < j ==> Start(i, layer) + Pow2(layer) <= Start(j, layer)
  {
    if i < j {
      StartDouble(i, layer);
      assert Start(j, layer) == Start(i + 1, layer) + (j - i - 1) * Pow2(layer);
    }
  }

  /** A leaf lies below exactly one node of every layer. */
  lemma {:induction false} ShiftBounds(n: nat, layer: nat)
    ensures Start(Shift(n, layer), layer) <= n < Start(Shift(n, layer) + 1, layer)
  {
    if layer > 0 {
      ShiftBounds(n, layer - 1);
      var s, h := Shift(n, layer - 1), Shift(n, layer);
      StartDouble(h, layer - 1);
      StartDouble(h + 1, layer - 1);
      StartMonotone(2 * h, s, layer - 1);
      StartMonotone(s + 1, 2 * h + 2, layer - 1);
    }
  }

  lemma {:induction false} Pow2Monotone(a: nat, b: nat)
    requires a <= b
    ensures Pow2(a) <= Pow2(b)
    ensures a < b ==> 2 * Pow2(a) <= Pow2(b)
  {
    if a < b { Pow2Monotone(a, b - 1); }
  }

  // ---------------------------------------------------------------- root

  /** Largest power of two strictly below `n`, from the candidate `p` on. */
  function SplitFrom(n: nat, p: nat): nat
    requires n >= 2 && 1 <= p < n
    decreases n - p
  {
    if 2 * p < n then SplitFrom(n, 2 * p) else p
  }

  /** The divider of calculateRoot: 2 to the power of floor(log2(n - 1)). */
  function Split(n: nat): (d: nat)
    requires n >= 2
    ensures 1 <= d < n
  {
    SplitBounds(n, 1);
    SplitFrom(n, 1)
  }

  lemma {:induction false} SplitBounds(n: nat, p: nat)
    requires n >= 2 && 1 <= p < n
    ensures p <= SplitFrom(n, p) < n <= 2 * SplitFrom(n, p)
    decreases n - p
  {
    if 2 * p < n { SplitBounds(n, 2 * p); }
  }

  /** calculateRoot. */
  function Root(values: seq<Value>): Hash
    decreases |values|
  {
    if |values| == 0 then Empty
    else if |values| == 1 then Leaf(values[0])
    else Branch(Root(values[..Split(|values|)]), Root(values[Split(|values|)..]))
  }

  lemma {:induction false} SplitFromPow(n: nat, a: nat, k: nat)
    requires a <= k && Pow2(k) < n <= Pow2(k + 1) && n >= 2 && Pow2(a) < n
    ensures SplitFrom(n, Pow2(a)) == Pow2(k)
    decreases k - a
  {
    if a < k {
      Pow2Monotone(a + 1, k);
      SplitFromPow(n, a + 1, k);
    } else {
    }
  }

  /** The divider is the power of two that the length exceeds but does not exceed twice. */
  lemma SplitIsPow(n: nat, k: nat)
    requires Pow2(k) < n <= Pow2(k + 1)
    ensures n >= 2 && Split(n) == Pow2(k)
  {
    Pow2Monotone(0, k);
    SplitFromPow(n, 0, k);
  }

  // ---------------------------------------------------------------- nodes

  /** The root of the leaves below the node of layer `layer` at index `i`. */
  function Node(values: seq<Value>, i: nat, layer: nat): Hash
    requires Start(i, layer) <= |values|
  {
    StartDouble(i, layer);
    Root(values[Start(i, layer)..Min(Start(i, layer) + Pow2(layer), |values|)])
  }

  /** The node has leaves in its right half, so it is a node of its own and not just its left child. */
  predicate IsNode(n: nat, i: nat, layer: nat) {
    if layer == 0 then i < n else Start(i, layer) + Pow2(layer - 1) < n
  }

  /** A node is the branch over its children when both have leaves, and else its left child. */
  lemma NodeSplit(values: seq<Value>, i: nat, layer: nat)
    requires Start(i, layer + 1) <= |values|
    ensures Start(2 * i, layer) <= |values|
    ensures if IsNode(|values|, i, layer + 1)
            then Start(2 * i + 1, layer) <= |values|
                 && Node(values, i, layer + 1) == Branch(Node(values, 2 * i, layer), Node(values, 2 * i + 1, layer))
            else Node(values, i, layer + 1) == Node(values, 2 * i, layer)
  {
    StartDouble(i, layer);
    var lo, mid := Start(i, layer + 1), Start(2 * i + 1, layer);
    var hi := Min(lo + Pow2(layer + 1), |values|);
    if IsNode(|values|, i, layer + 1) {
      var below := values[lo..hi];
      SplitIsPow(|below|, layer);
      assert below[..Pow2(layer)] == values[lo..mid];
      assert below[Pow2(layer)..] == values[mid..hi];
      StartDouble(2 * i + 1, layer);
    }
  }

  /** A layer wide enough holds the root at its first node. */
  lemma NodeIsRoot(values: seq<Value>, layer: nat)
    requires |values| <= Pow2(layer)
    ensures Start(0, layer) == 0 && Node(values, 0, layer) == Root(values)
  {
    assert values[0..|values|] == values;
  }

  /** Nodes below which nothing was appended are unchanged. */
  lemma NodeUnchanged(values: seq<Value>, v: Value, i: nat, layer: nat)
    requires Start(i, layer) + Pow2(layer) <= |values|
    ensures Node(values + [v], i, layer) == Node(values, i, layer)
  {
    var lo, hi := Start(i, layer), Start(i, layer) + Pow2(layer);
    assert (values + [v])[lo..hi] == values[lo..hi];
  }

  /** How deep the leftmost leaf of a term lies. */
  function LeftDepth(h: Hash): nat {
    match h
    case Branch(l, _) => 1 + LeftDepth(l)
    case _ => 0
  }

  /** The term of a node with leaves in its right half has the depth of its layer. */
  lemma {:induction false} NodeDepth(values: seq<Value>, i: nat, layer: nat)
    requires IsNode(|values|, i, layer) && Start(i, layer) <= |values|
    ensures LeftDepth(Node(values, i, layer)) == layer
    decreases layer
  {
    if layer == 0 {
    } else {
      NodeSplit(values, i, layer - 1);
      StartDouble(2 * i, layer - 1);
      StartDouble(i, layer - 1);
      if layer > 1 { assert Pow2(layer - 2) < Pow2(layer - 1); }
      NodeDepth(values, 2 * i, layer - 1);
    }
  }
}
