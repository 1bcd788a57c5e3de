/** Right witnesses: the append path of a prefix and the subtrees right of it give back the root
    (pkg/trie/rmt/rmt.go, root.go). */
module RmtWitness {
  import opened Basics
  import opened RmtRoot
  import opened RmtTree
  import opened RmtLayers
  import opened RmtAppend

  // ---------------------------------------------------------------- what a right witness is

  /** The subtrees right of the first `k` leaves, from layer `layer` up: one wherever the node that ends
      at or after leaf `k` is a left child. */
  function Witness(values: seq<Value>, k: nat, layer: nat): seq<Hash>
    requires k >= 1
    decreases |values| - Pow2(layer)
  {
    var c := Shift(k - 1, layer);
    if Start(c + 1, layer) >= |values| then []
    else
      StartMonotone(1, c + 1, layer);
      (if c % 2 == 0 then [Node(values, c + 1, layer)] else []) + Witness(values, k, layer + 1)
  }

  /** What GenerateRightWitness returns for a tree over `values`. */
  function RightWitness(values: seq<Value>, k: nat): seq<Hash> {
    if k == 0 then AppendPath(values) else Witness(values, k, 0)
  }

  // ---------------------------------------------------------------- generating it

  /** The climb of GenerateRightWitness, for a prefix that is not empty. */
  method CollectRightWitness(tree: RegularMerkleTree, nodeIndex: nat) returns (r: Option<seq<Hash>>)
    requires tree.Valid() && 1 <= nodeIndex <= tree.size
    ensures r == Some(Witness(tree.values, nodeIndex, 0))
  {
    hide Node, IsNode, NodesStored, LayersMatch, PathLocated, Path, Witness, Start, Root, HeightOf, LeavesLocated,
      AppendPath, Resolve, RoundedHalfDown;
    var height := HeightOf(tree.size);
    var leftTreeLastIndex: nat := nodeIndex - 1;
    var incrementalIdx: nat := nodeIndex;
    var rightWitness := [];
    var layer: nat := 0;
    StartZero(nodeIndex);
    while layer < height
      invariant layer <= height
      invariant incrementalIdx == Start(Shift(leftTreeLastIndex, layer) + 1, layer)
      invariant rightWitness + Witness(tree.values, nodeIndex, layer) == Witness(tree.values, nodeIndex, 0)
    {
      var c := Shift(leftTreeLastIndex, layer);
      ShiftOfStart(c + 1, layer);
      CeilingStep(nodeIndex, layer);
      var digit := Shift(incrementalIdx, layer) % 2;
      if digit != 0 {
        ResolveFinds(tree.values, c + 1, layer);
        var sibling := GetRightSiblingInfo(c, layer, tree.size);
        WitnessTakes(tree.values, nodeIndex, layer);
        if sibling.None? {
          assert rightWitness + [] == rightWitness;
          return Some(rightWitness);
        }
        StoredAt(tree.store, tree.values, sibling.value);
        if sibling.value !in tree.store.hashAt {
          return None;
        }
        rightWitness := rightWitness + [tree.store.hashAt[sibling.value]];
        incrementalIdx := incrementalIdx + Pow2(layer);
      } else {
        WitnessSkips(tree.values, nodeIndex, layer);
      }
      layer := layer + 1;
    }
    WitnessEnds(tree.values, nodeIndex, layer);
    assert rightWitness + [] == rightWitness;
    return Some(rightWitness);
  }

  /** GenerateRightWitness; None when it returns an error. */
  method GenerateRightWitness(tree: RegularMerkleTree, nodeIndex: nat) returns (r: Option<seq<Hash>>)
    requires tree.Valid()
    ensures r == if nodeIndex > tree.size then None else Some(RightWitness(tree.values, nodeIndex))
  {
    if nodeIndex > tree.size {
      return None;
    }
    if tree.size == 0 {
      return Some([]);
    }
    if nodeIndex == 0 {
      return Some(tree.appendPath);
    }
    r := CollectRightWitness(tree, nodeIndex);
  }

  /** Where the node is a left child, its right sibling is the next witness. */
  lemma WitnessTakes(values: seq<Value>, k: nat, layer: nat)
    requires k >= 1 && Shift(k - 1, layer) % 2 == 0
    ensures Start(Shift(k - 1, layer) + 1, layer) >= |values| ==> Witness(values, k, layer) == []
    ensures Start(Shift(k - 1, layer) + 1, layer) < |values| ==>
              Witness(values, k, layer) == [Node(values, Shift(k - 1, layer) + 1, layer)] + Witness(values, k, layer + 1)
  {
  }

  lemma StoredAt(s: NodeStore, values: seq<Value>, loc: Location)
    requires NodesStored(s, values) && IsNode(|values|, loc.index, loc.layer)
    ensures Start(loc.index, loc.layer) <= |values|
    ensures loc in s.hashAt && s.hashAt[loc] == Node(values, loc.index, loc.layer)
  {
    assert NodeStored(s, values, loc.index, loc.layer);
  }

  lemma ShiftOfStart(m: nat, layer: nat)
    ensures Shift(Start(m, layer), layer) == m
  {
    ShiftBounds(Start(m, layer), layer);
    var s := Shift(Start(m, layer), layer);
    if s < m { StartMonotone(s + 1, m, layer); } else if s > m { StartMonotone(m + 1, s, layer); }
  }

  /** Rounding `k` up to the next layer: an odd count moves one node further. */
  lemma CeilingStep(k: nat, layer: nat)
    requires k >= 1
    ensures
      var c, up := Shift(k - 1, layer), Shift(k - 1, layer + 1);
      Start(up + 1, layer + 1) == Start(c + 1, layer) + if c % 2 == 0 then Pow2(layer) else 0
  {
    var c, up := Shift(k - 1, layer), Shift(k - 1, layer + 1);
    StartDouble(up + 1, layer);
    StartDouble(2 * up + 1, layer);
  }

  lemma WitnessSkips(values: seq<Value>, k: nat, layer: nat)
    requires k >= 1 && Shift(k - 1, layer) % 2 == 1
    ensures Witness(values, k, layer) == Witness(values, k, layer + 1)
  {
    hide Start;
    CeilingStep(k, layer);
  }

  lemma WitnessEnds(values: seq<Value>, k: nat, layer: nat)
    requires k >= 1 && |values| <= Pow2(layer)
    ensures Witness(values, k, layer) == []
  {
    StartMonotone(1, Shift(k - 1, layer) + 1, layer);
  }

  // ---------------------------------------------------------------- recombining

  /** The loop of CalculateRootFromRightWitness, from layer `layer` on. None stands for a loop that never
      ends: from layer 64 on no digit of a uint64 is set any more. */
  function Recombine(k: nat, layer: nat, inc: nat, started: bool, current: Hash, lefts: seq<Hash>, rights: seq<Hash>): Option<Hash>
    requires layer <= 64
    decreases 64 - layer
  {
    if lefts == [] && rights == [] then Some(current)
    else if layer == 64 then None
    else
      var left := lefts != [] && Shift(k, layer) % 2 == 1;
      var inc1 := if left && !started then inc + Pow2(layer) else inc;
      var current1 := if left && started then Branch(lefts[0], current) else current;
      var lefts1 := if left && started then lefts[1..] else lefts;
      var right := rights != [] && Shift(inc1, layer) % 2 == 1;
      Recombine(k, layer + 1,
                if right then inc1 + Pow2(layer) else inc1,
                started || left,
                if right then Branch(current1, rights[0]) else current1,
                lefts1,
                if right then rights[1..] else rights)
  }

  /** getRootFromPath; None when it is called without a path and panics. */
  function RootFromPath(path: seq<Hash>): Option<Hash> {
    if path == [] then None else Some(Folded(path[0], path[1..]))
  }

  /** What CalculateRootFromRightWitness returns. */
  function RootFromRightWitness(k: nat, appendPath: seq<Hash>, rightWitness: seq<Hash>): Option<Hash> {
    if appendPath == [] then RootFromPath(rightWitness)
    else if rightWitness == [] then RootFromPath(appendPath)
    else Recombine(k, 0, k, false, Branch(appendPath[0], rightWitness[0]), appendPath[1..], rightWitness[1..])
  }

  method GetRootFromPath(paths: seq<Hash>) returns (r: Hash)
    requires paths != []
    ensures RootFromPath(paths) == Some(r)
  {
    r := paths[0];
    for i := 1 to |paths|
      invariant r == Folded(paths[0], paths[1..i])
    {
      assert paths[1..i + 1][..i - 1] == paths[1..i];
      r := Branch(paths[i], r);
    }
    assert paths[1..|paths|] == paths[1..];
  }

  lemma RecombineStarts(k: nat, appendPath: seq<Hash>, rightWitness: seq<Hash>)
    ensures appendPath != [] && rightWitness != [] ==>
              RootFromRightWitness(k, appendPath, rightWitness) ==
              Recombine(k, 0, k, false, Branch(appendPath[0], rightWitness[0]), appendPath[1..], rightWitness[1..])
    ensures appendPath == [] ==> RootFromRightWitness(k, appendPath, rightWitness) == RootFromPath(rightWitness)
    ensures appendPath != [] && rightWitness == [] ==> RootFromRightWitness(k, appendPath, rightWitness) == RootFromPath(appendPath)
    ensures RootFromPath([]).None?
  {
    hide Recombine, Folded;
  }

  lemma RecombineStep(k: nat, layer: nat, inc: nat, started: bool, current: Hash, lefts: seq<Hash>, rights: seq<Hash>)
    requires layer <= 64
    ensures lefts == [] && rights == [] ==> Recombine(k, layer, inc, started, current, lefts, rights) == Some(current)
    ensures (lefts != [] || rights != []) && layer == 64 ==> Recombine(k, layer, inc, started, current, lefts, rights) == None
    ensures (lefts != [] || rights != []) && layer < 64 ==>
              var left := lefts != [] && Shift(k, layer) % 2 == 1;
              var inc1 := if left && !started then inc + Pow2(layer) else inc;
              var current1 := if left && started then Branch(lefts[0], current) else current;
              var lefts1 := if left && started then lefts[1..] else lefts;
              var right := rights != [] && Shift(inc1, layer) % 2 == 1;
              Recombine(k, layer, inc, started, current, lefts, rights) ==
              if right then Recombine(k, layer + 1, inc1 + Pow2(layer), started || left, Branch(current1, rights[0]), lefts1, rights[1..])
              else Recombine(k, layer + 1, inc1, started || left, current1, lefts1, rights)
  {
    hide Shift, Pow2;
  }

  lemma StartTwice(q: nat, layer: nat)
    ensures Start(q, layer + 1) == 2 * Start(q, layer)
  {
  }

  lemma {:induction false} ShiftOfSum(y: nat, q: nat, w: nat, layer: nat)
    requires layer <= w
    ensures Shift(y + Start(q, w), layer) == Shift(y, layer) + Start(q, w - layer)
  {
    hide Start;
    if layer > 0 {
      ShiftOfSum(y, q, w, layer - 1);
      StartTwice(q, w - layer);
    }
  }

  /** `x + 1 << layer` in uint64 arithmetic. */
  function AddBit(x: nat, layer: nat): (r: nat)
    requires x < Pow2(64) && layer < 64
    ensures r < Pow2(64)
  {
    Pow2Monotone(layer, 64);
    if x + Pow2(layer) < Pow2(64) then x + Pow2(layer) else x + Pow2(layer) - Pow2(64)
  }

  /** `x` is what is left of `whole` after wrapping around some times. */
  ghost predicate Wrapped(x: nat, whole: nat) { x < Pow2(64) && exists t: nat :: whole == x + Start(t, 64) }

  /** Wrapping around at 2^64 does not touch the bits below. */
  lemma WrapKeepsBit(x: nat, whole: nat, layer: nat)
    requires layer < 64 && Wrapped(x, whole)
    ensures Shift(x, layer) % 2 == Shift(whole, layer) % 2
  {
    hide Shift, Pow2, Start;
    var t: nat :| whole == x + Start(t, 64);
    ShiftOfSum(x, t, 64, layer);
    StartTwice(t, 63 - layer);
  }

  lemma WrapAdds(x: nat, whole: nat, layer: nat)
    requires layer < 64 && Wrapped(x, whole)
    ensures Wrapped(AddBit(x, layer), whole + Pow2(layer))
  {
    hide Pow2, Start;
    var t: nat :| whole == x + Start(t, 64);
    StartDouble(t, 64);
    assert whole + Pow2(layer) == AddBit(x, layer) + Start(t, 64) || whole + Pow2(layer) == AddBit(x, layer) + Start(t + 1, 64);
  }

  lemma NotYetWrapped(x: nat)
    requires x < Pow2(64)
    ensures Wrapped(x, x)
  {
    hide Pow2;
    assert x == x + Start(0, 64);
  }

  /** CalculateRootFromRightWitness, with the uint64 running index. */
  method CalculateRootFromRightWitness(nodeIndex: nat, appendPath: seq<Hash>, rightWitness: seq<Hash>) returns (r: Option<Hash>)
    requires nodeIndex < Pow2(64)
    ensures r == RootFromRightWitness(nodeIndex, appendPath, rightWitness)
  {
    hide Shift, Pow2, RootFromPath, RootFromRightWitness, Recombine, Wrapped, AddBit;
    RecombineStarts(nodeIndex, appendPath, rightWitness);
    if appendPath == [] || rightWitness == [] {
      var path := if appendPath == [] then rightWitness else appendPath;
      if path == [] {
        return None;
      }
      var root := GetRootFromPath(path);
      return Some(root);
    }
    var lefts, rights := appendPath[1..], rightWitness[1..];
    var current := Branch(appendPath[0], rightWitness[0]);
    var layer: nat, inc: nat, started := 0, nodeIndex, false;
    ghost var whole: nat := nodeIndex;
    NotYetWrapped(nodeIndex);
    while lefts != [] || rights != []
      invariant 0 <= layer <= 64
      invariant inc < Pow2(64) && Wrapped(inc, whole)
      invariant Recombine(nodeIndex, layer, whole, started, current, lefts, rights)
             == RootFromRightWitness(nodeIndex, appendPath, rightWitness)
      decreases 64 - layer
    {
      RecombineStep(nodeIndex, layer, whole, started, current, lefts, rights);
      if layer == 64 {
        return None;
      }
      if lefts != [] && Shift(nodeIndex, layer) % 2 == 1 {
        if !started {
          WrapAdds(inc, whole, layer);
          inc, whole := AddBit(inc, layer), whole + Pow2(layer);
          started := true;
        } else {
          current := Branch(lefts[0], current);
          lefts := lefts[1..];
        }
      }
      WrapKeepsBit(inc, whole, layer);
      if rights != [] && Shift(inc, layer) % 2 == 1 {
        current := Branch(current, rights[0]);
        rights := rights[1..];
        WrapAdds(inc, whole, layer);
        inc, whole := AddBit(inc, layer), whole + Pow2(layer);
      }
      layer := layer + 1;
    }
    RecombineStep(nodeIndex, layer, whole, started, current, lefts, rights);
    return Some(current);
  }

  // ---------------------------------------------------------------- recombining a genuine witness

  lemma {:induction false} PathPrefix(values: seq<Value>, k: nat, m: nat, layer: nat)
    requires Start(m, layer) <= k <= |values|
    ensures Path(values[..k], m, layer) == Path(values, m, layer)
    decreases m
  {
    if m > 0 {
      StartMonotone(m - 1, m, layer);
      StartDouble(m / 2, layer);
      StartDouble(m - 1, layer);
      StartMonotone(2 * (m / 2), m, layer);
      var lo, hi := Start(m - 1, layer), Start(m - 1, layer) + Pow2(layer);
      assert values[..k][lo..hi] == values[lo..hi];
      PathPrefix(values, k, m / 2, layer + 1);
    }
  }

  lemma {:induction false} PathOfNothing(values: seq<Value>, m: nat, layer: nat)
    requires Start(m, layer) <= |values| && Path(values, m, layer) == []
    ensures m == 0
    decreases m
  {
    if m > 0 {
      StartDouble(m / 2, layer);
      StartMonotone(2 * (m / 2), m, layer);
      PathOfNothing(values, m / 2, layer + 1);
    }
  }

  /** With nothing left to join on either side, the node reached is the root. */
  lemma NothingLeft(values: seq<Value>, k: nat, layer: nat)
    requires 1 <= k <= |values| && Shift(k - 1, layer) == 0 && Witness(values, k, layer) == []
    ensures Start(0, layer) <= |values| && Node(values, 0, layer) == Root(values)
  {
    StartDouble(0, layer);
    NodeIsRoot(values, layer);
  }

  /** The state of the loop above the lowest set bit of `k`: the node over leaf `k - 1` is known,
      the lefts are the path elements above it and the rights the witnesses above it. */
  predicate Climbing(values: seq<Value>, k: nat, layer: nat, inc: nat, current: Hash, lefts: seq<Hash>, rights: seq<Hash>) {
    && 1 <= k <= |values|
    && Shift(k - 1, layer) == Shift(k, layer)
    && Start(Shift(k, layer), layer) <= k
    && current == Node(values, Shift(k, layer), layer)
    && lefts == Path(values, Shift(k, layer), layer)
    && rights == Witness(values, k, layer)
    && (rights != [] ==> inc == Start(Shift(k, layer) + 1, layer))
  }

  /** One layer of the climb: the node over leaf `k - 1` and its sibling make the next one. */
  lemma ClimbNode(values: seq<Value>, k: nat, layer: nat)
    requires 1 <= k <= |values| && Shift(k - 1, layer) == Shift(k, layer)
    ensures Start(Shift(k, layer), layer) <= k && Start(Shift(k, layer + 1), layer + 1) <= k
    ensures
      var c := Shift(k, layer);
      var node, above := Node(values, c, layer), Node(values, Shift(k, layer + 1), layer + 1);
      && (c % 2 == 1 ==> Start(c - 1, layer) <= |values| && above == Branch(Node(values, c - 1, layer), node))
      && (c % 2 == 0 && Start(c + 1, layer) >= |values| ==> above == node)
      && (c % 2 == 0 && Start(c + 1, layer) < |values| ==> above == Branch(node, Node(values, c + 1, layer)))
  {
    hide Node;
    var c, up := Shift(k, layer), Shift(k, layer + 1);
    ShiftBounds(k, layer);
    ShiftBounds(k, layer + 1);
    StrictlyInside(k, layer);
    StartDouble(up, layer);
    NodeSplit(values, up, layer);
    if c % 2 == 1 {
      StartMonotone(c - 1, c, layer);
    }
  }

  lemma WitnessStaysEmpty(values: seq<Value>, k: nat, layer: nat)
    requires k >= 1 && Start(Shift(k - 1, layer) + 1, layer) >= |values|
    ensures Witness(values, k, layer) == [] && Witness(values, k, layer + 1) == []
  {
    hide Start;
    CeilingStep(k, layer);
  }

  /** A climbing loop ends with the root. */
  lemma {:induction false} ClimbReachesRoot(values: seq<Value>, k: nat, layer: nat, inc: nat, current: Hash, lefts: seq<Hash>, rights: seq<Hash>)
    requires layer <= 64 && |values| < Pow2(64) && Climbing(values, k, layer, inc, current, lefts, rights)
    ensures Recombine(k, layer, inc, true, current, lefts, rights) == Some(Root(values))
    decreases 64 - layer
  {
    hide Start, Node, Path, Witness, Root, Pow2, Recombine, Aligned;
    var c := Shift(k, layer);
    RecombineStep(k, layer, inc, true, current, lefts, rights);
    if lefts == [] && rights == [] {
      PathOfNothing(values, c, layer);
      NothingLeft(values, k, layer);
    } else if layer == 64 {
      ShiftToZero(k, 64);
      PathOfZero(values, 64);
      WitnessEnds(values, k, 64);
      assert false;
    } else {
      ClimbNode(values, k, layer);
      PathStep(values, c, layer);
      CeilingStep(k, layer);
      ShiftOfStart(c + 1, layer);
      if c % 2 == 1 {
        WitnessSkips(values, k, layer);
        ClimbReachesRoot(values, k, layer + 1, inc, Branch(lefts[0], current), lefts[1..], rights);
      } else if Start(c + 1, layer) >= |values| {
        WitnessStaysEmpty(values, k, layer);
        ClimbReachesRoot(values, k, layer + 1, inc, current, lefts, rights);
      } else {
        WitnessTakes(values, k, layer);
        ClimbReachesRoot(values, k, layer + 1, inc + Pow2(layer), Branch(current, rights[0]), lefts, rights[1..]);
      }
    }
  }

  lemma PathOfZero(values: seq<Value>, layer: nat)
    ensures Start(0, layer) <= |values| && Path(values, 0, layer) == []
  {
  }

  /** Leaf `k` and leaf `k - 1` lie below the same node, so `k` is not the node's first leaf. */
  lemma StrictlyInside(k: nat, layer: nat)
    requires k >= 1 && Shift(k - 1, layer) == Shift(k, layer)
    ensures Start(Shift(k, layer), layer) < k
  {
    ShiftBounds(k - 1, layer);
  }

  // ---------------------------------------------------------------- below and at the lowest set bit

  /** `k` is a multiple of `2^layer`. */
  predicate Aligned(k: nat, layer: nat) { k == Start(Shift(k, layer), layer) }

  predicate ZerosBetween(k: nat, layer: nat, a: nat)
    requires layer <= a
    decreases a - layer
  {
    layer == a || (Shift(k, layer) % 2 == 0 && ZerosBetween(k, layer + 1, a))
  }

  /** For an aligned `k` the node before it is the one before its own. */
  lemma AlignedPredecessor(k: nat, layer: nat)
    requires k >= 1 && Aligned(k, layer)
    ensures Shift(k, layer) >= 1 && Shift(k - 1, layer) == Shift(k, layer) - 1
  {
    var s, c := Shift(k, layer), Shift(k - 1, layer);
    ShiftBounds(k - 1, layer);
    StartDouble(s - 1, layer);
    if c < s - 1 { StartMonotone(c + 1, s - 1, layer); } else if c > s - 1 { StartMonotone(s, c, layer); }
  }

  /** Climb to the lowest set bit: nothing joins on the way. */
  lemma {:induction false} FindLowBit(values: seq<Value>, k: nat, layer: nat) returns (a: nat)
    requires 1 <= k < |values| && Aligned(k, layer)
    ensures layer <= a && ZerosBetween(k, layer, a) && Aligned(k, a) && Shift(k, a) % 2 == 1
    ensures Start(Shift(k, layer), layer) <= |values| && Start(Shift(k, a), a) <= |values|
    ensures Path(values, Shift(k, layer), layer) == Path(values, Shift(k, a), a)
    ensures Witness(values, k, layer) == Witness(values, k, a)
    decreases Shift(k, layer)
  {
    hide Node, Path, Witness;
    AlignedPredecessor(k, layer);
    if Shift(k, layer) % 2 == 1 {
      a := layer;
    } else {
      PathStep(values, Shift(k, layer), layer);
      WitnessSkips(values, k, layer);
      StartDouble(Shift(k, layer + 1), layer);
      a := FindLowBit(values, k, layer + 1);
    }
  }

  /** Below the lowest set bit the loop does nothing. */
  lemma {:induction false} WaitForLowBit(k: nat, layer: nat, a: nat, current: Hash, lefts: seq<Hash>, rights: seq<Hash>)
    requires layer <= a <= 64 && ZerosBetween(k, layer, a)
    ensures Recombine(k, layer, k, false, current, lefts, rights) == Recombine(k, a, k, false, current, lefts, rights)
    decreases a - layer
  {
    hide Shift, Pow2;
    if layer < a {
      WaitForLowBit(k, layer + 1, a, current, lefts, rights);
    }
  }

  /** What the first joined pair gives, and what is left after it. */
  lemma FirstJoin(values: seq<Value>, k: nat, a: nat)
    requires 1 <= k < |values| && Aligned(k, a) && Shift(k, a) % 2 == 1
    ensures Start(Shift(k, a), a) <= |values| && Start(Shift(k, a) - 1, a) <= |values|
    ensures Start(Shift(k, a + 1), a + 1) <= |values|
    ensures
      var s, up := Shift(k, a), Shift(k, a + 1);
      && Path(values, s, a) == [Node(values, s - 1, a)] + Path(values, up, a + 1)
      && Witness(values, k, a) == [Node(values, s, a)] + Witness(values, k, a + 1)
      && Climbing(values, k, a + 1, k + Pow2(a), Branch(Node(values, s - 1, a), Node(values, s, a)),
                  Path(values, up, a + 1), Witness(values, k, a + 1))
  {
    hide Node, Path, Witness;
    var s, up := Shift(k, a), Shift(k, a + 1);
    AlignedPredecessor(k, a);
    PathStep(values, s, a);
    WitnessTakes(values, k, a);
    CeilingStep(k, a);
    ShiftBounds(k, a + 1);
    StartDouble(up, a);
    NodeSplit(values, up, a);
  }

  /** A single perfect subtree on the left: the rights join one layer early, but in the right order. */
  lemma {:induction false} DoublingReachesRoot(values: seq<Value>, k: nat, layer: nat, current: Hash, rights: seq<Hash>)
    requires layer < 64 && |values| < Pow2(64) && 1 <= k <= Pow2(layer) && k <= |values|
    requires Start(0, layer + 1) <= |values| && current == Node(values, 0, layer + 1)
    requires rights == Witness(values, k, layer + 1)
    ensures Recombine(k, layer, Pow2(layer), false, current, [], rights) == Some(Root(values))
    decreases 64 - layer
  {
    hide Node, Witness, Root, Path, Recombine, Shift, Aligned;
    DoublingStep(values, k, layer);
    RecombineStep(k, layer, Pow2(layer), false, current, [], rights);
    if rights == [] {
      NothingLeft(values, k, layer + 1);
    } else {
      assert Pow2(layer + 1) < |values|;
      BelowSixtyFour(layer + 1, |values|);
      DoublingReachesRoot(values, k, layer + 1, Branch(current, rights[0]), rights[1..]);
    }
  }

  lemma {:induction false} BelowSixtyFour(layer: nat, n: nat)
    requires Pow2(layer) < n < Pow2(64)
    ensures layer < 64
  {
    hide Pow2;
    if layer >= 64 { Pow2Monotone(64, layer); }
  }

  lemma DoublingStep(values: seq<Value>, k: nat, layer: nat)
    requires 1 <= k <= Pow2(layer) && k <= |values|
    ensures Shift(k - 1, layer + 1) == 0 && Shift(Pow2(layer), layer) == 1
    ensures Start(0, layer + 1) <= |values| && Start(0, layer + 2) <= |values|
    ensures Witness(values, k, layer + 1) != [] ==>
              && Start(1, layer + 1) == Pow2(layer + 1) < |values|
              && Witness(values, k, layer + 1) == [Node(values, 1, layer + 1)] + Witness(values, k, layer + 2)
              && Node(values, 0, layer + 2) == Branch(Node(values, 0, layer + 1), Node(values, 1, layer + 1))
  {
    hide Node, Witness;
    ShiftToZero(k - 1, layer + 1);
    ShiftOfStart(1, layer);
    WitnessTakes(values, k, layer + 1);
    StartDouble(0, layer + 1);
    NodeSplit(values, 0, layer + 1);
  }

  /** At the lowest set bit the loop only remembers that it has started. */
  lemma StartAtLowBit(k: nat, a: nat, current: Hash, lefts: seq<Hash>, rights: seq<Hash>)
    requires a < 64 && Aligned(k, a) && Shift(k, a) % 2 == 1 && lefts != []
    ensures Recombine(k, a, k, false, current, lefts, rights) == Recombine(k, a + 1, k + Pow2(a), true, current, lefts, rights)
  {
    hide Pow2, Shift, Start, Aligned;
    NextShift(k, a);
  }

  lemma NextShift(k: nat, a: nat)
    requires Aligned(k, a)
    ensures Shift(k + Pow2(a), a) == Shift(k, a) + 1
  {
    hide Pow2, Shift, Start;
    StartDouble(Shift(k, a), a);
    ShiftOfStart(Shift(k, a) + 1, a);
  }

  lemma LoneSubtree(values: seq<Value>, k: nat, a: nat)
    requires 1 <= k && Aligned(k, a) && Shift(k, a) % 2 == 1 && Shift(k, a + 1) == 0
    ensures k == Pow2(a)
  {
  }

  /** Joining from the lowest set bit on gives the root. */
  lemma JoinFromLowBit(values: seq<Value>, k: nat, a: nat, current: Hash, lefts: seq<Hash>, rights: seq<Hash>)
    requires a < 64 && |values| < Pow2(64) && 1 <= k < |values| && Aligned(k, a) && Shift(k, a) % 2 == 1
    requires Climbing(values, k, a + 1, k + Pow2(a), current, lefts, rights)
    ensures Recombine(k, a, k, false, current, lefts, rights) == Some(Root(values))
  {
    hide Node, Witness, Root, Path, Pow2, Shift, Start, Aligned;
    ClimbReachesRoot(values, k, a + 1, k + Pow2(a), current, lefts, rights);
    if lefts != [] {
      StartAtLowBit(k, a, current, lefts, rights);
    } else if rights != [] {
      PathOfNothing(values, Shift(k, a + 1), a + 1);
      LoneSubtree(values, k, a);
      DoublingReachesRoot(values, k, a, current, rights);
    }
  }

  /** The fold of a whole append path is the root. */
  lemma {:induction false} PathFoldsToRoot(values: seq<Value>, layer: nat, current: Hash, path: seq<Hash>)
    requires |values| >= 1 && Climbing(values, |values|, layer, 0, current, path, [])
    ensures Folded(current, path) == Root(values)
    decreases Shift(|values|, layer)
  {
    hide Node, Witness, Root, Path, Pow2, Start;
    var n := |values|;
    var c := Shift(n, layer);
    if c == 0 {
      PathOfZero(values, layer);
      NothingLeft(values, n, layer);
    } else {
      ClimbNode(values, n, layer);
      PathStep(values, c, layer);
      WholeTreeHasNoRight(values, layer);
      WitnessStaysEmpty(values, n, layer);
      if c % 2 == 1 {
        FoldFirst(current, path);
        PathFoldsToRoot(values, layer + 1, Branch(path[0], current), path[1..]);
      } else {
        PathFoldsToRoot(values, layer + 1, current, path);
      }
    }
  }

  lemma WholeTreeHasNoRight(values: seq<Value>, layer: nat)
    requires |values| >= 1
    ensures Start(Shift(|values| - 1, layer) + 1, layer) >= |values|
  {
    ShiftBounds(|values| - 1, layer);
  }

  lemma {:induction false} FoldFirst(h: Hash, path: seq<Hash>)
    requires path != []
    ensures Folded(h, path) == Folded(Branch(path[0], h), path[1..])
    decreases |path|
  {
    if |path| > 1 {
      FoldFirst(h, path[..|path| - 1]);
      assert path[..|path| - 1][1..] == path[1..][..|path[1..]| - 1];
    }
  }

  /** The append path of a tree folds to its root. */
  lemma {:induction false} AppendPathFoldsToRoot(values: seq<Value>, layer: nat)
    requires |values| >= 1 && Aligned(|values|, layer)
    ensures Start(Shift(|values|, layer), layer) <= |values|
    ensures RootFromPath(Path(values, Shift(|values|, layer), layer)) == Some(Root(values))
    decreases Shift(|values|, layer)
  {
    hide Node, Witness, Root, Path;
    var n := |values|;
    var s := Shift(n, layer);
    AlignedPredecessor(n, layer);
    PathStep(values, s, layer);
    StartDouble(s / 2, layer);
    if s % 2 == 1 {
      FullPathJoin(values, layer);
      PathFoldsToRoot(values, layer + 1, Node(values, s - 1, layer), Path(values, s / 2, layer + 1));
    } else {
      AppendPathFoldsToRoot(values, layer + 1);
    }
  }

  lemma FullPathJoin(values: seq<Value>, a: nat)
    requires |values| >= 1 && Aligned(|values|, a) && Shift(|values|, a) % 2 == 1
    ensures Start(Shift(|values|, a) - 1, a) <= |values| && Start(Shift(|values|, a + 1), a + 1) <= |values|
    ensures Climbing(values, |values|, a + 1, 0, Node(values, Shift(|values|, a) - 1, a), Path(values, Shift(|values|, a + 1), a + 1), [])
  {
    hide Node, Path;
    var n := |values|;
    var s, up := Shift(n, a), Shift(n, a + 1);
    AlignedPredecessor(n, a);
    PathStep(values, s, a);
    WholeTreeHasNoRight(values, a + 1);
    ShiftBounds(n, a + 1);
    StartDouble(up, a);
    NodeSplit(values, up, a);
  }

  /** For a tree over any values that is not empty, and any prefix of its leaves, the append path of the
      prefix and the right witness recombine to the root; without any leaf the calculation panics. */
  lemma RightWitnessRecombines(values: seq<Value>, k: nat)
    requires k <= |values| < Pow2(64)
    ensures RootFromRightWitness(k, AppendPath(values[..k]), RightWitness(values, k)) ==
            if |values| == 0 then None else Some(Root(values))
  {
    hide Node, Witness, Root, Path, Pow2, Recombine;
    StartZero(k);
    StartZero(|values|);
    PathPrefix(values, k, k, 0);
    PathOfZero(values[..0], 0);
    if |values| == 0 {
      PathOfZero(values, 0);
    } else if k == 0 {
      AppendPathFoldsToRoot(values, 0);
    } else if k == |values| {
      assert values[..k] == values;
      AppendPathFoldsToRoot(values, 0);
      WholeTreeHasNoRight(values, 0);
      WitnessStaysEmpty(values, k, 0);
    } else {
      var a := FindLowBit(values, k, 0);
      LowBitBelowSixtyFour(k, a, |values|);
      FirstJoin(values, k, a);
      var s, up := Shift(k, a), Shift(k, a + 1);
      var current := Branch(Node(values, s - 1, a), Node(values, s, a));
      WaitForLowBit(k, 0, a, current, Path(values, up, a + 1), Witness(values, k, a + 1));
      JoinFromLowBit(values, k, a, current, Path(values, up, a + 1), Witness(values, k, a + 1));
    }
  }

  lemma LowBitBelowSixtyFour(k: nat, a: nat, n: nat)
    requires Shift(k, a) >= 1 && k < n < Pow2(64)
    ensures a < 64
  {
    hide Pow2;
    ShiftBounds(k, a);
    StartMonotone(1, Shift(k, a), a);
    BelowSixtyFour(a, n) by { assert Start(1, a) == Pow2(a); }
  }
}
