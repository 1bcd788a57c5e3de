/** Appending to the tree, and what every tree built by appending satisfies (pkg/trie/rmt/rmt.go). */
module RmtAppend {
  import opened Basics
  import opened RmtRoot
  import opened RmtTree

  // ---------------------------------------------------------------- carry

  /** The lowest `k` bits of `n` are all set. */
  predicate AllOnes(n: nat, k: nat) {
    k == 0 || (Shift(n, k - 1) % 2 == 1 && AllOnes(n, k - 1))
  }

  /** Adding one carries through exactly the trailing ones. */
  lemma {:induction false} ShiftSucc(n: nat, k: nat)
    ensures Shift(n + 1, k) == Shift(n, k) + if AllOnes(n, k) then 1 else 0
  {
    if k > 0 { ShiftSucc(n, k - 1); }
  }

  /** Below the carry the grown tree has no path elements. */
  lemma {:induction false} GrownPathFrom(values: seq<Value>, v: Value, k: nat)
    requires AllOnes(|values|, k)
    ensures Start(Shift(|values|, k) + 1, k) <= |values| + 1
    ensures AppendPath(values + [v]) == Path(values + [v], Shift(|values|, k) + 1, k)
  {
    hide Start, Node, Path;
    var grown := values + [v];
    if k == 0 {
      StartZero(|values| + 1);
    } else {
      GrownPathFrom(values, v, k - 1);
      PathStep(grown, Shift(|values|, k - 1) + 1, k - 1);
    }
  }

  /** The new append path: the carry merges the trailing perfect subtrees with the new leaf into one. */
  lemma GrownPath(values: seq<Value>, v: Value, k: nat)
    requires AllOnes(|values|, k) && Shift(|values|, k) % 2 == 0
    ensures Start(Shift(|values|, k), k) <= |values|
    ensures AppendPath(values + [v]) == [Spine(values, v, k)] + Path(values, Shift(|values|, k), k)
  {
    hide Start, Node, Pow2, Path, Shift, AllOnes, AppendPath;
    var s, up := Shift(|values|, k), Shift(|values|, k + 1);
    var grown := values + [v];
    SpinePositions(|values|, k);
    GrownPathFrom(values, v, k);
    PathStep(grown, s + 1, k);
    PathStep(values, s, k);
    PathUnchanged(values, v, up, k + 1);
    assert (s + 1) / 2 == up && (s + 1) % 2 == 1;
  }

  /** Above the layer of the root nothing contains the new leaf as a node of its own. */
  lemma SpineEnds(n: nat, layer: nat, h: nat)
    requires n + 1 <= Pow2(h) && layer > h
    ensures !IsNode(n + 1, Shift(n, layer), layer) && !AllOnes(n, layer)
  {
    Pow2Monotone(h, layer - 1);
    ShiftToZero(n, layer - 1);
  }

  lemma CarriedPathElement(s: NodeStore, values: seq<Value>, v: Value, layer: nat)
    requires AllOnes(|values|, layer) && SpineLocated(s, values, v, layer)
    ensures PathElementLocated(s, values + [v], layer)
  {
    hide Node, Start;
    ShiftSucc(|values|, layer);
    ShiftBounds(|values|, layer);
  }

  lemma KeptPathElement(s: NodeStore, values: seq<Value>, v: Value, layer: nat)
    requires !AllOnes(|values|, layer) && PathElementLocated(s, values, layer)
    ensures PathElementLocated(s, values + [v], layer)
  {
    hide Node, Start;
    ShiftSucc(|values|, layer);
    if Shift(|values|, layer) % 2 == 1 {
      PathElementFacts(values, layer);
      NodeUnchanged(values, v, Shift(|values|, layer) - 1, layer);
    }
  }

  /** The store of the grown tree, once the whole spine is saved. */
  lemma SpineDone(s: NodeStore, values: seq<Value>, v: Value, h: nat)
    requires SpineSaved(s, values, v, h) && |values| + 1 <= Pow2(h)
    ensures NodesStored(s, values + [v]) && LayersMatch(s) && PathLocated(s, values + [v])
  {
    hide Node, Start, IsNode, NodeStored, PathElementLocated, SpineLocated;
    var after := values + [v];
    forall i: nat, layer: nat | IsNode(|after|, i, layer) ensures NodeStored(s, after, i, layer) {
      assert GrownNodeStored(s, values, v, h, i, layer);
      if layer > h { SpineEnds(|values|, layer, h); }
    }
    forall layer: nat ensures PathElementLocated(s, after, layer) {
      if AllOnes(|values|, layer) {
        if layer > h { SpineEnds(|values|, layer, h); }
        assert SpineLocated(s, values, v, layer);
        CarriedPathElement(s, values, v, layer);
      } else {
        assert PathElementLocated(s, values, layer);
        KeptPathElement(s, values, v, layer);
      }
    }
  }

  // ---------------------------------------------------------------- the tree

  class RegularMerkleTree {
    var root: Hash
    var appendPath: seq<Hash>
    var size: nat
    var store: NodeStore
    /** What has been appended so far. */
    ghost var values: seq<Value>

    ghost predicate Valid()
      reads this
    {
      && size == |values|
      && root == Root(values)
      && appendPath == AppendPath(values)
      && NodesStored(store, values)
      && LayersMatch(store)
      && PathLocated(store, values)
      && LeavesLocated(store, values)
    }

    constructor ()
      ensures Valid() && values == []
    {
      root := Empty;
      appendPath := [];
      size := 0;
      store := NodeStore(map[], map[]);
      values := [];
      new;
      forall layer: nat ensures Shift(0, layer) == 0 { ShiftToZero(0, layer); }
    }

    method SaveNode(h: Hash, loc: Location)
      modifies this`store
      ensures store == Save(old(store), h, loc)
    {
      store := NodeStore(store.locationOf[h := loc], store.hashAt[loc := h]);
    }

    /** replaceNode; false when the location holds nothing yet. */
    method ReplaceNode(h: Hash, loc: Location) returns (ok: bool)
      modifies this`store
      ensures ok <==> loc in old(store).hashAt
      ensures store == if ok then Save(old(store), h, loc) else old(store)
    {
      if loc !in store.hashAt {
        return false;
      }
      SaveNode(h, loc);
      return true;
    }

    /** Join the spine node of layer `h` to the append path element left of it, and save the result. */
    method JoinAndSave(value: Value, h: nat, count: nat, current: Hash) returns (ok: bool, joined: Hash)
      requires size == |values| && size >= 1 && Shift(size, h) % 2 == 1
      requires Climbed(store, values, value, appendPath, h, count, current)
      requires h + 2 == HeightOf(size) ==> Location(h + 1, Shift(size, h + 1)) in store.hashAt
      modifies this`store
      ensures ok && Climbed(store, values, value, appendPath, h + 1, count + 1, joined)
      ensures old(store).hashAt.Keys <= store.hashAt.Keys
    {
      hide Node, Start, SpineSaved, LeavesLocated, Shift, HeightOf, Spine, Path;
      SpineStep(values, value, h);
      assert appendPath[count] == appendPath[count..][0];
      var appendHash := appendPath[count];
      PathHeadLocated(store, values, value, h);
      SaveSpineAbove(store, values, value, h);
      if appendHash !in store.locationOf {
        return false, current;
      }
      var appendLoc := store.locationOf[appendHash];
      var nextLoc := Location(appendLoc.layer + 1, appendLoc.index / 2);
      BranchKeepsLeaves(store, values + [value], appendHash, current, nextLoc);
      joined := Branch(appendHash, current);
      ok := true;
      if nextLoc.layer == HeightOf(size) - 1 {
        ok := ReplaceNode(joined, nextLoc);
      } else {
        SaveNode(joined, nextLoc);
      }
    }

    /** Join the new leaf to the append path, layer by layer, saving every new node. */
    method ClimbSpine(value: Value) returns (ok: bool, current: Hash)
      requires size == |values| && size >= 1 && appendPath == AppendPath(values)
      requires SpineSaved(store, values, value, 0) && NodesStored(store, values)
      requires LeavesLocated(store, values + [value])
      modifies this`store
      ensures ok && current == Root(values + [value])
      ensures LeavesLocated(store, values + [value])
      ensures SpineSaved(store, values, value, HeightOf(size))
    {
      hide Climbed, NodesStored, SpineSaved, LeavesLocated, Shift, HeightOf, AppendPath, Root;
      var height := HeightOf(size);
      current := Leaf(value);
      ClimbStarts(store, values, value);
      var count: nat, h: nat := 0, 0;
      while h < height
        invariant h <= height
        invariant Climbed(store, values, value, appendPath, h, count, current)
        invariant old(store).hashAt.Keys <= store.hashAt.Keys
      {
        if Shift(size, h) % 2 == 1 {
          if h + 2 == height { TopNodeStored(old(store), values, h); }
          ok, current := JoinAndSave(value, h, count, current);
          if !ok {
            return;
          }
          count := count + 1;
        } else {
          ClimbSkips(store, values, value, appendPath, h, count, current);
        }
        h := h + 1;
      }
      ClimbEnds(store, values, value, appendPath, h, count, current);
      return true, current;
    }

    /** Merge the trailing perfect subtrees with the new leaf into one new path element. */
    method MergeTrailing(value: Value)
      requires size == |values| && size >= 1 && appendPath == AppendPath(values)
      modifies this`appendPath
      ensures appendPath == AppendPath(values + [value])
    {
      hide Node, Start, Path, Root, IsNode, Spine, Folded;
      var height := HeightOf(size);
      NothingFolded(Leaf(value));
      LeafIsSpine(values, value);
      StartZero(size);
      var subTreeIndex := 0;
      var current := Leaf(value);
      while subTreeIndex < height && Shift(size, subTreeIndex) % 2 == 1
        invariant 0 <= subTreeIndex <= height && subTreeIndex <= |appendPath|
        invariant AllOnes(size, subTreeIndex)
        invariant Start(Shift(size, subTreeIndex), subTreeIndex) <= |values|
        invariant appendPath[subTreeIndex..] == Path(values, Shift(size, subTreeIndex), subTreeIndex)
        invariant Folded(Leaf(value), appendPath[..subTreeIndex]) == Spine(values, value, subTreeIndex)
      {
        SpineStep(values, value, subTreeIndex);
        FoldStep(Leaf(value), appendPath, subTreeIndex);
        subTreeIndex := subTreeIndex + 1;
      }
      if subTreeIndex == height { ShiftToZero(size, height); }
      GrownPath(values, value, subTreeIndex);
      var bottomPath, topPath := appendPath[..subTreeIndex], appendPath[subTreeIndex..];
      for i := 0 to |bottomPath|
        invariant current == Folded(Leaf(value), bottomPath[..i])
      {
        FoldStep(Leaf(value), bottomPath, i);
        current := Branch(bottomPath[i], current);
      }
      assert bottomPath[..|bottomPath|] == bottomPath;
      appendPath := [current] + topPath;
    }

    /** Append: the tree stays the recursive tree over everything appended. */
    method Append(value: Value) returns (ok: bool)
      requires Valid()
      modifies this
      ensures ok && Valid() && values == old(values) + [value]
    {
      SaveLeaf(store, values, value);
      SaveNode(Leaf(value), Location(0, size));
      LeafLocated(old(store), values, value);
      if size == 0 {
        SpineDone(store, values, value, 0);
        GrownPath(values, value, 0);
        appendPath := [Leaf(value)];
        root := Leaf(value);
      } else {
        LeafKeepsNodes(old(store), values, value);
        var newRoot;
        ok, newRoot := ClimbSpine(value);
        if !ok {
          return;
        }
        root := newRoot;
        MergeTrailing(value);
        SpineDone(store, values, value, HeightOf(size));
      }
      size := size + 1;
      values := values + [value];
      return true;
    }
  }

  /** Joining a hash to a list of left neighbours, nearest first. */
  function Folded(h: Hash, path: seq<Hash>): Hash {
    if path == [] then h
    else Branch(path[|path| - 1], Folded(h, path[..|path| - 1]))
  }

  lemma NothingFolded(h: Hash)
    ensures Folded(h, []) == h
  {
  }

  lemma FoldStep(h: Hash, path: seq<Hash>, i: nat)
    requires i < |path|
    ensures path[i..] == [path[i]] + path[i + 1..]
    ensures Folded(h, path[..i + 1]) == Branch(path[i], Folded(h, path[..i]))
  {
    assert path[..i + 1][..i] == path[..i];
  }

  lemma LeafKeepsNodes(s: NodeStore, values: seq<Value>, v: Value)
    requires NodesStored(s, values)
    ensures NodesStored(Save(s, Leaf(v), Location(0, |values|)), values)
  {
    forall i: nat, layer: nat | IsNode(|values|, i, layer)
      ensures NodeStored(Save(s, Leaf(v), Location(0, |values|)), values, i, layer)
    {
      assert NodeStored(s, values, i, layer);
    }
  }

  /** The climb along the right spine has reached layer `h` and used `count` append path elements. */
  ghost predicate Climbed(s: NodeStore, values: seq<Value>, v: Value, path: seq<Hash>, h: nat, count: nat, current: Hash) {
    && count <= |path|
    && Start(Shift(|values|, h), h) <= |values|
    && path[count..] == Path(values, Shift(|values|, h), h)
    && current == Spine(values, v, h)
    && SpineSaved(s, values, v, h)
    && LeavesLocated(s, values + [v])
  }

  lemma ClimbStarts(s: NodeStore, values: seq<Value>, v: Value)
    requires SpineSaved(s, values, v, 0) && LeavesLocated(s, values + [v])
    ensures Climbed(s, values, v, AppendPath(values), 0, 0, Leaf(v))
  {
    StartZero(|values|);
    LeafIsSpine(values, v);
  }

  lemma ClimbSkips(s: NodeStore, values: seq<Value>, v: Value, path: seq<Hash>, h: nat, count: nat, current: Hash)
    requires Climbed(s, values, v, path, h, count, current) && Shift(|values|, h) % 2 == 0
    ensures Climbed(s, values, v, path, h + 1, count, current)
  {
    hide SpineSaved, LeavesLocated, Spine, Start, Path;
    SpineStep(values, v, h);
    SkipSpine(s, values, v, h);
  }

  lemma ClimbEnds(s: NodeStore, values: seq<Value>, v: Value, path: seq<Hash>, h: nat, count: nat, current: Hash)
    requires |values| >= 1 && h == HeightOf(|values|) && Climbed(s, values, v, path, h, count, current)
    ensures current == Root(values + [v]) && SpineSaved(s, values, v, h) && LeavesLocated(s, values + [v])
  {
    HeightBounds(|values|);
    SpineIsRoot(values, v, h);
  }

  lemma BranchKeepsLeaves(s: NodeStore, values: seq<Value>, l: Hash, r: Hash, loc: Location)
    requires LeavesLocated(s, values)
    ensures LeavesLocated(Save(s, Branch(l, r), loc), values)
  {
  }

  lemma LeafLocated(s: NodeStore, values: seq<Value>, v: Value)
    requires LeavesLocated(s, values)
    ensures LeavesLocated(Save(s, Leaf(v), Location(0, |values|)), values + [v])
  {
  }

  lemma LeafIsSpine(values: seq<Value>, v: Value)
    ensures Spine(values, v, 0) == Leaf(v)
  {
    assert (values + [v])[|values|..|values| + 1] == [v];
  }

  lemma HeightBounds(n: nat)
    requires n >= 1
    ensures n < Pow2(HeightOf(n))
  {
    assert Pow2(HeightOf(n)) == 2 * Pow2(HeightOf(n) - 1);
  }

  lemma SpineIsRoot(values: seq<Value>, v: Value, h: nat)
    requires |values| < Pow2(h)
    ensures Spine(values, v, h) == Root(values + [v])
  {
    ShiftToZero(|values|, h);
    NodeIsRoot(values + [v], h);
  }

  /** The next append path element is found at its own layer, below the next spine node. */
  lemma PathHeadLocated(s: NodeStore, values: seq<Value>, v: Value, h: nat)
    requires SpineSaved(s, values, v, h) && Shift(|values|, h) % 2 == 1
    ensures Start(Shift(|values|, h) - 1, h) <= |values|
    ensures
      var e := Node(values, Shift(|values|, h) - 1, h);
      && e in s.locationOf
      && s.locationOf[e].layer == h && s.locationOf[e].index / 2 == Shift(|values|, h + 1)
  {
    hide Node, Start;
    assert PathElementLocated(s, values, h);
    PathElementFacts(values, h);
  }

  lemma SaveSpineAbove(s: NodeStore, values: seq<Value>, v: Value, h: nat)
    requires SpineSaved(s, values, v, h) && Shift(|values|, h) % 2 == 1
    ensures SpineSaved(Save(s, Spine(values, v, h + 1), Location(h + 1, Shift(|values|, h + 1))), values, v, h + 1)
  {
    SaveSpine(s, values, v, h + 1);
  }

  /** While the tree is not full, its root has a location already. */
  lemma TopNodeStored(s: NodeStore, values: seq<Value>, h: nat)
    requires |values| >= 1 && NodesStored(s, values)
    requires h + 2 == HeightOf(|values|) && Shift(|values|, h) % 2 == 1
    ensures Location(h + 1, Shift(|values|, h + 1)) in s.hashAt
  {
    var n := |values|;
    if n == Pow2(h + 1) {
      ShiftOfPow(h + 1, h);
      assert false;
    } else {
      ShiftToZero(n, h + 1);
      assert IsNode(n, 0, h + 1);
    }
  }

  lemma {:induction false} ShiftOfPow(a: nat, k: nat)
    requires k <= a
    ensures Shift(Pow2(a), k) == Pow2(a - k)
  {
    if k > 0 { ShiftOfPow(a, k - 1); }
  }
}
