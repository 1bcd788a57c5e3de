/** The layout of a subtree as a list of nodes with their depths, and working it up layer by layer
    (pkg/trie/smt/hasher.go, utils.go, subtree.go). */
module SmtLayers {
  import opened Basics
  import opened SmtTree

  datatype Sub<T> = Tip(value: T) | Fork(left: Sub<T>, right: Sub<T>)

  /** The tips from left to right with their depths. */
  function Flat<T>(s: Sub<T>, d: nat): (xs: seq<(T, nat)>)
    ensures |xs| >= 1
  {
    match s
    case Tip(v) => [(v, d)]
    case Fork(l, r) => Flat(l, d + 1) + Flat(r, d + 1)
  }

  function Depth<T>(s: Sub<T>): nat {
    match s
    case Tip(_) => 0
    case Fork(l, r) => 1 + Max(Depth(l), Depth(r))
  }

  /** The tips joined pairwise from the bottom up. */
  function Eval<T>(s: Sub<T>, join: (T, T) -> T): T {
    match s
    case Tip(v) => v
    case Fork(l, r) => join(Eval(l, join), Eval(r, join))
  }

  /** One layer: neighbours of depth `h` are joined. */
  function Pass<T>(xs: seq<(T, nat)>, h: nat, join: (T, T) -> T): seq<(T, nat)>
    requires h >= 1
  {
    if |xs| == 0 then []
    else if xs[0].1 != h || |xs| == 1 then [xs[0]] + Pass(xs[1..], h, join)
    else [(join(xs[0].0, xs[1].0), h - 1)] + Pass(xs[2..], h, join)
  }

  /** The layout with everything below depth `h` already joined. */
  function Cut<T>(s: Sub<T>, d: nat, h: nat, join: (T, T) -> T): (xs: seq<(T, nat)>)
    ensures |xs| >= 1
  {
    match s
    case Tip(v) => [(v, d)]
    case Fork(l, r) => if d >= h then [(Eval(s, join), d)] else Cut(l, d + 1, h, join) + Cut(r, d + 1, h, join)
  }

  lemma {:induction false} FlatIsCut<T>(s: Sub<T>, d: nat, h: nat, join: (T, T) -> T)
    requires d + Depth(s) <= h
    ensures Flat(s, d) == Cut(s, d, h, join)
  {
    if s.Fork? {
      FlatIsCut(s.left, d + 1, h, join);
      FlatIsCut(s.right, d + 1, h, join);
    }
  }

  lemma CutAt<T>(s: Sub<T>, h: nat, join: (T, T) -> T)
    ensures Cut(s, h, h, join) == [(Eval(s, join), h)]
  {
  }

  lemma PassPair<T>(a: T, b: T, h: nat, rest: seq<(T, nat)>, join: (T, T) -> T)
    requires h >= 1
    ensures Pass([(a, h)] + ([(b, h)] + rest), h, join) == [(join(a, b), h - 1)] + Pass(rest, h, join)
  {
    var xs := [(a, h)] + ([(b, h)] + rest);
    assert xs[2..] == rest;
  }

  lemma PassOther<T>(a: T, d: nat, h: nat, rest: seq<(T, nat)>, join: (T, T) -> T)
    requires h >= 1 && d != h
    ensures Pass([(a, d)] + rest, h, join) == [(a, d)] + Pass(rest, h, join)
  {
    assert ([(a, d)] + rest)[1..] == rest;
  }

  /** A layer works the tree up by one. */
  lemma {:induction false} PassCut<T>(s: Sub<T>, d: nat, h: nat, rest: seq<(T, nat)>, join: (T, T) -> T)
    requires d < h
    ensures Pass(Cut(s, d, h, join) + rest, h, join) == Cut(s, d, h - 1, join) + Pass(rest, h, join)
    decreases s
  {
    hide Pass;
    match s
    case Tip(v) => PassOther(v, d, h, rest, join);
    case Fork(l, r) =>
      if d + 1 == h {
        CutAt(l, h, join);
        CutAt(r, h, join);
        assert Cut(s, d, h, join) + rest == [(Eval(l, join), h)] + ([(Eval(r, join), h)] + rest);
        PassPair(Eval(l, join), Eval(r, join), h, rest, join);
      } else {
        var lower := Cut(r, d + 1, h, join) + rest;
        assert Cut(s, d, h, join) + rest == Cut(l, d + 1, h, join) + lower;
        PassCut(l, d + 1, h, lower, join);
        PassCut(r, d + 1, h, rest, join);
        assert Cut(l, d + 1, h - 1, join) + (Cut(r, d + 1, h - 1, join) + Pass(rest, h, join))
            == Cut(s, d, h - 1, join) + Pass(rest, h, join);
      }
  }

  lemma PassWhole<T>(s: Sub<T>, h: nat, join: (T, T) -> T)
    requires h >= 1
    ensures Pass(Cut(s, 0, h, join), h, join) == Cut(s, 0, h - 1, join)
  {
    hide Pass, Cut;
    PassCut(s, 0, h, [], join);
    PassNothing(h, join);
    assert Cut(s, 0, h, join) + [] == Cut(s, 0, h, join);
    assert Cut(s, 0, h - 1, join) + [] == Cut(s, 0, h - 1, join);
  }

  lemma PassNothing<T>(h: nat, join: (T, T) -> T)
    requires h >= 1
    ensures Pass([], h, join) == []
  {
  }

  /** In a layout a node of the deepest layer is never alone. */
  ghost predicate Paired<T>(xs: seq<(T, nat)>, h: nat) {
    |xs| > 0 ==>
      if xs[0].1 != h then Paired(xs[1..], h)
      else |xs| >= 2 && xs[1].1 == h && Paired(xs[2..], h)
  }

  lemma {:induction false} PairedCut<T>(s: Sub<T>, d: nat, h: nat, rest: seq<(T, nat)>, join: (T, T) -> T)
    requires d < h && Paired(rest, h)
    ensures Paired(Cut(s, d, h, join) + rest, h)
    decreases s
  {
    match s
    case Tip(v) => assert ([(v, d)] + rest)[1..] == rest;
    case Fork(l, r) =>
      if d + 1 == h {
        CutAt(l, h, join);
        CutAt(r, h, join);
        var xs := Cut(s, d, h, join) + rest;
        assert xs == [(Eval(l, join), h)] + ([(Eval(r, join), h)] + rest);
        assert xs[2..] == rest;
      } else {
        PairedCut(r, d + 1, h, rest, join);
        PairedCut(l, d + 1, h, Cut(r, d + 1, h, join) + rest, join);
        assert Cut(l, d + 1, h, join) + (Cut(r, d + 1, h, join) + rest) == Cut(s, d, h, join) + rest;
      }
  }

  lemma PairedWhole<T>(s: Sub<T>, h: nat, join: (T, T) -> T)
    requires h >= 1
    ensures Paired(Cut(s, 0, h, join), h)
  {
    PairedCut(s, 0, h, [], join);
    assert Cut(s, 0, h, join) + [] == Cut(s, 0, h, join);
  }

  // ---------------------------------------------------------------- two lists for one

  function Zip<T>(xs: seq<T>, structure: seq<nat>): (r: seq<(T, nat)>)
    requires |xs| == |structure|
    ensures |r| == |xs| && forall i :: 0 <= i < |xs| ==> r[i] == (xs[i], structure[i])
  {
    seq(|xs|, i requires 0 <= i < |xs| => (xs[i], structure[i]))
  }

  /** ints.Max. */
  method MaxOf(structure: seq<nat>) returns (max: nat)
    requires structure != []
    ensures max == Highest(structure)
  {
    max := structure[0];
    for i := 1 to |structure|
      invariant max == Highest(structure[..i])
    {
      assert structure[..i + 1][..i] == structure[..i];
      if structure[i] > max {
        max := structure[i];
      }
    }
    assert structure[..|structure|] == structure;
  }

  function Highest(structure: seq<nat>): nat {
    if structure == [] then 0 else Max(Highest(structure[..|structure| - 1]), structure[|structure| - 1])
  }

  function Depths<T>(xs: seq<(T, nat)>): (r: seq<nat>)
    ensures |r| == |xs|
  {
    seq(|xs|, i requires 0 <= i < |xs| => xs[i].1)
  }

  lemma {:induction false} HighestAppend(a: seq<nat>, b: seq<nat>)
    ensures Highest(a + b) == Max(Highest(a), Highest(b))
  {
    if b == [] {
      assert a + b == a;
    } else {
      assert (a + b)[..|a + b| - 1] == a + b[..|b| - 1];
      HighestAppend(a, b[..|b| - 1]);
    }
  }

  lemma {:induction false} HighestOfFlat<T>(s: Sub<T>, d: nat)
    ensures Highest(Depths(Flat(s, d))) == d + Depth(s)
  {
    match s
    case Tip(v) =>
      assert Depths(Flat(s, d)) == [d];
      assert [d][..0] == [];
    case Fork(l, r) =>
      HighestOfFlat(l, d + 1);
      HighestOfFlat(r, d + 1);
      assert Depths(Flat(s, d)) == Depths(Flat(l, d + 1)) + Depths(Flat(r, d + 1));
      HighestAppend(Depths(Flat(l, d + 1)), Depths(Flat(r, d + 1)));
  }

  // ---------------------------------------------------------------- treeHasher

  function BranchOf(l: Hash, r: Hash): Hash { Branch(l, r) }

  /** treeHasher: the hash of the tree laid out in the two lists. */
  method TreeHasher(nodeHashes: seq<Hash>, structure: seq<nat>, height: nat, ghost s: Sub<Hash>) returns (root: Hash)
    requires |nodeHashes| == |structure| && Zip(nodeHashes, structure) == Cut(s, 0, height, BranchOf)
    ensures root == Eval(s, BranchOf)
    decreases height
  {
    hide Cut, Pass, Eval, Paired;
    CutLength(s, height, BranchOf);
    if |nodeHashes| == 1 {
      return nodeHashes[0];
    }
    var nextHashes: seq<Hash> := [];
    var nextStructure: seq<nat> := [];
    var i := 0;
    ghost var all := Zip(nodeHashes, structure);
    PairedWhole(s, height, BranchOf);
    assert all[0..] == all;
    ghost var whole := Pass(all, height, BranchOf);
    while i < |nodeHashes|
      invariant 0 <= i <= |nodeHashes| && |nextHashes| == |nextStructure| && Paired(all[i..], height)
      invariant Zip(nextHashes, nextStructure) + Pass(all[i..], height, BranchOf) == whole
    {
      PairedStep(all, i, height);
      PassStep(all, i, height, BranchOf);
      ghost var before := Zip(nextHashes, nextStructure);
      if structure[i] != height {
        nextHashes := nextHashes + [nodeHashes[i]];
        nextStructure := nextStructure + [structure[i]];
        assert Zip(nextHashes, nextStructure) == before + [all[i]];
        i := i + 1;
      } else {
        nextHashes := nextHashes + [Branch(nodeHashes[i], nodeHashes[i + 1])];
        nextStructure := nextStructure + [structure[i] - 1];
        assert Zip(nextHashes, nextStructure) == before + [(BranchOf(nodeHashes[i], nodeHashes[i + 1]), height - 1)];
        i := i + 2;
      }
    }
    PassNothing(height, BranchOf);
    assert all[i..] == [];
    assert Zip(nextHashes, nextStructure) == whole;
    PassWhole(s, height, BranchOf);
    if height == 1 {
      CutLength(s, 0, BranchOf);
      return nextHashes[0];
    }
    root := TreeHasher(nextHashes, nextStructure, height - 1, s);
  }

  lemma CutLength<T>(s: Sub<T>, h: nat, join: (T, T) -> T)
    ensures |Cut(s, 0, h, join)| == 1 ==> Cut(s, 0, h, join)[0].0 == Eval(s, join)
    ensures |Cut(s, 0, h, join)| != 1 ==> h >= 1
    ensures h == 0 ==> |Cut(s, 0, h, join)| == 1
  {
  }

  lemma PairedStep<T>(xs: seq<(T, nat)>, i: nat, h: nat)
    requires i < |xs| && Paired(xs[i..], h)
    ensures xs[i].1 != h ==> Paired(xs[i + 1..], h)
    ensures xs[i].1 == h ==> i + 1 < |xs| && xs[i + 1].1 == h && Paired(xs[i + 2..], h)
  {
    assert xs[i..][1..] == xs[i + 1..];
    if xs[i].1 == h { assert xs[i..][2..] == xs[i + 2..]; }
  }

  lemma PassStep<T>(xs: seq<(T, nat)>, i: nat, h: nat, join: (T, T) -> T)
    requires i < |xs| && h >= 1
    ensures xs[i].1 != h ==> Pass(xs[i..], h, join) == [xs[i]] + Pass(xs[i + 1..], h, join)
    ensures xs[i].1 == h && i + 1 < |xs| ==> Pass(xs[i..], h, join) == [(join(xs[i].0, xs[i + 1].0), h - 1)] + Pass(xs[i + 2..], h, join)
  {
    assert xs[i..][1..] == xs[i + 1..];
    if i + 1 < |xs| { assert xs[i..][2..] == xs[i + 2..]; }
  }
}
