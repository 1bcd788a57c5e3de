/** Subtrees of height 8: their nodes, how they collapse, and how they are stored
    (pkg/trie/smt/node.go, subtree.go, utils.go). */
module SmtSubtree {
  import opened SmtTree
  import opened SmtLayers

  const HEIGHT: nat := 8

  datatype Node = EmptyNode | LeafNode(key: Key, value: Value) | StubNode(hash: Hash) | TempNode

  function HashOf(x: Node): Hash {
    match x
    case LeafNode(k, v) => Leaf(k, v)
    case StubNode(h) => h
    case _ => Empty
  }

  /** nodeStructure. */
  datatype Layout = Layout(nodes: seq<Node>, structure: seq<nat>)

  datatype SubTree = SubTree(structure: seq<nat>, root: Hash, nodes: seq<Node>)

  function Nodes(xs: seq<(Node, nat)>): (r: seq<Node>)
    ensures |r| == |xs|
  {
    seq(|xs|, i requires 0 <= i < |xs| => xs[i].0)
  }

  function LayoutOf(s: Sub<Node>, d: nat): Layout { Layout(Nodes(Flat(s, d)), Depths(Flat(s, d))) }

  /** The hashes of the tips. */
  function Hashes(s: Sub<Node>): Sub<Hash> {
    match s
    case Tip(x) => Tip(HashOf(x))
    case Fork(l, r) => Fork(Hashes(l), Hashes(r))
  }

  /** The record of a subtree. */
  function Record(s: Sub<Node>): SubTree {
    SubTree(LayoutOf(s, 0).structure, Eval(Hashes(s), BranchOf), LayoutOf(s, 0).nodes)
  }

  // ---------------------------------------------------------------- newSubtreeFromData

  lemma {:induction false} FlatHashes(s: Sub<Node>, d: nat)
    ensures |Flat(Hashes(s), d)| == |Flat(s, d)|
    ensures forall i :: 0 <= i < |Flat(s, d)| ==> Flat(Hashes(s), d)[i] == (HashOf(Flat(s, d)[i].0), Flat(s, d)[i].1)
  {
    if s.Fork? {
      FlatHashes(s.left, d + 1);
      FlatHashes(s.right, d + 1);
    }
  }

  lemma {:induction false} DepthOfHashes(s: Sub<Node>)
    ensures Depth(Hashes(s)) == Depth(s)
  {
    if s.Fork? {
      DepthOfHashes(s.left);
      DepthOfHashes(s.right);
    }
  }

  /** newSubtreeFromData for the lists of a subtree. */
  method NewSubtreeFromData(structure: seq<nat>, nodes: seq<Node>, ghost s: Sub<Node>) returns (r: SubTree)
    requires Layout(nodes, structure) == LayoutOf(s, 0)
    ensures r == Record(s)
  {
    hide Eval, Cut, Flat, Highest;
    var height := MaxOf(structure);
    HighestOfFlat(s, 0);
    var hashes: seq<Hash> := [];
    for i := 0 to |nodes|
      invariant |hashes| == i && forall j :: 0 <= j < i ==> hashes[j] == HashOf(nodes[j])
    {
      hashes := hashes + [HashOf(nodes[i])];
    }
    FlatHashes(s, 0);
    DepthOfHashes(s);
    FlatIsCut(Hashes(s), 0, height, BranchOf);
    assert Zip(hashes, structure) == Flat(Hashes(s), 0);
    var calculated := TreeHasher(hashes, structure, height, Hashes(s));
    return SubTree(structure, calculated, nodes);
  }

  // ---------------------------------------------------------------- collapsing

  /** What two collapsed subtrees make. */
  function JoinSub(a: Sub<Node>, b: Sub<Node>): Sub<Node> {
    if a.Tip? && b.Tip? && a.value.EmptyNode? && b.value.EmptyNode? then a
    else if a.Tip? && b.Tip? && a.value.EmptyNode? && b.value.LeafNode? then b
    else if a.Tip? && b.Tip? && a.value.LeafNode? && b.value.EmptyNode? then a
    else Fork(a, b)
  }

  function Wrapped(s: Sub<Node>): Sub<Sub<Node>> {
    match s
    case Tip(x) => Tip(s)
    case Fork(l, r) => Fork(Wrapped(l), Wrapped(r))
  }

  function Collapsed(s: Sub<Node>): Sub<Node> { Eval(Wrapped(s), JoinSub) }

  function Top(s: Sub<Node>): Node { if s.Tip? then s.value else TempNode }

  type Pieces = seq<(Sub<Node>, nat)>

  /** The layouts of the joined subtrees in a list, the last one first. */
  function Held(xs: Pieces): seq<Layout> {
    if xs == [] then []
    else Held(xs[1..]) + if xs[0].0.Fork? then [LayoutOf(xs[0].0, xs[0].1)] else []
  }

  function Tops(xs: Pieces): (r: seq<Node>)
    ensures |r| == |xs|
  {
    seq(|xs|, i requires 0 <= i < |xs| => Top(xs[i].0))
  }

  /** Joined subtrees are found only at depth `h`, and no tip is a placeholder. */
  predicate JoinedOnlyAt(xs: Pieces, h: nat) {
    forall i :: 0 <= i < |xs| ==> (xs[i].0.Fork? ==> xs[i].1 == h) && (xs[i].0.Tip? ==> !xs[i].0.value.TempNode?)
  }

  predicate NoTemps(s: Sub<Node>) {
    match s
    case Tip(x) => !x.TempNode?
    case Fork(l, r) => NoTemps(l) && NoTemps(r)
  }

  lemma {:induction false} CollapsedNoTemps(s: Sub<Node>)
    requires NoTemps(s)
    ensures NoTemps(Collapsed(s))
  {
    if s.Fork? {
      CollapsedNoTemps(s.left);
      CollapsedNoTemps(s.right);
    }
  }

  lemma {:induction false} CutJoinedOnlyAt(s: Sub<Node>, d: nat, h: nat)
    requires d <= h && NoTemps(s)
    ensures JoinedOnlyAt(Cut(Wrapped(s), d, h, JoinSub), h)
    decreases s
  {
    if s.Fork? {
      if d == h {
        CollapsedNoTemps(s);
      } else {
        CutJoinedOnlyAt(s.left, d + 1, h);
        CutJoinedOnlyAt(s.right, d + 1, h);
      }
    }
  }

  lemma {:induction false} HeldAppend(xs: Pieces, ys: Pieces)
    ensures Held(xs + ys) == Held(ys) + Held(xs)
  {
    if xs == [] {
      assert xs + ys == ys;
    } else {
      HeldAppend(xs[1..], ys);
      assert (xs + ys)[1..] == xs[1..] + ys;
    }
  }

  function PieceHeld(x: (Sub<Node>, nat)): seq<Layout> { if x.0.Fork? then [LayoutOf(x.0, x.1)] else [] }

  lemma HeldFirst(xs: Pieces, i: nat)
    requires i < |xs|
    ensures Held(xs[i..]) == Held(xs[i + 1..]) + PieceHeld(xs[i])
  {
    assert xs[i..][1..] == xs[i + 1..];
  }

  lemma HeldLast(ys: Pieces, y: (Sub<Node>, nat))
    ensures Held(ys + [y]) == PieceHeld(y) + Held(ys)
  {
    HeldAppend(ys, [y]);
    assert Held([y]) == Held([]) + PieceHeld(y);
  }

  /** The lists of a joined subtree are those of its halves. */
  lemma ForkLayout(a: Sub<Node>, b: Sub<Node>, d: nat)
    ensures LayoutOf(Fork(a, b), d).nodes == LayoutOf(a, d + 1).nodes + LayoutOf(b, d + 1).nodes
    ensures LayoutOf(Fork(a, b), d).structure == LayoutOf(a, d + 1).structure + LayoutOf(b, d + 1).structure
  {
  }

  /** Taking the lists of one node: from the holder when it is a placeholder, else the node itself. */
  method TakeLists(x: Node, depth: nat, tempHolder: seq<Layout>, ghost piece: Sub<Node>, ghost older: seq<Layout>)
    returns (layout: Layout, rest: seq<Layout>)
    requires x == Top(piece) && (piece.Tip? ==> !piece.value.TempNode?) && tempHolder == older + PieceHeld((piece, depth))
    ensures layout == LayoutOf(piece, depth) && rest == older
  {
    if x.TempNode? {
      return tempHolder[|tempHolder| - 1], tempHolder[..|tempHolder| - 1];
    }
    layout := Layout([x], [depth]);
    assert layout == LayoutOf(piece, depth);
    return layout, tempHolder;
  }

  /** One turn of the loop over a pair of nodes: the parent node and the new holder. */
  method JoinPair(x: Node, y: Node, depth: nat, tempHolder: seq<Layout>,
                  ghost a: Sub<Node>, ghost b: Sub<Node>, ghost newer: seq<Layout>) returns (parent: Node, holder: seq<Layout>)
    requires depth >= 1 && x == Top(a) && y == Top(b)
    requires (a.Tip? ==> !a.value.TempNode?) && (b.Tip? ==> !b.value.TempNode?)
    requires tempHolder == newer + (PieceHeld((b, depth)) + PieceHeld((a, depth)))
    ensures parent == Top(JoinSub(a, b)) && holder == PieceHeld((JoinSub(a, b), depth - 1)) + newer
  {
    hide LayoutOf, Flat, Eval, Hashes, HashOf;
    if x.EmptyNode? && y.EmptyNode? {
      return x, tempHolder;
    }
    if x.EmptyNode? && y.LeafNode? {
      return y, tempHolder;
    }
    if x.LeafNode? && y.EmptyNode? {
      return x, tempHolder;
    }
    var left, rest := TakeLists(x, depth, tempHolder, a, newer + PieceHeld((b, depth)));
    var right;
    right, rest := TakeLists(y, depth, rest, b, newer);
    ForkLayout(a, b, depth - 1);
    return TempNode, [Layout(left.nodes + right.nodes, left.structure + right.structure)] + rest;
  }

  /** calculateSubTree. `s` is the subtree before collapsing. */
  method CalculateSubTree(nodes: seq<Node>, structure: seq<nat>, height: nat, tempHolder: seq<Layout>, ghost s: Sub<Node>)
    returns (r: SubTree)
    requires NoTemps(s)
    requires
      var xs := Cut(Wrapped(s), 0, height, JoinSub);
      nodes == Tops(xs) && structure == Depths(xs) && tempHolder == Held(xs)
    requires height == 0 ==> s.Tip?
    ensures r == Record(Collapsed(s))
    decreases height
  {
    hide Flat, Held, Pass, Paired, Eval, JoinSub;
    ghost var xs := Cut(Wrapped(s), 0, height, JoinSub);
    if height == 0 {
      SingleTip(s);
      r := NewSubtreeFromData([0], nodes, s);
      return;
    }
    var nextNodes, nextStructure, holder := PassSubTree(nodes, structure, height, tempHolder, s);
    ghost var ys := Cut(Wrapped(s), 0, height - 1, JoinSub);
    if height == 1 {
      LastLayer(s);
      if nextNodes[0].TempNode? {
        r := NewSubtreeFromData(holder[0].structure, holder[0].nodes, Collapsed(s));
      } else {
        r := NewSubtreeFromData([0], nextNodes, Collapsed(s));
      }
      return;
    }
    r := CalculateSubTree(nextNodes, nextStructure, height - 1, holder, s);
  }

  lemma SingleTip(s: Sub<Node>)
    requires s.Tip?
    ensures Collapsed(s) == s && LayoutOf(s, 0) == Layout([s.value], [0])
    ensures Tops(Cut(Wrapped(s), 0, 0, JoinSub)) == [s.value]
  {
  }

  /** At the top nothing but the collapsed subtree is left. */
  lemma LastLayer(s: Sub<Node>)
    requires NoTemps(s)
    ensures
      var ys := Cut(Wrapped(s), 0, 0, JoinSub);
      var c := Collapsed(s);
      && Tops(ys) == [Top(c)] && (c.Tip? ==> !c.value.TempNode?) && Held(ys) == PieceHeld((c, 0))
      && (c.Tip? ==> LayoutOf(c, 0) == Layout([c.value], [0]))
  {
    CutAt(Wrapped(s), 0, JoinSub);
    CollapsedNoTemps(s);
    var ys := Cut(Wrapped(s), 0, 0, JoinSub);
    assert Held(ys) == Held(ys[1..]) + PieceHeld(ys[0]);
  }

  /** The loop of calculateSubTree over one layer. */
  method PassSubTree(nodes: seq<Node>, structure: seq<nat>, height: nat, tempHolder: seq<Layout>, ghost s: Sub<Node>)
    returns (nextNodes: seq<Node>, nextStructure: seq<nat>, holder: seq<Layout>)
    requires NoTemps(s) && height >= 1
    requires
      var xs := Cut(Wrapped(s), 0, height, JoinSub);
      nodes == Tops(xs) && structure == Depths(xs) && tempHolder == Held(xs)
    ensures
      var ys := Cut(Wrapped(s), 0, height - 1, JoinSub);
      nextNodes == Tops(ys) && nextStructure == Depths(ys) && holder == Held(ys)
  {
    hide Flat, Held, Pass, Paired, Eval, JoinSub, Cut, NoTemps, LayoutOf, PieceHeld;
    ghost var xs := Cut(Wrapped(s), 0, height, JoinSub);
    ghost var whole := Pass(xs, height, JoinSub);
    ghost var ys: Pieces := [];
    nextNodes, nextStructure, holder := [], [], tempHolder;
    PairedWhole(Wrapped(s), height, JoinSub);
    CutJoinedOnlyAt(s, 0, height);
    HeldNothing();
    assert xs[0..] == xs;
    var i := 0;
    while i < |nodes|
      invariant 0 <= i <= |xs| && Paired(xs[i..], height)
      invariant nextNodes == Tops(ys) && nextStructure == Depths(ys)
      invariant ys + Pass(xs[i..], height, JoinSub) == whole
      invariant holder == Held(ys) + Held(xs[i..])
    {
      PairedStep(xs, i, height);
      PassStep(xs, i, height, JoinSub);
      HeldFirst(xs, i);
      if structure[i] != height {
        HeldLast(ys, xs[i]);
        NothingHeld(xs[i]);
        nextNodes := nextNodes + [nodes[i]];
        nextStructure := nextStructure + [structure[i]];
        ys := ys + [xs[i]];
        i := i + 1;
      } else {
        HeldFirst(xs, i + 1);
        ghost var y := (JoinSub(xs[i].0, xs[i + 1].0), height - 1);
        HeldLast(ys, y);
        var parent;
        parent, holder := JoinPair(nodes[i], nodes[i + 1], height, holder, xs[i].0, xs[i + 1].0, Held(ys) + Held(xs[i + 2..]));
        nextNodes := nextNodes + [parent];
        nextStructure := nextStructure + [structure[i] - 1];
        ys := ys + [y];
        i := i + 2;
      }
    }
    assert xs[i..] == [];
    PassNothing(height, JoinSub);
    PassWhole(Wrapped(s), height, JoinSub);
    assert ys == Cut(Wrapped(s), 0, height - 1, JoinSub);
  }

  lemma HeldNothing()
    ensures Held([]) == []
  {
  }

  lemma NothingHeld(x: (Sub<Node>, nat))
    ensures x.0.Tip? ==> PieceHeld(x) == []
  {
  }
}
