/** Subtrees in the database: which subtree a hash stands for, its encoding, and what is stored
    (pkg/trie/smt/subtree.go, smt.go). */
module SmtStore {
  import opened Basics
  import opened SmtTree
  import opened SmtLayers
  import opened SmtSubtree

  // ---------------------------------------------------------------- the subtree of a term

  /** The part of a term from depth `d` of a subtree down to its lower edge, where branches become stubs. */
  function SubOf(t: Hash, d: nat): Sub<Node>
    requires d <= HEIGHT
    decreases HEIGHT - d
  {
    match t
    case Empty => Tip(EmptyNode)
    case Leaf(k, v) => Tip(LeafNode(k, v))
    case Branch(l, r) => if d == HEIGHT then Tip(StubNode(t)) else Fork(SubOf(l, d + 1), SubOf(r, d + 1))
  }

  lemma {:induction false} HashesOfSub(t: Hash, d: nat)
    requires d <= HEIGHT
    ensures Eval(Hashes(SubOf(t, d)), BranchOf) == t
    decreases HEIGHT - d
  {
    if t.Branch? && d < HEIGHT {
      HashesOfSub(t.left, d + 1);
      HashesOfSub(t.right, d + 1);
    }
  }

  /** The tips of a subtree part: stubs of branches only at the lower edge. */
  predicate TipsOk(s: Sub<Node>, d: nat) {
    match s
    case Tip(x) => d <= HEIGHT && !x.TempNode? && (x.StubNode? ==> d == HEIGHT && x.hash.Branch?)
    case Fork(l, r) => d < HEIGHT && TipsOk(l, d + 1) && TipsOk(r, d + 1)
  }

  /** The canonical term over the tips. */
  function Canon(s: Sub<Node>): Hash {
    match s
    case Tip(x) => HashOf(x)
    case Fork(l, r) => Join(Canon(l), Canon(r))
  }

  lemma {:induction false} TipsOkMeans(s: Sub<Node>, d: nat)
    requires TipsOk(s, d)
    ensures d + Depth(s) <= HEIGHT && NoTemps(s)
  {
    if s.Fork? {
      TipsOkMeans(s.left, d + 1);
      TipsOkMeans(s.right, d + 1);
    }
  }

  /** Collapsing gives the subtree of the canonical term. */
  lemma {:induction false} CollapsedIsSubOf(s: Sub<Node>, d: nat)
    requires TipsOk(s, d) && d <= HEIGHT
    ensures Collapsed(s) == SubOf(Canon(s), d)
  {
    if s.Fork? {
      CollapsedIsSubOf(s.left, d + 1);
      CollapsedIsSubOf(s.right, d + 1);
    }
  }

  lemma {:induction false} SubOfTipsOk(t: Hash, d: nat)
    requires d <= HEIGHT
    ensures TipsOk(SubOf(t, d), d)
    decreases HEIGHT - d
  {
    if t.Branch? && d < HEIGHT {
      SubOfTipsOk(t.left, d + 1);
      SubOfTipsOk(t.right, d + 1);
    }
  }

  /** The node that stands for a term at the lower edge of a subtree. */
  function EdgeNode(t: Hash): Node {
    match t
    case Empty => EmptyNode
    case Leaf(k, v) => LeafNode(k, v)
    case Branch(_, _) => StubNode(t)
  }

  // ---------------------------------------------------------------- encoding

  /** Encoded data in pieces: a byte, or a field of fixed length. */
  datatype Cell = ByteCell(b: nat) | KeyCell(key: Key) | ValueCell(value: Value) | HashCell(hash: Hash)

  type Data = seq<Cell>

  function NodeData(x: Node): Data {
    match x
    case LeafNode(k, v) => [ByteCell(0), KeyCell(k), ValueCell(v)]
    case StubNode(h) => [ByteCell(1), HashCell(h)]
    case EmptyNode => [ByteCell(2)]
    case TempNode => []
  }

  function AllNodeData(nodes: seq<Node>): Data {
    if nodes == [] then [] else NodeData(nodes[0]) + AllNodeData(nodes[1..])
  }

  function BytesOf(structure: seq<nat>): (r: Data)
    ensures |r| == |structure|
  {
    seq(|structure|, i requires 0 <= i < |structure| => ByteCell(structure[i]))
  }

  /** encode: the first byte holds the length of the structure minus one. */
  function Encoded(sub: SubTree): Data {
    [ByteCell((|sub.structure| + 255) % 256)] + (BytesOf(sub.structure) + AllNodeData(sub.nodes))
  }

  method Encode(sub: SubTree) returns (data: Data)
    ensures data == Encoded(sub)
  {
    data := [ByteCell((|sub.structure| + 255) % 256)] + BytesOf(sub.structure);
    ghost var all := Encoded(sub);
    assert data + AllNodeData(sub.nodes) == all;
    for i := 0 to |sub.nodes|
      invariant data + AllNodeData(sub.nodes[i..]) == all
    {
      ghost var before := data;
      assert sub.nodes[i..][1..] == sub.nodes[i + 1..];
      data := data + NodeData(sub.nodes[i]);
      assert before + (NodeData(sub.nodes[i]) + AllNodeData(sub.nodes[i + 1..])) == data + AllNodeData(sub.nodes[i + 1..]);
    }
  }

  /** The node at the front of the data and the number of cells it takes; None for any other prefix byte and
      for data that end too early. */
  function NodeAt(data: Data): (r: Option<(Node, nat)>)
    ensures r.Some? ==> 1 <= r.value.1 <= |data|
  {
    if data == [] || !data[0].ByteCell? then None
    else if data[0].b == 0 && |data| >= 3 && data[1].KeyCell? && data[2].ValueCell? then
      Some((LeafNode(data[1].key, data[2].value), 3))
    else if data[0].b == 1 && |data| >= 2 && data[1].HashCell? then Some((StubNode(data[1].hash), 2))
    else if data[0].b == 2 then Some((EmptyNode, 1))
    else None
  }

  function ParsedNodes(data: Data): Option<seq<Node>> {
    if data == [] then Some([])
    else
      var x := NodeAt(data);
      if x.None? then None
      else
        var rest := ParsedNodes(data[x.value.1..]);
        if rest.None? then None else Some([x.value.0] + rest.value)
  }

  lemma NodeAtInverts(x: Node, rest: Data)
    requires !x.TempNode?
    ensures NodeAt(NodeData(x) + rest) == Some((x, |NodeData(x)|)) && (NodeData(x) + rest)[|NodeData(x)|..] == rest
  {
  }

  lemma {:induction false} ParsedInverts(nodes: seq<Node>)
    requires forall i :: 0 <= i < |nodes| ==> !nodes[i].TempNode?
    ensures ParsedNodes(AllNodeData(nodes)) == Some(nodes)
  {
    hide NodeAt;
    if nodes != [] {
      NodeAtInverts(nodes[0], AllNodeData(nodes[1..]));
      ParsedInverts(nodes[1..]);
      NodeNotEmpty(nodes[0]);
      assert nodes == [nodes[0]] + nodes[1..];
    }
  }

  lemma NodeNotEmpty(x: Node)
    requires !x.TempNode?
    ensures |NodeData(x)| >= 1
  {
  }

  /** The loop of newSubTree over the node data; None for an invalid prefix. */
  method ParseNodes(data: Data) returns (r: Option<seq<Node>>)
    ensures r == ParsedNodes(data)
  {
    hide NodeAt;
    var nodes: seq<Node> := [];
    var idx := 0;
    ghost var all := ParsedNodes(data);
    assert data[0..] == data;
    assert all.Some? ==> [] + all.value == all.value;
    while idx < |data|
      invariant 0 <= idx <= |data|
      invariant all == Prefixed(nodes, ParsedNodes(data[idx..]))
      decreases |data| - idx
    {
      var x := NodeAt(data[idx..]);
      PrefixedStep(nodes, data[idx..]);
      if x.None? {
        return None;
      }
      assert data[idx..][x.value.1..] == data[idx + x.value.1..];
      nodes := nodes + [x.value.0];
      idx := idx + x.value.1;
    }
    assert nodes + [] == nodes;
    return Some(nodes);
  }

  function Prefixed(nodes: seq<Node>, r: Option<seq<Node>>): Option<seq<Node>> {
    if r.None? then None else Some(nodes + r.value)
  }

  lemma PrefixedStep(nodes: seq<Node>, data: Data)
    requires data != []
    ensures NodeAt(data).None? ==> Prefixed(nodes, ParsedNodes(data)).None?
    ensures NodeAt(data).Some? ==>
              Prefixed(nodes, ParsedNodes(data)) == Prefixed(nodes + [NodeAt(data).value.0], ParsedNodes(data[NodeAt(data).value.1..]))
  {
    hide NodeAt;
    if NodeAt(data).Some? {
      var x := NodeAt(data).value;
      var rest := ParsedNodes(data[x.1..]);
      if rest.Some? { assert nodes + ([x.0] + rest.value) == (nodes + [x.0]) + rest.value; }
    }
  }

  lemma {:induction false} FlatNoTemps(s: Sub<Node>, d: nat)
    requires NoTemps(s)
    ensures forall i :: 0 <= i < |Flat(s, d)| ==> !Flat(s, d)[i].0.TempNode?
  {
    if s.Fork? {
      FlatNoTemps(s.left, d + 1);
      FlatNoTemps(s.right, d + 1);
    }
  }

  lemma {:induction false} FlatSize(s: Sub<Node>, d: nat)
    requires d + Depth(s) <= HEIGHT
    ensures |Flat(s, d)| <= Pow2(HEIGHT - d)
  {
    if s.Fork? {
      FlatSize(s.left, d + 1);
      FlatSize(s.right, d + 1);
    }
  }

  /** newSubTree reads back what encode wrote. */
  method NewSubTree(data: Data, ghost s: Sub<Node>) returns (r: Option<SubTree>)
    requires data == Encoded(Record(s)) && NoTemps(s) && Depth(s) <= HEIGHT
    ensures r == Some(Record(s))
  {
    hide Flat, Eval, ParsedNodes, AllNodeData;
    FlatSize(s, 0);
    assert Pow2(8) == 256;
    FlatNoTemps(s, 0);
    if |data| == 0 {
      return None;
    }
    var nodeLength := data[0].b + 1;
    var structure := Structure(data, nodeLength, LayoutOf(s, 0));
    var nodes := ParseNodes(data[nodeLength + 1..]);
    ParsedInverts(LayoutOf(s, 0).nodes);
    if nodes.None? {
      return None;
    }
    var sub := NewSubtreeFromData(structure, nodes.value, s);
    return Some(sub);
  }

  /** The structure bytes. */
  method Structure(data: Data, nodeLength: nat, ghost layout: Layout) returns (structure: seq<nat>)
    requires |layout.structure| == nodeLength
    requires data == [ByteCell((nodeLength + 255) % 256)] + (BytesOf(layout.structure) + AllNodeData(layout.nodes))
    ensures structure == layout.structure && data[nodeLength + 1..] == AllNodeData(layout.nodes)
  {
    structure := [];
    for i := 0 to nodeLength
      invariant structure == layout.structure[..i]
    {
      structure := structure + [data[1 + i].b];
    }
  }

  /** A subtree with one node of each kind, cell by cell, as the tests of the encoding have it. */
  lemma EncodedExample(root: Hash, k: Key, v: Value, h: Hash)
    ensures Encoded(SubTree([1, 2, 2], root, [EmptyNode, LeafNode(k, v), StubNode(h)])) ==
            [ByteCell(2), ByteCell(1), ByteCell(2), ByteCell(2), ByteCell(2), ByteCell(0), KeyCell(k), ValueCell(v), ByteCell(1), HashCell(h)]
  {
    var nodes := [EmptyNode, LeafNode(k, v), StubNode(h)];
    assert nodes[1..] == [LeafNode(k, v), StubNode(h)] && nodes[1..][1..] == [StubNode(h)];
    assert [StubNode(h)][1..] == [];
    assert AllNodeData([StubNode(h)]) == NodeData(StubNode(h)) + AllNodeData([]);
    assert AllNodeData(nodes[1..]) == NodeData(LeafNode(k, v)) + AllNodeData([StubNode(h)]);
    assert AllNodeData(nodes) == NodeData(EmptyNode) + AllNodeData(nodes[1..]);
    assert (|[1, 2, 2]| + 255) % 256 == 2;
    assert BytesOf([1, 2, 2]) == [ByteCell(1), ByteCell(2), ByteCell(2)];
  }
}
