/** Node indexes: the numbers by which proofs name the nodes of a tree (pkg/trie/rmt/util.go). */
module RmtIndex {
  import opened Basics
  import opened RmtRoot
  import opened RmtTree
  import opened RmtLayers

  // ---------------------------------------------------------------- encoding

  /** Number of binary digits. */
  function Digits(n: nat): (d: nat)
    ensures d >= 1 && n < Pow2(d) && (n >= 1 ==> Pow2(d - 1) <= n)
  {
    if n <= 1 then 1 else 1 + Digits(n / 2)
  }

  /** Parsing is limited to 32-bit signed numbers. */
  const LIMIT: nat := 0x8000_0000

  /** nodeLocation.index: a leading one, then the node index padded to the depth of its layer. */
  function EncodeIndex(loc: Location, height: nat): Option<nat> {
    if loc.layer >= height then None
    else
      var d := if Digits(loc.index) < height - loc.layer then height - loc.layer else Digits(loc.index);
      if Pow2(d) + loc.index >= LIMIT then None else Some(Pow2(d) + loc.index)
  }

  /** From here on an index is a negative number when it is formatted as a signed one. */
  const SIGN: nat := 0x8000_0000_0000_0000

  /** newNodeLocation. */
  function DecodeIndex(index: nat, height: nat): Option<Location> {
    var d := Digits(index) - 1;
    if d == 0 || height < d || index - Pow2(d) >= LIMIT || index >= SIGN then None
    else Some(Location(height - d, index - Pow2(d)))
  }

  lemma {:induction false} DigitsUnique(n: nat, d: nat)
    requires d >= 1 && Pow2(d - 1) <= n < Pow2(d)
    ensures Digits(n) == d
  {
    var e := Digits(n);
    if e < d { Pow2Monotone(e, d - 1); } else if e > d { Pow2Monotone(d, e - 1); }
  }

  lemma DigitsOfZero()
    ensures Digits(0) == 1
  {
  }

  lemma PowNext(d: nat)
    ensures Pow2(d + 1) == 2 * Pow2(d)
  {
  }

  /** The index of a location inside the layers decodes back to it. */
  lemma IndexRoundTrip(loc: Location, height: nat)
    requires loc.layer < height && loc.index < Pow2(height - loc.layer)
    ensures EncodeIndex(loc, height).Some? <==> Pow2(height - loc.layer) + loc.index < LIMIT
    ensures EncodeIndex(loc, height).Some? ==>
              && EncodeIndex(loc, height).value == Pow2(height - loc.layer) + loc.index
              && DecodeIndex(EncodeIndex(loc, height).value, height) == Some(loc)
  {
    hide Pow2, Digits;
    var d := height - loc.layer;
    if Digits(loc.index) > d { Pow2Monotone(d, Digits(loc.index) - 1); DigitsOfZero(); }
    PowNext(d);
    DigitsUnique(Pow2(d) + loc.index, d + 1);
  }

  lemma DigitsHalf(n: nat)
    requires n >= 2
    ensures Digits(n) == 1 + Digits(n / 2)
  {
  }

  lemma ParentInside(n: nat, i: nat, layer: nat)
    requires Start(i, layer) < n
    ensures Start(i / 2, layer + 1) < n
  {
    StartDouble(i / 2, layer);
    StartMonotone(2 * (i / 2), i, layer);
  }

  lemma InsideLayer(n: nat, i: nat, layer: nat)
    requires n >= 1 && Start(i, layer) < n && layer < HeightOf(n)
    ensures i < Pow2(HeightOf(n) - 1 - layer)
  {
    var d := HeightOf(n) - 1 - layer;
    PowSum(d, layer);
    if i >= Pow2(d) { StartMonotone(Pow2(d), i, layer); }
  }

  lemma {:induction false} PowSum(a: nat, b: nat)
    ensures Start(Pow2(a), b) == Pow2(a + b)
    decreases b
  {
    hide Start, Pow2;
    if b == 0 {
      StartZero(Pow2(a));
    } else {
      StartDouble(Pow2(a), b - 1);
      PowNext(a);
      PowSum(a + 1, b - 1);
    }
  }

  /** A node and its sibling, joined in the order of the index, give the parent node. */
  lemma JoinSibling(values: seq<Value>, i: nat, layer: nat)
    requires Start(i, layer) < |values|
    ensures Start(i / 2, layer + 1) < |values|
    ensures
      var parent := (ParentInside(|values|, i, layer); Node(values, i / 2, layer + 1));
      if Start(Sibling(i), layer) < |values|
      then parent == if i % 2 == 0 then Branch(Node(values, i, layer), Node(values, Sibling(i), layer))
                     else Branch(Node(values, Sibling(i), layer), Node(values, i, layer))
      else parent == Node(values, i, layer) && i % 2 == 0
  {
    ParentInside(|values|, i, layer);
    StartDouble(i / 2, layer);
    NodeSplit(values, i / 2, layer);
    if i % 2 == 1 { StartMonotone(i - 1, i, layer); }
  }

  /** Every location that holds leaves of a tree of at most 30 layers has an index. */
  lemma InsideHasIndex(size: nat, i: nat, layer: nat)
    requires size >= 1 && Start(i, layer) < size && layer < HeightOf(size) <= 30
    ensures
      var index := Pow2(HeightOf(size) - layer) + i;
      EncodeIndex(Location(layer, i), HeightOf(size)) == Some(index) && DecodeIndex(index, HeightOf(size)) == Some(Location(layer, i))
  {
    hide HeightOf, Start, EncodeIndex, DecodeIndex;
    InsideLayer(size, i, layer);
    IndexBelowLimit(HeightOf(size), layer, i);
    IndexRoundTrip(Location(layer, i), HeightOf(size));
  }

  lemma IndexBelowLimit(height: nat, layer: nat, i: nat)
    requires layer < height <= 30 && i < Pow2(height - 1 - layer)
    ensures i < Pow2(height - layer) && Pow2(height - layer) + i < LIMIT
  {
    hide Pow2;
    Pow2Monotone(height - layer, 30);
    PowNext(height - 1 - layer);
    PowThirty();
  }

  lemma TopOfTree(values: seq<Value>, i: nat, layer: nat)
    requires |values| >= 1 && Start(i, layer) < |values| && layer + 1 == HeightOf(|values|)
    ensures i == 0 && Pow2(1) + i == 2 && Node(values, i, layer) == Root(values)
  {
    InsideLayer(|values|, i, layer);
    NodeIsRoot(values, layer);
  }

  lemma LeafHasIndex(size: nat, i: nat)
    requires i < size
    ensures Start(i, 0) < size
    ensures EncodeIndex(Location(0, i), HeightOf(size)).Some? <==> HeightOf(size) <= 30
    ensures HeightOf(size) <= 30 ==>
              && EncodeIndex(Location(0, i), HeightOf(size)) == Some(Pow2(HeightOf(size)) + i)
              && DecodeIndex(Pow2(HeightOf(size)) + i, HeightOf(size)) == Some(Location(0, i))
  {
    hide Start, HeightOf, DecodeIndex, EncodeIndex, Pow2;
    StartZero(i);
    var height := HeightOf(size);
    if height <= 30 {
      InsideHasIndex(size, i, 0);
    } else {
      LimitIsPow31();
      Pow2Monotone(31, height);
      InsideLayer(size, i, 0);
      Pow2Monotone(height - 1, height);
      IndexRoundTrip(Location(0, i), height);
    }
  }

  lemma LimitIsPow31()
    ensures Pow2(31) == LIMIT
  {
    PowThirty();
    PowNext(30);
  }

  lemma LeafIsNode(values: seq<Value>, i: nat)
    requires i < |values|
    ensures Start(i, 0) <= |values| && Node(values, i, 0) == Leaf(values[i])
  {
    StartZero(i);
    assert values[i..i + 1] == [values[i]];
  }

  // ---------------------------------------------------------------- the tree by indexes

  /** The location an index stands for. */
  function LocOf(n: nat, x: nat): Location
    requires n >= 1 && x >= 2 && Digits(x) <= HeightOf(n) + 1
  {
    Location(HeightOf(n) + 1 - Digits(x), x - Pow2(Digits(x) - 1))
  }

  /** The location of the index holds leaves of a tree of `n` leaves. */
  predicate Inside(n: nat, x: nat) {
    && n >= 1 && x >= 2 && Digits(x) <= HeightOf(n) + 1
    && Start(LocOf(n, x).index, LocOf(n, x).layer) < n
  }

  /** The location of the index is a node of its own. */
  predicate NodeAt(n: nat, x: nat)
    requires Inside(n, x)
  {
    IsNode(n, LocOf(n, x).index, LocOf(n, x).layer)
  }

  function HashAt(values: seq<Value>, x: nat): Hash
    requires Inside(|values|, x)
  {
    Node(values, LocOf(|values|, x).index, LocOf(|values|, x).layer)
  }

  /** The index beside. */
  function Mate(x: nat): nat { if x % 2 == 0 then x + 1 else x - 1 }

  /** The index of a location inside, both ways. */
  lemma Named(n: nat, x: nat)
    requires Inside(n, x) && HeightOf(n) <= 30
    ensures DecodeIndex(x, HeightOf(n)) == Some(LocOf(n, x)) && EncodeIndex(LocOf(n, x), HeightOf(n)) == Some(x)
    ensures LocOf(n, x).layer < HeightOf(n)
  {
    hide HeightOf, Start, EncodeIndex, DecodeIndex, Pow2, Digits;
    DigitsAtLeastTwo(x);
    var loc := LocOf(n, x);
    InsideHasIndex(n, loc.index, loc.layer);
  }

  lemma DigitsAtLeastTwo(x: nat)
    requires x >= 2
    ensures Digits(x) >= 2
  {
  }

  /** Index 2 is the root, and 3 is never inside. */
  lemma TopIndex(values: seq<Value>)
    requires |values| >= 1
    ensures Inside(|values|, 2) && NodeAt(|values|, 2) && HashAt(values, 2) == Root(values)
    ensures !Inside(|values|, 3)
  {
    hide HeightOf, Node, Root;
    var n := |values|;
    DigitsUnique(2, 2);
    DigitsUnique(3, 2);
    TopOfTree(values, 0, HeightOf(n) - 1);
    TopIsNode(n);
    if Inside(n, 3) { InsideLayer(n, 1, HeightOf(n) - 1); }
  }

  lemma TopIsNode(n: nat)
    requires n >= 1
    ensures Start(0, HeightOf(n) - 1) == 0 && IsNode(n, 0, HeightOf(n) - 1)
  {
  }

  lemma HalvedIndex(x: nat)
    requires x >= 4
    ensures Digits(x) == 1 + Digits(x / 2) && Digits(x / 2) >= 2 && Pow2(Digits(x) - 1) == 2 * Pow2(Digits(x / 2) - 1)
    ensures (x - Pow2(Digits(x) - 1)) / 2 == x / 2 - Pow2(Digits(x / 2) - 1) && (x - Pow2(Digits(x) - 1)) % 2 == x % 2
  {
    hide Digits, Pow2;
    DigitsHalf(x);
    DigitsAtLeastTwo(x / 2);
    PowNext(Digits(x) - 2);
  }

  /** Going to the parent halves the index. */
  lemma ParentOf(n: nat, x: nat)
    requires Inside(n, x) && x != 2
    ensures x >= 4 && Inside(n, x / 2) && Digits(x) == 1 + Digits(x / 2)
    ensures LocOf(n, x / 2) == Location(LocOf(n, x).layer + 1, LocOf(n, x).index / 2) && x % 2 == LocOf(n, x).index % 2
  {
    hide HeightOf, Start, Digits, Pow2, NodeAt;
    TopIndex(seq(n, _ => []));
    HalvedIndex(x);
    ParentInside(n, LocOf(n, x).index, LocOf(n, x).layer);
  }

  lemma NotNodeHasLayer(n: nat, i: nat, layer: nat)
    requires Start(i, layer) < n && !IsNode(n, i, layer)
    ensures layer >= 1
  {
    StartZero(i);
  }

  /** The left child doubles it. */
  lemma LeftOf(n: nat, x: nat)
    requires Inside(n, x) && !NodeAt(n, x)
    ensures Inside(n, 2 * x) && Digits(2 * x) == 1 + Digits(x) && LocOf(n, x).layer >= 1
    ensures LocOf(n, 2 * x) == Location(LocOf(n, x).layer - 1, 2 * LocOf(n, x).index)
  {
    hide HeightOf, Digits, Pow2, Start;
    var loc := LocOf(n, x);
    NotNodeHasLayer(n, loc.index, loc.layer);
    HalvedIndex(2 * x);
    StartDouble(loc.index, loc.layer - 1);
  }

  lemma MateOf(n: nat, x: nat)
    requires Inside(n, x) && x != 2
    ensures Mate(x) >= 4 && Mate(x) / 2 == x / 2 && Mate(Mate(x)) == x && Digits(Mate(x)) == Digits(x)
    ensures Digits(x) <= HeightOf(n) + 1 && LocOf(n, Mate(x)) == Location(LocOf(n, x).layer, Sibling(LocOf(n, x).index))
    ensures Inside(n, Mate(x)) <==> Start(Sibling(LocOf(n, x).index), LocOf(n, x).layer) < n
  {
    hide HeightOf, Start, Digits, Pow2;
    ParentOf(n, x);
    DigitsHalf(Mate(x));
    PowNext(Digits(x) - 2);
  }

  /** Where the subtree of an index is stored. */
  function Stored(n: nat, x: nat): (r: nat)
    requires Inside(n, x)
    ensures Inside(n, r) && NodeAt(n, r)
    decreases LocOf(n, x).layer
  {
    if NodeAt(n, x) then x else (LeftOf(n, x); Stored(n, 2 * x))
  }

  lemma {:induction false} StoredIsResolved(values: seq<Value>, x: nat)
    requires Inside(|values|, x)
    ensures Resolve(|values|, LocOf(|values|, x).index, LocOf(|values|, x).layer) == Some(LocOf(|values|, Stored(|values|, x)))
    ensures HashAt(values, Stored(|values|, x)) == HashAt(values, x)
    decreases LocOf(|values|, x).layer
  {
    hide HeightOf, Start, Digits, Pow2, Node, IsNode;
    var n, loc := |values|, LocOf(|values|, x);
    if !NodeAt(n, x) {
      LeftOf(n, x);
      StoredIsResolved(values, 2 * x);
      NodeSplit(values, loc.index, loc.layer - 1);
    }
  }

  /** An index and its mate make up the parent; without a mate the parent stands for the index alone. */
  lemma Joined(values: seq<Value>, x: nat)
    requires Inside(|values|, x) && x != 2
    ensures Inside(|values|, x / 2)
    ensures Inside(|values|, Mate(x)) ==>
              && NodeAt(|values|, x / 2)
              && HashAt(values, x / 2) == if x % 2 == 0 then Branch(HashAt(values, x), HashAt(values, Mate(x)))
                                          else Branch(HashAt(values, Mate(x)), HashAt(values, x))
    ensures !Inside(|values|, Mate(x)) ==>
              && x % 2 == 0 && !NodeAt(|values|, x / 2) && HashAt(values, x / 2) == HashAt(values, x)
              && Stored(|values|, x / 2) == Stored(|values|, x)
  {
    hide HeightOf, Start, Digits, Pow2, Node;
    var n, loc := |values|, LocOf(|values|, x);
    ParentOf(n, x);
    MateOf(n, x);
    JoinSibling(values, loc.index, loc.layer);
    ParentIsNode(n, loc.index, loc.layer);
  }

  lemma ParentIsNode(n: nat, i: nat, layer: nat)
    requires Start(i, layer) < n
    ensures IsNode(n, i / 2, layer + 1) <==> Start(Sibling(i), layer) < n
  {
    StartDouble(i / 2, layer);
    if i % 2 == 1 { StartMonotone(i - 1, i, layer); }
  }
}
