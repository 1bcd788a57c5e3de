/** Updating the sparse Merkle trie (pkg/trie/smt/smt.go). */
module SmtUpdate {
  import opened Basics
  import opened SmtTree
  import opened SmtLayers
  import opened SmtSubtree
  import opened SmtStore
  import opened SmtBins
  import opened SmtPresence
  import opened SmtAssembly

  class Db {
    var data: Table

    constructor ()
      ensures data == map[]
    {
      data := map[];
    }

    method Set(key: Hash, value: Data)
      modifies this
      ensures data == old(data)[key := value]
    {
      data := data[key := value];
    }

    method Del(key: Hash)
      modifies this
      ensures data == old(data) - {key}
    {
      data := data - {key};
    }
  }

  // ---------------------------------------------------------------- single requests

  lemma {:induction false} SingleIntoEmpty(k: Key, v: Value, p: Bits, n: nat)
    requires Below(p, n, k) && |p| <= n
    ensures AllBelow(p, n, map[k := v])
    ensures Updated(Empty, map[k := v], p, n) == if v == [] then Empty else Leaf(k, v)
    decreases n - |p|
  {
    var us := map[k := v];
    assert us.Keys == {k};
    if |p| < n {
      BelowEither(p, n, k);
      SplitSingle(k, v, p, n);
      SingleIntoEmpty(k, v, p + [k[|p|]], n);
    }
  }

  /** One request goes to the side of its key. */
  lemma SplitSingle(k: Key, v: Value, p: Bits, n: nat)
    requires Below(p, n, k) && |p| < n
    ensures Half(map[k := v], p, k[|p|]) == map[k := v] && Half(map[k := v], p, !k[|p|]) == map[]
  {
    BelowEither(p, n, k);
  }

  lemma {:induction false} SingleOverLeaf(k: Key, w: Value, v: Value, p: Bits, n: nat)
    requires Below(p, n, k) && |p| <= n
    ensures AllBelow(p, n, map[k := v])
    ensures Updated(Leaf(k, w), map[k := v], p, n) == if v == [] then Empty else Leaf(k, v)
    decreases n - |p|
  {
    var us := map[k := v];
    assert us.Keys == {k};
    if |p| < n {
      BelowEither(p, n, k);
      SplitSingle(k, v, p, n);
      SingleOverLeaf(k, w, v, p + [k[|p|]], n);
    }
  }

  // ---------------------------------------------------------------- one node

  ghost predicate NodeReady(m: Table, bins: seq<seq<Request>>, current: Node, height: nat, d: nat, n: nat, p: Bits, us: Entries) {
    && Coherent(m) && d <= HEIGHT && |p| == height + d <= n && height % 8 == 0 && n % 8 == 0
    && BinsFor(bins, us, n, |p|, HEIGHT - d) && AllBelow(p, n, us)
    && TipsOk(Tip(current), d) && Canonical(HashOf(current), p, n) && Present(m, HashOf(current), d)
  }

  ghost predicate NodeDone(before: Table, after: Table, current: Node, d: nat, n: nat, p: Bits, us: Entries, s: Sub<Node>)
    requires AllBelow(p, n, us) && |p| <= n
  {
    && d <= HEIGHT && Coherent(after) && Frame(before, after, p)
    && TipsOk(s, d) && Canon(s) == Updated(HashOf(current), us, p, n) && Present(after, Canon(s), d)
  }

  lemma ReadyMeans(m: Table, bins: seq<seq<Request>>, current: Node, height: nat, d: nat, n: nat, p: Bits, us: Entries)
    requires NodeReady(m, bins, current, height, d, n, p, us)
    ensures AllBelow(p, n, us) && |p| <= n && d <= HEIGHT && |p| == height + d
    ensures Total(bins) == 0 <==> us == map[]
  {
    NoRequests(bins, us, n, |p|, HEIGHT - d);
  }

  lemma Unchanged(m: Table, bins: seq<seq<Request>>, current: Node, height: nat, d: nat, n: nat, p: Bits, us: Entries)
    requires NodeReady(m, bins, current, height, d, n, p, us) && us == map[]
    ensures NodeDone(m, m, current, d, n, p, us, Tip(current))
  {
  }

  /** A lone request for an empty place or for the key of the leaf. */
  lemma Replaced(m: Table, bins: seq<seq<Request>>, current: Node, height: nat, d: nat, n: nat, p: Bits, us: Entries, i: nat)
    requires NodeReady(m, bins, current, height, d, n, p, us) && OnlyBin(bins, i)
    requires current.EmptyNode? || (current.LeafNode? && current.key == bins[i][0].key)
    ensures
      var x := bins[i][0];
      NodeDone(m, m, current, d, n, p, us, Tip(if x.value == [] then EmptyNode else LeafNode(x.key, x.value)))
  {
    OneRequest(bins, us, n, |p|, HEIGHT - d, i);
    var x := bins[i][0];
    assert x.key in us;
    if current.EmptyNode? { SingleIntoEmpty(x.key, x.value, p, n); } else { SingleOverLeaf(x.key, current.value, x.value, p, n); }
  }

  /** The node on one side when a node above the lower edge is split. */
  function SideNode(current: Node, d: nat, b: bool): Node {
    if current.LeafNode? && d < |current.key| && current.key[d] == b then current else EmptyNode
  }

  /** Both sides can be updated on their own. */
  lemma SidesReady(m: Table, bins: seq<seq<Request>>, current: Node, height: nat, d: nat, n: nat, p: Bits, us: Entries, b: bool)
    requires NodeReady(m, bins, current, height, d, n, p, us) && d < HEIGHT && height + HEIGHT <= n
    ensures |bins| == 2 * Pow2(HEIGHT - d - 1)
    ensures NodeReady(m, if b then bins[|bins| / 2..] else bins[..|bins| / 2], SideNode(current, |p|, b), height, d + 1, n, p + [b], Half(us, p, b))
  {
    hide Pow2, BinsFor, Coherent;
    SplitBins(bins, us, p, n, HEIGHT - d);
    HalvesBelow(us, p, n, b);
    if current.LeafNode? { BelowEither(p, n, current.key); }
  }

  lemma SplitDone(before: Table, mid: Table, after: Table, bins: seq<seq<Request>>, current: Node, height: nat, d: nat, n: nat, p: Bits, us: Entries,
                  l: Sub<Node>, r: Sub<Node>)
    requires NodeReady(before, bins, current, height, d, n, p, us) && d < HEIGHT && |p| < n && us != map[]
    requires AllBelow(p + [false], n, Half(us, p, false)) && AllBelow(p + [true], n, Half(us, p, true))
    requires NodeDone(before, mid, SideNode(current, |p|, false), d + 1, n, p + [false], Half(us, p, false), l)
    requires NodeDone(mid, after, SideNode(current, |p|, true), d + 1, n, p + [true], Half(us, p, true), r)
    ensures NodeDone(before, after, current, d, n, p, us, Fork(l, r))
  {
    hide BinsFor, Coherent, Updated, TipsOk, Frame, Present;
    SideIsChild(current, p, d, n);
    JoinUpdated(HashOf(current), us, p, n);
    SideCanonical(current, p, n, false);
    UpdatedCanonical(HashOf(SideNode(current, |p|, false)), Half(us, p, false), p + [false], n);
    PathsPart(p);
    PresentFrame(mid, after, Canon(l), d + 1, p + [false], p + [true], n);
    PresentJoin(after, Canon(l), Canon(r), d);
    ForkTipsOk(l, r, d);
    FrameWider(before, mid, p, p + [false]);
    FrameWider(mid, after, p, p + [true]);
    FrameTransitive(before, mid, after, p);
  }

  lemma SideIsChild(current: Node, p: Bits, d: nat, n: nat)
    requires d < HEIGHT && TipsOk(Tip(current), d)
    ensures HashOf(SideNode(current, |p|, false)) == Child(HashOf(current), |p|, false)
    ensures HashOf(SideNode(current, |p|, true)) == Child(HashOf(current), |p|, true)
  {
  }

  lemma SideCanonical(current: Node, p: Bits, n: nat, b: bool)
    requires Canonical(HashOf(current), p, n) && |p| < n
    ensures Canonical(HashOf(SideNode(current, |p|, b)), p + [b], n)
  {
    if current.LeafNode? { BelowEither(p, n, current.key); }
  }

  lemma JoinUpdated(t: Hash, us: Entries, p: Bits, n: nat)
    requires AllBelow(p, n, us) && |p| < n && us != map[]
    ensures AllBelow(p + [false], n, Half(us, p, false)) && AllBelow(p + [true], n, Half(us, p, true))
    ensures Updated(t, us, p, n) ==
            Join(Updated(Child(t, |p|, false), Half(us, p, false), p + [false], n), Updated(Child(t, |p|, true), Half(us, p, true), p + [true], n))
  {
    HalvesBelow(us, p, n, false);
    HalvesBelow(us, p, n, true);
  }

  lemma PathsPart(p: Bits)
    ensures Diverge(p + [false], p + [true])
  {
    assert (p + [false])[|p|] != (p + [true])[|p|];
  }

  // ---------------------------------------------------------------- the lower edge

  ghost predicate SubReady(m: Table, list: seq<Request>, height: nat, n: nat, t: Hash, p: Bits, us: Entries) {
    && Coherent(m) && ListOf(list, us, n) && AllBelow(p, n, us)
    && |p| == height < n && height % 8 == 0 && n % 8 == 0
    && Canonical(t, p, n) && Present(m, t, 0)
  }

  ghost predicate SubDone(before: Table, after: Table, t: Hash, n: nat, p: Bits, us: Entries)
    requires AllBelow(p, n, us) && |p| <= n
  {
    var now := Updated(t, us, p, n);
    Coherent(after) && Frame(before, after, p) && Present(after, now, 0) && (us != map[] ==> now in after)
  }

  /** A full path is settled before the lower edge is crossed. */
  lemma NotFull(m: Table, bins: seq<seq<Request>>, current: Node, height: nat, n: nat, p: Bits, us: Entries)
    requires NodeReady(m, bins, current, height, HEIGHT, n, p, us) && us != map[]
    requires Total(bins) == 1 ==> !current.EmptyNode? && !(current.LeafNode? && exists i :: OnlyBin(bins, i) && bins[i][0].key == current.key)
    ensures |p| < n
  {
    NoRequests(bins, us, n, |p|, 0);
    if |p| == n {
      FullPath(bins, us, p, n);
      TotalOne(bins);
      var i :| OnlyBin(bins, i);
      OneRequest(bins, us, n, |p|, 0, i);
      assert bins[i][0].key in us;
      if current.LeafNode? { SameKey(p, n, current.key, bins[i][0].key); }
      assert false;
    }
  }

  /** The term at the lower edge can be updated as a subtree of its own. */
  lemma LowerReady(m: Table, bins: seq<seq<Request>>, current: Node, height: nat, n: nat, p: Bits, us: Entries)
    requires NodeReady(m, bins, current, height, HEIGHT, n, p, us) && |p| < n
    ensures |bins| == 1
    ensures current.StubNode? ==> HashOf(current) in m
    ensures SubReady(if current.StubNode? then m - {HashOf(current)} else m, bins[0], height + HEIGHT, n, HashOf(current), p, us)
  {
    hide Coherent, BinsFor, ListOf;
    LastBin(bins, us, n, |p|);
    if current.StubNode? {
      StubDeleted(m, HashOf(current));
      CoherentLess(m, HashOf(current));
    }
  }

  lemma CoherentLess(m: Table, t: Hash)
    requires Coherent(m)
    ensures Coherent(m - {t})
  {
  }

  lemma EdgeDone(before: Table, mid: Table, after: Table, bins: seq<seq<Request>>, current: Node, height: nat, n: nat, p: Bits, us: Entries)
    requires NodeReady(before, bins, current, height, HEIGHT, n, p, us) && us != map[] && |p| < n
    requires mid == if current.StubNode? then before - {HashOf(current)} else before
    requires SubDone(mid, after, HashOf(current), n, p, us)
    ensures NodeDone(before, after, current, HEIGHT, n, p, us, Tip(EdgeNode(Updated(HashOf(current), us, p, n))))
  {
    hide Coherent, BinsFor, Updated;
    CanonicalUnder(HashOf(current), p, n, p);
    assert Frame(before, mid, p);
    FrameTransitive(before, mid, after, p);
  }

  /** A subtree of one node is that node. */
  lemma RecordOfTip(t: Hash)
    ensures |Record(SubOf(t, 0)).nodes| == 1 <==> !t.Branch?
    ensures !t.Branch? ==> Record(SubOf(t, 0)) == SubTree([0], t, [EdgeNode(t)])
    ensures Record(SubOf(t, 0)).root == t
  {
    HashesOfSub(t, 0);
    if t.Branch? { TwoAtLeast(SubOf(t.left, 1), SubOf(t.right, 1)); }
  }

  lemma TwoAtLeast(l: Sub<Node>, r: Sub<Node>)
    ensures |Flat(Fork(l, r), 0)| >= 2
  {
  }

  /** getSubtree; None when the hash is not stored. */
  method GetSubtree(db: Db, hash: Hash) returns (r: Option<SubTree>)
    requires Coherent(db.data)
    ensures r == if hash == Empty || hash in db.data then Some(Record(SubOf(hash, 0))) else None
  {
    hide Record, Encoded;
    if hash == Empty {
      RecordOfTip(hash);
      return Some(SubTree([0], Empty, [EmptyNode]));
    }
    if hash !in db.data {
      return None;
    }
    SubOfTipsOk(hash, 0);
    TipsOkMeans(SubOf(hash, 0), 0);
    r := NewSubTree(db.data[hash], SubOf(hash, 0));
  }

  // ---------------------------------------------------------------- updateNode and updateSubtree

  /** The first bin that is not empty. */
  method FirstFilled(bins: seq<seq<Request>>) returns (index: nat)
    requires Total(bins) == 1
    ensures OnlyBin(bins, index)
  {
    TotalOne(bins);
    ghost var i :| OnlyBin(bins, i);
    index := 0;
    while |bins[index]| == 0
      invariant index <= i
      decreases |bins| - index
    {
      index := index + 1;
    }
  }

  method CountAll(bins: seq<seq<Request>>) returns (total: nat)
    ensures total == Total(bins)
  {
    total := 0;
    assert bins[0..] == bins;
    for i := 0 to |bins|
      invariant total + Total(bins[i..]) == Total(bins)
    {
      assert bins[i..][1..] == bins[i + 1..];
      total := total + |bins[i]|;
    }
  }

  /** updateNode. */
  method UpdateNode(db: Db, bins: seq<seq<Request>>, current: Node, height: nat, structurePos: nat, n: nat, ghost p: Bits, ghost us: Entries)
    returns (r: Option<Layout>, ghost s: Sub<Node>)
    requires NodeReady(db.data, bins, current, height, structurePos, n, p, us) && height + HEIGHT <= n
    modifies db
    ensures AllBelow(p, n, us) && |p| <= n
    ensures r == Some(LayoutOf(s, structurePos)) && NodeDone(old(db.data), db.data, current, structurePos, n, p, us, s)
    decreases n - height, 2 * (10 - structurePos)
  {
    hide NodeReady, NodeDone, LayoutOf, Total, OnlyBin, AllBelow, SubReady, SubDone;
    ReadyMeans(db.data, bins, current, height, structurePos, n, p, us);
    s := Tip(current);
    var totalData := CountAll(bins);
    if totalData == 0 {
      Unchanged(db.data, bins, current, height, structurePos, n, p, us);
      OneNode(current, structurePos);
      return Some(Layout([current], [structurePos])), s;
    }
    if totalData == 1 {
      var index := FirstFilled(bins);
      OnlyBinMeans(bins, index);
      if current.EmptyNode? || (current.LeafNode? && current.key == bins[index][0].key) {
        var x := bins[index][0];
        var replaced := if x.value == [] then EmptyNode else LeafNode(x.key, x.value);
        Replaced(db.data, bins, current, height, structurePos, n, p, us, index);
        s := Tip(replaced);
        OneNode(replaced, structurePos);
        return Some(Layout([replaced], [structurePos])), s;
      }
      NotThisLeaf(bins, index, current);
    }
    if structurePos == HEIGHT {
      r, s := UpdateEdge(db, bins, current, height, n, p, us);
      return;
    }
    r, s := UpdateSides(db, bins, current, height, structurePos, n, p, us);
  }

  lemma OneNode(x: Node, d: nat)
    ensures LayoutOf(Tip(x), d) == Layout([x], [d])
  {
  }

  lemma OnlyBinMeans(bins: seq<seq<Request>>, i: nat)
    requires OnlyBin(bins, i)
    ensures i < |bins| && |bins[i]| == 1
  {
  }

  lemma NotThisLeaf(bins: seq<seq<Request>>, index: nat, current: Node)
    requires OnlyBin(bins, index) && !current.EmptyNode? && !(current.LeafNode? && current.key == bins[index][0].key)
    ensures !(current.LeafNode? && exists i :: OnlyBin(bins, i) && bins[i][0].key == current.key)
  {
    forall i | OnlyBin(bins, i) ensures i == index {}
  }

  /** updateNode at the lower edge of a subtree. */
  method UpdateEdge(db: Db, bins: seq<seq<Request>>, current: Node, height: nat, n: nat, ghost p: Bits, ghost us: Entries)
    returns (r: Option<Layout>, ghost s: Sub<Node>)
    requires NodeReady(db.data, bins, current, height, HEIGHT, n, p, us) && height + HEIGHT <= n && us != map[]
    requires Total(bins) == 1 ==> !current.EmptyNode? && !(current.LeafNode? && exists i :: OnlyBin(bins, i) && bins[i][0].key == current.key)
    modifies db
    ensures AllBelow(p, n, us) && |p| <= n
    ensures r == Some(LayoutOf(s, HEIGHT)) && NodeDone(old(db.data), db.data, current, HEIGHT, n, p, us, s)
    decreases n - height, 1
  {
    hide NodeReady, NodeDone, LayoutOf, Total, OnlyBin, AllBelow, SubReady, SubDone, Record, Updated, Coherent;
    ReadyMeans(db.data, bins, current, height, HEIGHT, n, p, us);
    NotFull(db.data, bins, current, height, n, p, us);
    LowerReady(db.data, bins, current, height, n, p, us);
    NodeKinds(db.data, bins, current, height, n, p, us);
    s := Tip(current);
    var bottom: SubTree;
    match current {
      case StubNode(hash) =>
        var sub := GetSubtree(db, hash);
        if sub.None? {
          return None, s;
        }
        bottom := sub.value;
        db.Del(hash);
      case EmptyNode =>
        var sub := GetSubtree(db, Empty);
        if sub.None? {
          return None, s;
        }
        bottom := sub.value;
      case LeafNode(k, v) =>
        RecordOfTip(Leaf(k, v));
        OneNode(current, 0);
        bottom := NewSubtreeFromData([0], [current], Tip(current));
    }
    ghost var mid := db.data;
    ghost var t := HashOf(current);
    var newSubtree := UpdateSubtree(db, bins[0], bottom, height + HEIGHT, n, t, p, us);
    if newSubtree.None? {
      return None, s;
    }
    ghost var now := Updated(t, us, p, n);
    RecordOfTip(now);
    EdgeDone(old(db.data), mid, db.data, bins, current, height, n, p, us);
    s := Tip(EdgeNode(now));
    OneNode(EdgeNode(now), HEIGHT);
    if |newSubtree.value.nodes| == 1 {
      return Some(Layout([newSubtree.value.nodes[0]], [HEIGHT])), s;
    }
    return Some(Layout([StubNode(newSubtree.value.root)], [HEIGHT])), s;
  }

  lemma NodeKinds(m: Table, bins: seq<seq<Request>>, current: Node, height: nat, n: nat, p: Bits, us: Entries)
    requires NodeReady(m, bins, current, height, HEIGHT, n, p, us)
    ensures Coherent(m) && !current.TempNode? && SubOf(HashOf(current), 0).Tip? == !current.StubNode?
    ensures current.LeafNode? ==> SubOf(HashOf(current), 0) == Tip(current)
    ensures (height + HEIGHT) % 8 == 0
  {
    hide Coherent, BinsFor, AllBelow, Canonical, Present;
  }

  /** updateNode above the lower edge: the requests and the node go to both sides. */
  method UpdateSides(db: Db, bins: seq<seq<Request>>, current: Node, height: nat, structurePos: nat, n: nat, ghost p: Bits, ghost us: Entries)
    returns (r: Option<Layout>, ghost s: Sub<Node>)
    requires NodeReady(db.data, bins, current, height, structurePos, n, p, us) && height + HEIGHT <= n
    requires structurePos < HEIGHT && us != map[]
    modifies db
    ensures AllBelow(p, n, us) && |p| <= n
    ensures r == Some(LayoutOf(s, structurePos)) && NodeDone(old(db.data), db.data, current, structurePos, n, p, us, s)
    decreases n - height, 2 * (10 - structurePos) - 1
  {
    hide NodeReady, NodeDone, LayoutOf, AllBelow, Updated, Coherent, Half;
    ReadyMeans(db.data, bins, current, height, structurePos, n, p, us);
    ghost var before := db.data;
    s := Tip(current);
    SideKinds(db.data, bins, current, height, structurePos, n, p, us);
    if current.StubNode? || current.TempNode? {
      return None, s;
    }
    var left, right := SideNode(current, height + structurePos, false), SideNode(current, height + structurePos, true);
    var splitIndex := |bins| / 2;
    SidesReady(db.data, bins, current, height, structurePos, n, p, us, false);
    var leftResult, l := UpdateNode(db, bins[..splitIndex], left, height, structurePos + 1, n, p + [false], Half(us, p, false));
    ghost var mid := db.data;
    if leftResult.None? {
      return None, s;
    }
    RightReady(before, mid, bins, current, height, structurePos, n, p, us, l);
    var rightResult, rr := UpdateNode(db, bins[splitIndex..], right, height, structurePos + 1, n, p + [true], Half(us, p, true));
    if rightResult.None? {
      return None, s;
    }
    SplitDone(before, mid, db.data, bins, current, height, structurePos, n, p, us, l, rr);
    s := Fork(l, rr);
    ForkLayout(l, rr, structurePos);
    r := Some(Layout(leftResult.value.nodes + rightResult.value.nodes, leftResult.value.structure + rightResult.value.structure));
    LayoutParts(s, structurePos);
  }

  lemma LayoutParts(s: Sub<Node>, d: nat)
    ensures LayoutOf(s, d) == Layout(LayoutOf(s, d).nodes, LayoutOf(s, d).structure)
  {
  }

  lemma SideKinds(m: Table, bins: seq<seq<Request>>, current: Node, height: nat, d: nat, n: nat, p: Bits, us: Entries)
    requires NodeReady(m, bins, current, height, d, n, p, us) && d < HEIGHT
    ensures !current.StubNode? && !current.TempNode?
  {
  }

  /** After the left side was updated, the right side is as it was. */
  lemma RightReady(before: Table, mid: Table, bins: seq<seq<Request>>, current: Node, height: nat, d: nat, n: nat, p: Bits, us: Entries, l: Sub<Node>)
    requires NodeReady(before, bins, current, height, d, n, p, us) && d < HEIGHT && height + HEIGHT <= n
    requires AllBelow(p + [false], n, Half(us, p, false))
    requires NodeDone(before, mid, SideNode(current, |p|, false), d + 1, n, p + [false], Half(us, p, false), l)
    ensures |bins| / 2 <= |bins|
    ensures NodeReady(mid, bins[|bins| / 2..], SideNode(current, |p|, true), height, d + 1, n, p + [true], Half(us, p, true))
  {
    hide BinsFor, Coherent, Updated, Frame;
    SidesReady(before, bins, current, height, d, n, p, us, true);
  }

  // ---------------------------------------------------------------- the tips of a subtree one after the other

  /** The tips before `i` are updated, the others are as they were. */
  ghost predicate TipsUpTo(m: Table, us: Entries, n: nat, ts: seq<TipInfo>, rs: seq<Sub<Node>>)
    requires forall k :: k in us ==> |k| == n
  {
    && |rs| <= |ts|
    && (forall j :: 0 <= j < |rs| ==> TipDone(m, us, n, ts[j], rs[j]))
    && (forall j :: |rs| <= j < |ts| ==> TipFine(m, ts[j], n))
    && (forall j :: 0 <= j < |ts| ==> TipPlaced(ts[j], n))
    && (forall i, j :: 0 <= i < j < |ts| ==> Diverge(ts[i].path, ts[j].path))
  }

  ghost predicate TipPlaced(t: TipInfo, n: nat) { t.depth <= HEIGHT && |t.path| <= n && Canonical(HashOf(t.node), t.path, n) }

  lemma TipsAtStart(m: Table, t: Hash, p: Bits, n: nat, us: Entries)
    requires Canonical(t, p, n) && Present(m, t, 0) && |p| + HEIGHT <= n && Depth(SubOf(t, 0)) <= HEIGHT
    requires forall k :: k in us ==> |k| == n
    ensures TipsUpTo(m, us, n, Tips(SubOf(t, 0), p, 0, 0), [])
  {
    hide Pow2, Canonical, Present, Diverge, Tips, TipsOk;
    var ts := Tips(SubOf(t, 0), p, 0, 0);
    forall j | 0 <= j < |ts| ensures TipFine(m, ts[j], n) && TipPlaced(ts[j], n) {
      TipsFine(t, p, 0, 0, n, m, j);
      TipsWithin(SubOf(t, 0), p, 0, 0, j);
    }
    forall i, j | 0 <= i < j < |ts| ensures Diverge(ts[i].path, ts[j].path) {
      TipsDiverge(SubOf(t, 0), p, 0, 0, i, j);
    }
  }

  lemma DivergeSym(p: Bits, q: Bits)
    requires Diverge(p, q)
    ensures Diverge(q, p)
  {
  }

  /** Updating one tip leaves the others alone. */
  lemma TipsStep(m: Table, now: Table, us: Entries, n: nat, ts: seq<TipInfo>, rs: seq<Sub<Node>>, r: Sub<Node>)
    requires forall k :: k in us ==> |k| == n
    requires TipsUpTo(m, us, n, ts, rs) && |rs| < |ts|
    requires Frame(m, now, ts[|rs|].path) && TipDone(now, us, n, ts[|rs|], r)
    ensures TipsUpTo(now, us, n, ts, rs + [r])
  {
    hide Diverge, TipDone, TipFine, TipPlaced, Frame;
    var i := |rs|;
    var all := rs + [r];
    forall j | 0 <= j < |all| ensures TipDone(now, us, n, ts[j], all[j]) {
      if j < i { DoneKept(m, now, us, n, ts[j], rs[j], ts[i].path); }
    }
    forall j | |all| <= j < |ts| ensures TipFine(now, ts[j], n) {
      DivergeSym(ts[i].path, ts[j].path);
      FineKept(m, now, n, ts[j], ts[i].path);
    }
  }

  lemma DoneKept(m: Table, now: Table, us: Entries, n: nat, t: TipInfo, r: Sub<Node>, p: Bits)
    requires forall k :: k in us ==> |k| == n
    requires TipDone(m, us, n, t, r) && TipPlaced(t, n) && Diverge(t.path, p) && Frame(m, now, p)
    ensures TipDone(now, us, n, t, r)
  {
    hide Updated, Frame, Diverge, Within, Canonical, Present, TipsOk;
    WithinBelow(us, t.path, n);
    UpdatedCanonical(HashOf(t.node), Within(us, t.path), t.path, n);
    PresentFrame(m, now, Canon(r), t.depth, t.path, p, n);
  }

  lemma FineKept(m: Table, now: Table, n: nat, t: TipInfo, p: Bits)
    requires TipFine(m, t, n) && Diverge(t.path, p) && Frame(m, now, p)
    ensures TipFine(now, t, n)
  {
    hide Frame, Diverge, Canonical, Present, TipsOk;
    PresentFrame(m, now, HashOf(t.node), t.depth, t.path, p, n);
  }

  /** A tip can be updated with the requests below its path. */
  lemma TipReady(m: Table, bins: seq<seq<Request>>, height: nat, n: nat, t: TipInfo, us: Entries)
    requires Coherent(m) && TipFine(m, t, n) && PartBins(bins, t.offset, t.depth, us, t.path, n)
    requires |t.path| == height + t.depth && height + HEIGHT <= n && height % 8 == 0 && n % 8 == 0 && forall k :: k in us ==> |k| == n
    ensures t.offset <= End(t) <= |bins|
    ensures NodeReady(m, bins[t.offset..End(t)], t.node, height, t.depth, n, t.path, Within(us, t.path))
  {
    hide Coherent, BinsFor, Canonical, Present, TipsOk, Within, Pow2;
    WithinBelow(us, t.path, n);
  }

  lemma NodeIsTip(before: Table, after: Table, t: TipInfo, n: nat, us: Entries, s: Sub<Node>)
    requires forall k :: k in us ==> |k| == n
    requires AllBelow(t.path, n, Within(us, t.path)) && |t.path| <= n
    requires NodeDone(before, after, t.node, t.depth, n, t.path, Within(us, t.path), s)
    ensures Coherent(after) && Frame(before, after, t.path) && TipDone(after, us, n, t, s)
  {
    hide Coherent, Frame, Updated, Present, TipsOk, Within;
  }

  lemma WholeBins(bins: seq<seq<Request>>, us: Entries, p: Bits, n: nat)
    requires BinsFor(bins, us, n, |p|, HEIGHT) && AllBelow(p, n, us)
    ensures |bins| == Pow2(HEIGHT) && Within(us, p) == us && PartBins(bins, 0, 0, us, p, n)
  {
    hide Pow2;
    assert bins[0..Pow2(HEIGHT)] == bins;
    assert Within(us, p) == us;
  }

  lemma FlatAllNext(ts: seq<TipInfo>, rs: seq<Sub<Node>>, r: Sub<Node>)
    requires |rs| < |ts|
    ensures FlatAll(ts[..|rs| + 1], rs + [r]) == FlatAll(ts[..|rs|], rs) + Flat(r, ts[|rs|].depth)
  {
    hide Flat, FlatAll;
    var t := ts[|rs|];
    assert ts[..|rs| + 1] == ts[..|rs|] + [t];
    FlatAllAppend(ts[..|rs|], rs, [t], [r]);
    FlatAllOne(t, r);
  }

  lemma FlatAllOne(t: TipInfo, r: Sub<Node>)
    ensures FlatAll([t], [r]) == Flat(r, t.depth)
  {
    hide Flat;
    assert [t][1..] == [] && [r][1..] == [];
    assert FlatAll([t], [r]) == Flat(r, t.depth) + FlatAll([t][1..], [r][1..]);
  }

  lemma ListsAppend(a: seq<(Node, nat)>, b: seq<(Node, nat)>)
    ensures Nodes(a + b) == Nodes(a) + Nodes(b) && Depths(a + b) == Depths(a) + Depths(b)
  {
  }

  lemma TipPosition(s: Sub<Node>, p: Bits, i: nat)
    requires Depth(s) <= HEIGHT && i < |Tips(s, p, 0, 0)|
    ensures
      var ts := Tips(s, p, 0, 0);
      && |ts| == |Flat(s, 0)| && Flat(s, 0)[i] == (ts[i].node, ts[i].depth) && ts[i].depth <= HEIGHT
      && |ts[i].path| == |p| + ts[i].depth && ts[0].offset == 0
      && End(ts[i]) == if i + 1 < |ts| then ts[i + 1].offset else Pow2(HEIGHT)
  {
    hide Pow2, Tips, Flat;
    TipsAreFlat(s, p, 0, 0);
    TipsWithin(s, p, 0, 0, i);
    TipsInRow(s, p, 0, 0, i);
  }

  /** The lists grow by those of one tip. */
  lemma ListsGrow(ts: seq<TipInfo>, rs: seq<Sub<Node>>, r: Sub<Node>)
    requires |rs| < |ts|
    ensures Nodes(FlatAll(ts[..|rs| + 1], rs + [r])) == Nodes(FlatAll(ts[..|rs|], rs)) + LayoutOf(r, ts[|rs|].depth).nodes
    ensures Depths(FlatAll(ts[..|rs| + 1], rs + [r])) == Depths(FlatAll(ts[..|rs|], rs)) + LayoutOf(r, ts[|rs|].depth).structure
  {
    hide FlatAll, Flat, Nodes, Depths;
    FlatAllNext(ts, rs, r);
    ListsAppend(FlatAll(ts[..|rs|], rs), Flat(r, ts[|rs|].depth));
  }

  lemma FlatNone()
    ensures Nodes(FlatAll([], [])) == [] && Depths(FlatAll([], [])) == []
  {
  }

  /** The loop of updateSubtree over the nodes. */
  method UpdateTips(db: Db, bins: seq<seq<Request>>, current: SubTree, height: nat, n: nat, ghost t: Hash, ghost p: Bits, ghost us: Entries)
    returns (r: Option<Layout>, ghost rs: seq<Sub<Node>>)
    requires Coherent(db.data) && current == Record(SubOf(t, 0)) && Depth(SubOf(t, 0)) <= HEIGHT
    requires BinsFor(bins, us, n, |p|, HEIGHT) && AllBelow(p, n, us)
    requires |p| == height && height + HEIGHT <= n && height % 8 == 0 && n % 8 == 0
    requires Canonical(t, p, n) && Present(db.data, t, 0) && forall k :: k in us ==> |k| == n
    modifies db
    ensures Coherent(db.data) && Frame(old(db.data), db.data, p)
    ensures
      var ts := Tips(SubOf(t, 0), p, 0, 0);
      && AllDone(db.data, us, n, ts, rs)
      && r == Some(Layout(Nodes(FlatAll(ts, rs)), Depths(FlatAll(ts, rs))))
    decreases n - height, 25
  {
    hide Coherent, BinsFor, AllBelow, Canonical, Present, NodeReady, NodeDone, TipsUpTo, TipDone, TipFine, Frame, PartBins, Flat, FlatAll, Tips, Pow2,
         Eval, Nodes, Depths, Depth, SubOf, Within;
    ghost var s := SubOf(t, 0);
    ghost var ts := Tips(s, p, 0, 0);
    WholeBins(bins, us, p, n);
    TipsAtStart(db.data, t, p, n, us);
    rs := [];
    var newNodes: seq<Node>, newStructure: seq<nat> := [], [];
    var binOffset := 0;
    ghost var before := db.data;
    FrameSelf(before, p);
    FlatNone();
    assert ts[..0] == [];
    TipPosition(s, p, 0);
    for i := 0 to |current.nodes|
      invariant |rs| == i && |ts| == |current.nodes| == |current.structure| == |Flat(s, 0)|
      invariant binOffset == if i < |ts| then ts[i].offset else Pow2(HEIGHT)
      invariant Coherent(db.data) && Frame(before, db.data, p) && TipsUpTo(db.data, us, n, ts, rs)
      invariant newNodes == Nodes(FlatAll(ts[..i], rs)) && newStructure == Depths(FlatAll(ts[..i], rs))
    {
      TipPosition(s, p, i);
      RecordAt(s, i);
      var h := current.structure[i];
      var newOffset := Pow2(HEIGHT - h);
      TipBins(s, p, 0, 0, i, bins, us, n);
      NextTip(db.data, us, n, ts, rs);
      TipReady(db.data, bins, height, n, ts[i], us);
      EndOf(ts[i]);
      ghost var last := db.data;
      var result, one := UpdateNode(db, bins[binOffset..binOffset + newOffset], current.nodes[i], height, h, n, ts[i].path, Within(us, ts[i].path));
      if result.None? {
        return None, rs;
      }
      NodeIsTip(last, db.data, ts[i], n, us, one);
      TipsStep(last, db.data, us, n, ts, rs, one);
      WithinPath(s, p, i);
      FrameWider(last, db.data, p, ts[i].path);
      FrameTransitive(before, last, db.data, p);
      ListsGrow(ts, rs, one);
      newNodes := newNodes + result.value.nodes;
      newStructure := newStructure + result.value.structure;
      rs := rs + [one];
      binOffset := binOffset + newOffset;
    }
    if binOffset != Pow2(HEIGHT) {
      return None, rs;
    }
    AllTipsDone(db.data, us, n, ts, rs);
    assert ts[..|ts|] == ts;
    return Some(Layout(newNodes, newStructure)), rs;
  }

  lemma FrameSelf(m: Table, p: Bits)
    ensures Frame(m, m, p)
  {
  }

  lemma RecordAt(s: Sub<Node>, i: nat)
    requires i < |Flat(s, 0)|
    ensures |Record(s).nodes| == |Record(s).structure| == |Flat(s, 0)|
    ensures Record(s).nodes[i] == Flat(s, 0)[i].0 && Record(s).structure[i] == Flat(s, 0)[i].1
  {
  }

  lemma NextTip(m: Table, us: Entries, n: nat, ts: seq<TipInfo>, rs: seq<Sub<Node>>)
    requires forall k :: k in us ==> |k| == n
    requires TipsUpTo(m, us, n, ts, rs) && |rs| < |ts|
    ensures TipFine(m, ts[|rs|], n)
  {
    hide TipDone, TipFine;
  }

  lemma EndOf(t: TipInfo)
    requires t.depth <= HEIGHT
    ensures End(t) == t.offset + Pow2(HEIGHT - t.depth)
  {
  }

  lemma WithinPath(s: Sub<Node>, p: Bits, i: nat)
    requires Depth(s) <= HEIGHT && i < |Tips(s, p, 0, 0)|
    ensures p <= Tips(s, p, 0, 0)[i].path
  {
    hide Tips, Pow2;
    TipsWithin(s, p, 0, 0, i);
  }

  lemma AllTipsDone(m: Table, us: Entries, n: nat, ts: seq<TipInfo>, rs: seq<Sub<Node>>)
    requires forall k :: k in us ==> |k| == n
    requires TipsUpTo(m, us, n, ts, rs) && |rs| == |ts|
    ensures AllDone(m, us, n, ts, rs)
  {
    hide TipDone, TipFine;
  }

  /** updateSubtree. */
  method UpdateSubtree(db: Db, list: seq<Request>, current: SubTree, height: nat, n: nat, ghost t: Hash, ghost p: Bits, ghost us: Entries)
    returns (r: Option<SubTree>)
    requires SubReady(db.data, list, height, n, t, p, us) && current == Record(SubOf(t, 0))
    modifies db
    ensures AllBelow(p, n, us) && |p| <= n
    ensures r == Some(Record(SubOf(Updated(t, us, p, n), 0))) && SubDone(old(db.data), db.data, t, n, p, us)
    decreases n - height, 30
  {
    hide Coherent, BinsFor, AllBelow, Canonical, Present, Frame, ListOf, Record, SubOf, Updated, AllDone, Tips, FlatAll,
      Nodes, Depths, Eval, Depth, Assembled, Count;
    if |list| == 0 {
      NothingToDo(db.data, list, height, n, t, p, us);
      return Some(current);
    }
    SomethingToDo(db.data, list, height, n, t, p, us);
    var bins := FillBins(list, height, n, us);
    SubOfTipsOk(t, 0);
    TipsOkMeans(SubOf(t, 0), 0);
    var layout, rs := UpdateTips(db, bins, current, height, n, t, p, us);
    if layout.None? {
      return None;
    }
    ghost var now := Updated(t, us, p, n);
    var maxStructure;
    ghost var s := Rebuilt(t, p, n, us, db.data, rs);
    maxStructure := MaxOf(layout.value.structure);
    StartLayout(s);
    var newSubtree := CalculateSubTree(layout.value.nodes, layout.value.structure, maxStructure, [], s);
    CollapsedIsSubOf(s, 0);
    RecordOfTip(now);
    var encoded := Encode(newSubtree);
    StoreKeeps(old(db.data), db.data, t, n, p, us, encoded);
    db.Set(newSubtree.root, encoded);
    return Some(newSubtree);
  }

  lemma NothingToDo(m: Table, list: seq<Request>, height: nat, n: nat, t: Hash, p: Bits, us: Entries)
    requires SubReady(m, list, height, n, t, p, us) && list == []
    ensures AllBelow(p, n, us) && |p| <= n && Updated(t, us, p, n) == t && SubDone(m, m, t, n, p, us)
  {
    forall k | k in us ensures HasKey(list, k) {}
    assert us == map[];
  }

  lemma SomethingToDo(m: Table, list: seq<Request>, height: nat, n: nat, t: Hash, p: Bits, us: Entries)
    requires SubReady(m, list, height, n, t, p, us) && list != []
    ensures us != map[] && height + HEIGHT <= n && AllBelow(p, n, us) && forall k :: k in us ==> |k| == n
  {
    assert list[0].key in us;
  }

  /** The subtree from the updated tips. */
  lemma Rebuilt(t: Hash, p: Bits, n: nat, us: Entries, m: Table, rs: seq<Sub<Node>>) returns (s: Sub<Node>)
    requires Canonical(t, p, n) && |p| <= n && Depth(SubOf(t, 0)) <= HEIGHT && AllBelow(p, n, us) && forall k :: k in us ==> |k| == n
    requires AllDone(m, us, n, Tips(SubOf(t, 0), p, 0, 0), rs)
    ensures TipsOk(s, 0) && Canon(s) == Updated(t, us, p, n) && Present(m, Canon(s), 0)
    ensures |Tips(SubOf(t, 0), p, 0, 0)| == |rs| && Flat(s, 0) == FlatAll(Tips(SubOf(t, 0), p, 0, 0), rs)
  {
    hide Canonical, Updated, AllDone, Tips, FlatAll, Flat, Present, TipsOk, Canon, SubOf, Depth;
    AssembledUpdates(t, p, 0, 0, n, us, m, rs);
    AssembledFlat(SubOf(t, 0), p, 0, 0, rs);
    AllWithin(us, p, n);
    s := Assembled(SubOf(t, 0), rs);
  }

  lemma AllWithin(us: Entries, p: Bits, n: nat)
    requires AllBelow(p, n, us)
    ensures Within(us, p) == us
  {
  }

  /** The lists of a fresh subtree are the start of collapsing. */
  lemma StartLayout(s: Sub<Node>)
    requires TipsOk(s, 0)
    ensures
      var h := Highest(LayoutOf(s, 0).structure);
      var xs := Cut(Wrapped(s), 0, h, JoinSub);
      && NoTemps(s) && (h == 0 ==> s.Tip?)
      && LayoutOf(s, 0).nodes == Tops(xs) && LayoutOf(s, 0).structure == Depths(xs) && Held(xs) == []
  {
    hide Cut, Flat, Highest, Eval;
    HighestOfFlat(s, 0);
    TipsOkMeans(s, 0);
    DepthOfWrapped(s);
    FlatIsCut(Wrapped(s), 0, Depth(s), JoinSub);
    FlatOfWrapped(s, 0);
    NothingHeldIn(Flat(Wrapped(s), 0));
  }

  lemma {:induction false} DepthOfWrapped(s: Sub<Node>)
    ensures Depth(Wrapped(s)) == Depth(s) && (Depth(s) == 0 ==> s.Tip?)
  {
    if s.Fork? {
      DepthOfWrapped(s.left);
      DepthOfWrapped(s.right);
    }
  }

  lemma {:induction false} FlatOfWrapped(s: Sub<Node>, d: nat)
    ensures |Flat(Wrapped(s), d)| == |Flat(s, d)|
    ensures forall i :: 0 <= i < |Flat(s, d)| ==> Flat(Wrapped(s), d)[i] == (Tip(Flat(s, d)[i].0), Flat(s, d)[i].1)
  {
    if s.Fork? {
      FlatOfWrapped(s.left, d + 1);
      FlatOfWrapped(s.right, d + 1);
    }
  }

  lemma {:induction false} NothingHeldIn(xs: Pieces)
    requires forall i :: 0 <= i < |xs| ==> xs[i].0.Tip?
    ensures Held(xs) == []
  {
    if xs != [] { NothingHeldIn(xs[1..]); }
  }

  /** Storing the new subtree under its root. */
  lemma StoreKeeps(before: Table, m: Table, t: Hash, n: nat, p: Bits, us: Entries, data: Data)
    requires AllBelow(p, n, us) && |p| <= n && Canonical(t, p, n)
    requires Coherent(m) && Frame(before, m, p) && Present(m, Updated(t, us, p, n), 0)
    requires data == Encoded(Record(SubOf(Updated(t, us, p, n), 0)))
    ensures SubDone(before, m[Updated(t, us, p, n) := data], t, n, p, us)
  {
    hide Updated, Present, Canonical, Record, SubOf, Encoded, AllBelow;
    var now := Updated(t, us, p, n);
    UpdatedCanonical(t, us, p, n);
    CanonicalUnder(now, p, n, p);
    PresentMore(m, now, 0, now, data);
  }
}
