/** A subtree put together again from its updated tips (pkg/trie/smt/smt.go). */
module SmtAssembly {
  import opened Basics
  import opened SmtTree
  import opened SmtLayers
  import opened SmtSubtree
  import opened SmtStore
  import opened SmtBins
  import opened SmtPresence

  /** The requests below a path. */
  function Within(us: Entries, p: Bits): Entries { map k | k in us && p <= k :: us[k] }

  lemma WithinHalf(us: Entries, p: Bits, b: bool)
    ensures Half(Within(us, p), p, b) == Within(us, p + [b])
  {
    assert p <= p + [b];
  }

  lemma WithinBelow(us: Entries, p: Bits, n: nat)
    requires forall k :: k in us ==> |k| == n
    ensures AllBelow(p, n, Within(us, p))
  {
  }

  /** The bins from `o` on are those of the requests below a path at depth `d` of the subtree. */
  ghost predicate PartBins(bins: seq<seq<Request>>, o: nat, d: nat, us: Entries, p: Bits, n: nat) {
    && d <= HEIGHT && o + Pow2(HEIGHT - d) <= |bins|
    && BinsFor(bins[o..o + Pow2(HEIGHT - d)], Within(us, p), n, |p|, HEIGHT - d)
  }

  lemma SliceHalves(bins: seq<seq<Request>>, o: nat, half: nat)
    requires o + 2 * half <= |bins|
    ensures bins[o..o + 2 * half][..half] == bins[o..o + half] && bins[o..o + 2 * half][half..] == bins[o + half..o + half + half]
  {
  }

  lemma SplitPart(bins: seq<seq<Request>>, o: nat, d: nat, us: Entries, p: Bits, n: nat)
    requires d < HEIGHT && PartBins(bins, o, d, us, p, n) && forall k :: k in us ==> |k| == n
    ensures PartBins(bins, o, d + 1, us, p + [false], n)
    ensures PartBins(bins, o + Pow2(HEIGHT - d - 1), d + 1, us, p + [true], n)
  {
    hide Pow2, BinsFor, Within, AllBelow, Half;
    var half := Pow2(HEIGHT - d - 1);
    PowNext(HEIGHT - d);
    var part := bins[o..o + Pow2(HEIGHT - d)];
    WithinBelow(us, p, n);
    SplitBins(part, Within(us, p), p, n, HEIGHT - d);
    WithinHalf(us, p, false);
    WithinHalf(us, p, true);
    SliceHalves(bins, o, half);
  }

  /** The bins of a tip are those of the requests below its path. */
  lemma {:induction false} TipBins(s: Sub<Node>, p: Bits, d: nat, o: nat, i: nat, bins: seq<seq<Request>>, us: Entries, n: nat)
    requires d + Depth(s) <= HEIGHT && i < |Tips(s, p, d, o)| && PartBins(bins, o, d, us, p, n)
    requires forall k :: k in us ==> |k| == n
    ensures
      var t := Tips(s, p, d, o)[i];
      PartBins(bins, t.offset, t.depth, us, t.path, n)
  {
    hide Pow2, PartBins, Tips, Depth;
    if s.Fork? {
      ForkTips(s, p, d, o);
      SplitPart(bins, o, d, us, p, n);
      var ls := Tips(s.left, p + [false], d + 1, o);
      if i < |ls| {
        TipBins(s.left, p + [false], d + 1, o, i, bins, us, n);
      } else {
        TipBins(s.right, p + [true], d + 1, o + Pow2(HEIGHT - d - 1), i - |ls|, bins, us, n);
      }
    } else {
      OneTip(s, p, d, o);
    }
  }

  /** A tip of a canonical term. */
  ghost predicate TipFine(m: Table, t: TipInfo, n: nat) {
    && t.depth <= HEIGHT && TipsOk(Tip(t.node), t.depth)
    && Canonical(HashOf(t.node), t.path, n) && Present(m, HashOf(t.node), t.depth)
  }

  lemma {:induction false} TipsFine(t: Hash, p: Bits, d: nat, o: nat, n: nat, m: Table, i: nat)
    requires d <= HEIGHT && Canonical(t, p, n) && Present(m, t, d)
    requires d + Depth(SubOf(t, d)) <= HEIGHT && i < |Tips(SubOf(t, d), p, d, o)|
    ensures TipFine(m, Tips(SubOf(t, d), p, d, o)[i], n)
    decreases HEIGHT - d
  {
    hide Pow2, Tips, Depth;
    if t.Branch? && d < HEIGHT {
      ForkTips(SubOf(t, d), p, d, o);
      var ls := Tips(SubOf(t.left, d + 1), p + [false], d + 1, o);
      if i < |ls| {
        TipsFine(t.left, p + [false], d + 1, o, n, m, i);
      } else {
        TipsFine(t.right, p + [true], d + 1, o + Pow2(HEIGHT - d - 1), n, m, i - |ls|);
      }
    } else {
      OneTip(SubOf(t, d), p, d, o);
    }
  }

  // ---------------------------------------------------------------- assembly

  function Count(s: Sub<Node>): (c: nat)
    ensures c >= 1
  {
    match s
    case Tip(_) => 1
    case Fork(l, r) => Count(l) + Count(r)
  }

  /** The subtree with every tip replaced. */
  function Assembled(s: Sub<Node>, rs: seq<Sub<Node>>): Sub<Node>
    requires |rs| == Count(s)
  {
    match s
    case Tip(_) => rs[0]
    case Fork(l, r) => Fork(Assembled(l, rs[..Count(l)]), Assembled(r, rs[Count(l)..]))
  }

  lemma {:induction false} TipsCount(s: Sub<Node>, p: Bits, d: nat, o: nat)
    requires d + Depth(s) <= HEIGHT
    ensures |Tips(s, p, d, o)| == Count(s)
  {
    if s.Fork? {
      TipsCount(s.left, p + [false], d + 1, o);
      TipsCount(s.right, p + [true], d + 1, o + Pow2(HEIGHT - d - 1));
    }
  }

  /** The lists of the replacements one after the other. */
  function FlatAll(ts: seq<TipInfo>, rs: seq<Sub<Node>>): seq<(Node, nat)>
    requires |ts| == |rs|
  {
    if rs == [] then [] else Flat(rs[0], ts[0].depth) + FlatAll(ts[1..], rs[1..])
  }

  lemma {:induction false} FlatAllAppend(ts: seq<TipInfo>, rs: seq<Sub<Node>>, ts1: seq<TipInfo>, rs1: seq<Sub<Node>>)
    requires |ts| == |rs| && |ts1| == |rs1|
    ensures FlatAll(ts + ts1, rs + rs1) == FlatAll(ts, rs) + FlatAll(ts1, rs1)
  {
    hide Flat;
    if rs == [] {
      assert ts + ts1 == ts1 && rs + rs1 == rs1;
    } else {
      FlatAllAppend(ts[1..], rs[1..], ts1, rs1);
      assert (ts + ts1)[1..] == ts[1..] + ts1 && (rs + rs1)[1..] == rs[1..] + rs1;
    }
  }

  lemma {:induction false} AssembledFlat(s: Sub<Node>, p: Bits, d: nat, o: nat, rs: seq<Sub<Node>>)
    requires d + Depth(s) <= HEIGHT && |rs| == Count(s)
    ensures |Tips(s, p, d, o)| == |rs| && Flat(Assembled(s, rs), d) == FlatAll(Tips(s, p, d, o), rs)
  {
    hide Pow2;
    TipsCount(s, p, d, o);
    match s
    case Tip(x) =>
      var ts := Tips(s, p, d, o);
      assert rs[1..] == [] && ts[1..] == [];
      assert FlatAll(ts, rs) == Flat(rs[0], d) + FlatAll([], []);
    case Fork(l, r) =>
      var c, o2 := Count(l), o + Pow2(HEIGHT - d - 1);
      AssembledFlat(l, p + [false], d + 1, o, rs[..c]);
      AssembledFlat(r, p + [true], d + 1, o2, rs[c..]);
      FlatAllAppend(Tips(l, p + [false], d + 1, o), rs[..c], Tips(r, p + [true], d + 1, o2), rs[c..]);
      assert rs[..c] + rs[c..] == rs;
  }

  /** A tip's replacement holds the updated entries. */
  ghost predicate TipDone(m: Table, us: Entries, n: nat, t: TipInfo, r: Sub<Node>)
    requires forall k :: k in us ==> |k| == n
  {
    WithinBelow(us, t.path, n);
    && t.depth <= HEIGHT && |t.path| <= n && TipsOk(r, t.depth)
    && Canon(r) == Updated(HashOf(t.node), Within(us, t.path), t.path, n) && Present(m, Canon(r), t.depth)
  }

  /** Updating a branch is updating both sides. */
  lemma UpdatedBranch(t: Hash, us: Entries, p: Bits, n: nat)
    requires t.Branch? && Canonical(t, p, n) && AllBelow(p, n, us)
    ensures AllBelow(p + [false], n, Half(us, p, false)) && AllBelow(p + [true], n, Half(us, p, true))
    ensures Updated(t, us, p, n) ==
            Join(Updated(t.left, Half(us, p, false), p + [false], n), Updated(t.right, Half(us, p, true), p + [true], n))
  {
    HalvesBelow(us, p, n, false);
    HalvesBelow(us, p, n, true);
    if us == map[] {
      assert Half(us, p, false) == map[] && Half(us, p, true) == map[];
    }
  }

  ghost predicate AllDone(m: Table, us: Entries, n: nat, ts: seq<TipInfo>, rs: seq<Sub<Node>>)
    requires forall k :: k in us ==> |k| == n
  {
    |ts| == |rs| && forall i :: 0 <= i < |rs| ==> TipDone(m, us, n, ts[i], rs[i])
  }

  lemma AllDoneSplit(m: Table, us: Entries, n: nat, ts: seq<TipInfo>, us2: seq<TipInfo>, rs: seq<Sub<Node>>)
    requires forall k :: k in us ==> |k| == n
    requires AllDone(m, us, n, ts + us2, rs)
    ensures |ts| <= |rs| && AllDone(m, us, n, ts, rs[..|ts|]) && AllDone(m, us, n, us2, rs[|ts|..])
  {
    hide TipDone;
    forall i | 0 <= i < |ts| ensures TipDone(m, us, n, ts[i], rs[..|ts|][i]) {
      assert TipDone(m, us, n, (ts + us2)[i], rs[i]);
    }
    forall i | 0 <= i < |us2| ensures TipDone(m, us, n, us2[i], rs[|ts|..][i]) {
      assert TipDone(m, us, n, (ts + us2)[|ts| + i], rs[|ts| + i]);
    }
  }

  /** The assembled subtree is the updated term. */
  lemma {:induction false} AssembledUpdates(t: Hash, p: Bits, d: nat, o: nat, n: nat, us: Entries, m: Table, rs: seq<Sub<Node>>)
    requires d <= HEIGHT && Canonical(t, p, n) && |p| <= n && d + Depth(SubOf(t, d)) <= HEIGHT
    requires forall k :: k in us ==> |k| == n
    requires AllDone(m, us, n, Tips(SubOf(t, d), p, d, o), rs)
    ensures AllBelow(p, n, Within(us, p)) && |rs| == Count(SubOf(t, d))
    ensures
      var s := Assembled(SubOf(t, d), rs);
      TipsOk(s, d) && Canon(s) == Updated(t, Within(us, p), p, n) && Present(m, Canon(s), d)
    decreases HEIGHT - d
  {
    hide Pow2, Updated, Present, TipsOk, Canonical, Within, TipDone, AllDone, Canon, AllBelow, Tips, Depth, Count;
    WithinBelow(us, p, n);
    var s := SubOf(t, d);
    TipsCount(s, p, d, o);
    if !t.Branch? || d == HEIGHT {
      HashOfEdge(t, d);
      CountFork(s);
      OneDone(t, p, d, o, n, us, m, rs);
    } else {
      CanonicalParts(t, p, n);
      ForkTips(s, p, d, o);
      var o2 := o + Pow2(HEIGHT - d - 1);
      var ls, rs2 := Tips(s.left, p + [false], d + 1, o), Tips(s.right, p + [true], d + 1, o2);
      TipsCount(s.left, p + [false], d + 1, o);
      CountFork(s);
      AllDoneSplit(m, us, n, ls, rs2, rs);
      AssembledUpdates(t.left, p + [false], d + 1, o, n, us, m, rs[..|ls|]);
      AssembledUpdates(t.right, p + [true], d + 1, o2, n, us, m, rs[|ls|..]);
      ForkUpdates(t, p, d, n, us, m, Assembled(s.left, rs[..|ls|]), Assembled(s.right, rs[|ls|..]));
    }
  }

  /** Two updated sides make the updated branch. */
  lemma ForkUpdates(t: Hash, p: Bits, d: nat, n: nat, us: Entries, m: Table, a: Sub<Node>, b: Sub<Node>)
    requires d < HEIGHT && t.Branch? && Canonical(t, p, n) && |p| < n && forall k :: k in us ==> |k| == n
    requires AllBelow(p, n, Within(us, p)) && AllBelow(p + [false], n, Within(us, p + [false])) && AllBelow(p + [true], n, Within(us, p + [true]))
    requires TipsOk(a, d + 1) && Canon(a) == Updated(t.left, Within(us, p + [false]), p + [false], n) && Present(m, Canon(a), d + 1)
    requires TipsOk(b, d + 1) && Canon(b) == Updated(t.right, Within(us, p + [true]), p + [true], n) && Present(m, Canon(b), d + 1)
    ensures TipsOk(Fork(a, b), d) && Canon(Fork(a, b)) == Updated(t, Within(us, p), p, n) && Present(m, Canon(Fork(a, b)), d)
  {
    hide Updated, Present, TipsOk, Canonical, Within, Join, AllBelow;
    WithinHalf(us, p, false);
    WithinHalf(us, p, true);
    UpdatedBranch(t, Within(us, p), p, n);
    PresentJoin(m, Canon(a), Canon(b), d);
    ForkTipsOk(a, b, d);
  }

  lemma CountFork(s: Sub<Node>)
    ensures s.Fork? ==> Count(s) == Count(s.left) + Count(s.right)
    ensures s.Tip? ==> Count(s) == 1
  {
  }

  lemma OneDone(t: Hash, p: Bits, d: nat, o: nat, n: nat, us: Entries, m: Table, rs: seq<Sub<Node>>)
    requires d <= HEIGHT && |p| <= n && SubOf(t, d) == Tip(EdgeNode(t)) && HashOf(EdgeNode(t)) == t
    requires forall k :: k in us ==> |k| == n
    requires AllDone(m, us, n, Tips(SubOf(t, d), p, d, o), rs)
    ensures AllBelow(p, n, Within(us, p)) && |rs| == 1
    ensures TipsOk(rs[0], d) && Canon(rs[0]) == Updated(t, Within(us, p), p, n) && Present(m, Canon(rs[0]), d)
  {
    hide Updated, Within;
    WithinBelow(us, p, n);
    assert TipDone(m, us, n, Tips(SubOf(t, d), p, d, o)[0], rs[0]);
  }

  lemma ForkTipsOk(a: Sub<Node>, b: Sub<Node>, d: nat)
    requires d < HEIGHT && TipsOk(a, d + 1) && TipsOk(b, d + 1)
    ensures TipsOk(Fork(a, b), d)
  {
  }

  lemma CanonicalParts(t: Hash, p: Bits, n: nat)
    requires t.Branch? && Canonical(t, p, n)
    ensures |p| < n && Canonical(t.left, p + [false], n) && Canonical(t.right, p + [true], n)
  {
  }

  lemma HashOfEdge(t: Hash, d: nat)
    requires d <= HEIGHT && (!t.Branch? || d == HEIGHT)
    ensures SubOf(t, d) == Tip(EdgeNode(t)) && HashOf(EdgeNode(t)) == t
  {
  }
}
