/** Verification at single inputs, and of indexes outside the tree (pkg/trie/rmt/verify.go, util.go). */
module RmtOutside {
  import opened Basics
  import opened RmtRoot
  import opened RmtTree
  import opened RmtLayers
  import opened RmtIndex
  import opened RmtWork
  import opened RmtReach
  import opened RmtVerify
  import opened RmtSound
  import opened RmtGenerate
  import opened RmtProof

  // ---------------------------------------------------------------- three leaves

  lemma SmallPowers()
    ensures Pow2(0) == 1 && Pow2(1) == 2 && Pow2(2) == 4 && Pow2(3) == 8 && Pow2(4) == 16
  {
  }

  lemma SmallDigits()
    ensures Digits(1) == 1 && Digits(2) == 2 && Digits(3) == 2 && Digits(4) == 3 && Digits(5) == 3
    ensures Digits(8) == 4 && Digits(10) == 4 && Digits(11) == 4 && Digits(20) == 5
  {
    SmallPowers();
    DigitsUnique(20, 5);
  }

  /** The places of a tree of three leaves that matter below: 5 stands for the leaf 10 alone. */
  lemma ThreeLeaves()
    ensures HeightOf(3) == 3
    ensures Inside(3, 4) && NodeAt(3, 4) && Inside(3, 5) && !NodeAt(3, 5) && Inside(3, 10) && NodeAt(3, 10) && !Inside(3, 11)
  {
    SmallPowers();
    SmallDigits();
  }

  lemma ThreeStored()
    ensures Inside(3, 4) && Stored(3, 4) == 4 && Inside(3, 5) && Stored(3, 5) == 10
  {
    hide Inside, NodeAt;
    ThreeLeaves();
    LeftOf(3, 5);
  }

  lemma SortedPair(x: nat, y: nat)
    requires x >= 1 && y >= 1 && Place(y) > Place(x)
    ensures SortIndexes(Present([x, y])) == [y, x]
  {
    hide Place;
    var s := [x, y];
    assert s[..1] == [x] && s[..1][..0] == [];
    assert Present([x]) == [x] && Present(s) == s;
    assert s[1..] == [y] && [y][1..] == [];
    assert SortIndexes([y]) == [y];
    assert [x][1..] == [];
    assert PutIn([y], x) == [y] + PutIn([y][1..], x);
  }

  /** With the queries 5 and 10 of three leaves, any hash passes at the leaf 10: the query at 5 takes its place, and
      nothing looks it up. */
  lemma AnyHashPasses(a: Value, b: Value, c: Value, y: Hash)
    ensures Accepts([Leaf(c), y], Proof(3, [5, 10], [Branch(Leaf(a), Leaf(b))]), Root([a, b, c]))
  {
    hide Place, Digits, Insert, HeightOf, Inside, NodeAt, Stored, Present, SortIndexes, Turn, Root;
    var values := [a, b, c];
    var s := Progress([10, 5], map[5 := Leaf(c), 10 := y], map[], [Branch(Leaf(a), Leaf(b))]);
    ThreeLeaves();
    ThreeStored();
    SmallPlaces();
    SortedPair(5, 10);
    GivenPair(Leaf(c), y, 5, 10);
    assert Begin([Leaf(c), y], [5, 10], s.siblings) == s;
    assert s.work[1..] == [5];
    InsertOne(5, 5);
    TurnInside(values, s);
    var t := s.(work := [5], cache := map[5 := y]);
    assert Turn(3, s) == Some(t);
    assert t.work[1..] == [];
    InsertNone(2);
    TurnInside(values, t);
    RootOfThree(a, b, c);
    assert Turn(3, t).value.work == [2] && Turn(3, t).value.result[2] == Root(values);
    TwoTurns(3, s);
  }

  lemma TwoTurns(n: nat, s: Progress)
    requires n >= 1 && s.work != [] && s.work[0] != 2 && Turn(n, s).Some?
    requires
      var t := Turn(n, s).value;
      t.work != [] && t.work[0] != 2 && Turn(n, t).Some? && Turn(n, t).value.work == [2]
    ensures Walk(n, s) == Some(Turn(n, Turn(n, s).value).value.result)
  {
    hide Turn;
    var t := Turn(n, s).value;
    var u := Turn(n, t).value;
    assert Walk(n, u) == Some(u.result);
    assert Walk(n, t) == Walk(n, u);
  }

  lemma SmallPlaces()
    ensures Place(10) > Place(5) > Place(2) && Place(4) > Place(5) && Place(10) > Place(4)
  {
    SmallPowers();
    SmallDigits();
  }

  lemma InsertOne(x: nat, y: nat)
    requires x == y
    ensures Insert([x], y) == [x]
  {
  }

  lemma InsertNone(x: nat)
    ensures Insert([], x) == [x]
  {
  }

  lemma GivenPair(g: Hash, h: Hash, x: nat, y: nat)
    requires x != 0 && y != 0
    ensures Given([g, h], [x, y]) == map[x := g][y := h]
  {
    assert [x, y][..1] == [x] && [g, h][..1] == [g] && [x][..0] == [] && [g][..0] == [];
    assert Given([g], [x]) == map[x := g];
  }

  lemma RootOfTwo(a: Value, b: Value)
    ensures Root([a, b]) == Branch(Leaf(a), Leaf(b))
  {
    SmallPowers();
    SplitIsPow(2, 0);
    assert [a, b][..1] == [a] && [a, b][1..] == [b];
  }

  lemma RootOfThree(a: Value, b: Value, c: Value)
    ensures Root([a, b, c]) == Branch(Branch(Leaf(a), Leaf(b)), Leaf(c))
  {
    var values := [a, b, c];
    SmallPowers();
    SplitIsPow(3, 1);
    SplitIsPow(2, 0);
    assert values[..2] == [a, b] && values[2..] == [c];
    RootOfTwo(a, b);
    assert Root([c]) == Leaf(c);
  }

  /** The condition tells the two lists apart: with 4 asked for as well, the hash at 10 is looked up. */
  lemma NeighbourCompares()
    ensures !Compared(3, {5, 10}) && Compared(3, {4, 5, 10})
  {
    hide Compared;
    FewAreNotCompared();
    MoreAreCompared();
  }

  lemma FewAreNotCompared()
    ensures !Compared(3, {5, 10})
  {
    hide Digits, HeightOf, Inside, NodeAt, Reached, ChainQueried, Shoulder;
    ThreeLeaves();
    ThreeChain({5, 10});
    ReachedQuery(3, {5, 10}, 10);
    FourIsNotReached();
    assert Mate(5) == 4 && 2 * 5 == 10;
  }

  lemma MoreAreCompared()
    ensures Compared(3, {4, 5, 10})
  {
    hide Digits, HeightOf, Inside, NodeAt, Reached, ChainQueried, Shoulder;
    ThreeLeaves();
    ThreeChain({4, 5, 10});
    ReachedQuery(3, {4, 5, 10}, 4);
    assert Mate(5) == 4 && 2 * 5 == 10;
  }

  lemma ThreeChain(qs: set<nat>)
    ensures Inside(3, 5) && Shoulder(3, 5) == 5 && Inside(3, 10) && !ChainQueried(3, qs, 10)
  {
    hide Digits, HeightOf, Inside, NodeAt, Stored;
    ThreeLeaves();
  }

  lemma FourIsNotReached()
    ensures !Reached(3, {5, 10}, 4)
  {
    hide HeightOf, Inside, NodeAt, Pow2;
    SmallDigits();
    ThreeLeaves();
    assert LocOf(3, 4).layer == 1;
  }

  // ---------------------------------------------------------------- outside the tree

  /** An index below the leaves is never accepted. */
  lemma TooDeepIsRefused(queries: seq<Hash>, proof: Proof, root: Hash, x: nat)
    requires proof.size >= 1 && x in proof.idxs && Digits(x) > HeightOf(proof.size) + 1
    ensures !Accepts(queries, proof, root)
  {
    hide Digits, HeightOf, InOrder, Place, Present, SortIndexes, Given;
    SmallDigits();
    DigitsOfZero();
    if |queries| == |proof.idxs| {
      var s := Begin(queries, proof.idxs, proof.siblings);
      SortedPresent(proof.idxs);
      FirstLeads(s.work);
      AllPositive(s.work, 0);
      if Digits(s.work[0]) < Digits(x) { MoreDigits(x, s.work[0]); }
    }
  }

  /** The same but for the hashes at 1 and 3. */
  ghost predicate Alike(s: Progress, t: Progress) {
    && s.work == t.work && s.cache == t.cache && s.siblings == t.siblings && s.result.Keys == t.result.Keys
    && forall x :: x in s.result && x != 1 && x != 3 ==> s.result[x] == t.result[x]
  }

  lemma HighPlaces(x: nat)
    requires x >= 1 && Place(x) <= 3
    ensures x == 1 || x == 3
  {
    hide Digits, Pow2;
    SmallDigits();
    PlaceOfTop();
    if x >= 4 {
      DigitsHalf(x);
      DigitsAtLeastTwo(x / 2);
      MoreDigits(x, 2);
    }
  }

  /** When the loop comes to 1 or 3 it never saw the root and fails. */
  lemma {:induction false} PastTheRoot(n: nat, s: Progress)
    requires n >= 1 && InOrder(s.work) && s.work != [] && s.work[0] in {1, 3}
    ensures Walk(n, s).None?
    decreases Total(s.work)
  {
    hide Place, InOrder, Digits, HeightOf, Turn, Insert;
    if Turn(n, s).Some? {
      TurnShrinks(n, s);
      OneIsNoPlace(n, s);
      TailOfList(s.work);
      Inserted(s.work[1..], 1);
      InsertedHead(s.work[1..], 1);
      PlaceOfTop();
      FirstLeads(s.work);
      var next := Turn(n, s).value;
      assert next.work[0] in next.work;
      PlaceOfOne();
      AllPositive(next.work, 0);
      HighPlaces(next.work[0]);
      PastTheRoot(n, next);
    }
  }

  lemma PlaceOfOne()
    ensures Place(1) == 2
  {
    SmallPowers();
    SmallDigits();
  }

  lemma OneIsNoPlace(n: nat, s: Progress)
    requires n >= 1 && s.work != [] && Turn(n, s).Some?
    ensures s.work[0] != 1
  {
    hide HeightOf, Insert;
    SmallDigits();
  }

  /** The index of a sibling is never 1 or 3. */
  lemma SiblingIndexes(n: nat, i: nat, layer: nat)
    requires n >= 1 && Resolve(n, i, layer).Some? && EncodeIndex(Resolve(n, i, layer).value, HeightOf(n)).Some?
    ensures EncodeIndex(Resolve(n, i, layer).value, HeightOf(n)).value !in {1, 3}
  {
    hide HeightOf, Resolve, Digits;
    var loc, h := Resolve(n, i, layer).value, HeightOf(n);
    ResolveFinds(seq(n, _ => []), i, layer);
    var d := if Digits(loc.index) < h - loc.layer then h - loc.layer else Digits(loc.index);
    SmallPowers();
    if d >= 2 {
      Pow2Monotone(2, d);
    } else {
      InsideLayer(n, loc.index, loc.layer);
    }
  }

  /** 6 and 7 have no sibling in the tree. */
  lemma BesideTheTree(n: nat, x: nat)
    requires n >= 1 && x in {6, 7} && DecodeIndex(x, HeightOf(n)).Some?
    ensures
      var loc := DecodeIndex(x, HeightOf(n)).value;
      Resolve(n, Sibling(loc.index), loc.layer).None?
  {
    hide HeightOf, Resolve, Digits;
    SmallPowers();
    DigitsUnique(x, 3);
    var loc := DecodeIndex(x, HeightOf(n)).value;
    var i := Sibling(loc.index);
    ResolveFinds(seq(n, _ => []), i, loc.layer);
    if Start(i, loc.layer) < n { InsideLayer(n, i, loc.layer); }
  }

  lemma AlikeStep(n: nat, s: Progress, t: Progress)
    requires n >= 1 && Alike(s, t) && s.work != [] && s.work[0] >= 4
    ensures Turn(n, s).Some? <==> Turn(n, t).Some?
    ensures Turn(n, s).Some? ==> Alike(Turn(n, s).value, Turn(n, t).value)
  {
    hide HeightOf, Resolve, EncodeIndex, DecodeIndex, Insert;
    var x := s.work[0];
    var loc := DecodeIndex(x, HeightOf(n));
    if loc.Some? {
      var i, layer := Sibling(loc.value.index), loc.value.layer;
      if Resolve(n, i, layer).Some? {
        if x in {6, 7} { BesideTheTree(n, x); }
        if EncodeIndex(Resolve(n, i, layer).value, HeightOf(n)).Some? { SiblingIndexes(n, i, layer); }
      }
    }
  }

  lemma {:induction false} AlikeWalk(n: nat, s: Progress, t: Progress)
    requires n >= 1 && Alike(s, t) && InOrder(s.work)
    ensures
      var r, q := Walk(n, s), Walk(n, t);
      (r.Some? <==> q.Some?) && (r.Some? ==> (2 in r.value <==> 2 in q.value) && (2 in r.value ==> r.value[2] == q.value[2]))
    decreases Total(s.work)
  {
    hide InOrder, Insert, Turn, Place;
    if s.work != [] && s.work[0] != 2 {
      AllPositive(s.work, 0);
      if s.work[0] < 4 {
        PastTheRoot(n, s);
        PastTheRoot(n, t);
      } else {
        AlikeStep(n, s, t);
        if Turn(n, s).Some? {
          TurnShrinks(n, s);
          TailOfList(s.work);
          Inserted(s.work[1..], s.work[0] / 2);
          AlikeWalk(n, Turn(n, s).value, Turn(n, t).value);
        }
      }
    }
  }

  lemma {:induction false} GivenElsewhere(queries: seq<Hash>, idxs: seq<nat>, i: nat, y: Hash)
    requires |queries| == |idxs| && i < |idxs|
    ensures
      var g, h := Given(queries, idxs), Given(queries[i := y], idxs);
      g.Keys == h.Keys && forall x :: x in g && x != idxs[i] ==> g[x] == h[x]
  {
    var k := |idxs| - 1;
    if i < k {
      GivenElsewhere(queries[..k], idxs[..k], i, y);
      assert queries[i := y][..k] == queries[..k][i := y];
    } else {
      assert queries[i := y][..k] == queries[..k];
    }
  }

  /** The hashes at 1 and 3 are never looked at. */
  lemma NeverLookedAt(queries: seq<Hash>, proof: Proof, root: Hash, i: nat, y: Hash)
    requires i < |queries| == |proof.idxs| && proof.idxs[i] in {1, 3}
    ensures Accepts(queries[i := y], proof, root) <==> Accepts(queries, proof, root)
  {
    hide InOrder, Present, SortIndexes, Given, Walk;
    if proof.size >= 1 {
      SortedPresent(proof.idxs);
      GivenElsewhere(queries, proof.idxs, i, y);
      AlikeWalk(proof.size, Begin(queries, proof.idxs, proof.siblings), Begin(queries[i := y], proof.idxs, proof.siblings));
    }
  }

  // ---------------------------------------------------------------- beyond the right edge

  lemma SixLeaves()
    ensures HeightOf(6) == 4 && Inside(6, 5) && Inside(6, 4) && NodeAt(6, 4) && !Inside(6, 11)
    ensures DecodeIndex(11, 4) == Some(Location(1, 3)) && Resolve(6, 2, 1) == Some(Location(1, 2))
    ensures EncodeIndex(Location(1, 2), 4) == Some(10)
  {
    SmallPowers();
    SmallDigits();
  }

  /** An index beyond the right edge is no place of the tree, and can be accepted all the same: of six leaves the last
      one passes at 11, which is beside the pair that it belongs to. */
  lemma BeyondTheEdge(front: seq<Value>, e: Value, f: Value)
    requires |front| == 4
    ensures !Inside(6, 11)
    ensures Accepts([Leaf(f)], Proof(6, [11], [Leaf(e), Root(front)]), Root(front + [e, f]))
  {
    hide Place, Digits, Insert, HeightOf, Inside, NodeAt, Resolve, EncodeIndex, DecodeIndex, Root, Stored, Walk;
    var values := front + [e, f];
    var s := Progress([11], map[11 := Leaf(f)], map[], [Leaf(e), Root(front)]);
    SixLeaves();
    BeginWithOne(Leaf(f), 11, s.siblings);
    assert [11][1..] == [];
    InsertNone(5);
    assert s.siblings[1..] == [Root(front)];
    var t := Progress([5], map[11 := Leaf(f), 5 := Branch(Leaf(e), Leaf(f))], map[], [Root(front)]);
    assert Turn(6, s) == Some(t);
    assert t.work[1..] == [];
    InsertNone(2);
    TurnInside(values, t);
    StoredNode(6, 4);
    RootOfSix(front, e, f);
    TwoTurns(6, s);
  }

  lemma BeginWithOne(h: Hash, x: nat, siblings: seq<Hash>)
    requires x != 0
    ensures Begin([h], [x], siblings) == Progress([x], map[x := h], map[], siblings)
  {
    assert [x][..0] == [] && [h][..0] == [] && [x][1..] == [];
    assert Present([x]) == [x] && SortIndexes([x]) == [x];
    assert Given([h], [x]) == map[x := h];
  }

  lemma RootOfSix(front: seq<Value>, e: Value, f: Value)
    requires |front| == 4
    ensures Root(front + [e, f]) == Branch(Root(front), Branch(Leaf(e), Leaf(f)))
  {
    var values := front + [e, f];
    SmallPowers();
    SplitIsPow(6, 2);
    RootOfTwo(e, f);
    assert values[..4] == front && values[4..] == [e, f];
  }
}
