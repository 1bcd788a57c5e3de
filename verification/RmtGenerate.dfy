/** Collecting the sibling hashes of a proof: getSiblingHashes (pkg/trie/rmt/rmt.go). */
module RmtGenerate {
  import opened Basics
  import opened RmtRoot
  import opened RmtTree
  import opened RmtLayers
  import opened RmtAppend
  import opened RmtWitness
  import opened RmtIndex
  import opened RmtWork
  import opened RmtReach
  import opened RmtVerify

  /** The index is a leaf's. */
  predicate AtBottom(n: nat, x: nat) { n >= 1 && Digits(x) == HeightOf(n) + 1 }

  /** Only leaves are listed more than once. */
  ghost predicate RepeatsAtBottom(n: nat, w: seq<nat>) { forall x :: multiset(w)[x] >= 2 ==> AtBottom(n, x) }

  /** A right index whose mate was visited stays only at the bottom. */
  predicate StrayAtBottom(n: nat, qs: set<nat>, x: nat, p: nat) {
    x % 2 == 1 && Reached(n, qs, x - 1) && Place(x - 1) > p ==> AtBottom(n, x)
  }

  ghost predicate Collecting(n: nat, qs: set<nat>, w: seq<nat>, p: nat) {
    && Frontier(n, qs, w, p) && RepeatsAtBottom(n, w)
    && (forall x :: x in w ==> StrayAtBottom(n, qs, x, p))
  }

  lemma {:induction false} InsertBag(w: seq<nat>, x: nat)
    requires InOrder(w) && x >= 1
    ensures multiset(Insert(w, x)) == if x in w then multiset(w) else multiset(w) + multiset{x}
  {
    hide Place;
    if w != [] {
      assert w == [w[0]] + w[1..];
      PlaceIsOrder(x, w[0]);
      if w[0] != x {
        if Place(x) > Place(w[0]) {
          FirstLeads(w);
          assert x !in w;
        } else {
          InsertBag(w[1..], x);
        }
      }
    }
  }

  lemma RepeatsInsert(n: nat, w: seq<nat>, rest: seq<nat>, x: nat)
    requires RepeatsAtBottom(n, w) && multiset(rest) <= multiset(w) && InOrder(rest) && x >= 1
    ensures RepeatsAtBottom(n, Insert(rest, x))
  {
    hide AtBottom, InOrder, Insert;
    InsertBag(rest, x);
    forall y | multiset(Insert(rest, x))[y] >= 2 ensures AtBottom(n, y) {
      assert x !in rest ==> multiset(rest)[x] == 0;
      assert multiset(w)[y] >= 2;
    }
  }

  /** A parent that enters the list has no visited mate. */
  lemma ParentIsNoStray(n: nat, qs: set<nat>, c: nat, q: nat)
    requires Reached(n, qs, c) && c != 2 && q >= Place(c) - 2 && (c % 2 == 1 ==> q >= Place(c) - 1)
    ensures StrayAtBottom(n, qs, c / 2, q)
  {
    hide Reached, Place, Digits, Inside;
    InsideIsPositive(n, qs, c);
    ParentOf(n, c);
    if (c / 2) % 2 == 1 && Reached(n, qs, c / 2 - 1) {
      InsideIsPositive(n, qs, c / 2 - 1);
      if c / 2 == 2 {
      } else {
        ParentOf(n, c / 2);
        MateOf(n, c / 2);
        LastOfPair(c, c / 2 - 1);
      }
    }
  }

  /** Everything of a higher layer comes after both indexes of a pair. */
  lemma LastOfPair(c: nat, y: nat)
    requires c >= 4 && y >= 1 && Digits(y) < Digits(c)
    ensures Place(y) < Place(c) && (c % 2 == 0 ==> Place(y) < Place(c) - 1)
  {
    hide Digits, Pow2, Place;
    MoreDigits(c, y);
    if c % 2 == 0 {
      PlaceOfMate(c);
      DigitsHalf(c);
      DigitsHalf(c + 1);
      MoreDigits(c + 1, y);
    }
  }

  // ---------------------------------------------------------------- an index on its own

  lemma InList(w: seq<nat>, x: nat)
    requires InOrder(w) && |w| > 0 && x in w && x != w[0] && Place(x) == Place(w[0]) - 1
    ensures |w| > 1 && (w[1] == x || (w[1] == w[0] && multiset(w)[w[0]] >= 2))
  {
    hide Place;
    assert w == [w[0]] + w[1..];
    assert x in w[1..];
    FirstLeads(w[1..]);
    FirstLeads(w);
    AllPositive(w, 0);
    AllPositive(w, 1);
    var i :| 0 <= i < |w| && w[i] == x;
    AllPositive(w, i);
    assert w[1] in w;
    PlaceIsOrder(w[1], x);
    PlaceIsOrder(w[1], w[0]);
    if w[1] == w[0] { assert w == [w[0], w[1]] + w[2..]; }
  }

  /** When an index is visited alone, its mate is reached only at the bottom. */
  lemma AloneMate(values: seq<Value>, qs: set<nat>, w: seq<nat>, p: nat)
    requires |values| >= 1 && AllInside(|values|, qs) && Collecting(|values|, qs, w, p) && w != [] && w[0] != 2
    requires !(w[0] % 2 == 0 && |w| > 1 && w[1] == w[0] + 1)
    requires Reached(|values|, qs, Mate(w[0]))
    ensures AtBottom(|values|, w[0]) && AtBottom(|values|, Mate(w[0]))
  {
    hide Reached, Place, Digits, Inside, InOrder, HeightOf;
    var n, c, m := |values|, w[0], Mate(w[0]);
    assert c in w;
    InsideIsPositive(n, qs, c);
    MateOf(n, c);
    if c % 2 == 0 {
      PlaceOfMate(c);
      BelowIsVisited(n, qs, w, p, m);
      assert Due(n, qs, m, p);
      InList(w, m);
    } else {
      PlaceOfMate(m);
      if Place(m) <= p { FirstIsNext(n, qs, w, p, m); }
      assert StrayAtBottom(n, qs, c, p);
    }
  }

  lemma BottomIsQuery(n: nat, qs: set<nat>, x: nat)
    requires Reached(n, qs, x) && AtBottom(n, x)
    ensures x in qs && NodeAt(n, x) && Stored(n, x) == x
  {
    StartZero(LocOf(n, x).index);
  }

  /** The mate's stored index is among the queries exactly when the mate is reached. */
  lemma MateQueried(values: seq<Value>, qs: set<nat>, w: seq<nat>, p: nat)
    requires |values| >= 1 && AllInside(|values|, qs) && Collecting(|values|, qs, w, p) && w != [] && w[0] != 2
    requires !(w[0] % 2 == 0 && |w| > 1 && w[1] == w[0] + 1)
    requires Inside(|values|, Mate(w[0]))
    ensures Stored(|values|, Mate(w[0])) in qs <==> Reached(|values|, qs, Mate(w[0]))
  {
    hide Reached, Place, Digits, Inside, InOrder, HeightOf, Stored, AtBottom;
    var n, m := |values|, Mate(w[0]);
    if Stored(n, m) in qs {
      ReachedQuery(n, qs, Stored(n, m));
      StoredReached(n, qs, m);
    }
    if Reached(n, qs, m) {
      AloneMate(values, qs, w, p);
      BottomIsQuery(n, qs, m);
    }
  }

  /** Visiting an index alone: all its occurrences go. */
  lemma AloneStep(values: seq<Value>, qs: set<nat>, w: seq<nat>, p: nat)
    requires |values| >= 1 && AllInside(|values|, qs) && Collecting(|values|, qs, w, p) && w != [] && w[0] != 2
    requires !(w[0] % 2 == 0 && |w| > 1 && w[1] == w[0] + 1)
    ensures InOrder(Without(w, w[0])) && Collecting(|values|, qs, Insert(Without(w, w[0]), w[0] / 2), Place(w[0]) - 1)
    ensures NeededFrom(values, qs, p) == Needed(values, qs, w[0]) + NeededFrom(values, qs, Place(w[0]) - 1)
  {
    hide Reached, Place, Digits, Inside, InOrder, HeightOf, Insert, AtBottom, StrayAtBottom, Needed, NeededFrom;
    var n, c, q := |values|, w[0], Place(w[0]) - 1;
    var rest := Without(w, c);
    assert c in w;
    InsideIsPositive(n, qs, c);
    WithoutOrder(w, c);
    WithoutPlaces(n, qs, w, p);
    FrontierStep(n, qs, w, p, rest, q);
    WithoutBag(w, c);
    ParentOf(n, c);
    RepeatsInsert(n, w, rest, c / 2);
    NextPlace(values, qs, w, p);
    Inserted(rest, c / 2);
    forall x | x in Insert(rest, c / 2) ensures StrayAtBottom(n, qs, x, q) {
      if x == c / 2 { ParentIsNoStray(n, qs, c, q); } else { AloneStray(values, qs, w, p, x); }
    }
  }

  lemma WithoutPlaces(n: nat, qs: set<nat>, w: seq<nat>, p: nat)
    requires Frontier(n, qs, w, p) && w != []
    ensures forall x :: x in Without(w, w[0]) <==> x in w && Place(x) <= Place(w[0]) - 1
  {
    hide Reached, Place, InOrder;
    WithoutOrder(w, w[0]);
    FirstLeads(w);
    forall x | x in w ensures x != w[0] <==> Place(x) <= Place(w[0]) - 1 {
      InsideIsPositive(n, qs, x);
      assert w[0] in w;
      InsideIsPositive(n, qs, w[0]);
      PlaceIsOrder(x, w[0]);
    }
  }

  lemma {:induction false} WithoutBag(w: seq<nat>, x: nat)
    ensures multiset(Without(w, x)) <= multiset(w)
  {
    if w != [] {
      WithoutBag(w[1..], x);
      assert w == [w[0]] + w[1..];
    }
  }

  lemma AloneStray(values: seq<Value>, qs: set<nat>, w: seq<nat>, p: nat, x: nat)
    requires |values| >= 1 && AllInside(|values|, qs) && Collecting(|values|, qs, w, p) && w != [] && w[0] != 2
    requires !(w[0] % 2 == 0 && |w| > 1 && w[1] == w[0] + 1)
    requires x in w && x != w[0]
    ensures StrayAtBottom(|values|, qs, x, Place(w[0]) - 1)
  {
    hide Reached, Place, Digits, Inside, InOrder, HeightOf;
    var n, c := |values|, w[0];
    assert StrayAtBottom(n, qs, x, p);
    assert c in w;
    InsideIsPositive(n, qs, c);
    if x % 2 == 1 && Reached(n, qs, x - 1) && Place(c) - 1 < Place(x - 1) <= p {
      FirstIsNext(n, qs, w, p, x - 1);
      InsideIsPositive(n, qs, x - 1);
      PlaceIsOrder(x - 1, c);
      InsideIsPositive(n, qs, x);
      PlaceOfMate(c);
      InList(w, x);
      MateOf(n, c);
    }
  }

  // ---------------------------------------------------------------- a pair

  /** The place up to which everything is visited after a pair: the right index may be listed again. */
  function AfterPair(w: seq<nat>): nat
    requires |w| >= 2
  {
    if |w| > 2 && w[2] == w[1] then Place(w[1]) else Place(w[1]) - 1
  }

  /** Putting the parent of a pair in after its left index leaves the right one in front. */
  lemma PairList(w: seq<nat>)
    requires InOrder(w) && |w| > 1 && w[0] >= 4 && w[0] % 2 == 0 && w[1] == w[0] + 1
    ensures InOrder(w[1..]) && InOrder(w[2..]) && After(w) == Place(w[0]) - 1 == Place(w[1])
    ensures InOrder(Insert(w[2..], w[0] / 2)) && Insert(Insert(w[2..], w[0] / 2), w[1] / 2) == Insert(w[2..], w[0] / 2)
    ensures Insert(w[1..], w[0] / 2) == [w[1]] + Insert(w[2..], w[0] / 2)
    ensures After([w[1]] + Insert(w[2..], w[0] / 2)) == AfterPair(w)
  {
    hide Place, InOrder;
    var c, tail := w[0], w[2..];
    TailOfList(w);
    TailOfList(w[1..]);
    assert w[1..][1..] == tail && w[1..][0] == c + 1;
    PlaceOfMate(c);
    PlaceOfParent(c + 1);
    PairFirst(tail, c);
    Inserted(tail, c / 2);
    Inserted(Insert(tail, c / 2), c / 2);
  }

  lemma PairFirst(tail: seq<nat>, c: nat)
    requires c >= 4 && c % 2 == 0
    ensures Insert(tail, c / 2) != [] && (Insert(tail, c / 2)[0] == c + 1 <==> tail != [] && tail[0] == c + 1)
  {
    hide Place, Insert;
    InsertedHead(tail, c / 2);
    assert (c + 1) / 2 == c / 2;
    PlaceOfParent(c + 1);
    if tail != [] && tail[0] == c + 1 { assert Place(tail[0]) > Place(c / 2); }
  }

  lemma FrontierMeans(n: nat, qs: set<nat>, w: seq<nat>, p: nat)
    requires Frontier(n, qs, w, p) && w != []
    ensures InOrder(w) && Reached(n, qs, w[0]) && Inside(n, w[0]) && w[0] >= 2 && Place(w[0]) <= p
  {
    hide Place, InOrder, Due;
    assert w[0] in w;
  }

  lemma PairFrontier(values: seq<Value>, qs: set<nat>, w: seq<nat>, p: nat)
    requires |values| >= 1 && AllInside(|values|, qs) && Frontier(|values|, qs, w, p)
    requires |w| > 1 && w[0] != 2 && w[0] % 2 == 0 && w[1] == w[0] + 1
    ensures InOrder(w[2..]) && Frontier(|values|, qs, Insert(w[2..], w[0] / 2), AfterPair(w))
    ensures NeededFrom(values, qs, p) == NeededFrom(values, qs, AfterPair(w))
  {
    hide Reached, Place, Inside, Frontier, InOrder, Insert, NeededFrom, After, AfterPair, Needed;
    var n, c := |values|, w[0];
    FrontierMeans(n, qs, w, p);
    ParentOf(n, c);
    PairList(w);
    TailOfList(w);
    FrontierStep(n, qs, w, p, w[1..], After(w));
    NextPlace(values, qs, w, p);
    PairNeedsNothing(values, qs, w, p);
    var v := Insert(w[2..], c / 2);
    var w1 := [c + 1] + v;
    FrontierMeans(n, qs, w1, After(w));
    TailOfList(w1);
    assert w1[1..] == v;
    AfterIs(w1);
    FrontierStep(n, qs, w1, After(w), v, After(w1));
    NextPlace(values, qs, w1, After(w));
    if After(w1) == Place(c + 1) { NeededAt(values, qs, c + 1); }
  }

  lemma PairNeedsNothing(values: seq<Value>, qs: set<nat>, w: seq<nat>, p: nat)
    requires Frontier(|values|, qs, w, p) && |w| > 1 && w[0] % 2 == 0 && w[1] == w[0] + 1
    ensures Needed(values, qs, w[0]) == [] && Needed(values, qs, w[1]) == []
  {
    hide Reached, Place, Inside, InOrder, HashAt, Due;
    assert w[0] in w && w[1] in w;
  }

  /** Visiting a pair at once. */
  lemma PairStep(values: seq<Value>, qs: set<nat>, w: seq<nat>, p: nat)
    requires |values| >= 1 && AllInside(|values|, qs) && Collecting(|values|, qs, w, p)
    requires |w| > 1 && w[0] != 2 && w[0] % 2 == 0 && w[1] == w[0] + 1
    ensures InOrder(w[2..]) && Collecting(|values|, qs, Insert(w[2..], w[0] / 2), AfterPair(w))
    ensures NeededFrom(values, qs, p) == NeededFrom(values, qs, AfterPair(w))
  {
    hide Reached, Place, Inside, Frontier, InOrder, Insert, NeededFrom, StrayAtBottom, AtBottom, AfterPair;
    var n, c := |values|, w[0];
    PairFrontier(values, qs, w, p);
    FrontierMeans(n, qs, w, p);
    ParentOf(n, c);
    assert w == [w[0], w[1]] + w[2..];
    RepeatsInsert(n, w, w[2..], c / 2);
    Inserted(w[2..], c / 2);
    AfterPairIs(w);
    forall x | x in Insert(w[2..], c / 2) ensures StrayAtBottom(n, qs, x, AfterPair(w)) {
      if x == c / 2 { ParentIsNoStray(n, qs, c, AfterPair(w)); } else { PairStray(values, qs, w, p, x); }
    }
  }

  lemma AfterPairIs(w: seq<nat>)
    requires |w| > 1 && w[0] >= 4 && w[0] % 2 == 0 && w[1] == w[0] + 1
    ensures Place(w[1]) == Place(w[0]) - 1 && (AfterPair(w) == Place(w[1]) || AfterPair(w) == Place(w[1]) - 1)
  {
    hide Place;
    PlaceOfMate(w[0]);
  }

  lemma PairStray(values: seq<Value>, qs: set<nat>, w: seq<nat>, p: nat, x: nat)
    requires |values| >= 1 && AllInside(|values|, qs) && Collecting(|values|, qs, w, p)
    requires |w| > 1 && w[0] >= 4 && w[0] % 2 == 0 && w[1] == w[0] + 1 && x in w[2..]
    ensures StrayAtBottom(|values|, qs, x, AfterPair(w))
  {
    hide Reached, Place, Inside, InOrder, AtBottom, AfterPair, RepeatsAtBottom, Frontier, Collecting, AllInside;
    var n, c := |values|, w[0];
    LaterInList(w, x);
    StrayOf(n, qs, w, p, x);
    FrontierMeans(n, qs, w, p);
    AfterPairIs(w);
    if x % 2 == 1 && Reached(n, qs, x - 1) && AfterPair(w) < Place(x - 1) && Place(x - 1) <= p {
      assert (x - 1) % 2 == 0;
      FirstIsNext(n, qs, w, p, x - 1);
      InsideIsPositive(n, qs, x - 1);
      PairPlaces(c, x - 1);
      ListedTwice(w, x);
      RepeatIsBottom(n, w, x);
    }
  }

  lemma PairPlaces(c: nat, y: nat)
    requires c >= 4 && c % 2 == 0 && y >= 1 && y % 2 == 0 && Place(c) - 2 < Place(y) <= Place(c)
    ensures y == c
  {
    hide Place;
    PlaceOfMate(c);
    PlaceIsOrder(y, c);
    PlaceIsOrder(y, c + 1);
  }

  lemma LaterInList(w: seq<nat>, x: nat)
    requires |w| > 1 && x in w[2..]
    ensures x in w
  {
  }

  lemma StrayOf(n: nat, qs: set<nat>, w: seq<nat>, p: nat, x: nat)
    requires Collecting(n, qs, w, p) && x in w
    ensures StrayAtBottom(n, qs, x, p) && Frontier(n, qs, w, p) && RepeatsAtBottom(n, w)
  {
    hide StrayAtBottom, Frontier, RepeatsAtBottom;
  }

  lemma ListedTwice(w: seq<nat>, x: nat)
    requires |w| > 1 && w[1] == x && x in w[2..]
    ensures multiset(w)[x] >= 2
  {
    assert w == [w[0], w[1]] + w[2..];
  }

  lemma RepeatIsBottom(n: nat, w: seq<nat>, x: nat)
    requires RepeatsAtBottom(n, w) && multiset(w)[x] >= 2
    ensures AtBottom(n, x)
  {
    hide AtBottom;
  }

  // ---------------------------------------------------------------- the method

  /** Every place of a tree. */
  function FirstPlace(n: nat): nat
    requires n >= 1
  {
    2 * Pow2(HeightOf(n))
  }

  lemma PlacesInside(n: nat, x: nat)
    requires Inside(n, x)
    ensures Place(x) <= FirstPlace(n)
  {
    hide HeightOf, Digits, Pow2, Place;
    PlaceRange(x);
    Pow2Monotone(Digits(x) - 1, HeightOf(n));
  }

  lemma FrontierStart(n: nat, qs: set<nat>, w: seq<nat>)
    requires n >= 1 && AllInside(n, qs) && InOrder(w) && forall x :: x in w <==> x in qs
    ensures Frontier(n, qs, w, FirstPlace(n))
  {
    hide Reached, Place, InOrder, FirstPlace, Inside;
    forall x | x in w ensures Reached(n, qs, x) && Place(x) <= FirstPlace(n) {
      ReachedQuery(n, qs, x);
      PlacesInside(n, x);
    }
    forall x: nat | Due(n, qs, x, FirstPlace(n)) ensures x in w {
      if Reached(n, qs, 2 * x) { InsideIsPositive(n, qs, 2 * x); PlacesInside(n, 2 * x); }
      if Reached(n, qs, 2 * x + 1) { InsideIsPositive(n, qs, 2 * x + 1); PlacesInside(n, 2 * x + 1); }
    }
  }

  /** The indexes that are not 0. */
  function Present(idxs: seq<nat>): seq<nat> {
    if idxs == [] then [] else Present(idxs[..|idxs| - 1]) + if idxs[|idxs| - 1] == 0 then [] else [idxs[|idxs| - 1]]
  }

  lemma {:induction false} PresentMembers(idxs: seq<nat>, x: nat)
    ensures x in Present(idxs) <==> x in idxs && x != 0
  {
    if idxs != [] {
      assert idxs == idxs[..|idxs| - 1] + [idxs[|idxs| - 1]];
      PresentMembers(idxs[..|idxs| - 1], x);
    }
  }

  lemma SortedPresent(idxs: seq<nat>)
    ensures multiset(SortIndexes(Present(idxs))) == multiset(Present(idxs))
    ensures InOrder(SortIndexes(Present(idxs))) && forall x :: x in SortIndexes(Present(idxs)) <==> x in idxs && x != 0
  {
    var w := Present(idxs);
    forall i | 0 <= i < |w| ensures w[i] >= 1 { PresentMembers(idxs, w[i]); }
    SortedIndexes(w);
    forall x ensures x in SortIndexes(w) <==> x in idxs && x != 0 {
      PresentMembers(idxs, x);
      assert x in SortIndexes(w) <==> x in multiset(SortIndexes(w));
      assert x in w <==> x in multiset(w);
    }
  }

  lemma PresentSnoc(idxs: seq<nat>, i: nat)
    requires i < |idxs|
    ensures Present(idxs[..i + 1]) == Present(idxs[..i]) + if idxs[i] == 0 then [] else [idxs[i]]
  {
    assert idxs[..i + 1][..i] == idxs[..i];
  }

  /** The queries of a list of indexes. */
  function Queries(idxs: seq<nat>): set<nat> { set x | x in idxs && x != 0 }

  lemma CollectingStart(n: nat, idxs: seq<nat>)
    requires n >= 1 && AllNodes(n, Queries(idxs)) && RepeatsAtBottom(n, Present(idxs))
    ensures Collecting(n, Queries(idxs), SortIndexes(Present(idxs)), FirstPlace(n))
  {
    hide Reached, Place, InOrder, FirstPlace, Inside, Present, SortIndexes, Frontier, AtBottom;
    var qs, w := Queries(idxs), SortIndexes(Present(idxs));
    SortedPresent(idxs);
    FrontierStart(n, qs, w);
    forall x | x in w ensures StrayAtBottom(n, qs, x, FirstPlace(n)) {
      if x % 2 == 1 && Reached(n, qs, x - 1) { InsideIsPositive(n, qs, x - 1); PlacesInside(n, x - 1); }
    }
  }

  lemma CollectingMeans(n: nat, qs: set<nat>, w: seq<nat>, p: nat)
    requires Collecting(n, qs, w, p) && w != []
    ensures Frontier(n, qs, w, p) && InOrder(w) && Reached(n, qs, w[0]) && Inside(n, w[0]) && w[0] >= 2
  {
    hide Reached, Place, InOrder, StrayAtBottom;
    FrontierMeans(n, qs, w, p);
  }

  lemma NotTopPair(values: seq<Value>, qs: set<nat>, w: seq<nat>, p: nat)
    requires |values| >= 1 && Frontier(|values|, qs, w, p) && |w| > 1 && w[1] == w[0] + 1
    ensures w[0] != 2
  {
    hide Place, InOrder, Inside;
    TopIndex(values);
    assert w[1] in w;
  }

  /** For an even index the second test of the loop says all there is to say. */
  lemma NoPair(n: nat, qs: set<nat>, w: seq<nat>, p: nat)
    requires Frontier(n, qs, w, p) && w != [] && w[0] != 2
    requires !(w[0] % 2 == 0 && |w| > 1 && Digits(w[0]) == Digits(w[1]) && w[1] == w[0] + 1)
    ensures !(w[0] % 2 == 0 && |w| > 1 && w[1] == w[0] + 1)
  {
    hide Reached, Place, InOrder, Inside, Digits;
    FrontierMeans(n, qs, w, p);
    ParentOf(n, w[0]);
    DigitsHalf(w[0]);
    DigitsHalf(w[0] + 1);
  }

  lemma NextPlaceAtTop(values: seq<Value>, qs: set<nat>, w: seq<nat>, p: nat)
    requires |values| >= 1 && AllInside(|values|, qs) && Frontier(|values|, qs, w, p) && w != [] && w[0] == 2
    ensures NeededFrom(values, qs, p) == []
  {
    NextPlace(values, qs, w, p);
  }

  /** With an empty list everything reached was visited. */
  lemma {:induction false} AllVisited(n: nat, qs: set<nat>, p: nat, x: nat)
    requires AllInside(n, qs) && Frontier(n, qs, [], p) && Reached(n, qs, x)
    ensures Place(x) > p
    decreases LocOf(n, x).layer
  {
    hide Reached, Place, LocOf, Inside;
    assert !Due(n, qs, x, p);
    if x !in qs {
      InsideIsPositive(n, qs, x);
      ReachedDown(n, qs, x);
      AllVisited(n, qs, p, if Reached(n, qs, 2 * x) then 2 * x else 2 * x + 1);
    }
  }

  lemma NothingLeft(values: seq<Value>, qs: set<nat>, p: nat)
    requires AllInside(|values|, qs) && Collecting(|values|, qs, [], p)
    ensures NeededFrom(values, qs, p) == []
  {
    hide Reached, Place, Frontier, StrayAtBottom;
    forall x | Reached(|values|, qs, x) ensures Place(x) > p { AllVisited(|values|, qs, p, x); }
    if p > 4 { NeededSkips(values, qs, p, 4); }
  }

  lemma PairShrinks(w: seq<nat>)
    requires |w| > 1 && w[0] >= 1
    ensures Total(Insert(w[2..], w[0] / 2)) < Total(w)
  {
    assert w[1..][1..] == w[2..];
    InsertTotal(w[2..], w[0] / 2);
  }

  lemma {:induction false} WithoutTotal(w: seq<nat>, x: nat)
    ensures Total(Without(w, x)) <= Total(w)
  {
    if w != [] {
      WithoutTotal(w[1..], x);
      assert ([w[0]] + Without(w[1..], x))[1..] == Without(w[1..], x);
    }
  }

  lemma AloneShrinks(w: seq<nat>)
    requires w != [] && w[0] >= 1
    ensures Total(Insert(Without(w, w[0]), w[0] / 2)) < Total(w)
  {
    WithoutTotal(w[1..], w[0]);
    InsertTotal(Without(w, w[0]), w[0] / 2);
  }

  /** The part of the loop for an index that is visited alone: the hash of its sibling, if that is no query. */
  method SiblingHash(tree: RegularMerkleTree, idxs: seq<nat>, current: nat, ghost w: seq<nat>, ghost p: nat)
    returns (r: Option<seq<Hash>>)
    requires tree.Valid() && tree.size >= 1 && HeightOf(tree.size) <= 30 && AllInside(tree.size, Queries(idxs))
    requires Collecting(tree.size, Queries(idxs), w, p) && w != [] && w[0] == current && current != 2
    requires Reached(tree.size, Queries(idxs), current) && Inside(tree.size, current)
    requires !(current % 2 == 0 && |w| > 1 && w[1] == current + 1)
    ensures r == Some(Needed(tree.values, Queries(idxs), current))
  {
    hide Node, Start, Root, Pow2, Resolve, EncodeIndex, DecodeIndex, HeightOf, NodesStored, LayersMatch, PathLocated,
      LeavesLocated, AppendPath, Collecting, Place, Reached, Inside, Stored, Digits;
    ghost var values, n, qs := tree.values, tree.size, Queries(idxs);
    var height := HeightOf(tree.size);
    Named(n, current);
    MateOf(n, current);
    var loc := DecodeIndex(current, height).value;
    ResolveFinds(values, Sibling(loc.index), loc.layer);
    var sibling := GetRightSiblingInfo(loc.index, loc.layer, tree.size);
    if sibling.None? {
      return Some([]);
    }
    StoredIsResolved(values, Mate(current));
    Named(n, Stored(n, Mate(current)));
    MateQueried(values, qs, w, p);
    var siblingIndex := EncodeIndex(sibling.value, height);
    if siblingIndex.None? {
      return None;
    }
    if siblingIndex.value in idxs {
      return Some([]);
    }
    StoredAt(tree.store, tree.values, sibling.value);
    if sibling.value !in tree.store.hashAt {
      return None;
    }
    return Some([tree.store.hashAt[sibling.value]]);
  }

  /** getSiblingHashes: exactly the hashes that the queries need besides their own, in the order in which verification
      uses them; None when it returns an error. */
  method GetSiblingHashes(tree: RegularMerkleTree, idxs: seq<nat>) returns (r: Option<seq<Hash>>)
    requires tree.Valid() && tree.size >= 1 && (HeightOf(tree.size) <= 30 || Queries(idxs) == {})
    requires AllNodes(tree.size, Queries(idxs)) && RepeatsAtBottom(tree.size, Present(idxs))
    ensures r == Some(NeededFrom(tree.values, Queries(idxs), FirstPlace(tree.size)))
  {
    hide HeightOf, Collecting, Frontier, InOrder, Insert, Place, Reached, Inside, NeededFrom, Needed, FirstPlace,
      Without, AfterPair, RepeatsAtBottom, SortIndexes, Present, Queries, NodesStored, LayersMatch, PathLocated,
      LeavesLocated, AppendPath, Root, Digits;
    ghost var values, n, qs := tree.values, tree.size, Queries(idxs);
    NodesInside(n, qs);
    var sorted := NotZero(idxs);
    sorted := SortIndexes(sorted);
    CollectingStart(n, idxs);
    NothingPresent(idxs);
    var siblings := [];
    ghost var p: nat := FirstPlace(n);
    while |sorted| > 0
      invariant Collecting(n, qs, sorted, p) && (HeightOf(n) <= 30 || sorted == [])
      invariant siblings + NeededFrom(values, qs, p) == NeededFrom(values, qs, FirstPlace(n))
      decreases Total(sorted)
    {
      var current := sorted[0];
      CollectingMeans(n, qs, sorted, p);
      if current % 2 == 0 && |sorted| > 1 && Digits(current) == Digits(sorted[1]) && sorted[1] == current + 1 {
        NotTopPair(values, qs, sorted, p);
        PairStep(values, qs, sorted, p);
        PairShrinks(sorted);
        p := AfterPair(sorted);
        sorted := InsertIndex(sorted[2..], current / 2);
        continue;
      }
      if current == 2 {
        NextPlaceAtTop(values, qs, sorted, p);
        assert siblings + [] == siblings;
        return Some(siblings);
      }
      NoPair(n, qs, sorted, p);
      AloneStep(values, qs, sorted, p);
      AloneShrinks(sorted);
      var hashes := SiblingHash(tree, idxs, current, sorted, p);
      if hashes.None? {
        return None;
      }
      siblings := siblings + hashes.value;
      p := Place(current) - 1;
      var rest := RemoveIndex(sorted, current);
      sorted := InsertIndex(rest, current / 2);
    }
    NothingLeft(values, qs, p);
    assert siblings + [] == siblings;
    return Some(siblings);
  }

  lemma NothingPresent(idxs: seq<nat>)
    ensures Queries(idxs) == {} ==> SortIndexes(Present(idxs)) == []
  {
    hide SortIndexes, Present, InOrder;
    SortedPresent(idxs);
    assert forall x :: x in idxs && x != 0 ==> x in Queries(idxs);
    FirstIsMember(SortIndexes(Present(idxs)));
  }

  lemma FirstIsMember(w: seq<nat>)
    ensures w == [] || w[0] in w
  {
  }

  method NotZero(idxs: seq<nat>) returns (r: seq<nat>)
    ensures r == Present(idxs)
  {
    r := [];
    for i := 0 to |idxs|
      invariant r == Present(idxs[..i])
    {
      PresentSnoc(idxs, i);
      if idxs[i] != 0 {
        r := r + [idxs[i]];
      }
    }
    assert idxs[..|idxs|] == idxs;
  }

  lemma NodesInside(n: nat, qs: set<nat>)
    requires AllNodes(n, qs)
    ensures AllInside(n, qs)
  {
    hide Inside;
  }
}
