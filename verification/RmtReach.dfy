/** Which nodes a set of queries determines, which sibling hashes it needs besides, and in which order
    (pkg/trie/rmt/rmt.go, util.go). */
module RmtReach {
  import opened Basics
  import opened RmtRoot
  import opened RmtTree
  import opened RmtIndex
  import opened RmtWork

  // ---------------------------------------------------------------- reached

  ghost predicate AllInside(n: nat, qs: set<nat>) { forall q :: q in qs ==> Inside(n, q) }

  /** A query at most `depth` layers below the index, or the index itself. */
  predicate ReachedIn(qs: set<nat>, x: nat, depth: nat)
    decreases depth
  {
    x in qs || (depth > 0 && (ReachedIn(qs, 2 * x, depth - 1) || ReachedIn(qs, 2 * x + 1, depth - 1)))
  }

  /** The queries determine the subtree of the index, at least in part: one of them lies at or below it. */
  predicate Reached(n: nat, qs: set<nat>, x: nat) { Inside(n, x) && ReachedIn(qs, x, LocOf(n, x).layer) }

  lemma ReachedUp(n: nat, qs: set<nat>, x: nat)
    requires Reached(n, qs, x) && x != 2
    ensures Reached(n, qs, x / 2)
  {
    hide LocOf, Inside;
    ParentOf(n, x);
    assert x == 2 * (x / 2) || x == 2 * (x / 2) + 1;
  }

  lemma ReachedQuery(n: nat, qs: set<nat>, x: nat)
    requires AllInside(n, qs) && x in qs
    ensures Reached(n, qs, x)
  {
  }

  lemma {:induction false} ReachedIsInside(n: nat, qs: set<nat>, x: nat, depth: nat)
    requires AllInside(n, qs) && n >= 1 && x >= 2 && Digits(x) + depth == HeightOf(n) + 1 && ReachedIn(qs, x, depth)
    ensures Inside(n, x)
    decreases depth
  {
    hide HeightOf, Inside, Digits;
    if x !in qs {
      var c := if ReachedIn(qs, 2 * x, depth - 1) then 2 * x else 2 * x + 1;
      DigitsHalf(c);
      ReachedIsInside(n, qs, c, depth - 1);
      TopIndex(seq(n, _ => []));
      ParentOf(n, c);
    }
  }

  /** What is reached is a query or has a reached child. */
  lemma ReachedDown(n: nat, qs: set<nat>, x: nat)
    requires AllInside(n, qs) && Reached(n, qs, x) && x !in qs
    ensures LocOf(n, x).layer > 0 && (Reached(n, qs, 2 * x) || Reached(n, qs, 2 * x + 1))
    ensures forall c :: c / 2 == x && Reached(n, qs, c) ==> LocOf(n, c).layer < LocOf(n, x).layer
  {
    hide HeightOf, Digits, Start, Pow2;
    var layer := LocOf(n, x).layer;
    var c := if ReachedIn(qs, 2 * x, layer - 1) then 2 * x else 2 * x + 1;
    DigitsHalf(2 * x);
    DigitsHalf(2 * x + 1);
    ReachedIsInside(n, qs, c, layer - 1);
    forall d | d / 2 == x && Reached(n, qs, d) ensures LocOf(n, d).layer < layer { DigitsHalf(d); }
  }

  /** Where the subtree of an index is stored is reached only if the index is. */
  lemma {:induction false} StoredReached(n: nat, qs: set<nat>, x: nat)
    requires Inside(n, x) && Reached(n, qs, Stored(n, x))
    ensures Reached(n, qs, x)
    decreases LocOf(n, x).layer
  {
    hide HeightOf, Digits, Start, Pow2, ReachedIn;
    if !NodeAt(n, x) {
      LeftOf(n, x);
      StoredReached(n, qs, 2 * x);
      ReachedUp(n, qs, 2 * x);
    }
  }

  // ---------------------------------------------------------------- what a proof needs

  /** The hash the proof adds for a reached index: that of its mate, unless the queries determine that one too. */
  function Needed(values: seq<Value>, qs: set<nat>, x: nat): seq<Hash> {
    if x != 2 && Reached(|values|, qs, x) && Inside(|values|, Mate(x)) && !Reached(|values|, qs, Mate(x))
    then [HashAt(values, Mate(x))] else []
  }

  /** The hashes that all indexes from a place on need, in their order. */
  function NeededFrom(values: seq<Value>, qs: set<nat>, p: nat): seq<Hash> {
    if p <= 4 then [] else Needed(values, qs, IndexAt(p)) + NeededFrom(values, qs, p - 1)
  }

  lemma NeededAt(values: seq<Value>, qs: set<nat>, x: nat)
    requires x >= 1 && Place(x) > 4
    ensures NeededFrom(values, qs, Place(x)) == Needed(values, qs, x) + NeededFrom(values, qs, Place(x) - 1)
  {
    hide Needed, Place;
    PlaceIsOrder(IndexAt(Place(x)), x);
  }

  lemma {:induction false} NeededSkips(values: seq<Value>, qs: set<nat>, p: nat, q: nat)
    requires 4 <= q <= p
    requires forall x :: Reached(|values|, qs, x) ==> !(q < Place(x) <= p)
    ensures NeededFrom(values, qs, p) == NeededFrom(values, qs, q)
  {
    hide Reached, Place, Needed, IndexAt;
    if q < p {
      UnreachedNeedsNothing(values, qs, IndexAt(p));
      NeededSkips(values, qs, p - 1, q);
    }
  }

  lemma UnreachedNeedsNothing(values: seq<Value>, qs: set<nat>, x: nat)
    ensures !Reached(|values|, qs, x) ==> Needed(values, qs, x) == []
  {
    hide Reached, Inside, HashAt;
  }

  // ---------------------------------------------------------------- the list of indexes to visit

  /** A child of the index is reached and was visited before place `p`. */
  predicate ChildVisited(n: nat, qs: set<nat>, x: nat, p: nat) {
    || (Reached(n, qs, 2 * x) && Place(2 * x) > p)
    || (Reached(n, qs, 2 * x + 1) && Place(2 * x + 1) > p)
  }

  /** The index is to be visited at place `p` or later: it is a query, or the parent of a visited index. */
  predicate Due(n: nat, qs: set<nat>, x: nat, p: nat) {
    Reached(n, qs, x) && Place(x) <= p && (x in qs || ChildVisited(n, qs, x, p))
  }

  /** The list holds reached indexes from place `p` on, among them all that are due. */
  ghost predicate Frontier(n: nat, qs: set<nat>, w: seq<nat>, p: nat) {
    && InOrder(w)
    && (forall x :: x in w ==> Reached(n, qs, x) && Place(x) <= p)
    && (forall x :: Due(n, qs, x, p) ==> x in w)
  }

  /** Nothing reached is skipped: the first of the list is the next reached index. */
  lemma {:induction false} FirstIsNext(n: nat, qs: set<nat>, w: seq<nat>, p: nat, x: nat)
    requires AllInside(n, qs) && Frontier(n, qs, w, p) && w != []
    requires Reached(n, qs, x) && Place(x) <= p
    ensures Place(x) <= Place(w[0])
    decreases LocOf(n, x).layer
  {
    hide Reached, Place, LocOf, Inside;
    FirstLeads(w);
    if x in qs {
      assert Due(n, qs, x, p);
    } else {
      InsideIsPositive(n, qs, x);
      ReachedDown(n, qs, x);
      var c := if Reached(n, qs, 2 * x) then 2 * x else 2 * x + 1;
      if Place(c) <= p {
        PlaceOfChild(x, c);
        FirstIsNext(n, qs, w, p, c);
      } else {
        assert Due(n, qs, x, p);
      }
    }
  }

  lemma InsideIsPositive(n: nat, qs: set<nat>, x: nat)
    requires Reached(n, qs, x)
    ensures x >= 2 && Inside(n, x)
  {
  }

  lemma FirstLeads(w: seq<nat>)
    requires InOrder(w) && w != []
    ensures forall x :: x in w ==> Place(x) <= Place(w[0])
  {
    hide Place;
    assert w == [w[0]] + w[1..];
  }

  /** Visiting the first index of the list, some of whose occurrences may stay in it. */
  lemma FrontierStep(n: nat, qs: set<nat>, w: seq<nat>, p: nat, rest: seq<nat>, q: nat)
    requires AllInside(n, qs) && Frontier(n, qs, w, p) && w != [] && w[0] != 2 && InOrder(rest)
    requires q == Place(w[0]) || q == Place(w[0]) - 1
    requires forall x :: x in rest <==> x in w && Place(x) <= q
    ensures Frontier(n, qs, Insert(rest, w[0] / 2), q)
  {
    hide Reached, Place, InOrder, Insert;
    var first := w[0];
    FirstLeads(w);
    InsideIsPositive(n, qs, first);
    ReachedUp(n, qs, first);
    PlaceOfParent(first);
    Inserted(rest, first / 2);
    forall x | Due(n, qs, x, q) ensures x in Insert(rest, first / 2) {
      DueLater(n, qs, w, p, q, x);
    }
  }

  lemma DueLater(n: nat, qs: set<nat>, w: seq<nat>, p: nat, q: nat, x: nat)
    requires AllInside(n, qs) && Frontier(n, qs, w, p) && w != []
    requires q == Place(w[0]) || q == Place(w[0]) - 1
    requires Due(n, qs, x, q)
    ensures x in w || x == w[0] / 2
  {
    hide Reached, Place, InOrder;
    assert w[0] in w;
    InsideIsPositive(n, qs, x);
    InsideIsPositive(n, qs, w[0]);
    var c := if Reached(n, qs, 2 * x) && Place(2 * x) > q then 2 * x else 2 * x + 1;
    if x in qs || Place(c) > p {
      assert Due(n, qs, x, p);
    } else {
      FirstIsNext(n, qs, w, p, c);
      PlaceIsOrder(c, w[0]);
    }
  }
}
