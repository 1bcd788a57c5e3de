/** Which hashes verification compares, and which it leaves aside: the condition on the indexes under which an accepted
    proof is true of every query (pkg/trie/rmt/util.go). */
module RmtSound {
  import opened Basics
  import opened RmtRoot
  import opened RmtTree
  import opened RmtIndex
  import opened RmtWork
  import opened RmtReach
  import opened RmtVerify

  // ---------------------------------------------------------------- the condition

  /** A place at `x` or further down its only children that is no node of its own is a query. */
  predicate ChainQueried(n: nat, qs: set<nat>, x: nat)
    requires Inside(n, x)
    decreases LocOf(n, x).layer
  {
    !NodeAt(n, x) && (x in qs || (LeftOf(n, x); ChainQueried(n, qs, 2 * x)))
  }

  /** The first place from `x` upward that has a neighbour. */
  function Shoulder(n: nat, x: nat): (t: nat)
    requires Inside(n, x) && x != 2
    ensures Inside(n, t) && t != 2 && Inside(n, Mate(t)) && t <= x && Digits(t) <= Digits(x) && Stored(n, t) == Stored(n, x)
  {
    if Inside(n, Mate(x)) then x
    else
      Joined(seq(n, _ => []), x);
      TopIndex(seq(n, _ => []));
      ParentOf(n, x);
      Shoulder(n, x / 2)
  }

  /** A query at a place that is no node of its own takes the place of what comes from below. That is compared all the
      same if it is the only such query on its chain and the neighbour of the chain's top is reached as well. */
  ghost predicate Compared(n: nat, qs: set<nat>) {
    forall q :: q in qs && Inside(n, q) && !NodeAt(n, q) && Reached(n, qs, 2 * q) ==>
      Inside(n, 2 * q) && q != 2 && !ChainQueried(n, qs, 2 * q) && Reached(n, qs, Mate(Shoulder(n, q)))
  }

  // ---------------------------------------------------------------- soundness

  /** The loop ends with the root of the tree. */
  predicate Arrives(values: seq<Value>, s: Progress) {
    |values| >= 1 && var r := Walk(|values|, s); r.Some? && 2 in r.value && r.value[2] == Root(values)
  }

  /** What is known of a place without queries on its chain is the hash of the node at the chain's end. */
  lemma {:induction false} KnownFromBelow(n: nat, qs: set<nat>, s: Progress, x: nat)
    requires Sane(n, qs, s) && Inside(n, x) && Known(s, x).Some? && !ChainQueried(n, qs, x)
    ensures Stored(n, x) in s.result && Known(s, x) == Some(s.result[Stored(n, x)])
    decreases LocOf(n, x).layer
  {
    hide Reached, Place, Digits, Inside, InOrder, NodeAt, LocOf;
    if NodeAt(n, x) {
      assert x in s.cache ==> HandedUp(n, s, x);
    } else {
      LeftOf(n, x);
      assert x !in s.result && HandedUp(n, s, x);
      KnownFromBelow(n, qs, s, 2 * x);
    }
  }

  ghost predicate Sound(n: nat, qs: set<nat>, s: Progress, p: nat) {
    AllInside(n, qs) && Sane(n, qs, s) && Frontier(n, qs, s.work, p)
  }

  lemma SoundStep(values: seq<Value>, qs: set<nat>, s: Progress, p: nat)
    requires |values| >= 1 && HeightOf(|values|) <= 30 && Sound(|values|, qs, s, p) && s.work[0] != 2 && Turn(|values|, s).Some?
    ensures Sound(|values|, qs, Turn(|values|, s).value, After(s.work))
  {
    hide Reached, Place, Digits, Inside, Insert, HeightOf, NodeAt, Turn, InOrder, HandedUp, Frontier, After, AllInside;
    var n := |values|;
    SaneStep(values, qs, s);
    SaneMeans(n, qs, s);
    TailOfList(s.work);
    AfterIs(s.work);
    TurnShrinks(n, s);
    FrontierStep(n, qs, s.work, p, s.work[1..], After(s.work));
  }

  lemma SaneMeans(n: nat, qs: set<nat>, s: Progress)
    requires Sane(n, qs, s)
    ensures s.work != [] && InOrder(s.work)
  {
  }

  lemma ArrivesStep(values: seq<Value>, s: Progress)
    requires |values| >= 1 && s.work != [] && s.work[0] != 2 && Arrives(values, s)
    ensures Turn(|values|, s).Some? && Arrives(values, Turn(|values|, s).value) && Total(Turn(|values|, s).value.work) < Total(s.work)
  {
    hide Turn, Root;
    TurnShrinks(|values|, s);
  }

  /** Every hash the loop still has to visit is right. */
  lemma {:induction false} ArrivedIsRight(values: seq<Value>, qs: set<nat>, s: Progress, p: nat, x: nat)
    requires |values| >= 1 && HeightOf(|values|) <= 30 && Compared(|values|, qs) && Sound(|values|, qs, s, p)
    requires Arrives(values, s) && x in s.work
    ensures Inside(|values|, x) && Known(s, x) == Some(HashAt(values, x))
    decreases Total(s.work), 2
  {
    hide Reached, Place, Digits, Inside, Insert, HeightOf, NodeAt, Turn, HashAt, InOrder, Root, Compared, Frontier, Arrives,
      AllInside, HandedUp;
    var n, first := |values|, s.work[0];
    SaneFirst(n, qs, s);
    InsideIsPositive(n, qs, x);
    if first == 2 {
      TopIndex(values);
      FirstLeads(s.work);
      BeforeTop(n, x);
      PlaceOfTop();
      ArrivedAtTop(values, s);
    } else {
      ArrivesStep(values, s);
      SoundStep(values, qs, s, p);
      TurnShrinks(n, s);
      TailOfList(s.work);
      Inserted(s.work[1..], first / 2);
      var t := Turn(n, s).value;
      if x == first {
        ArrivedIsRight(values, qs, t, After(s.work), first / 2);
        if !Inside(n, Mate(first)) && first / 2 in qs {
          DroppedIsRight(values, qs, s, p);
        } else {
          RightBelow(values, qs, s);
        }
      } else {
        assert x in s.work[1..];
        ArrivedIsRight(values, qs, t, After(s.work), x);
        KnownStays(values, qs, s, x);
      }
    }
  }

  lemma ArrivedAtTop(values: seq<Value>, s: Progress)
    requires |values| >= 1 && s.work != [] && s.work[0] == 2 && Arrives(values, s)
    ensures Known(s, 2) == Some(Root(values))
  {
  }

  /** If the parent's hash is right after a turn and was not given, or both children count, the hash of the index was. */
  lemma RightBelow(values: seq<Value>, qs: set<nat>, s: Progress)
    requires |values| >= 1 && HeightOf(|values|) <= 30 && Sane(|values|, qs, s) && s.work[0] != 2 && Turn(|values|, s).Some?
    requires Inside(|values|, s.work[0] / 2) && Inside(|values|, s.work[0])
    requires Inside(|values|, Mate(s.work[0])) || s.work[0] / 2 !in qs
    requires Known(Turn(|values|, s).value, s.work[0] / 2) == Some(HashAt(values, s.work[0] / 2))
    ensures Known(s, s.work[0]) == Some(HashAt(values, s.work[0]))
  {
    hide Reached, Place, Digits, Inside, Insert, HeightOf, NodeAt, Turn, HashAt, InOrder, HandedUp;
    var n, x := |values|, s.work[0];
    assert x in s.work;
    TurnInside(values, s);
    Joined(values, x);
  }

  /** A hash that a query takes the place of is right, because the neighbour of the chain's top looks it up. */
  lemma DroppedIsRight(values: seq<Value>, qs: set<nat>, s: Progress, p: nat)
    requires |values| >= 1 && HeightOf(|values|) <= 30 && Compared(|values|, qs) && Sound(|values|, qs, s, p)
    requires Arrives(values, s) && s.work[0] != 2
    requires Inside(|values|, s.work[0]) && !Inside(|values|, Mate(s.work[0])) && s.work[0] / 2 in qs
    ensures Known(s, s.work[0]) == Some(HashAt(values, s.work[0]))
    decreases Total(s.work), 1
  {
    hide Reached, Place, Digits, Insert, HeightOf, NodeAt, Turn, HashAt, InOrder, Root, Frontier, Arrives, AllInside, HandedUp,
      Inside, Stored, Compared, ChainQueried;
    var n, x := |values|, s.work[0];
    SaneFirst(n, qs, s);
    var m := LooksItUp(values, qs, x);
    KnownFromBelow(n, qs, s, x);
    StoredIsResolved(values, x);
    FirstBefore(n, qs, s.work, p);
    LookedUpIsRight(values, qs, s, p, m);
    StoredIsResolved(values, Mate(m));
  }

  /** The place that will look up what comes from below a query. */
  lemma LooksItUp(values: seq<Value>, qs: set<nat>, x: nat) returns (m: nat)
    requires |values| >= 1 && Compared(|values|, qs) && Reached(|values|, qs, x) && Inside(|values|, x) && x != 2
    requires !Inside(|values|, Mate(x)) && x / 2 in qs
    ensures !ChainQueried(|values|, qs, x)
    ensures Reached(|values|, qs, m) && Place(m) < Place(x)
    ensures Inside(|values|, Mate(m)) && Stored(|values|, Mate(m)) == Stored(|values|, x)
  {
    hide Reached, Place, Digits, HeightOf, NodeAt, HashAt, Inside, Stored, ChainQueried;
    var n := |values|;
    Joined(values, x);
    assert x == 2 * (x / 2);
    TopIndex(values);
    ParentOf(n, x);
    var top := Shoulder(n, x / 2);
    m := Mate(top);
    MateOf(n, top);
    InsideIsPositive(n, qs, m);
    MoreDigits(x, m);
  }

  lemma FirstBefore(n: nat, qs: set<nat>, w: seq<nat>, p: nat)
    requires Frontier(n, qs, w, p) && w != []
    ensures Place(w[0]) <= p
  {
    hide Reached, Place, InOrder, Due;
    assert w[0] in w;
  }

  /** A hash that is still to be looked up as a sibling's is right. */
  lemma {:induction false} LookedUpIsRight(values: seq<Value>, qs: set<nat>, s: Progress, p: nat, m: nat)
    requires |values| >= 1 && HeightOf(|values|) <= 30 && Compared(|values|, qs) && Sound(|values|, qs, s, p)
    requires Arrives(values, s)
    requires Reached(|values|, qs, m) && Place(m) <= p && Inside(|values|, Mate(m)) && Stored(|values|, Mate(m)) in s.result
    ensures s.result[Stored(|values|, Mate(m))] == HashAt(values, Mate(m))
    decreases Total(s.work), 0
  {
    hide Reached, Place, Digits, Insert, HeightOf, NodeAt, Turn, HashAt, InOrder, Root, Frontier, Arrives, AllInside, HandedUp,
      Inside, Stored, Compared;
    var n, first, b := |values|, s.work[0], Stored(|values|, Mate(m));
    SaneFirst(n, qs, s);
    InsideIsPositive(n, qs, m);
    FirstIsNext(n, qs, s.work, p, m);
    TopIndex(values);
    BeforeTop(n, m);
    PlaceOfTop();
    if first != 2 {
      ArrivesStep(values, s);
      SoundStep(values, qs, s, p);
      TurnShrinks(n, s);
      TailOfList(s.work);
      Inserted(s.work[1..], first / 2);
      TurnResult(values, s);
      var t := Turn(n, s).value;
      if m == first {
        ArrivedIsRight(values, qs, t, After(s.work), first / 2);
        SiblingRight(values, s);
      } else {
        PlaceIsOrder(m, first);
        AfterIs(s.work);
        KnownStays(values, qs, s, b);
        LookedUpIsRight(values, qs, t, After(s.work), m);
      }
    }
  }

  /** If the parent's hash is right after a turn, the hash looked up for the sibling was. */
  lemma SiblingRight(values: seq<Value>, s: Progress)
    requires |values| >= 1 && HeightOf(|values|) <= 30 && s.work != [] && s.work[0] != 2 && Turn(|values|, s).Some?
    requires Inside(|values|, s.work[0]) && Inside(|values|, Mate(s.work[0])) && Known(s, s.work[0]).Some?
    requires Stored(|values|, Mate(s.work[0])) in s.result && Inside(|values|, s.work[0] / 2)
    requires Known(Turn(|values|, s).value, s.work[0] / 2) == Some(HashAt(values, s.work[0] / 2))
    ensures s.result[Stored(|values|, Mate(s.work[0]))] == HashAt(values, Mate(s.work[0]))
  {
    hide Digits, Insert, HeightOf, NodeAt, Turn, HashAt, Inside, Stored;
    TurnInside(values, s);
    Joined(values, s.work[0]);
  }
}
