/** Hashes that verification never compares: where the condition on the indexes fails, a hash of another tree passes
    (pkg/trie/rmt/util.go). */
module RmtAside {
  import opened Basics
  import opened RmtRoot
  import opened RmtTree
  import opened RmtLayers
  import opened RmtIndex
  import opened RmtWork
  import opened RmtReach
  import opened RmtVerify
  import opened RmtSound

  // ---------------------------------------------------------------- hashes of two trees

  /** The hash of one tree at the places of `z`, and of the other one elsewhere. */
  function Mixed(values: seq<Value>, other: seq<Value>, z: set<nat>, x: nat): Hash
    requires |values| == |other| && Inside(|values|, x)
  {
    if x in z then HashAt(other, x) else HashAt(values, x)
  }

  /** Among the reached places the two trees never meet, except where a query takes the place of what comes from below. */
  ghost predicate Apart(n: nat, qs: set<nat>, z: set<nat>) {
    2 !in z && forall x: nat :: Reached(n, qs, x) && x != 2 ==> ApartAt(n, qs, z, x)
  }

  predicate ApartAt(n: nat, qs: set<nat>, z: set<nat>, x: nat) {
    if Inside(n, Mate(x)) then (x in z <==> x / 2 in z) && (Mate(x) in z <==> x in z) && (Stored(n, Mate(x)) in z <==> x in z)
    else (x in z <==> x / 2 in z) || x / 2 in qs
  }

  /** All queries have hashes, and all known hashes that may still be used are mixed ones. */
  ghost predicate MixedOnly(values: seq<Value>, other: seq<Value>, qs: set<nat>, z: set<nat>, s: Progress)
    requires |values| == |other|
  {
    && (forall x :: x in qs ==> x in s.result)
    && (forall x :: x in s.result ==> Inside(|values|, x) && s.result[x] == Mixed(values, other, z, x))
    && (forall x :: x in s.cache ==> Inside(|values|, x) && (x in qs || s.cache[x] == Mixed(values, other, z, x)))
  }

  lemma MixedKnown(values: seq<Value>, other: seq<Value>, qs: set<nat>, z: set<nat>, s: Progress, x: nat)
    requires |values| == |other| && MixedOnly(values, other, qs, z, s) && Known(s, x).Some?
    ensures Inside(|values|, x) && Known(s, x) == Some(Mixed(values, other, z, x))
  {
    hide Inside, HashAt;
  }

  /** Both trees have the same shape, so mixed hashes join to mixed hashes. */
  lemma MixedJoins(values: seq<Value>, other: seq<Value>, qs: set<nat>, z: set<nat>, x: nat)
    requires |values| == |other| && Apart(|values|, qs, z) && Reached(|values|, qs, x) && Inside(|values|, x) && x != 2
    ensures Inside(|values|, x / 2)
    ensures Inside(|values|, Mate(x)) ==>
              && Mixed(values, other, z, Stored(|values|, Mate(x))) == Mixed(values, other, z, Mate(x))
              && Mixed(values, other, z, x / 2) ==
                 if x % 2 == 0 then Branch(Mixed(values, other, z, x), Mixed(values, other, z, Mate(x)))
                 else Branch(Mixed(values, other, z, Mate(x)), Mixed(values, other, z, x))
    ensures !Inside(|values|, Mate(x)) ==> x / 2 in qs || Mixed(values, other, z, x / 2) == Mixed(values, other, z, x)
  {
    hide Reached, Inside, HashAt, NodeAt, Stored;
    assert ApartAt(|values|, qs, z, x);
    Joined(values, x);
    Joined(other, x);
    if Inside(|values|, Mate(x)) {
      StoredIsResolved(values, Mate(x));
      StoredIsResolved(other, Mate(x));
    }
  }

  /** A turn with a mixed sibling at hand succeeds and leaves mixed hashes. */
  lemma MixedStep(values: seq<Value>, other: seq<Value>, qs: set<nat>, z: set<nat>, s: Progress)
    requires |values| == |other| >= 1 && HeightOf(|values|) <= 30 && Apart(|values|, qs, z)
    requires Sane(|values|, qs, s) && MixedOnly(values, other, qs, z, s) && s.work[0] != 2
    requires Inside(|values|, Mate(s.work[0])) && s.siblings != [] ==> s.siblings[0] == Mixed(values, other, z, Mate(s.work[0]))
    requires Inside(|values|, Mate(s.work[0])) && Stored(|values|, Mate(s.work[0])) !in s.result ==> s.siblings != []
    ensures Turn(|values|, s).Some? && MixedOnly(values, other, qs, z, Turn(|values|, s).value)
  {
    hide Reached, Place, Digits, Inside, Insert, HeightOf, NodeAt, Turn, HashAt, InOrder, HandedUp, Stored, Apart, Mixed;
    var n, x := |values|, s.work[0];
    SaneFirst(n, qs, s);
    MixedKnown(values, other, qs, z, s, x);
    MixedJoins(values, other, qs, z, x);
    TurnInside(values, s);
  }

  /** Sibling hashes that are not used yet do not matter to a turn. */
  lemma TurnWithMore(n: nat, s: Progress, more: seq<Hash>)
    requires n >= 1 && s.work != [] && Turn(n, s).Some?
    ensures
      var t := Turn(n, s).value;
      Turn(n, s.(siblings := s.siblings + more)) == Some(t.(siblings := t.siblings + more))
  {
    hide HeightOf, Resolve, EncodeIndex, DecodeIndex, Insert;
    if s.siblings != [] { assert (s.siblings + more)[1..] == s.siblings[1..] + more; }
  }

  /** With the right sibling hashes the loop arrives, although some hashes are of another tree. */
  lemma {:induction false} MixedArrives(values: seq<Value>, other: seq<Value>, qs: set<nat>, z: set<nat>, s: Progress)
    returns (siblings: seq<Hash>)
    requires |values| == |other| >= 1 && HeightOf(|values|) <= 30 && Apart(|values|, qs, z)
    requires Sane(|values|, qs, s) && MixedOnly(values, other, qs, z, s) && s.siblings == []
    ensures Arrives(values, s.(siblings := siblings))
    decreases Total(s.work)
  {
    hide Reached, Place, Digits, Inside, Insert, HeightOf, NodeAt, Turn, HashAt, InOrder, HandedUp, Stored, Mixed, Root;
    var n, x := |values|, s.work[0];
    SaneFirst(n, qs, s);
    if x == 2 {
      siblings := [];
      TopIndex(values);
      MixedTop(values, other, qs, z, s);
    } else {
      var one := if Inside(n, Mate(x)) && Stored(n, Mate(x)) !in s.result then [Mixed(values, other, z, Mate(x))] else [];
      var s1 := s.(siblings := one);
      OtherSiblings(values, other, qs, z, s, one);
      MixedStep(values, other, qs, z, s1);
      SaneStep(values, qs, s1);
      TurnShrinks(n, s1);
      OneIsUsed(values, s1);
      var rest := MixedArrives(values, other, qs, z, Turn(n, s1).value);
      siblings := one + rest;
      TurnWithMore(n, s1, rest);
      assert [] + rest == rest;
      ArrivesAfter(values, s.(siblings := siblings));
    }
  }

  lemma OtherSiblings(values: seq<Value>, other: seq<Value>, qs: set<nat>, z: set<nat>, s: Progress, siblings: seq<Hash>)
    requires |values| == |other| && Sane(|values|, qs, s) && MixedOnly(values, other, qs, z, s)
    ensures Sane(|values|, qs, s.(siblings := siblings)) && MixedOnly(values, other, qs, z, s.(siblings := siblings))
  {
    hide Reached, Place, Inside, NodeAt, Mixed, InOrder;
    forall x | x in s.cache ensures HandedUp(|values|, s.(siblings := siblings), x) { assert HandedUp(|values|, s, x); }
  }

  lemma MixedTop(values: seq<Value>, other: seq<Value>, qs: set<nat>, z: set<nat>, s: Progress)
    requires |values| == |other| >= 1 && Apart(|values|, qs, z)
    requires Sane(|values|, qs, s) && MixedOnly(values, other, qs, z, s) && s.work[0] == 2
    ensures Arrives(values, s.(siblings := []))
  {
    hide Reached, Place, Inside, NodeAt, HashAt, InOrder, Root;
    TopIndex(values);
    SaneFirst(|values|, qs, s);
    assert 2 in s.cache ==> HandedUp(|values|, s, 2);
  }

  lemma OneIsUsed(values: seq<Value>, s: Progress)
    requires |values| >= 1 && HeightOf(|values|) <= 30 && s.work != [] && s.work[0] != 2 && Inside(|values|, s.work[0])
    requires Known(s, s.work[0]).Some? && Turn(|values|, s).Some?
    requires |s.siblings| == if Inside(|values|, Mate(s.work[0])) && Stored(|values|, Mate(s.work[0])) !in s.result then 1 else 0
    ensures Turn(|values|, s).value.siblings == []
  {
    hide Turn, Inside, Stored, Insert, HeightOf;
    TurnInside(values, s);
  }

  lemma ArrivesAfter(values: seq<Value>, s: Progress)
    requires |values| >= 1 && s.work != [] && s.work[0] != 2 && Turn(|values|, s).Some? && Arrives(values, Turn(|values|, s).value)
    ensures Arrives(values, s)
  {
    hide Turn, Root;
    TurnShrinks(|values|, s);
  }

  // ---------------------------------------------------------------- another tree

  /** A tree of the same shape without a hash in common. */
  function Changed(values: seq<Value>): (other: seq<Value>)
    ensures |other| == |values| && forall i :: 0 <= i < |values| ==> other[i] != values[i]
  {
    var other := seq(|values|, i requires 0 <= i < |values| => values[i] + [0]);
    assert forall i :: 0 <= i < |values| ==> |other[i]| == |values[i]| + 1;
    other
  }

  lemma {:induction false} RootDiffers(a: seq<Value>, b: seq<Value>)
    requires |a| == |b| >= 1 && forall i :: 0 <= i < |a| ==> a[i] != b[i]
    ensures Root(a) != Root(b)
    decreases |a|
  {
    if |a| > 1 { RootDiffers(a[..Split(|a|)], b[..Split(|a|)]); }
  }

  lemma ChangedEverywhere(values: seq<Value>, x: nat)
    requires Inside(|values|, x)
    ensures HashAt(Changed(values), x) != HashAt(values, x)
  {
    hide HeightOf, Digits, Root, Changed;
    var n, other, loc := |values|, Changed(values), LocOf(|values|, x);
    var lo := Start(loc.index, loc.layer);
    var hi := Min(lo + Pow2(loc.layer), n);
    RootDiffers(other[lo..hi], values[lo..hi]);
  }

  // ---------------------------------------------------------------- where the condition fails

  predicate Beneath(top: nat, x: nat) { x > top && (x / 2 == top || Beneath(top, x / 2)) }

  lemma {:induction false} QueryBeneath(n: nat, qs: set<nat>, x: nat) returns (q: nat)
    requires AllInside(n, qs) && Reached(n, qs, x)
    ensures q in qs && (q == x || Beneath(x, q))
    decreases LocOf(n, x).layer
  {
    hide Reached, LocOf, Inside;
    InsideIsPositive(n, qs, x);
    if x in qs {
      q := x;
    } else {
      ReachedDown(n, qs, x);
      var c := if Reached(n, qs, 2 * x) then 2 * x else 2 * x + 1;
      q := QueryBeneath(n, qs, c);
      BeneathChild(x, c, q);
    }
  }

  lemma {:induction false} BeneathChild(top: nat, c: nat, q: nat)
    requires top >= 1 && c / 2 == top && (q == c || Beneath(c, q))
    ensures Beneath(top, q)
    decreases q
  {
    if q != c && q / 2 != c { BeneathChild(top, c, q / 2); }
  }

  /** All places of the tree beneath a place. */
  function Under(n: nat, top: nat): set<nat>
    requires n >= 1
  {
    set x: nat | x < Pow2(HeightOf(n) + 1) && Beneath(top, x)
  }

  lemma InsideUnder(n: nat, top: nat, x: nat)
    requires Inside(n, x)
    ensures x in Under(n, top) <==> Beneath(top, x)
  {
    hide HeightOf, Beneath;
    Pow2Monotone(Digits(x), HeightOf(n) + 1);
  }

  lemma UnderParent(n: nat, top: nat, x: nat)
    requires Inside(n, x) && x != 2 && x / 2 != top
    ensures Inside(n, x / 2) && (x in Under(n, top) <==> x / 2 in Under(n, top))
  {
    hide HeightOf, Inside, Under;
    ParentOf(n, x);
    InsideUnder(n, top, x);
    InsideUnder(n, top, x / 2);
  }

  /** Beneath a place also lies where the subtree is stored; and if only that does, the place is on the chain. */
  lemma {:induction false} StoredUnder(n: nat, top: nat, y: nat)
    requires Inside(n, y) && y != 2 && Inside(n, top) && top != 2
    ensures Beneath(top, y) ==> Beneath(top, Stored(n, y))
    ensures Beneath(top, Stored(n, y)) && !Beneath(top, y) ==> Shoulder(n, top) == Shoulder(n, y)
    decreases LocOf(n, y).layer
  {
    hide HeightOf, Inside, LocOf, NodeAt, Beneath, Shoulder;
    if !NodeAt(n, y) {
      LeftOf(n, y);
      OnlyChild(n, y);
      StoredUnder(n, top, 2 * y);
      BeneathDouble(top, y);
      ShoulderDouble(n, y);
    }
  }

  lemma BeneathDouble(top: nat, y: nat)
    requires y >= 1
    ensures Beneath(top, 2 * y) <==> y == top || Beneath(top, y)
  {
  }

  lemma ShoulderDouble(n: nat, y: nat)
    requires Inside(n, y) && y != 2 && Inside(n, 2 * y) && 2 * y != 2 && !Inside(n, Mate(2 * y))
    ensures Shoulder(n, 2 * y) == Shoulder(n, y)
  {
    hide Inside;
    assert 2 * y / 2 == y;
  }

  lemma OnlyChild(n: nat, y: nat)
    requires Inside(n, y) && !NodeAt(n, y)
    ensures y >= 2 && y != 2 && Inside(n, 2 * y) && !Inside(n, Mate(2 * y))
  {
    hide Inside, NodeAt, LocOf, HashAt, Stored;
    var values: seq<Value> := seq(n, _ => []);
    InsideIsBig(n, y);
    assert n >= 1 by { InsideIsSome(n, y); }
    TopIndex(values);
    LeftOf(n, y);
    Joined(values, 2 * y);
  }

  /** If nothing looks up what comes from below a query, the whole subtree below it is left aside. */
  lemma UnderApart(n: nat, qs: set<nat>, q: nat)
    requires n >= 1 && q in qs && Inside(n, q) && !NodeAt(n, q) && q != 2 && !Reached(n, qs, Mate(Shoulder(n, q)))
    ensures Apart(n, qs, Under(n, q))
  {
    hide Reached, Inside, NodeAt, Under, Shoulder, Stored;
    var z := Under(n, q);
    TopIndex(seq(n, _ => []));
    InsideUnder(n, q, 2);
    InsideIsBig(n, q);
    forall x: nat | Reached(n, qs, x) && x != 2 ensures ApartAt(n, qs, z, x) {
      InsideIsPositive(n, qs, x);
      if Inside(n, Mate(x)) { UnderPair(n, qs, q, x); } else if x / 2 != q { UnderParent(n, q, x); }
    }
  }

  lemma InsideIsSome(n: nat, x: nat)
    requires Inside(n, x)
    ensures n >= 1
  {
    hide HeightOf, Digits, LocOf;
  }

  lemma InsideIsBig(n: nat, x: nat)
    requires Inside(n, x)
    ensures x >= 2 && !Beneath(x, 2)
  {
  }

  lemma UnderPair(n: nat, qs: set<nat>, q: nat, x: nat)
    requires n >= 1 && Inside(n, q) && !NodeAt(n, q) && q != 2 && !Reached(n, qs, Mate(Shoulder(n, q)))
    requires Reached(n, qs, x) && x != 2 && Inside(n, Mate(x))
    ensures
      var z := Under(n, q);
      (x in z <==> x / 2 in z) && (Mate(x) in z <==> x in z) && (Stored(n, Mate(x)) in z <==> x in z)
  {
    hide Reached, Inside, NodeAt, Under, Stored, HeightOf, Digits, Beneath;
    InsideIsPositive(n, qs, x);
    Joined(seq(n, _ => []), x);
    MateOf(n, x);
    UnderParent(n, q, x);
    UnderParent(n, q, Mate(x));
    StoredUnder(n, q, Mate(x));
    InsideUnder(n, q, Mate(x));
    InsideUnder(n, q, Stored(n, Mate(x)));
  }

  // ---------------------------------------------------------------- two queries on one chain

  /** `c` lies below `top` on its chain of only children. */
  predicate OnChain(n: nat, top: nat, c: nat) {
    c > top && Inside(n, c) && !Inside(n, Mate(c)) && (c / 2 == top || OnChain(n, top, c / 2))
  }

  lemma {:induction false} LowerQuery(n: nat, qs: set<nat>, top: nat, x: nat) returns (q: nat)
    requires Inside(n, x) && OnChain(n, top, x) && ChainQueried(n, qs, x)
    ensures q in qs && Inside(n, q) && !NodeAt(n, q) && OnChain(n, top, q)
    decreases LocOf(n, x).layer
  {
    hide Inside, NodeAt, LocOf;
    if x in qs {
      q := x;
    } else {
      OnlyChild(n, x);
      LeftOf(n, x);
      q := LowerQuery(n, qs, top, 2 * x);
    }
  }

  /** The places from `c` upward, below the next query. */
  function UpToQuery(qs: set<nat>, c: nat): set<nat> {
    if c <= 2 || c / 2 in qs then {c} else {c} + UpToQuery(qs, c / 2)
  }

  ghost predicate ZoneAt(n: nat, qs: set<nat>, z: set<nat>, c: nat, y: nat) {
    && Inside(n, y) && y != 2 && !Inside(n, Mate(y)) && !NodeAt(n, y) && y <= c
    && (y / 2 in z || y / 2 in qs) && (y == c || 2 * y in z)
  }

  lemma {:induction false} ZoneOfChain(n: nat, qs: set<nat>, top: nat, c: nat, y: nat)
    requires n >= 1 && top in qs && Inside(n, c) && !NodeAt(n, c) && OnChain(n, top, c) && y in UpToQuery(qs, c)
    ensures ZoneAt(n, qs, UpToQuery(qs, c), c, y)
    decreases c
  {
    hide Inside, NodeAt;
    TopIndex(seq(n, _ => []));
    Joined(seq(n, _ => []), c);
    ParentOf(n, c);
    SelfInZone(qs, c / 2);
    if y != c { ZoneOfChain(n, qs, top, c / 2, y); }
  }

  lemma SelfInZone(qs: set<nat>, c: nat)
    ensures c in UpToQuery(qs, c)
  {
  }

  /** Of two queries on one chain the lower one is left aside. */
  lemma ChainApart(n: nat, qs: set<nat>, top: nat, c: nat)
    requires n >= 1 && top in qs && c in qs && Inside(n, c) && !NodeAt(n, c) && OnChain(n, top, c)
    ensures c in UpToQuery(qs, c) && Apart(n, qs, UpToQuery(qs, c))
  {
    hide Reached, Inside, NodeAt, Stored, UpToQuery;
    var z := UpToQuery(qs, c);
    SelfInZone(qs, c);
    forall y | y in z ensures ZoneAt(n, qs, z, c, y) { ZoneOfChain(n, qs, top, c, y); }
    forall x: nat | Reached(n, qs, x) && x != 2 ensures ApartAt(n, qs, z, x) {
      InsideIsPositive(n, qs, x);
      Joined(seq(n, _ => []), x);
      MateOf(n, x);
      if !Inside(n, Mate(x)) { assert x == 2 * (x / 2); }
    }
  }

  /** Where the condition fails, a query is left aside. */
  lemma LeftAside(n: nat, qs: set<nat>) returns (z: set<nat>, bad: nat)
    requires n >= 1 && AllInside(n, qs) && !Compared(n, qs)
    ensures Apart(n, qs, z) && bad in qs && bad in z
  {
    hide Reached, Inside, NodeAt, Apart, Shoulder;
    var q :| q in qs && Inside(n, q) && !NodeAt(n, q) && Reached(n, qs, 2 * q)
             && !(Inside(n, 2 * q) && q != 2 && !ChainQueried(n, qs, 2 * q) && Reached(n, qs, Mate(Shoulder(n, q))));
    OnlyChild(n, q);
    if ChainQueried(n, qs, 2 * q) {
      bad := LowerQuery(n, qs, q, 2 * q);
      z := UpToQuery(qs, bad);
      ChainApart(n, qs, q, bad);
    } else {
      bad := QueryBeneath(n, qs, 2 * q);
      z := Under(n, q);
      UnderApart(n, qs, q);
      BeneathChild(q, 2 * q, bad);
      InsideUnder(n, q, bad);
    }
  }
}
