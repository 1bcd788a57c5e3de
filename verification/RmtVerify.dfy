/** Verification of inclusion proofs for any number of nodes: calculatePathNodes and VerifyProof
    (pkg/trie/rmt/util.go, verify.go). */
module RmtVerify {
  import opened Basics
  import opened RmtRoot
  import opened RmtTree
  import opened RmtLayers
  import opened RmtIndex
  import opened RmtWork
  import opened RmtReach

  datatype Proof = Proof(size: nat, idxs: seq<nat>, siblings: seq<Hash>)

  // ---------------------------------------------------------------- one turn

  /** The variables of calculatePathNodes: indexes to visit, hashes by index, hashes handed up to a parent that is no
      node of its own, and sibling hashes not yet used. */
  datatype Progress = Progress(work: seq<nat>, result: map<nat, Hash>, cache: map<nat, Hash>, siblings: seq<Hash>)

  function Known(s: Progress, x: nat): Option<Hash> {
    if x in s.result then Some(s.result[x]) else if x in s.cache then Some(s.cache[x]) else None
  }

  /** One turn of the loop; None when it returns an error or panics. */
  function Turn(n: nat, s: Progress): Option<Progress>
    requires n >= 1 && s.work != []
  {
    var x := s.work[0];
    var loc := DecodeIndex(x, HeightOf(n));
    if Known(s, x).None? || loc.None? then None
    else
      var h, rest := Known(s, x).value, Insert(s.work[1..], x / 2);
      var sibling := Resolve(n, Sibling(loc.value.index), loc.value.layer);
      if sibling.None? then Some(s.(work := rest, cache := s.cache[x / 2 := h]))
      else
        var index := EncodeIndex(sibling.value, HeightOf(n));
        if index.None? then None
        else if index.value in s.result then Raised(s, x, h, s.result[index.value], rest, s.siblings)
        else if s.siblings == [] then None
        else Raised(s, x, h, s.siblings[0], rest, s.siblings[1..])
  }

  /** The parent gets the hash of both; a hash it has already must be the same. */
  function Raised(s: Progress, x: nat, h: Hash, sibling: Hash, rest: seq<nat>, siblings: seq<Hash>): Option<Progress> {
    var parent := if x % 2 == 0 then Branch(h, sibling) else Branch(sibling, h);
    if x / 2 in s.result && s.result[x / 2] != parent then None
    else Some(Progress(rest, s.result[x / 2 := parent], s.cache, siblings))
  }

  lemma TurnShrinks(n: nat, s: Progress)
    requires n >= 1 && s.work != [] && Turn(n, s).Some?
    ensures s.work[0] >= 2 && Turn(n, s).value.work == Insert(s.work[1..], s.work[0] / 2)
    ensures Total(Turn(n, s).value.work) < Total(s.work)
  {
    hide Insert, HeightOf, Resolve, EncodeIndex;
    DigitsOfZero();
    InsertTotal(s.work[1..], s.work[0] / 2);
  }

  /** The whole loop. */
  function Walk(n: nat, s: Progress): Option<map<nat, Hash>>
    requires n >= 1
    decreases Total(s.work)
  {
    if s.work == [] || s.work[0] == 2 then Some(s.result)
    else
      var next := Turn(n, s);
      if next.None? then None else (TurnShrinks(n, s); Walk(n, next.value))
  }

  /** A turn at an index of a tree of at most 30 layers. */
  lemma TurnInside(values: seq<Value>, s: Progress)
    requires |values| >= 1 && HeightOf(|values|) <= 30 && s.work != [] && Inside(|values|, s.work[0]) && s.work[0] != 2
    requires Known(s, s.work[0]).Some?
    ensures
      var n, x := |values|, s.work[0];
      var h, rest := Known(s, x).value, Insert(s.work[1..], x / 2);
      Turn(n, s) ==
      if !Inside(n, Mate(x)) then Some(s.(work := rest, cache := s.cache[x / 2 := h]))
      else if Stored(n, Mate(x)) in s.result then Raised(s, x, h, s.result[Stored(n, Mate(x))], rest, s.siblings)
      else if s.siblings == [] then None
      else Raised(s, x, h, s.siblings[0], rest, s.siblings[1..])
  {
    hide HeightOf, Resolve, EncodeIndex, DecodeIndex, Insert, Raised, Start, Digits, Pow2;
    var n, x := |values|, s.work[0];
    Named(n, x);
    MateOf(n, x);
    ResolveFinds(values, Sibling(LocOf(n, x).index), LocOf(n, x).layer);
    if Inside(n, Mate(x)) {
      StoredIsResolved(values, Mate(x));
      Named(n, Stored(n, Mate(x)));
    }
  }

  // ---------------------------------------------------------------- which hashes are known

  ghost predicate AllNodes(n: nat, qs: set<nat>) { forall q :: q in qs ==> Inside(n, q) && NodeAt(n, q) }

  /** The hash of the index is settled before place `p`: it is a query, or a child of it was visited. */
  predicate Settled(n: nat, qs: set<nat>, x: nat, p: nat) {
    Inside(n, x) && Reached(n, qs, x) && (x in qs || ChildVisited(n, qs, x, p))
  }

  /** Which indexes have hashes when the turns before place `p` are done. */
  ghost predicate Keys(n: nat, qs: set<nat>, s: Progress, p: nat) {
    && Frontier(n, qs, s.work, p)
    && (forall x :: x in s.result ==> Reached(n, qs, x) && NodeAt(n, x))
    && (forall x :: Settled(n, qs, x, p) ==> Stored(n, x) in s.result)
    && (forall x :: x in s.work ==> Known(s, x).Some?)
  }

  /** What lies below the next index was visited. */
  lemma BelowIsVisited(n: nat, qs: set<nat>, w: seq<nat>, p: nat, x: nat)
    requires AllInside(n, qs) && Frontier(n, qs, w, p) && w != []
    requires Reached(n, qs, x) && Digits(x) >= Digits(w[0])
    ensures Settled(n, qs, x, p)
  {
    hide Reached, Place, InOrder, Digits, Inside;
    InsideIsPositive(n, qs, x);
    if x !in qs {
      assert w[0] in w;
      InsideIsPositive(n, qs, w[0]);
      ReachedDown(n, qs, x);
      var c := if Reached(n, qs, 2 * x) then 2 * x else 2 * x + 1;
      DigitsHalf(c);
      MoreDigits(c, w[0]);
      if Place(c) <= p { FirstIsNext(n, qs, w, p, c); }
    }
  }

  /** The hash of the mate is there exactly when the queries determine it. */
  lemma MateKnown(n: nat, qs: set<nat>, s: Progress, p: nat)
    requires AllInside(n, qs) && Keys(n, qs, s, p) && s.work != [] && Inside(n, s.work[0]) && s.work[0] != 2
    requires Inside(n, Mate(s.work[0]))
    ensures Stored(n, Mate(s.work[0])) in s.result <==> Reached(n, qs, Mate(s.work[0]))
  {
    hide Reached, Place, Frontier, Digits, Stored, Inside, ChildVisited;
    var m := Mate(s.work[0]);
    MateOf(n, s.work[0]);
    if Reached(n, qs, m) { BelowIsVisited(n, qs, s.work, p, m); }
    if Stored(n, m) in s.result { StoredReached(n, qs, m); }
  }

  /** The place up to which everything is visited after a turn: a repeated index is visited again. */
  function After(w: seq<nat>): nat
    requires w != []
  {
    if |w| > 1 && w[1] == w[0] then Place(w[0]) else Place(w[0]) - 1
  }

  lemma {:induction false} TailOfList(w: seq<nat>)
    requires InOrder(w) && w != []
    ensures InOrder(w[1..]) && forall x :: x in w[1..] <==> x in w && Place(x) <= After(w)
  {
    hide Place;
    FirstLeads(w);
    assert w == [w[0]] + w[1..];
    if |w| > 1 {
      FirstLeads(w[1..]);
      AllPositive(w, 0);
      AllPositive(w, 1);
      PlaceIsOrder(w[0], w[1]);
    }
    AllPositive(w, 0);
  }

  /** A turn keeps account of which hashes are known. */
  lemma KeysStep(values: seq<Value>, qs: set<nat>, s: Progress, p: nat)
    requires |values| >= 1 && HeightOf(|values|) <= 30 && AllNodes(|values|, qs) && Keys(|values|, qs, s, p)
    requires s.work != [] && s.work[0] != 2 && Turn(|values|, s).Some?
    ensures Keys(|values|, qs, Turn(|values|, s).value, After(s.work))
  {
    hide Reached, Place, Frontier, Digits, Stored, Inside, ChildVisited, After, InOrder, Insert, HeightOf,
      NodeAt, Turn;
    var n, x, t, q := |values|, s.work[0], Turn(|values|, s).value, After(s.work);
    KeysMean(n, qs, s, p);
    TailOfList(s.work);
    AfterIs(s.work);
    FrontierStep(n, qs, s.work, p, s.work[1..], q);
    TurnShrinks(n, s);
    TurnResult(values, s);
    ReachedUp(n, qs, x);
    forall y | Settled(n, qs, y, q) ensures Stored(n, y) in t.result { SettledStep(values, qs, s, p, y); }
    forall y | y in t.work ensures Known(t, y).Some? {
      WorkKnown(n, qs, s, p, t, y);
    }
  }

  lemma WorkKnown(n: nat, qs: set<nat>, s: Progress, p: nat, t: Progress, y: nat)
    requires Keys(n, qs, s, p) && s.work != [] && s.work[0] >= 2 && InOrder(s.work[1..])
    requires t.work == Insert(s.work[1..], s.work[0] / 2) && y in t.work
    requires s.result.Keys <= t.result.Keys && s.cache.Keys <= t.cache.Keys && Known(t, s.work[0] / 2).Some?
    ensures Known(t, y).Some?
  {
    hide Frontier, Reached, NodeAt, Stored, Settled, InOrder, Insert;
    Inserted(s.work[1..], s.work[0] / 2);
    assert y in s.work[1..] ==> y in s.work;
    assert Known(s, y).Some? ==> y in s.result.Keys || y in s.cache.Keys;
  }

  lemma AfterIs(w: seq<nat>)
    requires w != []
    ensures After(w) == Place(w[0]) || After(w) == Place(w[0]) - 1
  {
  }

  lemma KeysMean(n: nat, qs: set<nat>, s: Progress, p: nat)
    requires AllNodes(n, qs) && Keys(n, qs, s, p) && s.work != []
    ensures AllInside(n, qs) && InOrder(s.work) && Reached(n, qs, s.work[0]) && Inside(n, s.work[0]) && Known(s, s.work[0]).Some?
    ensures s.work[0] >= 2 && Place(s.work[0]) <= p
  {
    hide Place, InOrder, HeightOf, NodeAt, Stored;
    assert s.work[0] in s.work;
  }

  /** What a turn does to the hashes: only the parent gets one, in `result` if it is a node and else in `cache`. */
  lemma TurnResult(values: seq<Value>, s: Progress)
    requires |values| >= 1 && HeightOf(|values|) <= 30 && s.work != [] && Inside(|values|, s.work[0]) && s.work[0] != 2
    requires Known(s, s.work[0]).Some? && Turn(|values|, s).Some?
    ensures
      var n, x, t := |values|, s.work[0], Turn(|values|, s).value;
      && Inside(n, x / 2) && (Inside(n, Mate(x)) <==> NodeAt(n, x / 2))
      && (NodeAt(n, x / 2) ==> x / 2 in t.result && t.result == s.result[x / 2 := t.result[x / 2]] && t.cache == s.cache)
      && (x / 2 in s.result ==> t.result == s.result)
      && (!NodeAt(n, x / 2) ==> t.result == s.result && t.cache == s.cache[x / 2 := Known(s, x).value])
  {
    hide HeightOf, Resolve, Insert, Stored, Inside, NodeAt, Turn;
    TurnInside(values, s);
    Joined(values, s.work[0]);
  }

  lemma SettledStep(values: seq<Value>, qs: set<nat>, s: Progress, p: nat, y: nat)
    requires |values| >= 1 && HeightOf(|values|) <= 30 && AllNodes(|values|, qs) && Keys(|values|, qs, s, p)
    requires s.work != [] && s.work[0] != 2 && Turn(|values|, s).Some?
    requires Settled(|values|, qs, y, After(s.work))
    ensures Stored(|values|, y) in Turn(|values|, s).value.result
  {
    hide Reached, Place, Frontier, Digits, Stored, Inside, After, InOrder, Insert, HeightOf, NodeAt, Turn, Settled;
    var n, x := |values|, s.work[0];
    KeysMean(n, qs, s, p);
    TurnResult(values, s);
    if !Settled(n, qs, y, p) {
      NewlySettled(n, qs, s.work, p, y);
      BelowIsVisited(n, qs, s.work, p, x);
      Joined(values, x);
      StoredNode(n, y);
    }
  }

  /** A turn settles the parent and nothing else. */
  lemma NewlySettled(n: nat, qs: set<nat>, w: seq<nat>, p: nat, y: nat)
    requires AllInside(n, qs) && Frontier(n, qs, w, p) && w != [] && Settled(n, qs, y, After(w))
    ensures Settled(n, qs, y, p) || y == w[0] / 2
  {
    hide Reached, Place, InOrder;
    assert w[0] in w;
    InsideIsPositive(n, qs, y);
    InsideIsPositive(n, qs, w[0]);
    var q := After(w);
    var c := if Reached(n, qs, 2 * y) && Place(2 * y) > q then 2 * y else 2 * y + 1;
    if !(y in qs || Place(c) > p) {
      FirstIsNext(n, qs, w, p, c);
      PlaceIsOrder(c, w[0]);
    }
  }

  lemma StoredNode(n: nat, x: nat)
    requires Inside(n, x)
    ensures NodeAt(n, x) ==> Stored(n, x) == x
  {
  }

  // ---------------------------------------------------------------- completeness

  /** All known hashes are those of the tree. */
  ghost predicate Right(values: seq<Value>, s: Progress) {
    && (forall x :: x in s.result ==> Inside(|values|, x) && s.result[x] == HashAt(values, x))
    && (forall x :: x in s.cache ==> Inside(|values|, x) && s.cache[x] == HashAt(values, x))
  }

  /** With the hash it needs at hand, a turn succeeds and leaves right hashes. */
  lemma RightStep(values: seq<Value>, qs: set<nat>, s: Progress, p: nat, more: seq<Hash>)
    requires |values| >= 1 && HeightOf(|values|) <= 30 && AllNodes(|values|, qs) && Keys(|values|, qs, s, p) && Right(values, s)
    requires s.work != [] && s.work[0] != 2 && s.siblings == Needed(values, qs, s.work[0]) + more
    ensures Turn(|values|, s).Some? && Right(values, Turn(|values|, s).value) && Turn(|values|, s).value.siblings == more
  {
    hide Reached, Place, Frontier, Digits, Stored, Inside, InOrder, Insert, HeightOf, NodeAt, Turn, HashAt;
    var n, x := |values|, s.work[0];
    KeysMean(n, qs, s, p);
    TurnInside(values, s);
    Joined(values, x);
    if Inside(n, Mate(x)) {
      MateKnown(n, qs, s, p);
      StoredIsResolved(values, Mate(x));
    }
  }

  /** A turn uses exactly the hashes its index needs. */
  lemma CountStep(values: seq<Value>, qs: set<nat>, s: Progress, p: nat)
    requires |values| >= 1 && HeightOf(|values|) <= 30 && AllNodes(|values|, qs) && Keys(|values|, qs, s, p)
    requires s.work != [] && s.work[0] != 2 && Turn(|values|, s).Some?
    ensures |s.siblings| == |Needed(values, qs, s.work[0])| + |Turn(|values|, s).value.siblings|
  {
    hide Reached, Place, Frontier, Digits, Stored, Inside, InOrder, Insert, HeightOf, NodeAt, Turn, HashAt;
    var n, x := |values|, s.work[0];
    KeysMean(n, qs, s, p);
    TurnInside(values, s);
    if Inside(n, Mate(x)) { MateKnown(n, qs, s, p); }
  }

  /** How many hashes are used beyond those needed, because of repeated indexes. */
  function Extra(values: seq<Value>, qs: set<nat>, w: seq<nat>): nat {
    if |w| <= 1 then 0
    else (if w[0] == w[1] then |Needed(values, qs, w[0])| else 0) + Extra(values, qs, w[1..])
  }

  lemma {:induction false} ExtraInsert(values: seq<Value>, qs: set<nat>, w: seq<nat>, x: nat)
    requires InOrder(w) && x >= 1
    ensures Extra(values, qs, Insert(w, x)) == Extra(values, qs, w)
  {
    hide Needed, Place;
    if w != [] && w[0] != x {
      PlaceIsOrder(x, w[0]);
      if Place(x) > Place(w[0]) {
        assert ([x] + w)[1..] == w;
      } else {
        ExtraInsert(values, qs, w[1..], x);
        assert ([w[0]] + Insert(w[1..], x))[1..] == Insert(w[1..], x);
        InsertedHead(w[1..], x);
      }
    }
  }

  lemma InsertedHead(w: seq<nat>, x: nat)
    ensures Insert(w, x) != []
    ensures Insert(w, x)[0] == if w == [] || Place(x) > Place(w[0]) then x else w[0]
  {
  }

  lemma NextPlace(values: seq<Value>, qs: set<nat>, w: seq<nat>, p: nat)
    requires |values| >= 1 && AllInside(|values|, qs) && Frontier(|values|, qs, w, p) && w != []
    ensures w[0] == 2 ==> NeededFrom(values, qs, p) == []
    ensures w[0] != 2 ==> Place(w[0]) > 4 && NeededFrom(values, qs, p) == Needed(values, qs, w[0]) + NeededFrom(values, qs, Place(w[0]) - 1)
  {
    hide Reached, Place, InOrder, Needed, NeededFrom, Inside;
    assert w[0] in w;
    InsideIsPositive(|values|, qs, w[0]);
    BeforeTop(|values|, w[0]);
    PlaceOfTop();
    forall x | Reached(|values|, qs, x) ensures !(Place(w[0]) < Place(x) <= p) {
      if Place(x) <= p { FirstIsNext(|values|, qs, w, p, x); }
    }
    NeededSkips(values, qs, p, Place(w[0]));
    if w[0] == 2 { NothingAtTop(values, qs); } else { NeededAt(values, qs, w[0]); }
  }

  lemma NothingAtTop(values: seq<Value>, qs: set<nat>)
    ensures NeededFrom(values, qs, 4) == []
  {
  }

  lemma ExtraStep(values: seq<Value>, qs: set<nat>, s: Progress)
    requires |values| >= 1 && s.work != [] && InOrder(s.work) && Turn(|values|, s).Some?
    ensures Extra(values, qs, s.work) ==
            Extra(values, qs, Turn(|values|, s).value.work) + if After(s.work) == Place(s.work[0]) then |Needed(values, qs, s.work[0])| else 0
  {
    hide Needed, Place, Insert, Turn, InOrder;
    TurnShrinks(|values|, s);
    TailOfList(s.work);
    ExtraInsert(values, qs, s.work[1..], s.work[0] / 2);
    AllPositive(s.work, 0);
  }

  /** Completeness of the loop: with right hashes for the queries and exactly the needed siblings it arrives at the root. */
  lemma {:induction false} WalkArrives(values: seq<Value>, qs: set<nat>, s: Progress, p: nat)
    requires |values| >= 1 && HeightOf(|values|) <= 30 && AllNodes(|values|, qs) && Keys(|values|, qs, s, p) && Right(values, s)
    requires s.work != [] && s.siblings == NeededFrom(values, qs, p) && Extra(values, qs, s.work) == 0
    ensures
      var r := Walk(|values|, s);
      r.Some? && 2 in r.value && r.value[2] == Root(values)
    decreases Total(s.work)
  {
    hide Reached, Place, Frontier, Digits, Stored, Inside, InOrder, Insert, HeightOf, NodeAt, Turn, HashAt, Needed,
      NeededFrom, Extra, Settled, Root;
    var n := |values|;
    KeysMean(n, qs, s, p);
    NextPlace(values, qs, s.work, p);
    if s.work[0] == 2 {
      TopIndex(values);
      BelowIsVisited(n, qs, s.work, p, 2);
      StoredNode(n, 2);
    } else {
      var x := s.work[0];
      RightStep(values, qs, s, p, NeededFrom(values, qs, Place(x) - 1));
      KeysStep(values, qs, s, p);
      ExtraStep(values, qs, s);
      TurnShrinks(n, s);
      InsertedHead(s.work[1..], x / 2);
      NeededAt(values, qs, x);
      WalkArrives(values, qs, Turn(n, s).value, After(s.work));
    }
  }

  lemma OnlyTop(n: nat, qs: set<nat>, w: seq<nat>, p: nat)
    requires Frontier(n, qs, w, p) && w != [] && w[0] == 2
    ensures forall x :: x in w ==> x == 2
  {
    hide Reached, Place, InOrder, Inside;
    FirstLeads(w);
    PlaceOfTop();
    forall x | x in w ensures x == 2 {
      InsideIsPositive(n, qs, x);
      BeforeTop(n, x);
    }
  }

  lemma {:induction false} NoExtraAtTop(values: seq<Value>, qs: set<nat>, w: seq<nat>)
    requires forall x :: x in w ==> x == 2
    ensures Extra(values, qs, w) == 0
  {
    if |w| > 1 {
      assert forall x :: x in w[1..] ==> x in w;
      assert w[0] in w;
      NoExtraAtTop(values, qs, w[1..]);
    }
  }

  /** The loop never gets by with fewer hashes than its turns use. */
  lemma {:induction false} WalkUses(values: seq<Value>, qs: set<nat>, s: Progress, p: nat)
    requires |values| >= 1 && HeightOf(|values|) <= 30 && AllNodes(|values|, qs) && Keys(|values|, qs, s, p)
    requires s.work != [] && Walk(|values|, s).Some?
    ensures |s.siblings| >= |NeededFrom(values, qs, p)| + Extra(values, qs, s.work)
    decreases Total(s.work)
  {
    hide Reached, Place, Frontier, Digits, Stored, Inside, InOrder, Insert, HeightOf, NodeAt, Turn, HashAt, Needed,
      NeededFrom, Extra, Settled, Root;
    var n := |values|;
    KeysMean(n, qs, s, p);
    NextPlace(values, qs, s.work, p);
    if s.work[0] == 2 {
      OnlyTop(n, qs, s.work, p);
      NoExtraAtTop(values, qs, s.work);
    } else {
      var x, t := s.work[0], Turn(n, s).value;
      CountStep(values, qs, s, p);
      KeysStep(values, qs, s, p);
      ExtraStep(values, qs, s);
      TurnShrinks(n, s);
      InsertedHead(s.work[1..], x / 2);
      NeededAt(values, qs, x);
      WalkUses(values, qs, t, After(s.work));
    }
  }

  // ---------------------------------------------------------------- whatever hashes are given

  /** What the loop keeps whatever hashes it is given. */
  ghost predicate Sane(n: nat, qs: set<nat>, s: Progress) {
    && InOrder(s.work) && s.work != []
    && (forall x :: x in s.work ==> Reached(n, qs, x) && Known(s, x).Some?)
    && (forall x :: x in s.result ==> Inside(n, x) && (NodeAt(n, x) || x in qs))
    && (forall x :: x in s.cache ==> HandedUp(n, s, x))
  }

  /** The hash of a place that is no node of its own comes from its only child. */
  predicate HandedUp(n: nat, s: Progress, x: nat)
    requires x in s.cache
  {
    Inside(n, x) && !NodeAt(n, x) && Known(s, 2 * x) == Some(s.cache[x])
  }

  /** A turn changes no hash that is known already. */
  lemma KnownStays(values: seq<Value>, qs: set<nat>, s: Progress, y: nat)
    requires |values| >= 1 && HeightOf(|values|) <= 30 && Sane(|values|, qs, s) && s.work[0] != 2 && Turn(|values|, s).Some?
    requires Known(s, y).Some?
    ensures Known(Turn(|values|, s).value, y) == Known(s, y)
  {
    hide Reached, Place, Digits, Inside, Insert, HeightOf, NodeAt, Turn, HashAt, InOrder, Known, HandedUp;
    var n, x, t := |values|, s.work[0], Turn(|values|, s).value;
    SaneFirst(n, qs, s);
    TurnResult(values, s);
    Joined(values, x);
    if x / 2 in s.cache { CachedChild(n, s, x); }
    KnownKept(s, t, x / 2, Known(s, x).value, y);
  }

  lemma CachedChild(n: nat, s: Progress, x: nat)
    requires x / 2 in s.cache && HandedUp(n, s, x / 2)
    ensures Inside(n, x / 2) && !NodeAt(n, x / 2) && (x % 2 == 0 ==> Known(s, x) == Some(s.cache[x / 2]))
  {
    hide Known, Inside, NodeAt;
    assert x % 2 == 0 ==> 2 * (x / 2) == x;
  }

  lemma KnownKept(s: Progress, t: Progress, parent: nat, h: Hash, y: nat)
    requires Known(s, y).Some?
    requires
      || (parent in t.result && t.result == s.result[parent := t.result[parent]] && t.cache == s.cache && parent !in s.cache
          && (parent in s.result ==> t.result == s.result))
      || (t.result == s.result && t.cache == s.cache[parent := h] && (parent in s.cache ==> s.cache[parent] == h))
    ensures Known(t, y) == Known(s, y)
  {
  }

  lemma SaneFirst(n: nat, qs: set<nat>, s: Progress)
    requires Sane(n, qs, s)
    ensures Reached(n, qs, s.work[0]) && Inside(n, s.work[0]) && Known(s, s.work[0]).Some? && s.work[0] >= 2
  {
    hide Place, InOrder, HandedUp;
    assert s.work[0] in s.work;
  }

  lemma HandedUpStays(values: seq<Value>, qs: set<nat>, s: Progress, y: nat)
    requires |values| >= 1 && HeightOf(|values|) <= 30 && Sane(|values|, qs, s) && s.work[0] != 2 && Turn(|values|, s).Some?
    requires y in Turn(|values|, s).value.cache
    ensures HandedUp(|values|, Turn(|values|, s).value, y)
  {
    hide Reached, Place, Digits, Inside, Insert, HeightOf, NodeAt, Turn, HashAt, InOrder, Known;
    var n, x, t := |values|, s.work[0], Turn(|values|, s).value;
    SaneFirst(n, qs, s);
    TurnResult(values, s);
    Joined(values, x);
    if y in s.cache {
      assert HandedUp(n, s, y);
      KnownStays(values, qs, s, 2 * y);
    }
    KnownStays(values, qs, s, x);
  }

  lemma SaneStep(values: seq<Value>, qs: set<nat>, s: Progress)
    requires |values| >= 1 && HeightOf(|values|) <= 30 && Sane(|values|, qs, s) && s.work[0] != 2 && Turn(|values|, s).Some?
    ensures Sane(|values|, qs, Turn(|values|, s).value)
  {
    hide Reached, Place, Digits, Inside, Insert, HeightOf, NodeAt, Turn, InOrder, HandedUp;
    var n, x, t := |values|, s.work[0], Turn(|values|, s).value;
    SaneFirst(n, qs, s);
    TurnShrinks(n, s);
    TurnResult(values, s);
    ReachedUp(n, qs, x);
    TailOfList(s.work);
    Inserted(s.work[1..], x / 2);
    InsertedHead(s.work[1..], x / 2);
    forall y | y in t.cache ensures HandedUp(n, t, y) { HandedUpStays(values, qs, s, y); }
    forall y | y in t.work ensures Reached(n, qs, y) && Known(t, y).Some? {
      if y != x / 2 { KnownStays(values, qs, s, y); }
    }
  }
}
