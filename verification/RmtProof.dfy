/** Generating and verifying inclusion proofs for any number of values (pkg/trie/rmt/rmt.go, util.go, verify.go). */
module RmtProof {
  import opened Basics
  import opened RmtRoot
  import opened RmtTree
  import opened RmtLayers
  import opened RmtAppend
  import opened RmtIndex
  import opened RmtWork
  import opened RmtReach
  import opened RmtVerify
  import opened RmtGenerate

  // ---------------------------------------------------------------- verification

  /** The given hashes by index; of a repeated index the last one counts. */
  function Given(queries: seq<Hash>, idxs: seq<nat>): map<nat, Hash>
    requires |queries| == |idxs|
  {
    if idxs == [] then map[]
    else
      var k := |idxs| - 1;
      if idxs[k] == 0 then Given(queries[..k], idxs[..k]) else Given(queries[..k], idxs[..k])[idxs[k] := queries[k]]
  }

  function Begin(queries: seq<Hash>, idxs: seq<nat>, siblings: seq<Hash>): Progress
    requires |queries| == |idxs|
  {
    Progress(SortIndexes(Present(idxs)), Given(queries, idxs), map[], siblings)
  }

  /** VerifyProof. */
  predicate Accepts(queries: seq<Hash>, proof: Proof, root: Hash) {
    && proof.size >= 1 && |queries| == |proof.idxs| && queries != []
    && var r := Walk(proof.size, Begin(queries, proof.idxs, proof.siblings));
    r.Some? && 2 in r.value && r.value[2] == root
  }

  lemma {:induction false} GivenKeys(queries: seq<Hash>, idxs: seq<nat>, x: nat)
    requires |queries| == |idxs|
    ensures x in Given(queries, idxs) <==> x in idxs && x != 0
  {
    if idxs != [] {
      assert idxs == idxs[..|idxs| - 1] + [idxs[|idxs| - 1]];
      GivenKeys(queries[..|idxs| - 1], idxs[..|idxs| - 1], x);
    }
  }

  /** calculatePathNodes; None when it returns an error or panics. */
  method CalculatePathNodes(queries: seq<Hash>, size: nat, idxs: seq<nat>, siblings: seq<Hash>) returns (r: Option<map<nat, Hash>>)
    requires size >= 1
    ensures r == if |queries| != |idxs| || queries == [] then None else Walk(size, Begin(queries, idxs, siblings))
  {
    hide Walk, Turn, InOrder, Insert, SortIndexes, Resolve, HeightOf;
    if |queries| != |idxs| || |queries| == 0 {
      return None;
    }
    var result, sorted := map[], [];
    for i := 0 to |idxs|
      invariant result == Given(queries[..i], idxs[..i]) && sorted == Present(idxs[..i])
    {
      assert idxs[..i + 1][..i] == idxs[..i] && queries[..i + 1][..i] == queries[..i];
      if idxs[i] == 0 {
        continue;
      }
      sorted := sorted + [idxs[i]];
      result := result[idxs[i] := queries[i]];
    }
    assert idxs[..|idxs|] == idxs && queries[..|idxs|] == queries;
    sorted := SortIndexes(sorted);
    SortedPresent(idxs);
    r := Loop(size, Progress(sorted, result, map[], siblings));
  }

  /** The loop of calculatePathNodes. */
  method Loop(size: nat, start: Progress) returns (r: Option<map<nat, Hash>>)
    requires size >= 1 && InOrder(start.work)
    ensures r == Walk(size, start)
  {
    hide InOrder, Insert, Resolve, HeightOf, EncodeIndex, DecodeIndex;
    var work, result, parentCache, siblings := start.work, start.result, start.cache, start.siblings;
    var height := HeightOf(size);
    while |work| > 0
      invariant InOrder(work) && Walk(size, Progress(work, result, parentCache, siblings)) == Walk(size, start)
      decreases Total(work)
    {
      ghost var s := Progress(work, result, parentCache, siblings);
      var idx := work[0];
      if idx == 2 {
        return Some(result);
      }
      if idx !in result && idx !in parentCache {
        return None;
      }
      var currentHash := if idx in result then result[idx] else parentCache[idx];
      var loc := DecodeIndex(idx, height);
      if loc.None? {
        return None;
      }
      DecodedInTree(size, idx);
      var sibling := GetRightSiblingInfo(loc.value.index, loc.value.layer, size);
      if sibling.Some? {
        var siblingIndex := EncodeIndex(sibling.value, height);
        if siblingIndex.None? {
          return None;
        }
        var siblingHash := Empty;
        if siblingIndex.value in result {
          siblingHash := result[siblingIndex.value];
        } else {
          if |siblings| == 0 {
            return None;
          }
          siblingHash := siblings[0];
          siblings := siblings[1..];
        }
        var parentHash := if idx % 2 == 0 then Branch(currentHash, siblingHash) else Branch(siblingHash, currentHash);
        if idx / 2 in result && result[idx / 2] != parentHash {
          return None;
        }
        result := result[idx / 2 := parentHash];
      } else {
        parentCache := parentCache[idx / 2 := currentHash];
      }
      TurnShrinks(size, s);
      TailOfList(work);
      Inserted(work[1..], idx / 2);
      work := InsertIndex(work[1..], idx / 2);
    }
    return Some(result);
  }

  lemma DecodedInTree(size: nat, index: nat)
    requires size >= 1
    ensures DecodeIndex(index, HeightOf(size)).Some? ==> index >= 2 && DecodeIndex(index, HeightOf(size)).value.layer < HeightOf(size)
  {
    DigitsOfZero();
  }

  method VerifyProof(queries: seq<Hash>, proof: Proof, root: Hash) returns (ok: bool)
    ensures ok <==> Accepts(queries, proof, root)
  {
    hide Walk, Begin;
    if proof.size == 0 {
      return false;
    }
    var tree := CalculatePathNodes(queries, proof.size, proof.idxs, proof.siblings);
    if tree.None? || 2 !in tree.value {
      return false;
    }
    return tree.value[2] == root;
  }

  // ---------------------------------------------------------------- completeness and soundness

  /** Every query that is not 0 is an existing node, and the hash given for it is the node's. */
  ghost predicate Honest(values: seq<Value>, queries: seq<Hash>, idxs: seq<nat>) {
    && |queries| == |idxs|
    && (forall i :: 0 <= i < |idxs| && idxs[i] != 0 ==>
          Inside(|values|, idxs[i]) && NodeAt(|values|, idxs[i]) && queries[i] == HashAt(values, idxs[i]))
  }

  /** The proof with exactly the hashes that the queries need. */
  function ProofFor(values: seq<Value>, idxs: seq<nat>): Proof
    requires |values| >= 1
  {
    Proof(|values|, idxs, NeededFrom(values, Queries(idxs), FirstPlace(|values|)))
  }

  /** No index that needs a sibling hash is repeated. */
  ghost predicate NeedyOnce(values: seq<Value>, idxs: seq<nat>) {
    forall i, j :: 0 <= i < j < |idxs| && idxs[i] == idxs[j] && idxs[i] != 0 ==> Needed(values, Queries(idxs), idxs[i]) == []
  }

  lemma {:induction false} GivenRight(values: seq<Value>, queries: seq<Hash>, idxs: seq<nat>, x: nat)
    requires Honest(values, queries, idxs) && x in Given(queries, idxs)
    ensures Inside(|values|, x) && NodeAt(|values|, x) && Given(queries, idxs)[x] == HashAt(values, x)
  {
    hide Inside, NodeAt, HashAt;
    var k := |idxs| - 1;
    if x != idxs[k] { GivenRight(values, queries[..k], idxs[..k], x); }
    else if idxs[k] == 0 { GivenKeys(queries, idxs, x); }
  }

  lemma {:induction false} GivenLast(queries: seq<Hash>, idxs: seq<nat>, i: nat)
    requires |queries| == |idxs| && i < |idxs| && idxs[i] != 0 && forall j :: i < j < |idxs| ==> idxs[j] != idxs[i]
    ensures idxs[i] in Given(queries, idxs) && Given(queries, idxs)[idxs[i]] == queries[i]
  {
    var k := |idxs| - 1;
    if i < k { GivenLast(queries[..k], idxs[..k], i); }
  }

  /** Where verification of honest queries starts. */
  lemma KeysAtStart(values: seq<Value>, queries: seq<Hash>, idxs: seq<nat>, siblings: seq<Hash>)
    requires |values| >= 1 && Honest(values, queries, idxs)
    ensures AllNodes(|values|, Queries(idxs))
    ensures Keys(|values|, Queries(idxs), Begin(queries, idxs, siblings), FirstPlace(|values|))
    ensures Right(values, Begin(queries, idxs, siblings))
  {
    hide Reached, Place, InOrder, FirstPlace, Inside, Present, SortIndexes, Frontier, NodeAt, HashAt, Given, Stored, ChildVisited;
    var n, qs, s := |values|, Queries(idxs), Begin(queries, idxs, siblings);
    SortedPresent(idxs);
    NodesInside(n, qs);
    FrontierStart(n, qs, s.work);
    forall x ensures x in s.result <==> x in qs { GivenKeys(queries, idxs, x); }
    forall x | x in s.result ensures Reached(n, qs, x) && Inside(n, x) && NodeAt(n, x) && s.result[x] == HashAt(values, x) {
      GivenRight(values, queries, idxs, x);
      ReachedQuery(n, qs, x);
    }
    forall x: nat | Settled(n, qs, x, FirstPlace(n)) ensures Stored(n, x) in s.result {
      NoChildYet(n, qs, x);
      StoredNode(n, x);
    }
  }

  lemma NoChildYet(n: nat, qs: set<nat>, x: nat)
    requires n >= 1
    ensures !ChildVisited(n, qs, x, FirstPlace(n))
  {
    hide Reached, Place, FirstPlace, Inside;
    if Reached(n, qs, 2 * x) { InsideIsPositive(n, qs, 2 * x); PlacesInside(n, 2 * x); }
    if Reached(n, qs, 2 * x + 1) { InsideIsPositive(n, qs, 2 * x + 1); PlacesInside(n, 2 * x + 1); }
  }

  /** Nothing extra is used exactly when what is repeated needs nothing. */
  lemma {:induction false} ExtraIsRepeats(values: seq<Value>, qs: set<nat>, w: seq<nat>)
    requires InOrder(w)
    ensures Extra(values, qs, w) == 0 <==> forall x :: multiset(w)[x] >= 2 ==> Needed(values, qs, x) == []
  {
    hide Place, Needed;
    if |w| == 1 {
      assert multiset(w) == multiset{w[0]};
    } else if |w| > 1 {
      var tail := w[1..];
      ExtraIsRepeats(values, qs, tail);
      assert w == [w[0]] + tail;
      AllPositive(w, 0);
      AllPositive(w, 1);
      FirstLeads(w);
      FirstLeads(tail);
      assert tail[0] in w;
      PlaceIsOrder(w[0], w[1]);
      assert w[0] in tail <==> w[1] == w[0];
      forall x ensures multiset(w)[x] == multiset(tail)[x] + if x == w[0] then 1 else 0 { assert multiset(w) == multiset{w[0]} + multiset(tail); }
      assert multiset(w)[w[0]] >= 2 <==> w[0] in tail;
    }
  }

  lemma {:induction false} PresentBag(idxs: seq<nat>, x: nat)
    requires x != 0
    ensures multiset(Present(idxs))[x] == multiset(idxs)[x]
  {
    if idxs != [] {
      var k := |idxs| - 1;
      var front := idxs[..k];
      PresentBag(front, x);
      assert idxs == front + [idxs[k]];
      assert multiset(idxs) == multiset(front) + multiset{idxs[k]};
      assert Present(idxs) == Present(front) + if idxs[k] == 0 then [] else [idxs[k]];
    }
  }

  lemma {:induction false} TwiceInBag(idxs: seq<nat>, x: nat)
    ensures multiset(idxs)[x] >= 2 <==> exists i, j :: 0 <= i < j < |idxs| && idxs[i] == x && idxs[j] == x
  {
    if idxs != [] {
      var k := |idxs| - 1;
      var front := idxs[..k];
      TwiceInBag(front, x);
      assert idxs == front + [idxs[k]];
      if multiset(front)[x] >= 2 {
        var i, j :| 0 <= i < j < |front| && front[i] == x && front[j] == x;
        assert idxs[i] == x && idxs[j] == x;
      } else if multiset(idxs)[x] >= 2 {
        assert x in multiset(front) && x in front;
        var i :| 0 <= i < |front| && front[i] == x;
        assert idxs[i] == x && idxs[k] == x;
      }
      if i, j :| 0 <= i < j < |idxs| && idxs[i] == x && idxs[j] == x {
        assert front[i] == x;
        if j < k { assert front[j] == x; } else { assert x in multiset(front); }
      }
    }
  }

  lemma ExtraAtStart(values: seq<Value>, idxs: seq<nat>)
    ensures Extra(values, Queries(idxs), SortIndexes(Present(idxs))) == 0 <==> NeedyOnce(values, idxs)
  {
    hide Needed, SortIndexes, Present, InOrder;
    var qs, w := Queries(idxs), SortIndexes(Present(idxs));
    SortedPresent(idxs);
    ExtraIsRepeats(values, qs, w);
    forall x ensures multiset(w)[x] >= 2 <==> x != 0 && exists i, j :: 0 <= i < j < |idxs| && idxs[i] == x && idxs[j] == x {
      TwiceInBag(idxs, x);
      if x != 0 { PresentBag(idxs, x); } else { PresentMembers(idxs, 0); }
    }
  }

  /** The proof with exactly the needed hashes is accepted for honest queries if and only if some query exists and
      none that needs a hash is repeated. */
  lemma AcceptedIff(values: seq<Value>, queries: seq<Hash>, idxs: seq<nat>)
    requires |values| >= 1 && HeightOf(|values|) <= 30 && Honest(values, queries, idxs)
    ensures Accepts(queries, ProofFor(values, idxs), Root(values)) <==> Queries(idxs) != {} && NeedyOnce(values, idxs)
  {
    hide Reached, Place, InOrder, FirstPlace, Present, SortIndexes, HeightOf, Keys, Right, NeedyOnce, NeededFrom, Root,
      AllNodes, Given, Honest;
    var n, qs, proof := |values|, Queries(idxs), ProofFor(values, idxs);
    HonestMeans(values, queries, idxs);
    var s := Begin(queries, idxs, proof.siblings);
    KeysAtStart(values, queries, idxs, proof.siblings);
    SortedPresent(idxs);
    ExtraAtStart(values, idxs);
    if qs == {} {
      StartOfNothing(queries, idxs, proof.siblings);
    } else {
      var x :| x in qs;
      assert x in s.work;
      if NeedyOnce(values, idxs) {
        WalkArrives(values, qs, s, FirstPlace(n));
      } else if Walk(n, s).Some? {
        WalkUses(values, qs, s, FirstPlace(n));
      }
    }
  }

  lemma HonestMeans(values: seq<Value>, queries: seq<Hash>, idxs: seq<nat>)
    requires Honest(values, queries, idxs)
    ensures |queries| == |idxs|
  {
  }

  lemma StartOfNothing(queries: seq<Hash>, idxs: seq<nat>, siblings: seq<Hash>)
    requires |queries| == |idxs| && Queries(idxs) == {}
    ensures
      var s := Begin(queries, idxs, siblings);
      s.work == [] && 2 !in s.result
  {
    hide SortIndexes, Present, Given;
    NothingPresent(idxs);
    assert 2 in idxs ==> 2 in Queries(idxs);
    GivenKeys(queries, idxs, 2);
  }

  // ---------------------------------------------------------------- proofs of values

  /** The leaf the store has for a value; of equal leaves the last one appended. */
  function LeafFor(s: NodeStore, v: Value): Option<nat> {
    if Leaf(v) in s.locationOf then Some(s.locationOf[Leaf(v)].index) else None
  }

  /** The index of that leaf, or 0. */
  function IndexFor(s: NodeStore, n: nat, v: Value): nat
    requires n >= 1
  {
    if LeafFor(s, v).Some? then Pow2(HeightOf(n)) + LeafFor(s, v).value else 0
  }

  function IndexesFor(s: NodeStore, n: nat, queries: seq<Value>): (r: seq<nat>)
    requires n >= 1
    ensures |r| == |queries| && forall i :: 0 <= i < |r| ==> r[i] == IndexFor(s, n, queries[i])
  {
    seq(|queries|, i requires 0 <= i < |queries| => IndexFor(s, n, queries[i]))
  }

  function LeafHashes(queries: seq<Value>): (r: seq<Hash>)
    ensures |r| == |queries| && forall i :: 0 <= i < |r| ==> r[i] == Leaf(queries[i])
  {
    seq(|queries|, i requires 0 <= i < |queries| => Leaf(queries[i]))
  }

  /** The store has a leaf exactly for every value that was appended. */
  ghost predicate Located(s: NodeStore, values: seq<Value>) {
    forall v :: LeafFor(s, v).Some? <==> v in values
  }

  ghost predicate LeavesRight(s: NodeStore, values: seq<Value>) {
    forall v :: LeafFor(s, v).Some? ==> LeafFor(s, v).value < |values| && values[LeafFor(s, v).value] == v
  }

  lemma TreeLocates(s: NodeStore, values: seq<Value>)
    requires LayersMatch(s) && LeavesLocated(s, values)
    ensures Located(s, values) && LeavesRight(s, values)
    ensures forall v :: Leaf(v) in s.locationOf ==> s.locationOf[Leaf(v)].layer == 0
  {
  }

  lemma LeafAtIndex(values: seq<Value>, i: nat)
    requires i < |values|
    ensures
      var n, x := |values|, Pow2(HeightOf(|values|)) + i;
      && x != 0 && Inside(n, x) && NodeAt(n, x) && AtBottom(n, x) && LocOf(n, x) == Location(0, i)
      && HashAt(values, x) == Leaf(values[i])
  {
    hide HeightOf, Digits, Root;
    var n := |values|;
    StartZero(i);
    InsideLayer(n, i, 0);
    PowNext(HeightOf(n) - 1);
    PowNext(HeightOf(n));
    DigitsUnique(Pow2(HeightOf(n)) + i, HeightOf(n) + 1);
    LeafIsNode(values, i);
  }

  /** The index of an appended value is that of a leaf with this value. */
  lemma IndexIsLeaf(s: NodeStore, values: seq<Value>, v: Value)
    requires |values| >= 1 && Located(s, values) && LeavesRight(s, values)
    ensures
      var x := IndexFor(s, |values|, v);
      && (x != 0 <==> v in values)
      && (x != 0 ==> Inside(|values|, x) && NodeAt(|values|, x) && AtBottom(|values|, x) && HashAt(values, x) == Leaf(v))
  {
    hide HeightOf, Digits, Root, Inside, NodeAt, AtBottom, HashAt, Pow2, LeafFor;
    if LeafFor(s, v).Some? { LeafAtIndex(values, LeafFor(s, v).value); }
  }

  lemma QueriesAreHonest(s: NodeStore, values: seq<Value>, queries: seq<Value>)
    requires |values| >= 1 && Located(s, values) && LeavesRight(s, values)
    ensures
      var idxs := IndexesFor(s, |values|, queries);
      && Honest(values, LeafHashes(queries), idxs) && AllNodes(|values|, Queries(idxs)) && RepeatsAtBottom(|values|, Present(idxs))
      && (Queries(idxs) == {} <==> forall i :: 0 <= i < |queries| ==> queries[i] !in values)
  {
    hide HeightOf, Digits, Root, Inside, NodeAt, HashAt, AtBottom, IndexFor, Present, Located, LeavesRight;
    var n, idxs := |values|, IndexesFor(s, |values|, queries);
    forall i | 0 <= i < |idxs|
      ensures
        && (idxs[i] != 0 <==> queries[i] in values)
        && (idxs[i] != 0 ==> idxs[i] in Queries(idxs) && Inside(n, idxs[i]) && NodeAt(n, idxs[i]) && AtBottom(n, idxs[i]) && HashAt(values, idxs[i]) == Leaf(queries[i]))
    {
      IndexIsLeaf(s, values, queries[i]);
    }
    forall x | multiset(Present(idxs))[x] >= 2 ensures AtBottom(n, x) {
      assert x in multiset(Present(idxs));
      PresentMembers(idxs, x);
    }
  }

  /** getIndexes; None when an index cannot be parsed. */
  method GetIndexes(tree: RegularMerkleTree, queries: seq<Value>) returns (r: Option<seq<nat>>)
    requires tree.Valid() && tree.size >= 1
    ensures r.Some? <==> HeightOf(tree.size) <= 30 || forall i :: 0 <= i < |queries| ==> queries[i] !in tree.values
    ensures r.Some? ==> r.value == IndexesFor(tree.store, tree.size, queries)
  {
    hide HeightOf, Digits, NodesStored, PathLocated, AppendPath, Root, LayersMatch, LeavesLocated, EncodeIndex, DecodeIndex,
      Start;
    TreeLocates(tree.store, tree.values);
    var idxs := [];
    var height := HeightOf(tree.size);
    for i := 0 to |queries|
      invariant |idxs| == i && forall j :: 0 <= j < i ==> idxs[j] == IndexFor(tree.store, tree.size, queries[j])
      invariant height <= 30 || forall j :: 0 <= j < i ==> queries[j] !in tree.values
    {
      assert LeafFor(tree.store, queries[i]).Some? <==> queries[i] in tree.values;
      if Leaf(queries[i]) !in tree.store.locationOf {
        idxs := idxs + [0];
        continue;
      }
      var loc := tree.store.locationOf[Leaf(queries[i])];
      LeafHasIndex(tree.size, loc.index);
      var index := EncodeIndex(loc, height);
      if index.None? {
        return None;
      }
      idxs := idxs + [index.value];
    }
    return Some(idxs);
  }

  /** GenerateProof for the hashes of values; None when it returns an error. */
  method GenerateProof(tree: RegularMerkleTree, queries: seq<Value>) returns (r: Option<Proof>)
    requires tree.Valid()
    ensures tree.size == 0 ==> r == Some(Proof(0, [], []))
    ensures tree.size > 0 ==> (r.Some? <==> HeightOf(tree.size) <= 30 || forall i :: 0 <= i < |queries| ==> queries[i] !in tree.values)
    ensures tree.size > 0 && r.Some? ==> r.value == ProofFor(tree.values, IndexesFor(tree.store, tree.size, queries))
  {
    hide HeightOf, NodesStored, PathLocated, AppendPath, Root, LayersMatch, LeavesLocated, NeededFrom, FirstPlace, IndexFor,
      AllNodes, RepeatsAtBottom, Present, Queries, Honest, Located, LeavesRight;
    if tree.size == 0 {
      return Some(Proof(0, [], []));
    }
    var idxs := GetIndexes(tree, queries);
    if idxs.None? {
      return None;
    }
    TreeLocates(tree.store, tree.values);
    QueriesAreHonest(tree.store, tree.values, queries);
    var siblings := GetSiblingHashes(tree, idxs.value);
    if siblings.None? {
      return None;
    }
    return Some(Proof(tree.size, idxs.value, siblings.value));
  }

  // ---------------------------------------------------------------- when generated proofs are accepted

  /** The leaf beside that of a value is queried, too, or does not exist. */
  ghost predicate Paired(s: NodeStore, values: seq<Value>, queries: seq<Value>, v: Value)
    requires LeafFor(s, v).Some?
  {
    var beside := Sibling(LeafFor(s, v).value);
    beside >= |values| || exists u :: u in queries && LeafFor(s, u) == Some(beside)
  }

  /** Only values whose leaves are paired are queried more than once. */
  ghost predicate RepeatsPaired(s: NodeStore, values: seq<Value>, queries: seq<Value>) {
    forall i, j :: 0 <= i < j < |queries| && queries[i] == queries[j] && LeafFor(s, queries[i]).Some? ==> Paired(s, values, queries, queries[i])
  }

  lemma IndexQueried(s: NodeStore, n: nat, queries: seq<Value>, x: nat)
    requires n >= 1 && x != 0
    ensures x in Queries(IndexesFor(s, n, queries)) <==> exists u :: u in queries && IndexFor(s, n, u) == x
  {
    hide IndexFor;
    var idxs := IndexesFor(s, n, queries);
    if x in idxs {
      var i :| 0 <= i < |idxs| && idxs[i] == x;
      assert queries[i] in queries && IndexFor(s, n, queries[i]) == x;
    }
    if u :| u in queries && IndexFor(s, n, u) == x {
      var i :| 0 <= i < |queries| && queries[i] == u;
      assert idxs[i] == x;
    }
  }

  lemma LeafQueried(s: NodeStore, n: nat, queries: seq<Value>, k: nat)
    requires n >= 1
    ensures Pow2(HeightOf(n)) + k in Queries(IndexesFor(s, n, queries)) <==> exists u :: u in queries && LeafFor(s, u) == Some(k)
  {
    hide HeightOf, LeafFor;
    IndexQueried(s, n, queries, Pow2(HeightOf(n)) + k);
    forall u ensures IndexFor(s, n, u) == Pow2(HeightOf(n)) + k <==> LeafFor(s, u) == Some(k) {}
  }

  /** A queried leaf needs nothing exactly when it is paired. */
  lemma NeededAtLeaf(s: NodeStore, values: seq<Value>, queries: seq<Value>, v: Value)
    requires |values| >= 1 && Located(s, values) && LeavesRight(s, values) && v in queries && v in values
    ensures LeafFor(s, v).Some?
    ensures Needed(values, Queries(IndexesFor(s, |values|, queries)), IndexFor(s, |values|, v)) == [] <==> Paired(s, values, queries, v)
  {
    hide HeightOf, Pow2, Digits, Located, LeavesRight, LeafFor, Reached, Inside, AtBottom, NodeAt, AllNodes, Honest,
      RepeatsAtBottom, HashAt;
    LocatedAt(s, values, v);
    var n, k, x := |values|, LeafFor(s, v).value, IndexFor(s, |values|, v);
    var qs := Queries(IndexesFor(s, n, queries));
    QueriesAreHonest(s, values, queries);
    NodesInside(n, qs);
    LeafAtIndex(values, k);
    LeafQueried(s, n, queries, k);
    ReachedQuery(n, qs, x);
    if x == 2 {
      SingleLeaf(n, k);
    } else {
      MateLeaf(values, k);
      LeafQueried(s, n, queries, Sibling(k));
      if Reached(n, qs, Mate(x)) { BottomIsQuery(n, qs, Mate(x)); }
      if Mate(x) in qs { ReachedQuery(n, qs, Mate(x)); }
    }
  }

  lemma LocatedAt(s: NodeStore, values: seq<Value>, v: Value)
    requires Located(s, values) && LeavesRight(s, values) && v in values
    ensures LeafFor(s, v).Some? && LeafFor(s, v).value < |values| && values[LeafFor(s, v).value] == v
  {
  }

  lemma SingleLeaf(n: nat, k: nat)
    requires k < n && Pow2(HeightOf(n)) + k == 2
    ensures Sibling(k) >= n
  {
    assert Pow2(HeightOf(n)) == 2 * Pow2(HeightOf(n) - 1);
  }

  /** The mate of a leaf is the leaf beside it. */
  lemma MateLeaf(values: seq<Value>, k: nat)
    requires k < |values| && Pow2(HeightOf(|values|)) + k != 2
    ensures
      var n, x := |values|, Pow2(HeightOf(|values|)) + k;
      && Mate(x) == Pow2(HeightOf(n)) + Sibling(k) && (Inside(n, Mate(x)) <==> Sibling(k) < n)
      && AtBottom(n, Mate(x))
  {
    hide HeightOf, Digits, Start;
    var n, x := |values|, Pow2(HeightOf(|values|)) + k;
    LeafAtIndex(values, k);
    MateOf(n, x);
    StartZero(Sibling(k));
    PowNext(HeightOf(n) - 1);
  }

  lemma NeedyIsPaired(s: NodeStore, values: seq<Value>, queries: seq<Value>)
    requires |values| >= 1 && Located(s, values) && LeavesRight(s, values)
    ensures NeedyOnce(values, IndexesFor(s, |values|, queries)) <==> RepeatsPaired(s, values, queries)
  {
    hide HeightOf, Pow2, Digits, Located, LeavesRight, LeafFor, Inside, NodeAt, AtBottom, HashAt, IndexFor, Needed, Paired;
    var n, idxs := |values|, IndexesFor(s, |values|, queries);
    forall i, j | 0 <= i < j < |queries|
      ensures idxs[i] == idxs[j] && idxs[i] != 0 <==> queries[i] == queries[j] && LeafFor(s, queries[i]).Some?
    {
      SameIndex(s, values, queries[i], queries[j]);
    }
    forall i | 0 <= i < |queries| && LeafFor(s, queries[i]).Some?
      ensures Needed(values, Queries(idxs), idxs[i]) == [] <==> Paired(s, values, queries, queries[i])
    {
      SameIndex(s, values, queries[i], queries[i]);
      IndexIsLeaf(s, values, queries[i]);
      NeededAtLeaf(s, values, queries, queries[i]);
    }
  }

  lemma SameIndex(s: NodeStore, values: seq<Value>, u: Value, v: Value)
    requires |values| >= 1 && Located(s, values) && LeavesRight(s, values)
    ensures IndexFor(s, |values|, u) == IndexFor(s, |values|, v) && IndexFor(s, |values|, u) != 0 <==> u == v && LeafFor(s, u).Some?
  {
    hide HeightOf, Pow2, Digits, Inside, NodeAt, AtBottom, HashAt;
    IndexIsLeaf(s, values, u);
    IndexIsLeaf(s, values, v);
  }

  /** Proving and verifying succeed if and only if some queried value was appended and every value that is queried more
      than once has its neighbour queried, too, or has none. */
  method ProveAndVerify(tree: RegularMerkleTree, queries: seq<Value>) returns (ok: bool)
    requires tree.Valid() && (tree.size > 0 ==> HeightOf(tree.size) <= 30)
    ensures ok <==> (exists i :: 0 <= i < |queries| && queries[i] in tree.values) && RepeatsPaired(tree.store, tree.values, queries)
  {
    hide HeightOf, NodesStored, PathLocated, AppendPath, LayersMatch, LeavesLocated, IndexFor, AllNodes, RepeatsAtBottom, Present,
      Queries, Honest, Located, LeavesRight, RepeatsPaired, NeedyOnce, Accepts, ProofFor, Root;
    var proof := GenerateProof(tree, queries);
    if proof.None? {
      return false;
    }
    ok := VerifyProof(LeafHashes(queries), proof.value, tree.root);
    if tree.size == 0 {
      EmptyProof(LeafHashes(queries), tree.root);
    } else {
      TreeLocates(tree.store, tree.values);
      QueriesAreHonest(tree.store, tree.values, queries);
      NeedyIsPaired(tree.store, tree.values, queries);
      AcceptedIff(tree.values, LeafHashes(queries), IndexesFor(tree.store, tree.size, queries));
    }
  }

  lemma EmptyProof(queries: seq<Hash>, root: Hash)
    ensures !Accepts(queries, Proof(0, [], []), root)
  {
  }

  /** Not every repeated query is accepted: of two leaves, asking twice for one alone fails, and asking once does not. */
  lemma RepeatedLeafFails(v: Value, w: Value)
    ensures Accepts([Leaf(v)], ProofFor([v, w], [4]), Root([v, w]))
    ensures !Accepts([Leaf(v), Leaf(v)], ProofFor([v, w], [4, 4]), Root([v, w]))
  {
    hide Digits, Root, Accepts, ProofFor, Needed;
    var values := [v, w];
    assert Pow2(1) == 2 && Pow2(2) == 4 && HeightOf(2) == 2;
    LeafAtIndex(values, 0);
    assert Queries([4]) == {4} by { assert [4][0] == 4; }
    assert Queries([4, 4]) == {4} by { assert [4, 4][0] == 4; }
    LoneLeafNeeds(values);
    AcceptedIff(values, [Leaf(v)], [4]);
    var twice := [4, 4];
    assert twice[0] == twice[1] && !NeedyOnce(values, twice);
    AcceptedIff(values, [Leaf(v), Leaf(v)], twice);
  }

  lemma LoneLeafNeeds(values: seq<Value>)
    requires |values| == 2
    ensures Needed(values, {4}, 4) != []
  {
    hide Digits, Root;
    assert Pow2(1) == 2 && Pow2(2) == 4 && HeightOf(2) == 2;
    LeafAtIndex(values, 0);
    LeafAtIndex(values, 1);
  }
}
