/** What an accepted proof says about its queries (pkg/trie/rmt/verify.go, util.go). */
module RmtTruth {
  import opened RmtRoot
  import opened RmtTree
  import opened RmtIndex
  import opened RmtWork
  import opened RmtReach
  import opened RmtVerify
  import opened RmtSound
  import opened RmtAside
  import opened RmtGenerate
  import opened RmtProof

  // ---------------------------------------------------------------- soundness

  lemma SoundAtStart(n: nat, queries: seq<Hash>, idxs: seq<nat>, siblings: seq<Hash>)
    requires n >= 1 && |queries| == |idxs| && AllInside(n, Queries(idxs)) && Queries(idxs) != {}
    ensures
      var s := Begin(queries, idxs, siblings);
      && Sound(n, Queries(idxs), s, FirstPlace(n))
      && (forall x :: x in s.work <==> x in Queries(idxs)) && (forall x :: x in s.result <==> x in Queries(idxs)) && s.cache == map[]
  {
    hide Reached, Place, InOrder, Present, SortIndexes, HeightOf, Given, Inside, NodeAt, FirstPlace, Frontier;
    var qs, s := Queries(idxs), Begin(queries, idxs, siblings);
    SortedPresent(idxs);
    forall x ensures x in s.result <==> x in qs { GivenKeys(queries, idxs, x); }
    FrontierStart(n, qs, s.work);
    forall x | x in s.work ensures Reached(n, qs, x) { ReachedQuery(n, qs, x); }
    var q :| q in qs;
    assert q in s.work;
  }

  /** What is accepted against the root of a tree, with whatever sibling hashes, is the hash at its index; of a
      repeated index this is the last one given. */
  lemma AcceptedIsNode(values: seq<Value>, queries: seq<Hash>, proof: Proof, i: nat)
    requires |values| == proof.size >= 1 && HeightOf(|values|) <= 30
    requires AllInside(|values|, Queries(proof.idxs)) && Compared(|values|, Queries(proof.idxs))
    requires Accepts(queries, proof, Root(values))
    requires i < |proof.idxs| && proof.idxs[i] != 0 && forall j :: i < j < |proof.idxs| ==> proof.idxs[j] != proof.idxs[i]
    ensures Inside(|values|, proof.idxs[i]) && queries[i] == HashAt(values, proof.idxs[i])
  {
    hide Reached, Place, HeightOf, Root, Given, Walk, Inside, HashAt, Sound, Compared, SortIndexes, Present, FirstPlace, AllInside;
    var n, idxs, qs := |values|, proof.idxs, Queries(proof.idxs);
    var s := Begin(queries, idxs, proof.siblings);
    assert idxs[i] in qs;
    SoundAtStart(n, queries, idxs, proof.siblings);
    ArrivedIsRight(values, qs, s, FirstPlace(n), idxs[i]);
    GivenLast(queries, idxs, i);
  }

  /** No index other than 0 is repeated. */
  predicate Once(idxs: seq<nat>) { forall i, j :: 0 <= i < j < |idxs| && idxs[i] == idxs[j] ==> idxs[i] == 0 }

  /** Every query has the tree's hash at its index. */
  ghost predicate AllTrue(values: seq<Value>, queries: seq<Hash>, idxs: seq<nat>) {
    && |queries| == |idxs|
    && forall i :: 0 <= i < |idxs| && idxs[i] != 0 ==> Inside(|values|, idxs[i]) && queries[i] == HashAt(values, idxs[i])
  }

  /** Whatever is accepted for these indexes is true. */
  ghost predicate Truthful(values: seq<Value>, idxs: seq<nat>) {
    forall queries: seq<Hash>, siblings: seq<Hash> ::
      Accepts(queries, Proof(|values|, idxs, siblings), Root(values)) ==> AllTrue(values, queries, idxs)
  }

  /** Acceptance is sound for a list of places of the tree if and only if none is repeated and every hash is compared. */
  lemma TruthfulIff(values: seq<Value>, idxs: seq<nat>)
    requires |values| >= 1 && HeightOf(|values|) <= 30 && AllInside(|values|, Queries(idxs))
    ensures Truthful(values, idxs) <==> Once(idxs) && Compared(|values|, Queries(idxs))
  {
    hide HeightOf, AllInside, Compared, Accepts, Root, AllTrue;
    if Once(idxs) && Compared(|values|, Queries(idxs)) {
      forall queries: seq<Hash>, siblings: seq<Hash> | Accepts(queries, Proof(|values|, idxs, siblings), Root(values))
        ensures AllTrue(values, queries, idxs)
      {
        AcceptedIsTrue(values, queries, idxs, siblings);
      }
    } else {
      var queries, siblings := Untrue(values, idxs);
    }
  }

  lemma AcceptedIsTrue(values: seq<Value>, queries: seq<Hash>, idxs: seq<nat>, siblings: seq<Hash>)
    requires |values| >= 1 && HeightOf(|values|) <= 30 && AllInside(|values|, Queries(idxs))
    requires Once(idxs) && Compared(|values|, Queries(idxs))
    requires Accepts(queries, Proof(|values|, idxs, siblings), Root(values))
    ensures AllTrue(values, queries, idxs)
  {
    hide HeightOf, AllInside, Compared, Root, Inside, HashAt, Walk, Begin;
    var proof := Proof(|values|, idxs, siblings);
    forall i | 0 <= i < |idxs| && idxs[i] != 0 ensures Inside(|values|, idxs[i]) && queries[i] == HashAt(values, idxs[i]) {
      AcceptedIsNode(values, queries, proof, i);
    }
  }

  // ---------------------------------------------------------------- what is accepted although it is not true

  /** The hashes of one tree at the places of `z`, and of the other one elsewhere. */
  function MixedQueries(values: seq<Value>, other: seq<Value>, z: set<nat>, idxs: seq<nat>): (r: seq<Hash>)
    requires |values| == |other| && forall i :: 0 <= i < |idxs| && idxs[i] != 0 ==> Inside(|values|, idxs[i])
    ensures |r| == |idxs|
  {
    seq(|idxs|, i requires 0 <= i < |idxs| => if idxs[i] == 0 then Empty else Mixed(values, other, z, idxs[i]))
  }

  lemma {:induction false} GivenMixed(values: seq<Value>, other: seq<Value>, z: set<nat>, queries: seq<Hash>, idxs: seq<nat>, x: nat)
    requires |values| == |other| && |queries| == |idxs| && x in Given(queries, idxs)
    requires forall i :: 0 <= i < |idxs| && idxs[i] != 0 ==>
               Inside(|values|, idxs[i])
               && (queries[i] == Mixed(values, other, z, idxs[i]) || exists j :: i < j < |idxs| && idxs[j] == idxs[i])
    ensures Inside(|values|, x) && Given(queries, idxs)[x] == Mixed(values, other, z, x)
  {
    hide Inside, Mixed, Given;
    GivenKeys(queries, idxs, x);
    var i := LastAt(idxs, x);
    GivenLast(queries, idxs, i);
  }

  lemma {:induction false} LastAt(idxs: seq<nat>, x: nat) returns (i: nat)
    requires x in idxs
    ensures i < |idxs| && idxs[i] == x && forall j :: i < j < |idxs| ==> idxs[j] != x
  {
    var k := |idxs| - 1;
    if idxs[k] == x {
      i := k;
    } else {
      assert idxs == idxs[..k] + [idxs[k]];
      i := LastAt(idxs[..k], x);
    }
  }

  /** Mixed hashes of two trees that are kept apart are accepted with some sibling hashes; of a repeated index only the
      last hash counts. */
  lemma MixedAccepted(values: seq<Value>, other: seq<Value>, z: set<nat>, queries: seq<Hash>, idxs: seq<nat>)
    returns (siblings: seq<Hash>)
    requires |values| == |other| >= 1 && HeightOf(|values|) <= 30 && |queries| == |idxs|
    requires AllInside(|values|, Queries(idxs)) && Queries(idxs) != {} && Apart(|values|, Queries(idxs), z)
    requires forall i :: 0 <= i < |idxs| && idxs[i] != 0 ==>
               Inside(|values|, idxs[i])
               && (queries[i] == Mixed(values, other, z, idxs[i]) || exists j :: i < j < |idxs| && idxs[j] == idxs[i])
    ensures Accepts(queries, Proof(|values|, idxs, siblings), Root(values))
  {
    hide HeightOf, AllInside, Apart, Root, Inside, Mixed, Given, SortIndexes, Present, Frontier, Sane, FirstPlace, Walk;
    var n, qs, s := |values|, Queries(idxs), Begin(queries, idxs, []);
    SoundAtStart(n, queries, idxs, []);
    forall x | x in s.result ensures Inside(n, x) && s.result[x] == Mixed(values, other, z, x) {
      GivenMixed(values, other, z, queries, idxs, x);
    }
    siblings := MixedArrives(values, other, qs, z, s);
    assert s.(siblings := siblings) == Begin(queries, idxs, siblings);
    assert queries != [] by { var q :| q in qs; }
  }

  /** Where the condition fails, something that is not true is accepted. */
  lemma Untrue(values: seq<Value>, idxs: seq<nat>) returns (queries: seq<Hash>, siblings: seq<Hash>)
    requires |values| >= 1 && HeightOf(|values|) <= 30 && AllInside(|values|, Queries(idxs))
    requires !Once(idxs) || !Compared(|values|, Queries(idxs))
    ensures Accepts(queries, Proof(|values|, idxs, siblings), Root(values)) && !AllTrue(values, queries, idxs)
  {
    hide HeightOf, Apart, Compared, Root, Inside, Accepts, HashAt, Changed;
    var n, qs, other := |values|, Queries(idxs), Changed(values);
    forall i | 0 <= i < |idxs| && idxs[i] != 0 ensures idxs[i] in qs && Inside(n, idxs[i]) {}
    if !Once(idxs) {
      var i, j :| 0 <= i < j < |idxs| && idxs[i] == idxs[j] && idxs[i] != 0;
      ChangedEverywhere(values, idxs[i]);
      queries := MixedQueries(values, other, {}, idxs)[i := HashAt(other, idxs[i])];
      NothingApart(n, qs);
      siblings := MixedAccepted(values, other, {}, queries, idxs);
    } else {
      var z, bad := LeftAside(n, qs);
      var i :| 0 <= i < |idxs| && idxs[i] == bad;
      ChangedEverywhere(values, bad);
      queries := MixedQueries(values, other, z, idxs);
      siblings := MixedAccepted(values, other, z, queries, idxs);
    }
  }

  lemma NothingApart(n: nat, qs: set<nat>)
    ensures Apart(n, qs, {})
  {
    hide Reached, Inside, Stored;
  }
}
