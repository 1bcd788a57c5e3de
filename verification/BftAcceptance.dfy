/** Which headers are accepted on top of a chain, exactly (pkg/consensus/verify.go, liskbft/validator.go). */
module BftAcceptance {
  import opened Basics
  import opened Contradiction
  import opened BftParams
  import opened BftVotes
  import opened BftChain
  import opened BftAccounting
  import opened BftReachable
  import opened BftFinality
  import opened BftHistory
  import opened BftVoting
  import opened BftProgress

  /** The entry is the newest one of the generator. */
  predicate NewestOwn(infos: seq<BlockInfo>, a: Address, i: nat) {
    i < |infos| && infos[i].header.generator == a && forall j :: 0 <= j < i ==> infos[j].header.generator != a
  }

  /** The newest entry of the generator decides. */
  lemma {:induction false} NewestDecides(infos: seq<BlockInfo>, header: PartialHeader)
    ensures ContradictsWindow(infos, header) <==>
              exists i: nat :: NewestOwn(infos, header.generator, i) && AreDistinctHeadersContradicting(infos[i].header, header)
  {
    hide AreDistinctHeadersContradicting;
    if infos != [] {
      var a, rest := header.generator, infos[1..];
      if infos[0].header.generator == a {
        assert NewestOwn(infos, a, 0);
      } else {
        NewestDecides(rest, header);
        if i: nat :| NewestOwn(infos, a, i) && AreDistinctHeadersContradicting(infos[i].header, header) {
          assert rest[i - 1] == infos[i];
          assert forall j :: 0 <= j < i - 1 ==> rest[j] == infos[j + 1];
          assert NewestOwn(rest, a, i - 1);
        }
        if i: nat :| NewestOwn(rest, a, i) && AreDistinctHeadersContradicting(rest[i].header, header) {
          assert forall j :: 0 < j <= i ==> infos[j] == rest[j - 1];
          assert NewestOwn(infos, a, i + 1);
        }
      }
    }
  }

  lemma NewestIsCompatible(infos: seq<BlockInfo>, header: PartialHeader, n: nat)
    requires !ContradictsWindow(infos, header) && NewestOwn(infos, header.generator, n)
    ensures !AreDistinctHeadersContradicting(infos[n].header, header)
  {
    hide AreDistinctHeadersContradicting;
    NewestDecides(infos, header);
  }

  lemma {:induction false} SomeNewest(infos: seq<BlockInfo>, a: Address, i: nat) returns (n: nat)
    requires i < |infos| && infos[i].header.generator == a
    ensures n <= i && NewestOwn(infos, a, n)
  {
    if k: nat :| k < i && infos[k].header.generator == a {
      n := SomeNewest(infos, a, k);
    } else {
      n := i;
    }
  }

  /** A higher header that has seen no less prevoted is compatible exactly if it follows. */
  lemma LaterIsCompatible(x: PartialHeader, header: PartialHeader)
    requires x.generator == header.generator && x.height < header.height && x.maxHeightPrevoted <= header.maxHeightPrevoted
    ensures !AreDistinctHeadersContradicting(x, header) <==>
              x.height <= header.maxHeightGenerated && x.maxHeightGenerated <= header.maxHeightGenerated
  {
    CompatibleIffOneFollows(x, header);
  }

  /** What an acceptable claim has to be: not below what the generator's recent blocks show and claim. */
  ghost predicate ClaimsEnough(b: Block, header: PartialHeader, batch: nat) {
    forall x :: OnChain(x, b) && x.Child? && x.header.bft.generator == header.generator && VotedOn(b, Height(x), batch) ==>
      Height(x) <= header.maxHeightGenerated && x.header.bft.maxHeightGenerated <= header.maxHeightGenerated
  }

  /** The window after a chain holds the headers of its last blocks, none of which has seen more prevoted. */
  lemma EntryAfter(b: Block, k: nat, batch: nat)
    requires batch >= 1 && Accepted(b, batch) && WeightsFit(b) && VotedOn(b, k, batch)
    ensures
      var v, x := StateAfter(b, batch).value.votes, BlockAt(b, k);
      && InWindow(v.infos, k) && OnChain(x, b) && x.Child? && Height(x) == k
      && v.infos[v.infos[0].header.height - k].header == x.header.bft && x.header.bft.maxHeightPrevoted <= v.maxHeightPrevoted
  {
    hide StateAfter, ProcessBlock, BlockAt, OnChain, ParamsOk, ActiveOk, Accounted, LargestOk;
    AcceptedInv(b, batch);
    WindowAfter(b, k, batch);
    BlockAtOnChain(b, k, batch);
  }

  lemma IndexIsVotedOn(b: Block, i: nat, batch: nat)
    requires batch >= 1 && Accepted(b, batch) && i < |StateAfter(b, batch).value.votes.infos|
    ensures
      var infos := StateAfter(b, batch).value.votes.infos;
      i <= infos[0].header.height && VotedOn(b, infos[0].header.height - i, batch) && infos[0].header.height == Height(b)
  {
    hide ProcessBlock, SetBFTParameters;
    WindowAfter(b, Height(b) - i, batch);
  }

  /** Of one generator, later blocks claim no less. */
  lemma {:induction false} ClaimsGrow(d: Block, y: Block, batch: nat)
    requires batch >= 1 && y.Child? && Accepted(y, batch) && WeightsFit(y) && OnChain(d, y.parent) && OwnBlock(d, y)
    requires Height(y) < Height(d) + 3 * batch
    ensures d.header.bft.maxHeightGenerated <= y.header.bft.maxHeightGenerated
    decreases Height(y)
  {
    hide StateAfter, ProcessBlock, BlockAt, AreDistinctHeadersContradicting, OnChain, WeightsFit;
    var p := y.parent;
    ParentFits(y, batch);
    ParentOf(y, batch);
    AncestorAccepted(d, p, batch);
    EntryAfter(p, Height(d), batch);
    var infos, a := StateAfter(p, batch).value.votes.infos, y.header.bft.generator;
    var n := SomeNewest(infos, a, infos[0].header.height - Height(d));
    IndexIsVotedOn(p, n, batch);
    var k := infos[0].header.height - n;
    EntryAfter(p, k, batch);
    var z := BlockAt(p, k);
    assert HeaderAcceptable(StateBefore(y, batch).votes, Height(p), y.header);
    NewestIsCompatible(infos, y.header.bft, n);
    LaterIsCompatible(z.header.bft, y.header.bft);
    SameHeight(d, z, p, batch);
    if d != z {
      LowerIsAncestor(d, z, p, batch);
      AncestorFits(z, p, batch);
      ProperAncestor(d, z);
      ClaimsGrow(d, z, batch);
    }
  }

  lemma ProperAncestor(d: Block, z: Block)
    requires OnChain(d, z) && d != z
    ensures z.Child? && OnChain(d, z.parent)
  {
  }

  /** A header contradicts nothing in the window exactly if it claims enough. */
  lemma NoContradictionIff(b: Block, header: PartialHeader, batch: nat)
    requires batch >= 1 && Accepted(b, batch) && WeightsFit(b)
    requires header.height == Height(b) + 1 && header.maxHeightPrevoted == StateAfter(b, batch).value.votes.maxHeightPrevoted
    ensures !ContradictsWindow(StateAfter(b, batch).value.votes.infos, header) <==> ClaimsEnough(b, header, batch)
  {
    hide StateAfter, ProcessBlock, BlockAt, AreDistinctHeadersContradicting, OnChain, WeightsFit, ContradictsWindow;
    var infos, a := StateAfter(b, batch).value.votes.infos, header.generator;
    NewestDecides(infos, header);
    if ClaimsEnough(b, header, batch) {
      forall i: nat | NewestOwn(infos, a, i) ensures !AreDistinctHeadersContradicting(infos[i].header, header) {
        IndexIsVotedOn(b, i, batch);
        EntryAfter(b, infos[0].header.height - i, batch);
        LaterIsCompatible(infos[i].header, header);
      }
    }
    if !ContradictsWindow(infos, header) {
      forall x | OnChain(x, b) && x.Child? && x.header.bft.generator == a && VotedOn(b, Height(x), batch)
        ensures Height(x) <= header.maxHeightGenerated && x.header.bft.maxHeightGenerated <= header.maxHeightGenerated
      {
        OwnIsFollowed(b, header, x, batch);
      }
    }
  }

  lemma OwnIsFollowed(b: Block, header: PartialHeader, x: Block, batch: nat)
    requires batch >= 1 && Accepted(b, batch) && WeightsFit(b)
    requires header.height == Height(b) + 1 && header.maxHeightPrevoted == StateAfter(b, batch).value.votes.maxHeightPrevoted
    requires !ContradictsWindow(StateAfter(b, batch).value.votes.infos, header)
    requires OnChain(x, b) && x.Child? && x.header.bft.generator == header.generator && VotedOn(b, Height(x), batch)
    ensures Height(x) <= header.maxHeightGenerated && x.header.bft.maxHeightGenerated <= header.maxHeightGenerated
  {
    hide StateAfter, ProcessBlock, BlockAt, AreDistinctHeadersContradicting, OnChain, WeightsFit, ContradictsWindow;
    var infos, a := StateAfter(b, batch).value.votes.infos, header.generator;
    EntryAfter(b, Height(x), batch);
    AncestorAccepted(x, b, batch);
    var n := SomeNewest(infos, a, infos[0].header.height - Height(x));
    IndexIsVotedOn(b, n, batch);
    var k := infos[0].header.height - n;
    EntryAfter(b, k, batch);
    var z := BlockAt(b, k);
    NewestIsCompatible(infos, header, n);
    LaterIsCompatible(z.header.bft, header);
    SameHeight(x, z, b, batch);
    if x != z {
      LowerIsAncestor(x, z, b, batch);
      AncestorFits(z, b, batch);
      ProperAncestor(x, z);
      ClaimsGrow(x, z, batch);
    }
  }

  /** Which headers are accepted on top of a chain: the next height, the prevoted height of the chain, a claim that covers
      the generator's recent blocks, and a commit that is empty at the certified height or certifies a later final one. */
  lemma AcceptedIff(b: Block, header: Header, batch: nat)
    requires batch >= 1 && Accepted(b, batch) && WeightsFit(b)
    ensures
      var v, commit := StateAfter(b, batch).value.votes, header.commit;
      Accepted(Child(b, header, None), batch) <==>
        && header.bft.height == Height(b) + 1 && header.bft.maxHeightPrevoted == v.maxHeightPrevoted
        && ClaimsEnough(b, header.bft, batch)
        && (if commit.hasBits || commit.hasSignature
            then commit.hasBits && commit.hasSignature && v.maxHeightCertified < commit.height <= v.maxHeightPrecommitted
            else commit.height == v.maxHeightCertified)
  {
    hide ClaimsEnough, ContradictsWindow, WeightsFit, Insert, VotesDefined, ProcessHeader;
    var v := StateAfter(b, batch).value.votes;
    if header.bft.height == Height(b) + 1 && header.bft.maxHeightPrevoted == v.maxHeightPrevoted {
      NoContradictionIff(b, header.bft, batch);
    }
    if HeaderAcceptable(v, Height(b), header) { VerifiedHeaderNeverFails(b, header, batch); }
  }
}
