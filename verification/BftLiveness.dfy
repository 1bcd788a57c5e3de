/** Validators that generate honestly in turn get their blocks accepted, and finalized. */
module BftLiveness {
  import opened Basics
  import opened Contradiction
  import opened BftParams
  import opened BftVotes
  import opened BftChain
  import opened BftAccounting
  import opened BftFinality
  import opened BftHistory
  import opened BftVoting
  import opened BftProgress
  import opened BftAcceptance

  /** The height of the validator's newest block on the chain, or 0. */
  function LastGenerated(b: Block, a: Address): nat {
    if b.Genesis? then 0 else if b.header.bft.generator == a then Height(b) else LastGenerated(b.parent, a)
  }

  /** The block an honest validator adds. */
  function NextBlock(b: Block, a: Address, batch: nat): Block
    requires batch >= 1 && Accepted(b, batch)
  {
    var v := StateAfter(b, batch).value.votes;
    var header := PartialHeader(Height(b) + 1, a, LastGenerated(b, a), v.maxHeightPrevoted);
    Child(b, Header(header, AggregateCommit(v.maxHeightCertified, false, false), []), None)
  }

  /** Every block claims exactly what its generator did on this chain. */
  predicate Truthful(b: Block) {
    b.Child? ==> b.header.bft.maxHeightGenerated == LastGenerated(b.parent, b.header.bft.generator) && Truthful(b.parent)
  }

  lemma {:induction false} TruthfulAncestor(x: Block, b: Block)
    requires Truthful(b) && OnChain(x, b)
    ensures Truthful(x)
    decreases b
  {
    if x != b { TruthfulAncestor(x, b.parent); }
  }

  /** The height is that of a block of the validator, or 0, and no block of it is higher. */
  lemma {:induction false} LastIsNewest(b: Block, a: Address, x: Block, batch: nat)
    requires batch >= 1 && Accepted(b, batch)
    ensures
      var last := LastGenerated(b, a);
      && last <= Height(b)
      && (last > 0 ==> OnChain(BlockAt(b, last), b) && BlockAt(b, last).Child? && BlockAt(b, last).header.bft.generator == a)
      && (OnChain(x, b) && x.Child? && x.header.bft.generator == a ==> Height(x) <= last)
    decreases b
  {
    hide StateAfter, ProcessBlock;
    if b.Child? {
      ParentOf(b, batch);
      if OnChain(x, b) { AncestorAccepted(x, b, batch); }
      LastIsNewest(b.parent, a, x, batch);
    }
  }

  /** The block of an honest validator is accepted on every truthful chain. */
  lemma HonestBlockAccepted(b: Block, a: Address, batch: nat)
    requires batch >= 1 && Accepted(b, batch) && WeightsFit(b) && Truthful(b)
    ensures Accepted(NextBlock(b, a, batch), batch) && WeightsFit(NextBlock(b, a, batch)) && Truthful(NextBlock(b, a, batch))
  {
    hide StateAfter, ProcessBlock, BlockAt;
    var header := NextBlock(b, a, batch).header;
    forall x | OnChain(x, b) && x.Child? && x.header.bft.generator == a && VotedOn(b, Height(x), batch)
      ensures Height(x) <= header.bft.maxHeightGenerated && x.header.bft.maxHeightGenerated <= header.bft.maxHeightGenerated
    {
      LastIsNewest(b, a, x, batch);
      TruthfulAncestor(x, b);
      AncestorAccepted(x, b, batch);
      ParentOf(x, batch);
      LastIsNewest(x.parent, a, x.parent, batch);
    }
    AcceptedIff(b, header, batch);
  }

  /** The chain after the validators have generated in turn. */
  function Run(b: Block, turns: seq<Address>, batch: nat): (r: Block)
    requires batch >= 1 && Accepted(b, batch) && WeightsFit(b) && Truthful(b)
    ensures Accepted(r, batch) && WeightsFit(r) && Truthful(r)
  {
    if turns == [] then b
    else
      var before := Run(b, turns[..|turns| - 1], batch);
      HonestBlockAccepted(before, turns[|turns| - 1], batch);
      NextBlock(before, turns[|turns| - 1], batch)
  }

  lemma {:induction false} RunShape(b: Block, turns: seq<Address>, k: nat, batch: nat)
    requires batch >= 1 && Accepted(b, batch) && WeightsFit(b) && Truthful(b) && k <= |turns|
    ensures
      var r := Run(b, turns, batch);
      && Height(r) == Height(b) + |turns| && GenesisHeight(r) == GenesisHeight(b)
      && OnChain(Run(b, turns[..k], batch), r)
      && (forall h: nat :: h > Height(b) ==> InForce(r, h) == InForce(b, Height(b) + 1))
  {
    hide StateAfter, ProcessBlock, Accepted, ParamsOf;
    var r := Run(b, turns, batch);
    if turns == [] {
      assert turns[..k] == turns;
      forall h: nat | h > Height(b) ensures InForce(r, h) == InForce(b, Height(b) + 1) { InForceBeyond(b, h, batch); }
    } else {
      var init := turns[..|turns| - 1];
      if k < |turns| {
        RunShape(b, init, k, batch);
        assert init[..k] == turns[..k];
      } else {
        RunShape(b, init, 0, batch);
        assert turns[..k] == turns;
      }
    }
  }

  lemma RunGenerates(b: Block, turns: seq<Address>, low: nat, a: Address, batch: nat)
    requires batch >= 1 && Accepted(b, batch) && WeightsFit(b) && Truthful(b) && low <= |turns| && a in turns[low..]
    ensures GeneratedFrom(Run(b, turns, batch), Height(b) + low + 1, a)
  {
    hide StateAfter, ProcessBlock, Accepted, Run;
    var i :| low <= i < |turns| && turns[i] == a;
    RunShape(b, turns, i + 1, batch);
    var x := Run(b, turns[..i + 1], batch);
    RunShape(b, turns[..i + 1], 0, batch);
    RunLast(b, turns[..i + 1], batch);
  }

  lemma RunLast(b: Block, turns: seq<Address>, batch: nat)
    requires batch >= 1 && Accepted(b, batch) && WeightsFit(b) && Truthful(b) && turns != []
    ensures Run(b, turns, batch).Child? && Run(b, turns, batch).header.bft.generator == turns[|turns| - 1]
  {
  }

  lemma TruthfulIsHonest(b: Block, h: nat, batch: nat)
    requires batch >= 1 && Accepted(b, batch) && Truthful(b) && h > 0
    ensures Honest(b, h)
  {
    hide StateAfter, ProcessBlock, BlockAt;
    forall x | OnChain(x, b) && x.Child? && Height(x) >= h ensures Claims(b, h, x) {
      TruthfulAncestor(x, b);
      AncestorAccepted(x, b, batch);
      ParentOf(x, batch);
      LastIsNewest(x.parent, x.header.bft.generator, x.parent, batch);
      var claimed := x.header.bft.maxHeightGenerated;
      assert OnChain(x.parent, x);
      OnChainTransitive(x.parent, x, b);
      BlockAtThrough(x.parent, b, claimed, batch);
    }
  }

  /** Liveness: on every truthful chain, once validators that reach both thresholds have each generated twice in turn,
      within the window, the first of these blocks is final. */
  lemma HonestRunFinalizes(b: Block, first: seq<Address>, second: seq<Address>, who: set<Address>, batch: nat)
    requires batch >= 1 && Accepted(b, batch) && WeightsFit(b) && Truthful(b)
    requires first != [] && |first + second| <= 3 * batch
    requires forall a :: a in who ==> a in first && a in second && ValidatorAt(b, Height(b) + 1, a)
    requires var p := InForce(b, Height(b) + 1);
             WeightSum(p.validators, who) >= p.prevoteThreshold && WeightSum(p.validators, who) >= p.precommitThreshold
    ensures StateAfter(Run(b, first + second, batch), batch).value.votes.maxHeightPrecommitted > Height(b)
  {
    hide StateAfter, ProcessBlock, Run, WeightSum, InForce, WeightsFit, HasAddress;
    var turns, n, h := first + second, |first|, Height(b) + 1;
    var r, m := Run(b, turns, batch), Run(b, first, batch);
    assert turns[..n] == first && turns[n..] == second && first[0..] == first;
    RunShape(b, turns, n, batch);
    RunShape(b, first, 0, batch);
    RunLast(b, turns, batch);
    TruthfulIsHonest(r, h, batch);
    AncestorAccepted(b, b, batch);
    forall a | a in who ensures ValidatorAt(r, h, a) && GeneratedFrom(m, h, a) && GeneratedFrom(r, Height(m) + 1, a) {
      RunGenerates(b, first, 0, a, batch);
      RunGenerates(b, turns, n, a, batch);
    }
    HonestChainFinalizes(r, m, h, who, batch);
  }
}
