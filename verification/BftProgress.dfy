/** The finalized height is the greatest that ever had a quorum, and honest validators move it on. */
module BftProgress {
  import opened Contradiction
  import opened BftParams
  import opened BftVotes
  import opened BftChain
  import opened BftAccounting
  import opened BftInvariants
  import opened BftReachable
  import opened BftFinality
  import opened BftHistory
  import opened BftVoting

  // ---------------------------------------------------------------- the two quorum heights

  lemma WindowAfter(b: Block, h: nat, batch: nat)
    requires batch >= 1 && Accepted(b, batch)
    ensures InWindow(StateAfter(b, batch).value.votes.infos, h) <==> VotedOn(b, h, batch)
  {
    hide ProcessBlock, SetBFTParameters;
    AncestorAccepted(b, b, batch);
  }

  /** The quorums the state knows of are those of the voters, by the parameters in force. */
  lemma QuorumsAfter(b: Block, h: nat, batch: nat)
    requires batch >= 1 && b.Child? && Accepted(b, batch) && WeightsFit(b) && VotedOn(b, h, batch)
    ensures
      var s := StateAfter(b, batch).value;
      && InWindow(s.votes.infos, h) && Consecutive(s.votes.infos)
      && (HasPrevoteQuorum(s.params, Entry(s.votes.infos, h)) <==> Prevoted(b, h, batch))
      && (HasPrecommitQuorum(s.params, Entry(s.votes.infos, h)) <==> Precommitted(b, h, batch))
  {
    hide ProcessBlock, StateAfter, Prevoters, Precommitters, HeadersMatch, HeightsOk, LargestOk, ActiveOk, ParamsOk, Lookup,
      WeightSum, InForce, Wanted, Entry, WeightsFit;
    AcceptedInv(b, batch);
    WindowAfter(b, h, batch);
    VotedOnIsWanted(b, h, batch);
    StoredInForce(b, h, batch);
    assert EntryAccounted(b, StateAfter(b, batch).value, batch, h);
  }

  lemma QuorumIsCounted(b: Block, h: nat, batch: nat)
    requires batch >= 1 && b.Child? && Accepted(b, batch) && WeightsFit(b) && VotedOn(b, h, batch)
    ensures Prevoted(b, h, batch) ==> h <= StateAfter(b, batch).value.votes.maxHeightPrevoted
    ensures Precommitted(b, h, batch) ==> h <= StateAfter(b, batch).value.votes.maxHeightPrecommitted
  {
    hide ProcessBlock, StateAfter, Prevoted, Precommitted, HeadersMatch, LargestOk, ActiveOk, ParamsOk, Accounted, Lookup, Entry,
      HasPrevoteQuorum, HasPrecommitQuorum, WeightsFit;
    AcceptedInv(b, batch);
    QuorumsAfter(b, h, batch);
  }

  /** The newest finalized height is the greatest that has had a precommit quorum while it was voted on. */
  lemma {:induction false} PrecommittedHeight(b: Block, batch: nat)
    requires batch >= 1 && Accepted(b, batch) && WeightsFit(b)
    ensures
      var top := StateAfter(b, batch).value.votes.maxHeightPrecommitted;
      && (top == GenesisHeight(b)
          || exists x :: OnChain(x, b) && x.Child? && VotedOn(x, top, batch) && Precommitted(x, top, batch))
      && (forall x, h: nat :: OnChain(x, b) && x.Child? && VotedOn(x, h, batch) && Precommitted(x, h, batch) ==> h <= top)
    decreases b
  {
    hide ProcessBlock, StateAfter, Precommitted, HeadersMatch, LargestOk, ActiveOk, ParamsOk, Accounted, Lookup, Entry,
      HasPrevoteQuorum, HasPrecommitQuorum;
    var top := StateAfter(b, batch).value.votes.maxHeightPrecommitted;
    forall x, h: nat | OnChain(x, b) && x.Child? && VotedOn(x, h, batch) && Precommitted(x, h, batch) ensures h <= top {
      BftHeights(x, b, batch);
      AncestorFits(x, b, batch);
      QuorumIsCounted(x, h, batch);
    }
    if b.Genesis? {
      GenesisState(b, batch);
    } else if VotedOn(b, top, batch) {
      AcceptedInv(b, batch);
      QuorumsAfter(b, top, batch);
      assert OnChain(b, b);
    } else {
      ParentFits(b, batch);
      ParentOf(b, batch);
      PrecommittedHeight(b.parent, batch);
      HeightsOutsideWindow(b, batch);
      if top != GenesisHeight(b) {
        var x :| OnChain(x, b.parent) && x.Child? && VotedOn(x, top, batch) && Precommitted(x, top, batch);
        assert OnChain(x, b);
      }
    }
  }

  /** The newest prevoted height is the greatest that has had a prevote quorum while it was voted on. */
  lemma {:induction false} PrevotedHeight(b: Block, batch: nat)
    requires batch >= 1 && Accepted(b, batch) && WeightsFit(b)
    ensures
      var top := StateAfter(b, batch).value.votes.maxHeightPrevoted;
      && (top == GenesisHeight(b)
          || exists x :: OnChain(x, b) && x.Child? && VotedOn(x, top, batch) && Prevoted(x, top, batch))
      && (forall x, h: nat :: OnChain(x, b) && x.Child? && VotedOn(x, h, batch) && Prevoted(x, h, batch) ==> h <= top)
    decreases b
  {
    hide ProcessBlock, StateAfter, Prevoted, HeadersMatch, LargestOk, ActiveOk, ParamsOk, Accounted, Lookup, Entry,
      HasPrevoteQuorum, HasPrecommitQuorum;
    var top := StateAfter(b, batch).value.votes.maxHeightPrevoted;
    forall x, h: nat | OnChain(x, b) && x.Child? && VotedOn(x, h, batch) && Prevoted(x, h, batch) ensures h <= top {
      BftHeights(x, b, batch);
      AncestorFits(x, b, batch);
      QuorumIsCounted(x, h, batch);
    }
    if b.Genesis? {
      GenesisState(b, batch);
    } else if VotedOn(b, top, batch) {
      AcceptedInv(b, batch);
      QuorumsAfter(b, top, batch);
      assert OnChain(b, b);
    } else {
      ParentFits(b, batch);
      ParentOf(b, batch);
      PrevotedHeight(b.parent, batch);
      HeightsOutsideWindow(b, batch);
      if top != GenesisHeight(b) {
        var x :| OnChain(x, b.parent) && x.Child? && VotedOn(x, top, batch) && Prevoted(x, top, batch);
        assert OnChain(x, b);
      }
    }
  }

  lemma HeightsOutsideWindow(b: Block, batch: nat)
    requires batch >= 1 && b.Child? && Accepted(b, batch) && WeightsFit(b)
    ensures
      var v, v1 := StateBefore(b, batch).votes, StateAfter(b, batch).value.votes;
      && (VotedOn(b, v1.maxHeightPrevoted, batch) || v1.maxHeightPrevoted == v.maxHeightPrevoted)
      && (VotedOn(b, v1.maxHeightPrecommitted, batch) || v1.maxHeightPrecommitted == v.maxHeightPrecommitted)
  {
    hide ProcessBlock, StateAfter, Lookup, Entry, HasPrevoteQuorum, HasPrecommitQuorum, CountVotes, ProcessHeader, Prune, Inv;
    ParentFits(b, batch);
    AcceptedInv(b.parent, batch);
    UpdateKeepsHeights(b, batch);
    ExecutedPrevotedHeight(b, batch);
    ExecutedPrecommittedHeight(b, batch);
    WindowAfter(b, StateAfter(b, batch).value.votes.maxHeightPrevoted, batch);
    WindowAfter(b, StateAfter(b, batch).value.votes.maxHeightPrecommitted, batch);
  }

  // ---------------------------------------------------------------- progress

  /** Every block from the height on claims what is true on this chain, as far as that height. */
  ghost predicate Honest(b: Block, h: nat) {
    forall x :: OnChain(x, b) && x.Child? && Height(x) >= h ==> Claims(b, h, x)
  }

  predicate Claims(b: Block, h: nat, x: Block)
    requires x.Child?
  {
    var claimed := x.header.bft.maxHeightGenerated;
    && claimed < Height(x)
    && (claimed >= h ==> BlockAt(b, claimed).Child? && BlockAt(b, claimed).header.bft.generator == x.header.bft.generator)
  }

  /** The validators do not change from the height on. */
  ghost predicate SameValidators(b: Block, h: nat) {
    forall k: nat :: h <= k <= Height(b) ==> InForce(b, k) == InForce(b, h)
  }

  /** What is fixed in the argument: an accepted chain, honest from a height on that is still voted on. */
  ghost predicate Setting(b: Block, h: nat, batch: nat) {
    && batch >= 1 && b.Child? && Accepted(b, batch) && WeightsFit(b) && VotedOn(b, h, batch)
    && Honest(b, h) && SameValidators(b, h)
  }

  lemma Sub(x: Block, b: Block, h: nat, batch: nat)
    requires Setting(b, h, batch) && OnChain(x, b) && Height(x) >= h
    ensures Setting(x, h, batch)
    ensures forall k: nat :: h <= k <= Height(x) ==> InForce(x, k) == InForce(b, h)
  {
    hide ProcessBlock, StateAfter, WeightsFit, InForce, BlockAt;
    AncestorFits(x, b, batch);
    AncestorAccepted(x, b, batch);
    forall k: nat | k <= Height(x) ensures InForce(x, k) == InForce(b, k) { InForceOfAncestor(x, b, k, batch); }
    forall y | OnChain(y, x) && y.Child? && Height(y) >= h ensures Claims(x, h, y) {
      OnChainTransitive(y, x, b);
      assert Claims(b, h, y);
      AncestorAccepted(y, x, batch);
      BlockAtThrough(x, b, y.header.bft.maxHeightGenerated, batch);
    }
  }

  lemma {:induction false} InForceOfAncestor(x: Block, b: Block, k: nat, batch: nat)
    requires batch >= 1 && Accepted(b, batch) && OnChain(x, b) && k <= Height(x)
    ensures InForce(x, k) == InForce(b, k)
    decreases b
  {
    hide ProcessBlock, StateAfter, InForce;
    if x != b {
      ParentOf(b, batch);
      AncestorAccepted(x, b.parent, batch);
      InForceOfAncestor(x, b.parent, k, batch);
      InForceStep(b, k, batch);
    }
  }

  /** The generator of a block is a validator throughout if it is one at the height. */
  lemma StaysValidator(b: Block, h: nat, batch: nat)
    requires Setting(b, h, batch) && ValidatorAt(b, h, b.header.bft.generator)
    ensures forall k: nat :: h <= k <= Height(b) ==> ValidatorSince(b, k)
  {
    hide Accepted, Honest, InForce, HasAddress;
  }

  /** An honest validator that has generated from the height on has prevoted it. */
  lemma {:induction false} HonestPrevotes(b: Block, h: nat, batch: nat)
    requires Setting(b, h, batch) && ValidatorAt(b, h, b.header.bft.generator)
    ensures b.header.bft.generator in Prevoters(b, h, batch)
    decreases Height(b)
  {
    hide Accepted, WeightsFit, InForce, BlockAt, ValidatorAt, ValidatorSince;
    StaysValidator(b, h, batch);
    var claimed := b.header.bft.maxHeightGenerated;
    assert OnChain(b, b) && Claims(b, h, b);
    if claimed < h {
      BlockPrevotesIff(b, h, batch);
    } else {
      var x := BlockAt(b, claimed);
      BlockAtOnChain(b, claimed, batch);
      Sub(x, b, h, batch);
      SameValidatorAt(x, b, h, batch);
      HonestPrevotes(x, h, batch);
      VotersMonotone(x, b, h, batch);
    }
  }

  lemma SameValidatorAt(x: Block, b: Block, h: nat, batch: nat)
    requires batch >= 1 && Accepted(b, batch) && OnChain(x, b) && h <= Height(x)
    ensures forall a :: ValidatorAt(x, h, a) <==> ValidatorAt(b, h, a)
  {
    hide Accepted, InForce;
    InForceOfAncestor(x, b, h, batch);
  }

  /** Who has prevoted a higher height has prevoted this one. */
  lemma PrevotersNested(b: Block, h: nat, k: nat, batch: nat)
    requires Setting(b, h, batch) && h <= k
    ensures Prevoters(b, k, batch) <= Prevoters(b, h, batch)
  {
    hide StateAfter, ProcessBlock, WeightsFit, InForce, BlockAt, Prevoters, BlockPrevotes, HasAddress, Honest, SameValidators;
    forall a | a in Prevoters(b, k, batch) ensures a in Prevoters(b, h, batch) {
      var d := PrevoterBlock(b, k, a, batch);
      AncestorAccepted(d, b, batch);
      PrevotingBlock(d, k, batch);
      Sub(d, b, h, batch);
      assert ValidatorAt(d, k, a);
      assert ValidatorAt(d, h, a);
      HonestPrevotes(d, h, batch);
      VotersMonotone(d, b, h, batch);
    }
  }

  lemma PrevotingBlock(d: Block, k: nat, batch: nat)
    requires batch >= 1 && BlockPrevotes(d, k, batch)
    ensures d.Child? && Accepted(d, batch) && k <= Height(d) && ValidatorAt(d, k, d.header.bft.generator)
  {
    hide StateAfter, ProcessBlock, StateBefore, WindowOf, InForce;
    BlockPrevotesIff(d, k, batch);
  }

  lemma HonestAcknowledges(b: Block, h: nat)
    requires b.Child? && Honest(b, h)
    ensures Acknowledges(b, h)
  {
    forall x | OnChain(x, b) && OwnBlock(x, b) && Height(x) >= h ensures Continues(b, h, x) {
      assert Claims(b, h, x);
    }
  }

  lemma ParentInSetting(b: Block, h: nat, batch: nat)
    requires Setting(b, h, batch) && h < Height(b)
    ensures b.parent.Child? && Setting(b.parent, h, batch) && InForce(b.parent, h) == InForce(b, h)
    ensures forall a :: ValidatorAt(b.parent, h, a) <==> ValidatorAt(b, h, a)
  {
    hide Accepted, WeightsFit, InForce, Honest, SameValidators;
    ParentOf(b, batch);
    assert OnChain(b.parent, b.parent) && OnChain(b.parent, b);
    Sub(b.parent, b, h, batch);
  }

  /** A block precommits the height if it had a quorum and its validator has precommitted nothing from there on. */
  lemma PrecommitsNow(b: Block, h: nat, batch: nat)
    requires Setting(b, h, batch) && ValidatorAt(b, h, b.header.bft.generator)
    requires Prevoted(b.parent, h, batch) && PrecommittedOnlyBelow(b, h, batch)
    ensures b.header.bft.generator in Precommitters(b, h, batch)
  {
    hide Accepted, WeightsFit, InForce, ValidatorAt, ValidatorSince, Honest, Acknowledges, PrecommittedOnlyBelow, Prevoted;
    StaysValidator(b, h, batch);
    HonestAcknowledges(b, h);
    BlockPrecommitsIff(b, h, batch);
  }

  /** Who has precommitted a higher height has precommitted this one. */
  lemma {:induction false} PrecommittersNested(b: Block, h: nat, k: nat, a: Address, batch: nat)
    requires Setting(b, h, batch) && h <= k && a in Precommitters(b, k, batch)
    ensures a in Precommitters(b, h, batch)
    decreases b
  {
    hide StateAfter, ProcessBlock, WeightsFit, InForce, Honest, BlockPrecommits, HasAddress;
    if h < k {
      ParentOf(b, batch);
      if a in Precommitters(b.parent, k, batch) {
        if Height(b.parent) < k { NoVotesAboveTip(b.parent, k, batch); }
        ParentInSetting(b, h, batch);
        PrecommittersNested(b.parent, h, k, a, batch);
      } else {
        PrecommitSawQuorum(b, k, batch);
        ParentInSetting(b, h, batch);
        BlockPrecommitsIff(b, k, batch);
        QuorumNested(b.parent, h, k, batch);
        assert ValidatorAt(b, k, a) && InForce(b, k) == InForce(b, h);
        if PrecommittedOnlyBelow(b, h, batch) {
          PrecommitsNow(b, h, batch);
        } else {
          var j: nat :| a in Precommitters(b.parent, j, batch) && j >= h;
          PrecommittersNested(b.parent, h, j, a, batch);
        }
      }
    }
  }

  lemma QuorumNested(b: Block, h: nat, k: nat, batch: nat)
    requires Setting(b, h, batch) && h <= k <= Height(b) && Prevoted(b, k, batch)
    ensures Prevoted(b, h, batch)
  {
    hide Accepted, WeightsFit, InForce, Honest, Prevoters, WeightSum;
    PrevotersNested(b, h, k, batch);
    assert InForce(b, k) == InForce(b, h);
    WeightSumMonotone(InForce(b, h).validators, Prevoters(b, k, batch), Prevoters(b, h, batch));
  }

  /** A validator that generates after a height had its prevote quorum has precommitted it. */
  lemma HonestPrecommits(b: Block, m: Block, h: nat, batch: nat)
    requires Setting(b, h, batch) && ValidatorAt(b, h, b.header.bft.generator)
    requires OnChain(m, b.parent) && h <= Height(m) && Prevoted(m, h, batch)
    ensures b.header.bft.generator in Precommitters(b, h, batch)
  {
    hide StateAfter, ProcessBlock, WeightsFit, InForce, Honest, SameValidators, BlockPrecommits, HasAddress, Prevoters, WeightSum;
    var a := b.header.bft.generator;
    ParentOf(b, batch);
    AncestorAccepted(m, b.parent, batch);
    ParentInSetting(b, h, batch);
    Sub(m, b.parent, h, batch);
    VotersMonotone(m, b.parent, h, batch);
    WeightSumMonotone(InForce(b, h).validators, Prevoters(m, h, batch), Prevoters(b.parent, h, batch));
    if PrecommittedOnlyBelow(b, h, batch) {
      PrecommitsNow(b, h, batch);
    } else {
      var j: nat :| a in Precommitters(b.parent, j, batch) && j >= h;
      PrecommittersNested(b.parent, h, j, a, batch);
    }
  }

  /** The validator has generated a block of the chain at a height from `low` on. */
  ghost predicate GeneratedFrom(b: Block, low: nat, a: Address) {
    exists x :: OnChain(x, b) && x.Child? && x.header.bft.generator == a && Height(x) >= low
  }

  /** Progress: where the chain is honest from a height on, and validators that reach both thresholds have each
      generated from that height on and then, after the last of them, once more, all while the height is voted on,
      the height is final. */
  lemma HonestChainFinalizes(b: Block, m: Block, h: nat, who: set<Address>, batch: nat)
    requires Setting(b, h, batch) && OnChain(m, b) && h <= Height(m)
    requires forall a :: a in who ==> ValidatorAt(b, h, a) && GeneratedFrom(m, h, a) && GeneratedFrom(b, Height(m) + 1, a)
    requires WeightSum(InForce(b, h).validators, who) >= InForce(b, h).prevoteThreshold
    requires WeightSum(InForce(b, h).validators, who) >= InForce(b, h).precommitThreshold
    ensures StateAfter(b, batch).value.votes.maxHeightPrecommitted >= h
  {
    hide StateAfter, ProcessBlock, WeightsFit, InForce, Honest, SameValidators, HasAddress, Prevoters, Precommitters, WeightSum;
    Sub(m, b, h, batch);
    SameValidatorAt(m, b, h, batch);
    forall a | a in who ensures a in Prevoters(m, h, batch) {
      var x :| OnChain(x, m) && x.Child? && x.header.bft.generator == a && Height(x) >= h;
      Sub(x, m, h, batch);
      SameValidatorAt(x, m, h, batch);
      HonestPrevotes(x, h, batch);
      VotersMonotone(x, m, h, batch);
    }
    WeightSumMonotone(InForce(b, h).validators, who, Prevoters(m, h, batch));
    forall a | a in who ensures a in Precommitters(b, h, batch) {
      var y :| OnChain(y, b) && y.Child? && y.header.bft.generator == a && Height(y) >= Height(m) + 1;
      Sub(y, b, h, batch);
      SameValidatorAt(y, b, h, batch);
      LowerIsAncestor(m, y, b, batch);
      HonestPrecommits(y, m, h, batch);
      VotersMonotone(y, b, h, batch);
    }
    WeightSumMonotone(InForce(b, h).validators, who, Precommitters(b, h, batch));
    QuorumIsCounted(b, h, batch);
  }
}
