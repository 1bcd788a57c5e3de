/** Who votes for what, told from the blocks of the chain alone: the exact conditions under which a block prevotes and
    precommits a height (pkg/consensus/liskbft/validator.go, LIP-0058). */
module BftVoting {
  import opened Basics
  import opened Contradiction
  import opened BftParams
  import opened BftVotes
  import opened BftChain
  import opened BftAccounting
  import opened BftInvariants
  import opened BftReachable
  import opened BftFinality
  import opened BftHistory

  // ---------------------------------------------------------------- prevotes

  /** The height is among the last ones of the chain that are voted on. */
  predicate VotedOn(b: Block, h: nat, batch: nat) {
    GenesisHeight(b) < h <= Height(b) < h + 3 * batch
  }

  /** The generator of the block has been a validator from the height on. */
  ghost predicate ValidatorSince(b: Block, h: nat)
    requires b.Child?
  {
    forall k: nat :: h <= k <= Height(b) ==> ValidatorAt(b, k, b.header.bft.generator)
  }

  lemma VotedOnIsWindow(b: Block, h: nat, batch: nat)
    requires batch >= 1 && b.Child? && Accepted(b, batch)
    ensures InWindow(WindowOf(b, batch), h) <==> VotedOn(b, h, batch)
  {
    hide Accepted, StateBefore, WindowOf;
  }

  /** The record of the generator in the state before the block. */
  lemma ActiveSince(b: Block, h: nat, batch: nat)
    requires batch >= 1 && b.Child? && Accepted(b, batch) && GenesisHeight(b) < h <= Height(b)
    ensures
      var active, a := StateBefore(b, batch).votes.active, b.header.bft.generator;
      (a in active && active[a].minActiveHeight <= h) <==> ValidatorSince(b, h)
  {
    hide StateAfter, ProcessBlock, HasAddress, InForce;
    var a := b.header.bft.generator;
    ParentOf(b, batch);
    ActiveInForce(b.parent, batch, a);
    forall k: nat | k <= Height(b) ensures ValidatorAt(b, k, a) <==> ValidatorAt(b.parent, k, a) { InForceStep(b, k, batch); }
    var active := StateBefore(b, batch).votes.active;
    if ValidatorSince(b, h) {
      assert ValidatorAt(b, Height(b), a);
    }
  }

  /** A block prevotes exactly the heights of the window above the height it claims to have generated last, from where
      on its generator has been a validator. */
  lemma BlockPrevotesIff(b: Block, h: nat, batch: nat)
    requires batch >= 1 && b.Child? && Accepted(b, batch)
    ensures BlockPrevotes(b, h, batch) <==>
              VotedOn(b, h, batch) && b.header.bft.maxHeightGenerated < h && ValidatorSince(b, h)
  {
    hide Accepted, StateBefore, WindowOf, ValidatorSince;
    VotedOnIsWindow(b, h, batch);
    if VotedOn(b, h, batch) { ActiveSince(b, h, batch); }
  }

  // ---------------------------------------------------------------- the descent through a generator's blocks

  predicate OwnBlock(x: Block, b: Block)
    requires b.Child?
  {
    x.Child? && x.header.bft.generator == b.header.bft.generator
  }

  /** The block claims to have generated last below `h`, or else at a block of its generator on the same chain. */
  predicate Continues(b: Block, h: nat, x: Block)
    requires b.Child? && x.Child?
  {
    var claimed := x.header.bft.maxHeightGenerated;
    claimed < Height(x) && (claimed < h || OwnBlock(BlockAt(b, claimed), b))
  }

  /** From the height on, the generator has not claimed to have generated on another chain. */
  ghost predicate Acknowledges(b: Block, h: nat)
    requires b.Child?
  {
    forall x :: OnChain(x, b) && OwnBlock(x, b) && Height(x) >= h ==> Continues(b, h, x)
  }

  /** The window entry at a height is the header of the block there. */
  lemma EntryIsBlock(b: Block, k: nat, batch: nat)
    requires batch >= 1 && b.Child? && Accepted(b, batch) && WeightsFit(b) && InWindow(WindowOf(b, batch), k)
    ensures
      var w, x := WindowOf(b, batch), BlockAt(b, k);
      OnChain(x, b) && x.Child? && Height(x) == k && w[w[0].header.height - k].header == x.header.bft
  {
    hide Accepted, StateBefore, WindowOf, BlockAt, OnChain, WeightsFit;
    WindowBlock(b, batch, WindowOf(b, batch)[0].header.height - k);
  }

  /** An accepted block acknowledges the earlier blocks of its generator in the window. */
  lemma OwnBlocksAcknowledged(y: Block, d: Block, batch: nat)
    requires batch >= 1 && y.Child? && Accepted(y, batch) && WeightsFit(y) && OnChain(d, y) && d != y && OwnBlock(d, y)
    requires Height(y) < Height(d) + 3 * batch
    ensures Height(d) <= y.header.bft.maxHeightGenerated
  {
    hide StateAfter, ProcessBlock, BlockAt, ParamsOk, ActiveOk, Accounted, LargestOk;
    ParentFits(y, batch);
    AcceptedInv(y.parent, batch);
    AncestorAccepted(d, y.parent, batch);
    ParentOf(y, batch);
    AcknowledgesEarlierBlock(y, d, batch);
  }

  lemma WindowTop(b: Block, batch: nat)
    requires batch >= 1 && b.Child? && Accepted(b, batch)
    ensures Consecutive(WindowOf(b, batch)) && WindowOf(b, batch)[0].header == b.header.bft
  {
  }

  /** One step of the descent, on blocks. */
  lemma DescentStep(b: Block, h: nat, previous: nat, batch: nat)
    requires batch >= 1 && b.Child? && Accepted(b, batch) && WeightsFit(b) && VotedOn(b, h, batch) && previous < Height(b)
    ensures
      var w, x := WindowOf(b, batch), BlockAt(b, previous);
      && Consecutive(w) && w[0].header == b.header.bft
      && (previous < h ==> NotPrevotedFrom(w, previous) < h)
      && (previous >= h ==>
            && OnChain(x, b) && x.Child? && Height(x) == previous
            && (NotPrevotedFrom(w, previous) < h <==>
                  OwnBlock(x, b) && x.header.bft.maxHeightGenerated < previous
                  && NotPrevotedFrom(w, x.header.bft.maxHeightGenerated) < h))
  {
    hide Accepted, StateBefore, WindowOf, BlockAt, OnChain, WeightsFit;
    WindowTop(b, batch);
    VotedOnIsWindow(b, h, batch);
    if previous >= h {
      VotedOnIsWindow(b, previous, batch);
      EntryIsBlock(b, previous, batch);
    } else {
      DescentEnds(WindowOf(b, batch), previous, h);
    }
  }

  /** The descent never ends above where it starts, unless it leaves the window. */
  lemma {:induction false} DescentEnds(infos: seq<BlockInfo>, previous: nat, h: nat)
    requires infos != [] && Consecutive(infos) && previous < h <= infos[0].header.height && InWindow(infos, h)
    ensures NotPrevotedFrom(infos, previous) < h
    decreases previous
  {
    if infos[0].header.height - previous < |infos| {
      var claimed := infos[infos[0].header.height - previous].header;
      if claimed.generator == infos[0].header.generator && claimed.maxHeightGenerated < previous {
        DescentEnds(infos, claimed.maxHeightGenerated, h);
      }
    }
  }

  /** If the descent from `previous` ends below `h`, it has come through every own block in between. */
  lemma {:induction false} DescentVisits(b: Block, h: nat, previous: nat, x: Block, batch: nat)
    requires batch >= 1 && b.Child? && Accepted(b, batch) && WeightsFit(b) && VotedOn(b, h, batch) && previous < Height(b)
    requires (WindowTop(b, batch); NotPrevotedFrom(WindowOf(b, batch), previous) < h)
    requires OnChain(x, b) && OwnBlock(x, b) && h <= Height(x) <= previous
    ensures Continues(b, h, x)
    decreases previous
  {
    hide Accepted, StateBefore, WindowOf, BlockAt, OnChain, WeightsFit, NotPrevotedFrom;
    DescentStep(b, h, previous, batch);
    var y := BlockAt(b, previous);
    var claimed := y.header.bft.maxHeightGenerated;
    DescentStep(b, h, claimed, batch);
    SameHeight(x, y, b, batch);
    if x != y {
      LowerIsAncestor(x, y, b, batch);
      AncestorFits(y, b, batch);
      OwnBlocksAcknowledged(y, x, batch);
      DescentVisits(b, h, claimed, x, batch);
    }
  }

  lemma SameHeight(x: Block, y: Block, b: Block, batch: nat)
    requires batch >= 1 && Accepted(b, batch) && OnChain(x, b) && OnChain(y, b)
    ensures Height(x) == Height(y) ==> x == y
  {
    hide Accepted, BlockAt;
    AncestorAccepted(x, b, batch);
    AncestorAccepted(y, b, batch);
  }

  lemma {:induction false} LowerIsAncestor(x: Block, y: Block, b: Block, batch: nat)
    requires batch >= 1 && Accepted(b, batch) && OnChain(x, b) && OnChain(y, b) && Height(x) <= Height(y)
    ensures OnChain(x, y)
    decreases b
  {
    hide StateAfter, ProcessBlock;
    AncestorAccepted(x, b, batch);
    AncestorAccepted(y, b, batch);
    if y != b {
      ParentOf(b, batch);
      AncestorAccepted(y, b.parent, batch);
      if x != b {
        LowerIsAncestor(x, y, b.parent, batch);
      }
    }
  }

  lemma {:induction false} AncestorFits(x: Block, b: Block, batch: nat)
    requires batch >= 1 && Accepted(b, batch) && WeightsFit(b) && OnChain(x, b)
    ensures Accepted(x, batch) && WeightsFit(x) && GenesisHeight(x) == GenesisHeight(b)
    decreases b
  {
    hide StateAfter, ProcessBlock;
    AncestorAccepted(x, b, batch);
    if x != b {
      ParentOf(b, batch);
      AncestorFits(x, b.parent, batch);
    }
  }

  /** If the generator's blocks acknowledge one another, the descent ends below `h`. */
  lemma {:induction false} DescentPasses(b: Block, h: nat, previous: nat, batch: nat)
    requires batch >= 1 && b.Child? && Accepted(b, batch) && WeightsFit(b) && VotedOn(b, h, batch) && previous < Height(b)
    requires Acknowledges(b, h) && (previous < h || OwnBlock(BlockAt(b, previous), b))
    ensures WindowOf(b, batch)[0].header == b.header.bft && Consecutive(WindowOf(b, batch)) && NotPrevotedFrom(WindowOf(b, batch), previous) < h
    decreases previous
  {
    hide Accepted, StateBefore, WindowOf, BlockAt, OnChain, WeightsFit, NotPrevotedFrom;
    DescentStep(b, h, previous, batch);
    if previous >= h {
      var x := BlockAt(b, previous);
      assert Continues(b, h, x);
      DescentPasses(b, h, x.header.bft.maxHeightGenerated, batch);
    }
  }

  /** The descent ends below a height exactly when the generator's blocks from there on acknowledge one another. */
  lemma DescentIff(b: Block, h: nat, batch: nat)
    requires batch >= 1 && b.Child? && Accepted(b, batch) && WeightsFit(b) && VotedOn(b, h, batch)
    requires b.header.bft.maxHeightGenerated < Height(b)
    ensures WindowOf(b, batch)[0].header == b.header.bft && Consecutive(WindowOf(b, batch))
    ensures HeightNotPrevoted(WindowOf(b, batch)) < h <==> Acknowledges(b, h)
  {
    hide Accepted, StateBefore, WindowOf, BlockAt, WeightsFit, NotPrevotedFrom;
    var claimed := b.header.bft.maxHeightGenerated;
    DescentStep(b, h, claimed, batch);
    if HeightNotPrevoted(WindowOf(b, batch)) < h {
      forall x | OnChain(x, b) && OwnBlock(x, b) && Height(x) >= h ensures Continues(b, h, x) {
        if x != b {
          SameHeight(x, b, b, batch);
          AncestorAccepted(x, b, batch);
          OwnBlocksAcknowledged(b, x, batch);
          DescentVisits(b, h, claimed, x, batch);
        }
      }
    }
    if Acknowledges(b, h) {
      assert OnChain(b, b) && Continues(b, h, b);
      DescentPasses(b, h, claimed, batch);
    }
  }

  // ---------------------------------------------------------------- precommits

  /** What the generator's record holds after a block: what it held before, or a height the block precommits. */
  lemma RecordedIsPrecommitted(b: Block, batch: nat, a: Address)
    requires batch >= 1 && b.Child? && Accepted(b, batch) && a in StateBefore(b, batch).votes.active
    ensures a in Executed(b, batch).votes.active
    ensures
      var before, after := StateBefore(b, batch).votes.active[a], Executed(b, batch).votes.active[a];
      || after == before
      || (after.minActiveHeight == before.minActiveHeight && a == b.header.bft.generator
          && BlockPrecommits(b, after.largestHeightPrecommit, batch))
  {
    hide StateAfter, ProcessBlock, CountVotes, VotesDefined, Lookup, MinHeightRequired, HeightNotPrevoted, Prune, HasPrevoteQuorum;
    var s, w := StateBefore(b, batch), WindowOf(b, batch);
    var active := s.votes.active;
    if ImpliesVotes(w, active) && a == w[0].header.generator {
      NewestHeightIsLargest(w, PrecommitFromTest(s.params, MinPrecommitHeight(w, active)), active[a].largestHeightPrecommit);
    }
  }

  /** The record of an active validator names a height it precommitted on the chain, unless it has precommitted none
      since it joined. */
  lemma {:induction false} LargestIsPrecommitted(b: Block, batch: nat, a: Address)
    requires batch >= 1 && Accepted(b, batch) && a in StateAfter(b, batch).value.votes.active
    ensures
      var record := StateAfter(b, batch).value.votes.active[a];
      record.largestHeightPrecommit < record.minActiveHeight || a in Precommitters(b, record.largestHeightPrecommit, batch)
    decreases b
  {
    hide StateAfter, ProcessBlock, CountVotes, ProcessHeader, VotesDefined, Lookup, Prune, BlockPrecommits, SetBFTParameters, Realizes;
    if b.Genesis? {
      GenesisState(b, batch);
    } else {
      ParentOf(b, batch);
      ExecutedThenUpdate(b, batch);
      ExecutedActive(b, batch, a);
      if a in StateBefore(b, batch).votes.active {
        LargestIsPrecommitted(b.parent, batch, a);
        RecordedIsPrecommitted(b, batch, a);
      }
      if b.update.Some? && StateAfter(b, batch).value != Executed(b, batch) {
        UpdateTakesEffect(Executed(b, batch), b.update.value, batch);
      }
    }
  }

  /** The generator has precommitted lower heights only. */
  ghost predicate PrecommittedOnlyBelow(b: Block, h: nat, batch: nat)
    requires batch >= 1 && b.Child?
  {
    forall k: nat :: b.header.bft.generator in Precommitters(b.parent, k, batch) ==> k < h
  }

  lemma RecordIff(b: Block, h: nat, batch: nat)
    requires batch >= 1 && b.Child? && Accepted(b, batch) && WeightsFit(b)
    requires b.header.bft.generator in StateBefore(b, batch).votes.active
    ensures
      var record := StateBefore(b, batch).votes.active[b.header.bft.generator];
      h >= record.minActiveHeight ==> (record.largestHeightPrecommit < h <==> PrecommittedOnlyBelow(b, h, batch))
  {
    hide StateAfter, ProcessBlock, Precommitters, HeadersMatch, ParamsOk, ActiveOk, Accounted, HeightsOk, WeightsFit, WindowEndsAt;
    var a := b.header.bft.generator;
    ParentFits(b, batch);
    AcceptedInv(b.parent, batch);
    LargestIsPrecommitted(b.parent, batch, a);
    var s := StateBefore(b, batch);
    forall k: nat ensures a in Precommitters(b.parent, k, batch) ==> k <= s.votes.active[a].largestHeightPrecommit {
      assert LargestAt(b.parent, s, batch, a, k);
    }
  }

  /** The height has a prevote quorum after the chain, by the parameters in force there. */
  predicate Prevoted(b: Block, h: nat, batch: nat)
    requires batch >= 1
  {
    WeightSum(InForce(b, h).validators, Prevoters(b, h, batch)) >= InForce(b, h).prevoteThreshold
  }

  /** The height has a precommit quorum after the chain, by the parameters in force there. */
  predicate Precommitted(b: Block, h: nat, batch: nat)
    requires batch >= 1
  {
    WeightSum(InForce(b, h).validators, Precommitters(b, h, batch)) >= InForce(b, h).precommitThreshold
  }

  lemma VotedOnIsWanted(b: Block, h: nat, batch: nat)
    requires batch >= 1 && b.Child? && Accepted(b, batch) && VotedOn(b, h, batch)
    ensures Accepted(b.parent, batch) && h >= Wanted(b.parent, StateAfter(b.parent, batch).value.votes.maxHeightCertified, batch)
    ensures h >= Wanted(b, StateAfter(b, batch).value.votes.maxHeightCertified, batch)
  {
    hide StateAfter, ProcessBlock;
    ParentOf(b, batch);
  }

  lemma QuorumBefore(b: Block, h: nat, batch: nat)
    requires batch >= 1 && b.Child? && Accepted(b, batch) && WeightsFit(b) && InWindow(WindowOf(b, batch), h) && VotedOn(b, h, batch)
    ensures HasPrevoteQuorum(StateBefore(b, batch).params, Entry(WindowOf(b, batch), h)) <==> Prevoted(b.parent, h, batch)
  {
    hide StateAfter, ProcessBlock, Prevoters, Precommitters, HeadersMatch, HeightsOk, LargestOk, ActiveOk, Lookup, WeightSum,
      InForce, Wanted, WindowOf, Entry, WeightsFit;
    ParentFits(b, batch);
    AcceptedInv(b.parent, batch);
    WindowAccounted(b, batch, h);
    VotedOnIsWanted(b, h, batch);
    StoredInForce(b.parent, h, batch);
  }

  /** A block precommits exactly the heights of the window that had a prevote quorum before it, from where on its
      generator has been a validator, has precommitted nothing, and has not claimed to have generated elsewhere. */
  lemma BlockPrecommitsIff(b: Block, h: nat, batch: nat)
    requires batch >= 1 && b.Child? && Accepted(b, batch) && WeightsFit(b)
    ensures BlockPrecommits(b, h, batch) <==>
              && VotedOn(b, h, batch) && ValidatorSince(b, h) && Acknowledges(b, h)
              && PrecommittedOnlyBelow(b, h, batch) && Prevoted(b.parent, h, batch)
  {
    hide Accepted, StateBefore, WindowOf, ValidatorSince, Acknowledges, PrecommittedOnlyBelow, Prevoted, HeightNotPrevoted,
      HasPrevoteQuorum, WeightsFit;
    VotedOnIsWindow(b, h, batch);
    WindowTop(b, batch);
    if VotedOn(b, h, batch) {
      ActiveSince(b, h, batch);
      QuorumBefore(b, h, batch);
      if b.header.bft.generator in StateBefore(b, batch).votes.active { RecordIff(b, h, batch); }
      if b.header.bft.maxHeightGenerated < Height(b) {
        DescentIff(b, h, batch);
      } else {
        ClaimTooHigh(b, h);
      }
    }
  }

  lemma ClaimTooHigh(b: Block, h: nat)
    requires b.Child? && h <= Height(b) <= b.header.bft.maxHeightGenerated
    ensures !Acknowledges(b, h)
  {
    assert OnChain(b, b) && !Continues(b, h, b);
  }
}
