/** Accountable finality: with a fixed validator set, two conflicting finalized blocks convict
    validators of at least the overlap of a prevote and a precommit quorum. */
module BftFinality {
  import opened Basics
  import opened Contradiction
  import opened BftParams
  import opened BftVotes
  import opened BftChain
  import opened BftAccounting
  import opened BftInvariants
  import opened BftReachable

  // ---------------------------------------------------------------- statement

  function GenesisOf(b: Block): Block {
    match b
    case Genesis(_, _) => b
    case Child(parent, _, _) => GenesisOf(parent)
  }

  /** The parameters the genesis block sets. */
  function InitialParams(b: Block): (p: Params)
  {
    match b
    case Genesis(_, u) => ParamsOf(u)
    case Child(parent, _, _) => InitialParams(parent)
  }

  /** No block after genesis changes the parameters: it asks for none, or for those of genesis again. */
  predicate FixedValidators(b: Block) {
    match b
    case Genesis(_, _) => true
    case Child(parent, _, update) =>
      (update.None? || Unchanged(Some(InitialParams(parent)), update.value)) && FixedValidators(parent)
  }

  /** The newest block a node that follows the chain treats as final. */
  function FinalizedBlock(b: Block, batch: nat): Block
    requires batch >= 1 && Accepted(b, batch)
  {
    BlockAt(b, StateAfter(b, batch).value.votes.maxHeightPrecommitted)
  }

  /** Neither block is an ancestor of the other. */
  predicate Conflicting(x: Block, y: Block) {
    !OnChain(x, y) && !OnChain(y, x)
  }

  /** The two blocks prove that validator `a` broke the protocol. */
  predicate Evidence(a: Address, x: Block, y: Block) {
    && x != y && x.Child? && y.Child?
    && x.header.bft.generator == a && y.header.bft.generator == a
    && AreDistinctHeadersContradicting(x.header.bft, y.header.bft)
  }

  /** The two chains together contain two contradicting blocks of validator `a`. */
  ghost predicate Equivocates(a: Address, b1: Block, b2: Block) {
    exists x, y :: (OnChain(x, b1) || OnChain(x, b2)) && (OnChain(y, b1) || OnChain(y, b2)) && Evidence(a, x, y)
  }

  /** The weight that accountability guarantees to convict. */
  function ConvictedWeight(p: Params): int {
    p.prevoteThreshold + p.precommitThreshold - TotalWeight(p.validators)
  }

  /** Enough validators are caught by the two chains. */
  ghost predicate Convicts(guilty: set<Address>, b1: Block, b2: Block) {
    && WeightSum(InitialParams(b1).validators, guilty) >= ConvictedWeight(InitialParams(b1))
    && forall a :: a in guilty ==> Equivocates(a, b1, b2)
  }

  // ---------------------------------------------------------------- fixed parameters

  lemma GenesisStore(b: Block, batch: nat)
    requires batch >= 1 && b.Genesis? && Accepted(b, batch)
    ensures StateAfter(b, batch).value.params == map[GenesisHeight(b) + 1 := InitialParams(b)]
  {
    var none: ParamsStore := map[];
    assert Lookup(none, b.genesisHeight).None?;
  }

  lemma ChildStore(b: Block, batch: nat, k: nat, p: Params)
    requires batch >= 1 && b.Child? && Accepted(b, batch) && k <= Height(b)
    requires b.update.None? || Unchanged(Some(p), b.update.value)
    requires StateAfter(b.parent, batch).value.params == map[k := p]
    ensures StateAfter(b, batch).value.params == map[k := p]
  {
    ExecutedThenUpdate(b, batch);
    PruneSingle(k, p, MinHeightRequired(Executed(b, batch).votes));
    if b.update.Some? {
      FixedLookup(k, p, Height(b));
      UnchangedUpdate(Executed(b, batch), b.update.value, batch, p);
    }
  }

  /** An update that asks for the parameters in force changes nothing. */
  lemma UnchangedUpdate(s: Store, u: Update, batch: nat, p: Params)
    requires SetBFTParameters(s, u, batch).Some?
    requires Lookup(s.params, CurrentHeight(s.votes)) == Some(p) && Unchanged(Some(p), u)
    ensures SetBFTParameters(s, u, batch) == Some(s)
  {
  }

  /** With fixed validators the parameter store never changes. */
  lemma {:induction false} FixedStore(b: Block, batch: nat)
    requires batch >= 1 && Accepted(b, batch) && FixedValidators(b)
    ensures StateAfter(b, batch).value.params == map[GenesisHeight(b) + 1 := InitialParams(b)]
    decreases b
  {
    hide ProcessBlock, SetBFTParameters;
    if b.Genesis? {
      GenesisStore(b, batch);
    } else {
      AncestorAccepted(b.parent, b, batch);
      FixedStore(b.parent, batch);
      ChildStore(b, batch, GenesisHeight(b) + 1, InitialParams(b));
    }
  }

  lemma PruneSingle(k: nat, p: Params, min: nat)
    ensures Prune(map[k := p], min) == map[k := p]
  {
  }

  lemma {:induction false} FixedLookup(k: nat, p: Params, h: nat)
    requires k <= h
    ensures Lookup(map[k := p], h) == Some(p)
  {
    LookupByFloor(map[k := p], h, k);
  }

  lemma {:induction false} SharedGenesis(b: Block)
    ensures WeightsFit(b) ==> WeightsFit(GenesisOf(b))
    ensures FixedValidators(b) && WeightsFit(GenesisOf(b)) ==> WeightsFit(b)
    ensures InitialParams(b) == InitialParams(GenesisOf(b)) && GenesisHeight(b) == GenesisHeight(GenesisOf(b))
    ensures GenesisOf(b).Genesis? && InitialParams(b) == ParamsOf(GenesisOf(b).initial)
  {
    if b.Child? {
      SharedGenesis(b.parent);
      if b.update.Some? { SortFacts(b.update.value.validators, 0); }
      SortFacts(GenesisOf(b).initial.validators, 0);
    }
  }

  lemma {:induction false} AncestorFixed(x: Block, b: Block)
    requires OnChain(x, b) && FixedValidators(b)
    ensures FixedValidators(x) && GenesisOf(x) == GenesisOf(b)
    ensures InitialParams(x) == InitialParams(b)
    decreases b
  {
    if x != b {
      AncestorFixed(x, b.parent);
    }
  }

  // ---------------------------------------------------------------- quorums over the whole chain

  predicate PrevoteQuorum(b: Block, h: nat, batch: nat)
    requires batch >= 1
  {
    WeightSum(InitialParams(b).validators, Prevoters(b, h, batch)) >= InitialParams(b).prevoteThreshold
  }

  predicate PrecommitQuorum(b: Block, h: nat, batch: nat)
    requires batch >= 1
  {
    WeightSum(InitialParams(b).validators, Precommitters(b, h, batch)) >= InitialParams(b).precommitThreshold
  }

  lemma {:induction false} VotersMonotone(x: Block, b: Block, h: nat, batch: nat)
    requires batch >= 1 && OnChain(x, b)
    ensures Prevoters(x, h, batch) <= Prevoters(b, h, batch)
    ensures Precommitters(x, h, batch) <= Precommitters(b, h, batch)
    decreases b
  {
    if x != b {
      VotersMonotone(x, b.parent, h, batch);
    }
  }

  lemma QuorumsPersist(x: Block, b: Block, h: nat, batch: nat)
    requires batch >= 1 && OnChain(x, b) && InitialParams(x) == InitialParams(b)
    ensures PrevoteQuorum(x, h, batch) ==> PrevoteQuorum(b, h, batch)
    ensures PrecommitQuorum(x, h, batch) ==> PrecommitQuorum(b, h, batch)
  {
    VotersMonotone(x, b, h, batch);
    var vs := InitialParams(b).validators;
    WeightSumMonotone(vs, Prevoters(x, h, batch), Prevoters(b, h, batch));
    WeightSumMonotone(vs, Precommitters(x, h, batch), Precommitters(b, h, batch));
  }

  /** A window entry's quorum is a quorum of voters. */
  lemma EntryQuorums(b: Block, batch: nat, h: nat)
    requires batch >= 1 && Accepted(b, batch) && FixedValidators(b) && WeightsFit(b)
    requires InWindow(StateAfter(b, batch).value.votes.infos, h)
    ensures
      var s := StateAfter(b, batch).value;
      && (HasPrevoteQuorum(s.params, Entry(s.votes.infos, h)) ==> PrevoteQuorum(b, h, batch))
      && (HasPrecommitQuorum(s.params, Entry(s.votes.infos, h)) ==> PrecommitQuorum(b, h, batch))
  {
    VoteAccounting(b, batch, h);
    FixedStore(b, batch);
    FixedLookup(GenesisHeight(b) + 1, InitialParams(b), h);
  }

  /** The prevoted height is genesis or is backed by a prevote quorum. */
  lemma {:induction false} PrevotedIsBacked(b: Block, batch: nat)
    requires batch >= 1 && Accepted(b, batch) && FixedValidators(b) && WeightsFit(b)
    ensures
      var h := StateAfter(b, batch).value.votes.maxHeightPrevoted;
      h == GenesisHeight(b) || PrevoteQuorum(b, h, batch)
    decreases b
  {
    AcceptedInv(b, batch);
    var s := StateAfter(b, batch).value;
    var h := s.votes.maxHeightPrevoted;
    if InWindow(s.votes.infos, h) {
      EntryQuorums(b, batch, h);
    } else if b.Child? {
      PrevotedIsBacked(b.parent, batch);
      HeightUnchangedOutsideWindow(b, batch);
      QuorumsPersist(b.parent, b, h, batch);
    }
  }

  /** The precommitted height is genesis or is backed by a precommit quorum. */
  lemma {:induction false} PrecommittedIsBacked(b: Block, batch: nat)
    requires batch >= 1 && Accepted(b, batch) && FixedValidators(b) && WeightsFit(b)
    ensures
      var h := StateAfter(b, batch).value.votes.maxHeightPrecommitted;
      h == GenesisHeight(b) || PrecommitQuorum(b, h, batch)
    decreases b
  {
    AcceptedInv(b, batch);
    var s := StateAfter(b, batch).value;
    var h := s.votes.maxHeightPrecommitted;
    if InWindow(s.votes.infos, h) {
      EntryQuorums(b, batch, h);
    } else if b.Child? {
      PrecommittedIsBacked(b.parent, batch);
      HeightUnchangedOutsideWindow(b, batch);
      QuorumsPersist(b.parent, b, h, batch);
    }
  }

  lemma HeightUnchangedOutsideWindow(b: Block, batch: nat)
    requires batch >= 1 && b.Child? && Accepted(b, batch) && FixedValidators(b) && WeightsFit(b)
    ensures
      var v, v1 := StateAfter(b.parent, batch).value.votes, StateAfter(b, batch).value.votes;
      && (InWindow(v1.infos, v1.maxHeightPrevoted) || v1.maxHeightPrevoted == v.maxHeightPrevoted)
      && (InWindow(v1.infos, v1.maxHeightPrecommitted) || v1.maxHeightPrecommitted == v.maxHeightPrecommitted)
  {
    AcceptedInv(b.parent, batch);
    UpdateKeepsHeights(b, batch);
    ExecutedPrevotedHeight(b, batch);
    ExecutedPrecommittedHeight(b, batch);
  }

  // ---------------------------------------------------------------- the two votes of one validator

  /** A precommitting block has seen a prevote quorum for what it precommits. */
  lemma PrecommitSawQuorum(d: Block, h: nat, batch: nat)
    requires batch >= 1 && BlockPrecommits(d, h, batch) && WeightsFit(d)
    ensures h <= d.header.bft.maxHeightPrevoted
    ensures h < Height(d)
  {
    AcceptedInv(d.parent, batch);
    WindowEntries(d, batch, h);
    var s := StateBefore(d, batch);
    if h == Height(d) {
      assert InUse(s.votes.infos, Height(d.parent), h);
      assert false;
    }
  }

  /** A prevoting block claims not to have generated at the prevoted height before. */
  lemma PrevoteClaim(d: Block, h: nat, batch: nat)
    requires batch >= 1 && BlockPrevotes(d, h, batch)
    ensures d.header.bft.maxHeightGenerated < h <= Height(d)
  {
  }

  /** If the descent of getHeightNotPrevoted passes below `target`, one of the generator's own window
      blocks at or above `target` claims that the generator had generated nothing from `target` on. */
  lemma {:induction false} DescentCrosses(infos: seq<BlockInfo>, previous: nat, target: nat) returns (i: nat)
    requires infos != [] && Consecutive(infos) && previous < infos[0].header.height
    requires InWindow(infos, target)
    requires NotPrevotedFrom(infos, previous) < target <= previous
    ensures 1 <= i < |infos|
    ensures infos[i].header.generator == infos[0].header.generator
    ensures infos[i].header.maxHeightGenerated < target <= infos[i].header.height
    decreases previous
  {
    i := infos[0].header.height - previous;
    if target <= infos[i].header.maxHeightGenerated {
      i := DescentCrosses(infos, infos[i].header.maxHeightGenerated, target);
    }
  }

  /** A block precommits only above where the descent through its generator's blocks ends. */
  lemma PrecommitDescends(d: Block, h: nat, batch: nat)
    requires batch >= 1 && BlockPrecommits(d, h, batch)
    ensures
      var w, claimed := WindowOf(d, batch), d.header.bft.maxHeightGenerated;
      Consecutive(w) && claimed < w[0].header.height && InWindow(w, h) && NotPrevotedFrom(w, claimed) < h
  {
    hide Accepted, StateBefore, NotPrevotedFrom, Lookup, Entry;
  }

  /** The entries of a block's window are headers of its ancestors. */
  lemma WindowBlock(d: Block, batch: nat, i: nat)
    requires batch >= 1 && d.Child? && Accepted(d, batch) && WeightsFit(d) && i < |WindowOf(d, batch)|
    ensures
      var entry := WindowOf(d, batch)[i].header;
      var x := BlockAt(d, entry.height);
      OnChain(x, d) && x.Child? && x.header.bft == entry
  {
    hide Accepted, StateBefore, WindowOf, BlockAt, OnChain, HeaderAcceptable, ParamsOk, ActiveOk, Accounted, LargestOk, HeightsOk;
    var w := WindowOf(d, batch);
    var k := w[i].header.height;
    assert InWindow(w, k) && Entry(w, k) == w[i];
    ParentFits(d, batch);
    AcceptedInv(d.parent, batch);
    ExecutedHeader(d, batch, k);
    BlockAtOnChain(d, k, batch);
  }

  lemma ParentFits(d: Block, batch: nat)
    requires batch >= 1 && d.Child? && Accepted(d, batch) && WeightsFit(d)
    ensures Accepted(d.parent, batch) && WeightsFit(d.parent) && StateBefore(d, batch) == StateAfter(d.parent, batch).value
  {
  }

  /** A block that precommits height `h` and claims to have generated at `target >= h` or above has
      an ancestor of the same generator that crosses `target`. */
  lemma CrossingBlock(d: Block, h: nat, target: nat, batch: nat) returns (x: Block)
    requires batch >= 1 && BlockPrecommits(d, h, batch) && WeightsFit(d)
    requires h <= target <= d.header.bft.maxHeightGenerated
    ensures x.Child? && OnChain(x, d)
    ensures x.header.bft.generator == d.header.bft.generator
    ensures x.header.bft.maxHeightGenerated < target <= Height(x)
  {
    hide Accepted, WindowOf, NotPrevotedFrom, BlockAt, OnChain, Precommits, WeightsFit;
    PrecommitDescends(d, h, batch);
    var w := WindowOf(d, batch);
    var i := DescentCrosses(w, d.header.bft.maxHeightGenerated, target);
    WindowBlock(d, batch, i);
    x := BlockAt(d, w[i].header.height);
  }

  /** The heart of the argument: a precommit on one chain and a prevote by the same validator on a
      chain that does not contain the precommitted block yield contradicting blocks. */
  lemma VotesContradict(d1: Block, a: nat, d2: Block, c: nat, batch: nat) returns (x: Block)
    requires batch >= 1 && WeightsFit(d1)
    requires BlockPrecommits(d1, a, batch) && BlockPrevotes(d2, c, batch) && a <= c
    requires d1.header.bft.generator == d2.header.bft.generator
    requires d2.header.bft.maxHeightPrevoted < a
    requires BlockAt(d1, a) != BlockAt(d2, a)
    ensures OnChain(x, d1) && Evidence(d1.header.bft.generator, x, d2)
  {
    PrecommitSawQuorum(d1, a, batch);
    PrevoteClaim(d2, c, batch);
    if d2.header.bft.maxHeightGenerated > d1.header.bft.maxHeightGenerated
       || Height(d2) > d1.header.bft.maxHeightGenerated {
      x := d1;
    } else {
      x := CrossingBlock(d1, a, Height(d2), batch);
      AncestorAccepted(x, d1, batch);
      if x == d2 {
        BlockAtThrough(x, d1, a, batch);
        assert false;
      }
      CompatibleIffOneFollows(x.header.bft, d2.header.bft);
    }
  }

  /** The block at a height is the same seen from any later block of the chain. */
  lemma {:induction false} BlockAtThrough(x: Block, b: Block, h: nat, batch: nat)
    requires batch >= 1 && Accepted(b, batch) && OnChain(x, b) && h <= Height(x)
    ensures BlockAt(b, h) == BlockAt(x, h)
    decreases b
  {
    if x != b {
      AncestorAccepted(x, b.parent, batch);
      BlockAtThrough(x, b.parent, h, batch);
    }
  }

  // ---------------------------------------------------------------- the first quorum

  /** The first block of a chain after which some height from `a` on has a prevote quorum. */
  lemma {:induction false} FirstQuorum(b: Block, a: nat, h: nat, batch: nat) returns (d: Block, c: nat)
    requires batch >= 1 && a <= h && PrevoteQuorum(b, h, batch)
    requires InitialParams(b).prevoteThreshold >= 1
    ensures OnChain(d, b) && d.Child? && a <= c && PrevoteQuorum(d, c, batch)
    ensures forall k: nat :: a <= k ==> !PrevoteQuorum(d.parent, k, batch)
    decreases b
  {
    WeightSumOfNobody(InitialParams(b).validators);
    if k: nat :| a <= k && PrevoteQuorum(b.parent, k, batch) {
      d, c := FirstQuorum(b.parent, a, k, batch);
    } else {
      d, c := b, h;
    }
  }

  /** Up to the first quorum from `a` on, every block's claimed prevoted height is below `a`. */
  lemma PrevotedStaysBelow(x: Block, d: Block, a: nat, batch: nat)
    requires batch >= 1 && d.Child? && Accepted(d, batch) && FixedValidators(d) && WeightsFit(d)
    requires x.Child? && OnChain(x, d) && a > GenesisHeight(d)
    requires forall k: nat :: a <= k ==> !PrevoteQuorum(d.parent, k, batch)
    ensures x.header.bft.maxHeightPrevoted < a
  {
    AncestorAccepted(x, d, batch);
    AncestorFixed(x, d);
    SharedGenesis(x);
    SharedGenesis(d);
    assert OnChain(x.parent, d.parent) by {
      if x != d {
        OnChainTransitive(x.parent, x, d.parent);
      }
    }
    AncestorFixed(x.parent, d.parent);
    PrevotedIsBacked(x.parent, batch);
    var h := StateBefore(x, batch).votes.maxHeightPrevoted;
    QuorumsPersist(x.parent, d.parent, h, batch);
  }

  // ---------------------------------------------------------------- main results

  /** A block only precommits a height that already had a prevote quorum. */
  lemma PrecommitFollowsPrevotes(d: Block, h: nat, batch: nat)
    requires batch >= 1 && BlockPrecommits(d, h, batch) && FixedValidators(d) && WeightsFit(d)
    ensures PrevoteQuorum(d.parent, h, batch) && GenesisHeight(d) < h <= Height(d)
  {
    PrecommitSawQuorum(d, h, batch);
    WindowEntries(d, batch, h);
    EntryQuorums(d.parent, batch, h);
  }

  lemma {:induction false} PrecommittedHeightIsPrevoted(b: Block, h: nat, batch: nat)
    requires batch >= 1 && Accepted(b, batch) && FixedValidators(b) && WeightsFit(b)
    requires Precommitters(b, h, batch) != {}
    ensures PrevoteQuorum(b, h, batch) && GenesisHeight(b) < h <= Height(b)
    decreases b
  {
    if BlockPrecommits(b, h, batch) {
      PrecommitFollowsPrevotes(b, h, batch);
    } else {
      AncestorAccepted(b.parent, b, batch);
      PrecommittedHeightIsPrevoted(b.parent, h, batch);
    }
    QuorumsPersist(b.parent, b, h, batch);
  }

  lemma PrecommitNeedsPrevotes(b: Block, h: nat, batch: nat)
    requires batch >= 1 && Accepted(b, batch) && FixedValidators(b) && WeightsFit(b)
    requires PrecommitQuorum(b, h, batch) && InitialParams(b).precommitThreshold >= 1
    ensures PrevoteQuorum(b, h, batch) && GenesisHeight(b) < h <= Height(b)
  {
    WeightSumOfNobody(InitialParams(b).validators);
    PrecommittedHeightIsPrevoted(b, h, batch);
  }

  /** One validator in both quorums is caught. */
  lemma CommonVoterEquivocates(b1: Block, a: nat, d: Block, c: nat, v: Address, batch: nat)
    requires batch >= 1 && Accepted(b1, batch) && FixedValidators(b1) && WeightsFit(b1)
    requires d.Child? && Accepted(d, batch) && FixedValidators(d) && WeightsFit(d)
    requires GenesisHeight(d) < a <= Height(b1) && a <= c && BlockAt(b1, a) != BlockAt(d, a)
    requires forall k: nat :: a <= k ==> !PrevoteQuorum(d.parent, k, batch)
    requires v in Precommitters(b1, a, batch) && v in Prevoters(d, c, batch)
    ensures Equivocates(v, b1, d)
  {
    var d1 := PrecommitterBlock(b1, a, v, batch);
    var d2 := PrevoterBlock(d, c, v, batch);
    PrevotedStaysBelow(d2, d, a, batch);
    PrevoteClaim(d2, c, batch);
    AncestorFixed(d1, b1);
    SharedGenesis(d1);
    SharedGenesis(b1);
    PrecommitSawQuorum(d1, a, batch);
    BlockAtThrough(d1, b1, a, batch);
    BlockAtThrough(d2, d, a, batch);
    var x := VotesContradict(d1, a, d2, c, batch);
    OnChainTransitive(x, d1, b1);
  }

  lemma EquivocatesOnLongerChain(v: Address, b1: Block, d: Block, b2: Block)
    requires Equivocates(v, b1, d) && OnChain(d, b2)
    ensures Equivocates(v, b1, b2)
  {
    var x, y :| (OnChain(x, b1) || OnChain(x, d)) && (OnChain(y, b1) || OnChain(y, d)) && Evidence(v, x, y);
    if OnChain(x, d) { OnChainTransitive(x, d, b2); }
    if OnChain(y, d) { OnChainTransitive(y, d, b2); }
  }

  /** A block with a precommit quorum on one chain, and on another chain without that block a prevote
      quorum at its height or above: the validators common to two quorums are caught. */
  lemma ConflictingQuorumsConvict(b1: Block, a: nat, b2: Block, h: nat, batch: nat) returns (guilty: set<Address>)
    requires batch >= 1 && Accepted(b1, batch) && FixedValidators(b1) && WeightsFit(b1)
    requires Accepted(b2, batch) && FixedValidators(b2) && WeightsFit(b2)
    requires InitialParams(b1) == InitialParams(b2) && InitialParams(b1).prevoteThreshold >= 1
    requires GenesisHeight(b2) < a <= Height(b1) && a <= h
    requires PrecommitQuorum(b1, a, batch) && PrevoteQuorum(b2, h, batch)
    requires BlockAt(b1, a) != BlockAt(b2, a) && a <= Height(b2)
    ensures Convicts(guilty, b1, b2)
  {
    var d, c := FirstQuorum(b2, a, h, batch);
    AncestorAccepted(d, b2, batch);
    AncestorFixed(d, b2);
    SharedGenesis(d);
    SharedGenesis(b2);
    var p := InitialParams(b1);
    guilty := Precommitters(b1, a, batch) * Prevoters(d, c, batch);
    QuorumIntersection(p.validators, Precommitters(b1, a, batch), Prevoters(d, c, batch), p.precommitThreshold, p.prevoteThreshold);
    FirstQuorumIsHighEnough(d, c, batch);
    BlockAtThrough(d, b2, a, batch);
    forall v | v in guilty ensures Equivocates(v, b1, b2) {
      CommonVoterEquivocates(b1, a, d, c, v, batch);
      EquivocatesOnLongerChain(v, b1, d, b2);
    }
  }

  /** Only heights up to the tip have a quorum. */
  lemma FirstQuorumIsHighEnough(d: Block, c: nat, batch: nat)
    requires batch >= 1 && Accepted(d, batch) && PrevoteQuorum(d, c, batch) && InitialParams(d).prevoteThreshold >= 1
    ensures c <= Height(d)
  {
    if c > Height(d) {
      NoVotesAboveTip(d, c, batch);
      WeightSumOfNobody(InitialParams(d).validators);
    }
  }

  /** A finalized block above genesis has both quorums. */
  lemma FinalizedHasQuorums(b: Block, batch: nat)
    requires batch >= 1 && Accepted(b, batch) && FixedValidators(b) && WeightsFit(b)
    ensures
      var h := StateAfter(b, batch).value.votes.maxHeightPrecommitted;
      && GenesisHeight(b) <= h <= Height(b)
      && (h > GenesisHeight(b) ==> PrecommitQuorum(b, h, batch) && PrevoteQuorum(b, h, batch))
  {
    BftHeights(b, b, batch);
    PrecommittedIsBacked(b, batch);
    InitialThresholds(b, batch);
    var h := StateAfter(b, batch).value.votes.maxHeightPrecommitted;
    if h > GenesisHeight(b) {
      PrecommitNeedsPrevotes(b, h, batch);
    }
  }

  lemma {:induction false} InitialThresholds(b: Block, batch: nat)
    requires batch >= 1 && Accepted(b, batch) && WeightsFit(b)
    ensures GoodParams(InitialParams(b))
    decreases b
  {
    if b.Genesis? {
      ParamsOfGood(b.initial, batch);
    } else {
      AncestorAccepted(b.parent, b, batch);
      InitialThresholds(b.parent, batch);
    }
  }

  /** Finalized blocks conflict only above genesis, and then the lower one is missing from the other chain. */
  lemma ConflictShape(b1: Block, a1: nat, b2: Block, a2: nat, batch: nat)
    requires batch >= 1 && Accepted(b1, batch) && Accepted(b2, batch) && GenesisOf(b1) == GenesisOf(b2)
    requires GenesisHeight(b1) <= a1 <= Height(b1) && GenesisHeight(b2) <= a2 <= Height(b2) && a1 <= a2
    requires !OnChain(BlockAt(b1, a1), BlockAt(b2, a2))
    ensures GenesisHeight(b1) == GenesisHeight(b2) < a1
    ensures BlockAt(b1, a1) != BlockAt(b2, a1)
  {
    SharedGenesis(b1);
    SharedGenesis(b2);
    BlockAtOnChain(b1, a1, batch);
    BlockAtOnChain(b2, a2, batch);
    var f2 := BlockAt(b2, a2);
    AncestorAccepted(f2, b2, batch);
    BlockAtOnChain(f2, a1, batch);
    BlockAtThrough(f2, b2, a1, batch);
    if a1 == GenesisHeight(b1) {
      GenesisIsBottom(BlockAt(b1, a1), b1);
      GenesisIsBottom(BlockAt(f2, a1), b2);
    }
  }

  lemma {:induction false} GenesisIsBottom(x: Block, b: Block)
    requires x.Genesis? && OnChain(x, b)
    ensures x == GenesisOf(b)
    decreases b
  {
    if x != b {
      GenesisIsBottom(x, b.parent);
    }
  }

  /** Accountable finality: if two accepted chains over the same fixed validator set finalize conflicting
      blocks, then validators of weight at least prevoteThreshold + precommitThreshold - total each
      signed two distinct headers that the contradiction rule flags. */
  lemma AccountableFinality(b1: Block, b2: Block, batch: nat)
    requires batch >= 1 && Accepted(b1, batch) && Accepted(b2, batch)
    requires GenesisOf(b1) == GenesisOf(b2)
    requires FixedValidators(b1) && FixedValidators(b2) && WeightsFit(b1)
    requires Conflicting(FinalizedBlock(b1, batch), FinalizedBlock(b2, batch))
    ensures exists guilty :: Convicts(guilty, b1, b2)
  {
    SharedGenesis(b1);
    SharedGenesis(b2);
    InitialThresholds(b1, batch);
    FinalizedHasQuorums(b1, batch);
    FinalizedHasQuorums(b2, batch);
    var a1 := StateAfter(b1, batch).value.votes.maxHeightPrecommitted;
    var a2 := StateAfter(b2, batch).value.votes.maxHeightPrecommitted;
    if a1 <= a2 {
      ConflictShape(b1, a1, b2, a2, batch);
      var guilty := ConflictingQuorumsConvict(b1, a1, b2, a2, batch);
      assert Convicts(guilty, b1, b2);
    } else {
      ConflictShape(b2, a2, b1, a1, batch);
      var guilty := ConflictingQuorumsConvict(b2, a2, b1, a1, batch);
      ConvictsIsSymmetric(guilty, b2, b1);
    }
  }

  lemma ConvictsIsSymmetric(guilty: set<Address>, b1: Block, b2: Block)
    requires Convicts(guilty, b1, b2) && InitialParams(b1) == InitialParams(b2)
    ensures Convicts(guilty, b2, b1)
  {
    forall a | a in guilty ensures Equivocates(a, b2, b1) {
      var x, y :| (OnChain(x, b1) || OnChain(x, b2)) && (OnChain(y, b1) || OnChain(y, b2)) && Evidence(a, x, y);
    }
  }

  /** Safety: while the validators that equivocate weigh less than that, finalized blocks never conflict. */
  lemma FinalityIsSafe(b1: Block, b2: Block, batch: nat)
    requires batch >= 1 && Accepted(b1, batch) && Accepted(b2, batch)
    requires GenesisOf(b1) == GenesisOf(b2)
    requires FixedValidators(b1) && FixedValidators(b2) && WeightsFit(b1)
    requires forall who: set<Address> :: (forall a :: a in who ==> Equivocates(a, b1, b2)) ==>
               WeightSum(InitialParams(b1).validators, who) < ConvictedWeight(InitialParams(b1))
    ensures !Conflicting(FinalizedBlock(b1, batch), FinalizedBlock(b2, batch))
  {
    if Conflicting(FinalizedBlock(b1, batch), FinalizedBlock(b2, batch)) {
      AccountableFinality(b1, b2, batch);
    }
  }

  // ---------------------------------------------------------------- what the thresholds are worth

  /** The stored prevote threshold is more than two thirds of the total weight exactly when doubling
      the total does not wrap around. */
  lemma PrevoteThresholdExact(u: Update)
    ensures ParamsOf(u).prevoteThreshold == 2 * TotalWeight(u.validators) / 3 + 1 <==> TotalWeight(u.validators) < TWO64 / 2
  {
  }

  /** An accepted update with a total between the two bounds: the total is stored exactly, but its double wraps
      around, and a single unit of weight is then a prevote quorum. */
  lemma WrappedThresholdIsAccepted()
    ensures
      var w: nat := TWO64 / 2;
      var u := Update(w, w, [Validator(1, w)]);
      && UpdateValid(u, 1) && Aggregate(u.validators) == TotalWeight(u.validators) == w
      && ParamsOf(u).prevoteThreshold == 1
  {
    var w: nat := TWO64 / 2;
    var vs := [Validator(1, w)];
    assert vs[1..] == [] && TotalWeight(vs) == w;
  }

  /** Every accepted update below that bound makes accountability bite, and a two-thirds precommit
      threshold convicts more than a third of the weight. */
  lemma ConvictedWeightIsPositive(u: Update, batch: nat)
    requires UpdateValid(u, batch) && TotalWeight(u.validators) < TWO64 / 2
    ensures ConvictedWeight(ParamsOf(u)) >= 1
    ensures u.precommitThreshold == 2 * TotalWeight(u.validators) / 3 + 1 ==>
              3 * ConvictedWeight(ParamsOf(u)) > TotalWeight(u.validators)
  {
    SortFacts(u.validators, 0);
    PrevoteThresholdExact(u);
  }

  /** The aggregate weight is the total weight exactly when the total does not wrap around. */
  lemma AggregateExact(u: Update)
    ensures Aggregate(u.validators) == TotalWeight(u.validators) <==> TotalWeight(u.validators) < TWO64
  {
  }

  /** An update whose total wraps around is accepted all the same, and then two validators reach both thresholds
      each on its own: their quorums need not meet. */
  lemma WrappedTotalIsAccepted()
    ensures
      var w: nat := TWO64 / 2 + 1;
      var u := Update(2, 2, [Validator(1, w), Validator(2, w)]);
      && UpdateValid(u, 2) && TotalWeight(u.validators) >= TWO64
      && (forall a :: a in {1, 2} ==>
            && WeightSum(ParamsOf(u).validators, {a}) >= ParamsOf(u).prevoteThreshold
            && WeightSum(ParamsOf(u).validators, {a}) >= ParamsOf(u).precommitThreshold)
  {
    var w: nat := TWO64 / 2 + 1;
    var v1, v2 := Validator(1, w), Validator(2, w);
    var vs := [v1, v2];
    assert vs[1..] == [v2] && vs[1..][1..] == [];
    assert TotalWeight(vs) == w + TotalWeight([v2]) && TotalWeight([v2]) == w + TotalWeight([]);
    assert SortByAddress([v2]) == InsertSorted(SortByAddress([]), v2) == [v2];
    assert SortByAddress(vs) == InsertSorted([v2], v1) == [v2] + InsertSorted([], v1) == [v2, v1];
    var sorted := [v2, v1];
    assert sorted[1..] == [v1];
    assert WeightSum(sorted, {1}) == WeightSum([v1], {1} - {2});
    assert {1} - {2} == {1};
    assert WeightSum([v1], {1}) == w + WeightSum([v1][1..], {1} - {1});
    assert WeightSum(sorted, {2}) == w + WeightSum([v1], {2} - {2});
  }
}
