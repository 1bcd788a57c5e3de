/** Who voted for what along a chain, and the invariants every accepted chain keeps. */
module BftAccounting {
  import opened Basics
  import opened Contradiction
  import opened BftParams
  import opened BftVotes
  import opened BftChain

  // ---------------------------------------------------------------- window access

  predicate InWindow(infos: seq<BlockInfo>, h: nat) {
    infos != [] && infos[0].header.height - |infos| < h <= infos[0].header.height
  }

  function Entry(infos: seq<BlockInfo>, h: nat): (info: BlockInfo)
    requires InWindow(infos, h) && Consecutive(infos)
    ensures info.header.height == h
  {
    infos[infos[0].header.height - h]
  }

  // ---------------------------------------------------------------- votes of one block

  /** The state a block is processed in. */
  function StateBefore(b: Block, batch: nat): (s: Store)
    requires batch >= 1 && b.Child? && Accepted(b, batch)
    ensures HeaderAcceptable(s.votes, Height(b.parent), b.header)
    ensures WindowEndsAt(s.votes.infos, Height(b.parent), GenesisHeight(b), batch)
  {
    StateAfter(b.parent, batch).value
  }

  /** The header window with the block's own header in front. */
  function WindowOf(b: Block, batch: nat): (w: seq<BlockInfo>)
    requires batch >= 1 && b.Child? && Accepted(b, batch)
    ensures WindowEndsAt(w, Height(b), GenesisHeight(b), batch)
    ensures w != [] && w[0].header == b.header.bft
  {
    var s := StateBefore(b, batch);
    InsertExtendsWindow(s.votes.infos, b.header.bft, Height(b.parent), GenesisHeight(b), batch);
    Insert(s.votes.infos, b.header.bft, WindowLength(batch))
  }

  /** Block `b` prevotes the block of its chain at height `h`. */
  predicate BlockPrevotes(b: Block, h: nat, batch: nat)
    requires batch >= 1
  {
    && b.Child? && Accepted(b, batch)
    && InWindow(WindowOf(b, batch), h)
    && Prevotes(WindowOf(b, batch), StateBefore(b, batch).votes.active, Entry(WindowOf(b, batch), h))
  }

  /** Block `b` precommits the block of its chain at height `h`. */
  predicate BlockPrecommits(b: Block, h: nat, batch: nat)
    requires batch >= 1
  {
    && b.Child? && Accepted(b, batch)
    && InWindow(WindowOf(b, batch), h)
    && Precommits(StateBefore(b, batch).params, WindowOf(b, batch), StateBefore(b, batch).votes.active, Entry(WindowOf(b, batch), h))
  }

  /** The validators whose blocks on the chain ending in `b` prevote height `h`. */
  function Prevoters(b: Block, h: nat, batch: nat): set<Address>
    requires batch >= 1
  {
    match b
    case Genesis(_, _) => {}
    case Child(parent, header, _) =>
      Prevoters(parent, h, batch) + if BlockPrevotes(b, h, batch) then {header.bft.generator} else {}
  }

  /** The validators whose blocks on the chain ending in `b` precommit height `h`. */
  function Precommitters(b: Block, h: nat, batch: nat): set<Address>
    requires batch >= 1
  {
    match b
    case Genesis(_, _) => {}
    case Child(parent, header, _) =>
      Precommitters(parent, h, batch) + if BlockPrecommits(b, h, batch) then {header.bft.generator} else {}
  }

  // ---------------------------------------------------------------- ancestry facts

  lemma {:induction false} AncestorAccepted(a: Block, b: Block, batch: nat)
    requires batch >= 1 && Accepted(b, batch) && OnChain(a, b)
    ensures Accepted(a, batch)
    ensures GenesisHeight(a) == GenesisHeight(b) <= Height(a) <= Height(b)
    ensures a.Child? ==> GenesisHeight(b) < Height(a)
    ensures BlockAt(b, Height(a)) == a
    decreases b
  {
    if a == b {
      if b.Child? {
        AncestorAccepted(b.parent, b.parent, batch);
      }
    } else {
      AncestorAccepted(a, b.parent, batch);
    }
  }

  lemma {:induction false} OnChainTransitive(a: Block, b: Block, c: Block)
    requires OnChain(a, b) && OnChain(b, c)
    ensures OnChain(a, c)
    decreases c
  {
    if b != c {
      OnChainTransitive(a, b, c.parent);
    }
  }

  lemma {:induction false} BlockAtOnChain(b: Block, h: nat, batch: nat)
    requires batch >= 1 && Accepted(b, batch)
    requires GenesisHeight(b) <= h <= Height(b)
    ensures OnChain(BlockAt(b, h), b) && Height(BlockAt(b, h)) == h
    ensures BlockAt(b, h).Child? <==> h > GenesisHeight(b)
    decreases b
  {
    AncestorAccepted(b, b, batch);
    if b.Child? && h < Height(b) {
      BlockAtOnChain(b.parent, h, batch);
    }
  }

  // ---------------------------------------------------------------- invariants

  /** Parameters a vote count can rely on. */
  predicate GoodParams(p: Params) {
    p.prevoteThreshold >= 1 && p.precommitThreshold >= 1 && TotalWeight(p.validators) < TWO64
  }

  /** The total weight of every parameter update on the chain fits a uint64. */
  predicate WeightsFit(b: Block) {
    match b
    case Genesis(_, u) => TotalWeight(u.validators) < TWO64
    case Child(parent, _, u) => WeightsFit(parent) && (u.Some? ==> TotalWeight(u.value.validators) < TWO64)
  }

  /** The window height `h` or the height after the tip: a height whose parameters are in use. */
  predicate InUse(infos: seq<BlockInfo>, tip: nat, h: nat) {
    tip - |infos| < h <= tip + 1
  }

  ghost predicate ParamsOk(s: Store, tip: nat) {
    && (forall k :: k in s.params ==> k <= tip + 1)
    && (forall h: nat :: InUse(s.votes.infos, tip, h) ==> Lookup(s.params, h).Some? && GoodParams(Lookup(s.params, h).value))
  }

  ghost predicate ActiveOk(s: Store, tip: nat) {
    forall a :: a in s.votes.active ==>
      && s.votes.active[a].minActiveHeight <= tip + 1
      && s.votes.active[a].largestHeightPrecommit <= tip
      && forall h: nat :: InUse(s.votes.infos, tip, h) && s.votes.active[a].minActiveHeight <= h ==>
           WeightAt(s.params, h, a).Some?
  }

  ghost predicate HeadersMatch(b: Block, s: Store)
    requires Consecutive(s.votes.infos)
  {
    forall h: nat :: InWindow(s.votes.infos, h) ==>
      BlockAt(b, h).Child? && BlockAt(b, h).header.bft == Entry(s.votes.infos, h).header
  }

  /** Every voter is a validator of the given list. */
  predicate VotersKnown(vs: seq<Validator>, who: set<Address>) {
    forall a :: a in who ==> Find(vs, a).Some?
  }

  /** The weights of a window entry are those of the distinct validators that voted for it. */
  ghost predicate EntryAccounted(b: Block, s: Store, batch: nat, h: nat)
    requires batch >= 1 && Consecutive(s.votes.infos) && InWindow(s.votes.infos, h)
  {
    var e := Entry(s.votes.infos, h);
    && Lookup(s.params, h).Some?
    && e.prevoteWeight == WeightSum(Lookup(s.params, h).value.validators, Prevoters(b, h, batch))
    && e.precommitWeight == WeightSum(Lookup(s.params, h).value.validators, Precommitters(b, h, batch))
    && (e.precommitWeight > 0 ==> HasPrevoteQuorum(s.params, e))
    && VotersKnown(Lookup(s.params, h).value.validators, Prevoters(b, h, batch) + Precommitters(b, h, batch))
  }

  ghost predicate Accounted(b: Block, s: Store, batch: nat)
    requires batch >= 1 && Consecutive(s.votes.infos)
  {
    forall h: nat :: InWindow(s.votes.infos, h) ==> EntryAccounted(b, s, batch, h)
  }

  predicate LargestAt(b: Block, s: Store, batch: nat, a: Address, h: nat)
    requires batch >= 1
  {
    a in Precommitters(b, h, batch) ==>
      h <= Height(b) && (a in s.votes.active ==> h <= s.votes.active[a].largestHeightPrecommit)
  }

  /** An active validator remembers the largest height it precommitted. */
  ghost predicate LargestOk(b: Block, s: Store, batch: nat)
    requires batch >= 1
  {
    forall a, h: nat :: LargestAt(b, s, batch, a, h)
  }

  ghost predicate HeightsOk(s: Store, tip: nat, genesis: nat)
    requires Consecutive(s.votes.infos)
  {
    var v := s.votes;
    && genesis <= v.maxHeightCertified <= v.maxHeightPrecommitted <= v.maxHeightPrevoted <= tip
    && (forall h: nat :: InWindow(v.infos, h) ==>
          && Entry(v.infos, h).header.maxHeightPrevoted <= v.maxHeightPrevoted
          && (HasPrevoteQuorum(s.params, Entry(v.infos, h)) ==> h <= v.maxHeightPrevoted)
          && (HasPrecommitQuorum(s.params, Entry(v.infos, h)) ==> h <= v.maxHeightPrecommitted))
    && (InWindow(v.infos, v.maxHeightPrevoted) ==> HasPrevoteQuorum(s.params, Entry(v.infos, v.maxHeightPrevoted)))
    && (InWindow(v.infos, v.maxHeightPrecommitted) ==> HasPrecommitQuorum(s.params, Entry(v.infos, v.maxHeightPrecommitted)))
  }

  /** What holds of the state `s` after every accepted chain ending in `b`. */
  ghost predicate Inv(b: Block, s: Store, batch: nat)
    requires batch >= 1
  {
    && WindowEndsAt(s.votes.infos, Height(b), GenesisHeight(b), batch)
    && HeadersMatch(b, s)
    && ParamsOk(s, Height(b))
    && ActiveOk(s, Height(b))
    && Accounted(b, s, batch)
    && LargestOk(b, s, batch)
    && HeightsOk(s, Height(b), GenesisHeight(b))
  }
}
