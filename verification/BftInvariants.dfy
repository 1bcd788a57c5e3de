/** Every accepted chain keeps the invariants of module BftAccounting. */
module BftInvariants {
  import opened Basics
  import opened Contradiction
  import opened BftParams
  import opened BftVotes
  import opened BftChain
  import opened BftAccounting

  // ---------------------------------------------------------------- small facts

  /** In a window of consecutive heights, the result is the largest hit. */
  lemma NewestHeightIsLargest(infos: seq<BlockInfo>, hit: BlockInfo -> bool, otherwise: nat)
    requires Consecutive(infos)
    ensures
      var r := NewestHeight(infos, hit, otherwise);
      && (forall h: nat :: InWindow(infos, h) && hit(Entry(infos, h)) ==> h <= r)
      && ((r == otherwise && forall h: nat :: InWindow(infos, h) ==> !hit(Entry(infos, h)))
          || (InWindow(infos, r) && hit(Entry(infos, r))))
  {
    NewestHeightSpec(infos, hit, otherwise);
    var r := NewestHeight(infos, hit, otherwise);
    if j :| 0 <= j < |infos| && hit(infos[j]) && r == infos[j].header.height && forall i :: 0 <= i < j ==> !hit(infos[i]) {
      assert Entry(infos, r) == infos[j];
      forall h: nat | InWindow(infos, h) && hit(Entry(infos, h)) ensures h <= r {
        var i := infos[0].header.height - h;
        assert hit(infos[i]);
      }
    } else {
      forall h: nat | InWindow(infos, h) ensures !hit(Entry(infos, h)) {
        var i := infos[0].header.height - h;
        assert !hit(infos[i]);
      }
    }
  }

  /** Nobody has voted for a height above the tip. */
  lemma {:induction false} NoVotesAboveTip(b: Block, h: nat, batch: nat)
    requires batch >= 1 && Accepted(b, batch) && h > Height(b)
    ensures Prevoters(b, h, batch) == {} && Precommitters(b, h, batch) == {}
    decreases b
  {
    if b.Child? {
      assert Height(b.parent) < Height(b);
      NoVotesAboveTip(b.parent, h, batch);
    }
  }

  /** Behind every prevote stands a block of the chain. */
  lemma {:induction false} PrevoterBlock(b: Block, h: nat, a: Address, batch: nat) returns (d: Block)
    requires batch >= 1 && Accepted(b, batch)
    requires a in Prevoters(b, h, batch)
    ensures OnChain(d, b) && BlockPrevotes(d, h, batch) && d.header.bft.generator == a
    decreases b
  {
    if BlockPrevotes(b, h, batch) && b.header.bft.generator == a {
      d := b;
    } else {
      d := PrevoterBlock(b.parent, h, a, batch);
    }
  }

  /** Behind every precommit stands a block of the chain. */
  lemma {:induction false} PrecommitterBlock(b: Block, h: nat, a: Address, batch: nat) returns (d: Block)
    requires batch >= 1 && Accepted(b, batch)
    requires a in Precommitters(b, h, batch)
    ensures OnChain(d, b) && BlockPrecommits(d, h, batch) && d.header.bft.generator == a
    decreases b
  {
    if BlockPrecommits(b, h, batch) && b.header.bft.generator == a {
      d := b;
    } else {
      d := PrecommitterBlock(b.parent, h, a, batch);
    }
  }

  /** A header that does not contradict the window acknowledges every window block of its generator. */
  lemma {:induction false} AcknowledgesOwnBlocks(infos: seq<BlockInfo>, header: PartialHeader, i: nat)
    requires Consecutive(infos) && i < |infos|
    requires forall j :: 0 <= j < |infos| ==> infos[j].header.maxHeightPrevoted <= header.maxHeightPrevoted
    requires infos[0].header.height < header.height
    requires !ContradictsWindow(infos, header)
    requires infos[i].header.generator == header.generator
    ensures infos[i].header.height <= header.maxHeightGenerated
  {
    if infos[0].header.generator != header.generator {
      var rest := infos[1..];
      forall j | 0 <= j < |rest| ensures rest[j].header.height == rest[0].header.height - j {
        assert rest[j] == infos[j + 1];
      }
      AcknowledgesOwnBlocks(rest, header, i - 1);
    }
  }

  // ---------------------------------------------------------------- one block, step by step

  /** The entries of a window with a new header in front. */
  lemma InsertEntries(prior: seq<BlockInfo>, header: PartialHeader, tip: nat, genesis: nat, batch: nat, h: nat)
    requires batch >= 1 && WindowEndsAt(prior, tip, genesis, batch) && header.height == tip + 1
    requires InWindow(Insert(prior, header, WindowLength(batch)), h)
    ensures
      var w := Insert(prior, header, WindowLength(batch));
      && Consecutive(w)
      && if h == tip + 1 then Entry(w, h) == BlockInfo(header, 0, 0)
         else InWindow(prior, h) && Entry(w, h) == Entry(prior, h)
  {
    InsertExtendsWindow(prior, header, tip, genesis, batch);
    var w := Insert(prior, header, WindowLength(batch));
    if h != tip + 1 {
      var i := tip + 1 - h;
      assert w[i] == prior[i - 1];
    }
  }

  /** The block's own window entries are the parent's, with the new header in front. */
  lemma WindowEntries(b: Block, batch: nat, h: nat)
    requires batch >= 1 && b.Child? && Accepted(b, batch)
    requires InWindow(WindowOf(b, batch), h)
    ensures
      var prior := StateBefore(b, batch).votes.infos;
      if h == Height(b) then Entry(WindowOf(b, batch), h) == BlockInfo(b.header.bft, 0, 0)
      else InWindow(prior, h) && Entry(WindowOf(b, batch), h) == Entry(prior, h)
  {
    hide Accepted, StateBefore, Entry, Insert, Consecutive, ContradictsWindow, CommitAcceptable;
    InsertEntries(StateBefore(b, batch).votes.infos, b.header.bft, Height(b.parent), GenesisHeight(b), batch, h);
  }

  lemma WindowPrevotedBound(s: Store, tip: nat, genesis: nat, j: nat)
    requires Consecutive(s.votes.infos) && HeightsOk(s, tip, genesis) && j < |s.votes.infos|
    ensures s.votes.infos[j].header.maxHeightPrevoted <= s.votes.maxHeightPrevoted
  {
    var infos := s.votes.infos;
    assert infos[j] == Entry(infos, infos[j].header.height);
  }

  /** A new block acknowledges every earlier block of its generator that is still in the window. */
  lemma AcknowledgesEarlierBlock(b: Block, d: Block, batch: nat)
    requires batch >= 1 && b.Child? && Accepted(b, batch)
    requires d.Child? && OnChain(d, b.parent) && d.header.bft.generator == b.header.bft.generator
    requires InWindow(StateBefore(b, batch).votes.infos, Height(d))
    requires HeadersMatch(b.parent, StateBefore(b, batch))
    requires HeightsOk(StateBefore(b, batch), Height(b.parent), GenesisHeight(b))
    ensures Height(d) <= b.header.bft.maxHeightGenerated
  {
    var s := StateBefore(b, batch);
    var infos := s.votes.infos;
    assert BlockAt(b.parent, Height(d)) == d by {
      AncestorAccepted(d, b.parent, batch);
    }
    forall j | 0 <= j < |infos| ensures infos[j].header.maxHeightPrevoted <= s.votes.maxHeightPrevoted {
      WindowPrevotedBound(s, Height(b.parent), GenesisHeight(b), j);
    }
    AcknowledgesOwnBlocks(infos, b.header.bft, infos[0].header.height - Height(d));
  }

  /** No validator prevotes a height twice. */
  lemma PrevotesAreFresh(b: Block, h: nat, batch: nat)
    requires batch >= 1 && BlockPrevotes(b, h, batch)
    requires HeadersMatch(b.parent, StateBefore(b, batch))
    requires HeightsOk(StateBefore(b, batch), Height(b.parent), GenesisHeight(b))
    ensures b.header.bft.generator !in Prevoters(b.parent, h, batch)
  {
    var a := b.header.bft.generator;
    if a in Prevoters(b.parent, h, batch) {
      var d := PrevoterBlock(b.parent, h, a, batch);
      AncestorAccepted(d, b.parent, batch);
      AcknowledgesEarlierBlock(b, d, batch);
      assert false;
    }
  }

  /** No validator precommits a height twice. */
  lemma PrecommitsAreFresh(b: Block, h: nat, batch: nat)
    requires batch >= 1 && BlockPrecommits(b, h, batch)
    requires LargestOk(b.parent, StateBefore(b, batch), batch)
    ensures b.header.bft.generator !in Precommitters(b.parent, h, batch)
  {
    assert LargestAt(b.parent, StateBefore(b, batch), batch, b.header.bft.generator, h);
  }

  /** The state after the header was processed, before a parameter update. */
  function Executed(b: Block, batch: nat): (s: Store)
    requires batch >= 1 && b.Child? && Accepted(b, batch)
    ensures s.votes.infos == CountVotes(StateBefore(b, batch).params, WindowOf(b, batch), StateBefore(b, batch).votes.active)
    ensures WindowEndsAt(s.votes.infos, Height(b), GenesisHeight(b), batch)
    ensures VotesDefined(StateBefore(b, batch).params, WindowOf(b, batch), StateBefore(b, batch).votes.active)
    ensures s.votes == ProcessHeader(StateBefore(b, batch).params, StateBefore(b, batch).votes, b.header, WindowLength(batch))
    ensures s.params == Prune(StateBefore(b, batch).params, MinHeightRequired(s.votes))
  {
    SameHeadersEndAt(WindowOf(b, batch),
      CountVotes(StateBefore(b, batch).params, WindowOf(b, batch), StateBefore(b, batch).votes.active),
      Height(b), GenesisHeight(b), batch);
    BeforeTransactionsExecute(StateBefore(b, batch), b.header, batch).value
  }

  lemma ExecutedThenUpdate(b: Block, batch: nat)
    requires batch >= 1 && b.Child? && Accepted(b, batch)
    ensures StateAfter(b, batch) ==
            if b.update.None? then Some(Executed(b, batch)) else SetBFTParameters(Executed(b, batch), b.update.value, batch)
  {
    hide SetBFTParameters, CountVotes, VotesDefined, ProcessHeader, Prune, HeaderAcceptable, WindowEndsAt;
  }

  /** Pruning for a window that ends at `tip` keeps the parameters of the window and of the next height. */
  lemma PrunedLookups(params: ParamsStore, votes: Votes, tip: nat, h: nat)
    requires votes.infos != [] && Consecutive(votes.infos) && votes.infos[0].header.height == tip
    requires InUse(votes.infos, tip, h)
    requires forall k :: k in params ==> k <= tip
    ensures Lookup(Prune(params, MinHeightRequired(votes)), h) == Lookup(params, Min(h, tip))
  {
    PruneKeepsLookup(params, MinHeightRequired(votes), h);
    if h == tip + 1 {
      assert h !in params;
    }
  }

  /** The parameters of the new window, and of the next height, are those known before the block. */
  lemma ExecutedLookups(b: Block, batch: nat, h: nat)
    requires batch >= 1 && b.Child? && Accepted(b, batch)
    requires ParamsOk(StateBefore(b, batch), Height(b.parent))
    requires InUse(WindowOf(b, batch), Height(b), h)
    ensures Lookup(Executed(b, batch).params, h) == Lookup(StateBefore(b, batch).params, Min(h, Height(b)))
    ensures InUse(StateBefore(b, batch).votes.infos, Height(b.parent), Min(h, Height(b)))
  {
    PrunedLookups(StateBefore(b, batch).params, Executed(b, batch).votes, Height(b), h);
  }

  lemma ExecutedParamsOk(b: Block, batch: nat)
    requires batch >= 1 && b.Child? && Accepted(b, batch)
    requires ParamsOk(StateBefore(b, batch), Height(b.parent))
    ensures ParamsOk(Executed(b, batch), Height(b))
  {
    var s1 := Executed(b, batch);
    forall h: nat | InUse(s1.votes.infos, Height(b), h)
      ensures Lookup(s1.params, h).Some? && GoodParams(Lookup(s1.params, h).value)
    {
      ExecutedLookups(b, batch, h);
    }
  }

  lemma ExecutedHeader(b: Block, batch: nat, h: nat)
    requires batch >= 1 && b.Child? && Accepted(b, batch)
    requires HeadersMatch(b.parent, StateBefore(b, batch))
    requires InWindow(WindowOf(b, batch), h)
    ensures BlockAt(b, h).Child? && BlockAt(b, h).header.bft == Entry(WindowOf(b, batch), h).header
  {
    WindowEntries(b, batch, h);
  }

  lemma SameEntryHeader(w: seq<BlockInfo>, infos: seq<BlockInfo>, h: nat)
    requires SameHeaders(w, infos) && Consecutive(w) && Consecutive(infos) && InWindow(w, h)
    ensures InWindow(infos, h) && Entry(infos, h).header == Entry(w, h).header
  {
  }

  lemma ExecutedHeadersMatch(b: Block, batch: nat, s1: Store)
    requires batch >= 1 && b.Child? && Accepted(b, batch)
    requires HeadersMatch(b.parent, StateBefore(b, batch))
    requires SameHeaders(WindowOf(b, batch), s1.votes.infos) && Consecutive(s1.votes.infos)
    ensures HeadersMatch(b, s1)
  {
    forall h: nat | InWindow(s1.votes.infos, h)
      ensures BlockAt(b, h).Child? && BlockAt(b, h).header.bft == Entry(s1.votes.infos, h).header
    {
      SameEntryHeader(WindowOf(b, batch), s1.votes.infos, h);
      ExecutedHeader(b, batch, h);
    }
  }

  /** One window entry after the votes of the newest header are counted. */
  lemma CountedEntry(params: ParamsStore, w: seq<BlockInfo>, active: map<Address, ActiveValidator>, h: nat)
    requires Consecutive(w) && InWindow(w, h)
    requires VotesDefined(params, w, active)
    ensures
      var before := Entry(w, h);
      var after := Entry(CountVotes(params, w, active), h);
      && after == AddVotes(params, w, active, before)
      && (Prevotes(w, active, before) || Precommits(params, w, active, before) ==>
            WeightAt(params, h, w[0].header.generator).Some?)
  {
    assert Entry(w, h) == w[w[0].header.height - h];
  }

  /** Adding the vote of one more validator to an exact count keeps it exact. */
  lemma CountStaysExact(vs: seq<Validator>, who: set<Address>, a: Address, votes: bool)
    requires TotalWeight(vs) < TWO64
    requires votes ==> a !in who && Find(vs, a).Some?
    ensures
      var after := who + (if votes then {a} else {});
      WeightSum(vs, after) == if votes then Add64(WeightSum(vs, who), Find(vs, a).value) else WeightSum(vs, who)
  {
    if votes {
      WeightSumInsert(vs, who, a);
      WeightSumBounded(vs, who + {a});
    } else {
      assert who + {} == who;
    }
  }

  /** Before the block, the entries of its window are exactly counted. */
  lemma WindowAccounted(b: Block, batch: nat, h: nat)
    requires batch >= 1 && b.Child? && Accepted(b, batch)
    requires ParamsOk(StateBefore(b, batch), Height(b.parent))
    requires Accounted(b.parent, StateBefore(b, batch), batch)
    requires InWindow(WindowOf(b, batch), h)
    ensures
      var p := Lookup(StateBefore(b, batch).params, h);
      var e := Entry(WindowOf(b, batch), h);
      && p.Some? && GoodParams(p.value)
      && e.prevoteWeight == WeightSum(p.value.validators, Prevoters(b.parent, h, batch))
      && e.precommitWeight == WeightSum(p.value.validators, Precommitters(b.parent, h, batch))
      && (e.precommitWeight > 0 ==> HasPrevoteQuorum(StateBefore(b, batch).params, e))
      && VotersKnown(p.value.validators, Prevoters(b.parent, h, batch) + Precommitters(b.parent, h, batch))
  {
    WindowEntries(b, batch, h);
    assert InUse(StateBefore(b, batch).votes.infos, Height(b.parent), h);
    if h == Height(b) {
      NoVotesAboveTip(b.parent, h, batch);
      WeightSumOfNobody(Lookup(StateBefore(b, batch).params, h).value.validators);
    } else {
      assert EntryAccounted(b.parent, StateBefore(b, batch), batch, h);
    }
  }

  /** Counting the newest header's prevote keeps an exact count of distinct voters exact. */
  lemma PrevoteCounted(params: ParamsStore, w: seq<BlockInfo>, active: map<Address, ActiveValidator>, h: nat, who: set<Address>)
    requires Consecutive(w) && InWindow(w, h) && VotesDefined(params, w, active)
    requires Lookup(params, h).Some? && GoodParams(Lookup(params, h).value)
    requires Entry(w, h).prevoteWeight == WeightSum(Lookup(params, h).value.validators, who)
    requires Prevotes(w, active, Entry(w, h)) ==> w[0].header.generator !in who
    ensures Entry(CountVotes(params, w, active), h).prevoteWeight ==
            WeightSum(Lookup(params, h).value.validators,
                      who + if Prevotes(w, active, Entry(w, h)) then {w[0].header.generator} else {})
  {
    CountedEntry(params, w, active, h);
    CountStaysExact(Lookup(params, h).value.validators, who, w[0].header.generator, Prevotes(w, active, Entry(w, h)));
  }

  /** Counting the newest header's precommit keeps an exact count of distinct voters exact. */
  lemma PrecommitCounted(params: ParamsStore, w: seq<BlockInfo>, active: map<Address, ActiveValidator>, h: nat, who: set<Address>)
    requires Consecutive(w) && InWindow(w, h) && VotesDefined(params, w, active)
    requires Lookup(params, h).Some? && GoodParams(Lookup(params, h).value)
    requires Entry(w, h).precommitWeight == WeightSum(Lookup(params, h).value.validators, who)
    requires Precommits(params, w, active, Entry(w, h)) ==> w[0].header.generator !in who
    ensures Entry(CountVotes(params, w, active), h).precommitWeight ==
            WeightSum(Lookup(params, h).value.validators,
                      who + if Precommits(params, w, active, Entry(w, h)) then {w[0].header.generator} else {})
  {
    CountedEntry(params, w, active, h);
    CountStaysExact(Lookup(params, h).value.validators, who, w[0].header.generator, Precommits(params, w, active, Entry(w, h)));
  }

  lemma ExecutedPrevotes(b: Block, batch: nat, h: nat)
    requires batch >= 1 && b.Child? && Accepted(b, batch)
    requires Inv(b.parent, StateBefore(b, batch), batch)
    requires InWindow(WindowOf(b, batch), h)
    ensures
      var vs := Lookup(StateBefore(b, batch).params, h);
      && vs.Some?
      && Entry(Executed(b, batch).votes.infos, h).prevoteWeight == WeightSum(vs.value.validators, Prevoters(b, h, batch))
  {
    hide Accepted, StateBefore, WindowOf, Executed, ProcessHeader, Prune, CountVotes, HeightsOk, LargestOk, HeadersMatch,
      Lookup, TotalWeight, WeightSum, Entry, Accounted, ParamsOk;
    var s := StateBefore(b, batch);
    WindowAccounted(b, batch, h);
    if BlockPrevotes(b, h, batch) {
      PrevotesAreFresh(b, h, batch);
    }
    PrevoteCounted(s.params, WindowOf(b, batch), s.votes.active, h, Prevoters(b.parent, h, batch));
  }

  lemma ExecutedPrecommits(b: Block, batch: nat, h: nat)
    requires batch >= 1 && b.Child? && Accepted(b, batch)
    requires Inv(b.parent, StateBefore(b, batch), batch)
    requires InWindow(WindowOf(b, batch), h)
    ensures
      var vs := Lookup(StateBefore(b, batch).params, h);
      && vs.Some?
      && Entry(Executed(b, batch).votes.infos, h).precommitWeight == WeightSum(vs.value.validators, Precommitters(b, h, batch))
  {
    hide Accepted, StateBefore, WindowOf, Executed, ProcessHeader, Prune, CountVotes, HeightsOk, LargestOk, HeadersMatch,
      Lookup, TotalWeight, WeightSum, Entry, Accounted, ParamsOk;
    var s := StateBefore(b, batch);
    WindowAccounted(b, batch, h);
    if BlockPrecommits(b, h, batch) {
      PrecommitsAreFresh(b, h, batch);
    }
    PrecommitCounted(s.params, WindowOf(b, batch), s.votes.active, h, Precommitters(b.parent, h, batch));
  }

  lemma ExecutedVotersKnown(b: Block, batch: nat, h: nat)
    requires batch >= 1 && b.Child? && Accepted(b, batch)
    requires ParamsOk(StateBefore(b, batch), Height(b.parent))
    requires Accounted(b.parent, StateBefore(b, batch), batch)
    requires InWindow(WindowOf(b, batch), h)
    ensures Lookup(StateBefore(b, batch).params, h).Some?
    ensures VotersKnown(Lookup(StateBefore(b, batch).params, h).value.validators,
                        Prevoters(b, h, batch) + Precommitters(b, h, batch))
  {
    hide Executed, ProcessHeader, Prune, CountVotes, HeightsOk, LargestOk, ActiveOk, Lookup, TotalWeight, WeightSum, Entry,
      HeaderAcceptable, Accounted, ParamsOk;
    var s := StateBefore(b, batch);
    WindowAccounted(b, batch, h);
    CountedEntry(s.params, WindowOf(b, batch), s.votes.active, h);
  }

  /** Votes are never taken back. */
  lemma WeightsGrow(b: Block, batch: nat, h: nat)
    requires batch >= 1 && b.Child? && Accepted(b, batch)
    requires Inv(b.parent, StateBefore(b, batch), batch)
    requires InWindow(WindowOf(b, batch), h)
    ensures Entry(Executed(b, batch).votes.infos, h).prevoteWeight >= Entry(WindowOf(b, batch), h).prevoteWeight
    ensures Entry(Executed(b, batch).votes.infos, h).precommitWeight >= Entry(WindowOf(b, batch), h).precommitWeight
    ensures Lookup(Executed(b, batch).params, h) == Lookup(StateBefore(b, batch).params, h)
  {
    ExecutedLookups(b, batch, h);
    WindowAccounted(b, batch, h);
    ExecutedPrevotes(b, batch, h);
    ExecutedPrecommits(b, batch, h);
    var vs := Lookup(StateBefore(b, batch).params, h).value.validators;
    WeightSumMonotone(vs, Prevoters(b.parent, h, batch), Prevoters(b, h, batch));
    WeightSumMonotone(vs, Precommitters(b.parent, h, batch), Precommitters(b, h, batch));
  }

  lemma ExecutedEntryAccounted(b: Block, batch: nat, h: nat)
    requires batch >= 1 && b.Child? && Accepted(b, batch)
    requires Inv(b.parent, StateBefore(b, batch), batch)
    requires InWindow(WindowOf(b, batch), h)
    ensures EntryAccounted(b, Executed(b, batch), batch, h)
  {
    hide Accepted, StateBefore, WindowOf, Executed, ProcessHeader, Prune, CountVotes, VotesDefined, HeightsOk, LargestOk,
      ActiveOk, HeadersMatch, Lookup, TotalWeight, WeightSum, Entry, HeaderAcceptable, Accounted, ParamsOk;
    ExecutedVotersKnown(b, batch, h);
    ExecutedPrevotes(b, batch, h);
    ExecutedPrecommits(b, batch, h);
    WeightsGrow(b, batch, h);
    var s := StateBefore(b, batch);
    var e := Entry(WindowOf(b, batch), h);
    if Entry(Executed(b, batch).votes.infos, h).precommitWeight > 0 {
      WindowAccounted(b, batch, h);
      CountedEntry(s.params, WindowOf(b, batch), s.votes.active, h);
      assert HasPrevoteQuorum(s.params, e);
    }
  }
}
