/** The invariants over every accepted chain: heights, active validators, parameter updates,
    and the induction that ties them together. */
module BftReachable {
  import opened Basics
  import opened Contradiction
  import opened BftParams
  import opened BftVotes
  import opened BftChain
  import opened BftAccounting
  import opened BftInvariants

  // ---------------------------------------------------------------- active validators

  /** The generator remembers the largest height it ever precommitted, all others are unchanged. */
  lemma RecordedPrecommit(params: ParamsStore, w: seq<BlockInfo>, active: map<Address, ActiveValidator>)
    requires Consecutive(w)
    ensures
      var after := RecordPrecommit(params, w, active);
      && after.Keys == active.Keys
      && (forall a :: a in active ==>
            && after[a].minActiveHeight == active[a].minActiveHeight
            && after[a].largestHeightPrecommit >= active[a].largestHeightPrecommit
            && (after[a].largestHeightPrecommit == active[a].largestHeightPrecommit
                || (w != [] && after[a].largestHeightPrecommit <= w[0].header.height)))
      && (forall h: nat :: InWindow(w, h) && Precommits(params, w, active, Entry(w, h)) ==>
            h <= after[w[0].header.generator].largestHeightPrecommit)
  {
    if ImpliesVotes(w, active) {
      var who := w[0].header.generator;
      var hit := PrecommitFromTest(params, MinPrecommitHeight(w, active));
      NewestHeightIsLargest(w, hit, active[who].largestHeightPrecommit);
      var after := RecordPrecommit(params, w, active);
      assert after[who].largestHeightPrecommit == NewestHeight(w, hit, active[who].largestHeightPrecommit);
    }
  }

  lemma ExecutedActiveOk(b: Block, batch: nat)
    requires batch >= 1 && b.Child? && Accepted(b, batch)
    requires ParamsOk(StateBefore(b, batch), Height(b.parent))
    requires ActiveOk(StateBefore(b, batch), Height(b.parent))
    ensures ActiveOk(Executed(b, batch), Height(b))
  {
    var s, s1, w := StateBefore(b, batch), Executed(b, batch), WindowOf(b, batch);
    RecordedPrecommit(s.params, w, s.votes.active);
    forall a | a in s1.votes.active
      ensures
        && s1.votes.active[a].minActiveHeight <= Height(b) + 1
        && s1.votes.active[a].largestHeightPrecommit <= Height(b)
        && forall h: nat :: InUse(s1.votes.infos, Height(b), h) && s1.votes.active[a].minActiveHeight <= h ==>
             WeightAt(s1.params, h, a).Some?
    {
      forall h: nat | InUse(s1.votes.infos, Height(b), h) && s1.votes.active[a].minActiveHeight <= h
        ensures WeightAt(s1.params, h, a).Some?
      {
        ExecutedLookups(b, batch, h);
        assert WeightAt(s.params, Min(h, Height(b)), a).Some?;
      }
    }
  }

  lemma ExecutedLargest(b: Block, batch: nat, a: Address, h: nat)
    requires batch >= 1 && b.Child? && Accepted(b, batch)
    requires LargestAt(b.parent, StateBefore(b, batch), batch, a, h)
    ensures LargestAt(b, Executed(b, batch), batch, a, h)
  {
    var s, w := StateBefore(b, batch), WindowOf(b, batch);
    RecordedPrecommit(s.params, w, s.votes.active);
    assert Executed(b, batch).votes.active == RecordPrecommit(s.params, w, s.votes.active);
  }

  lemma UpdatedLargestOk(b: Block, s: Store, s2: Store, vs: seq<Validator>, batch: nat)
    requires batch >= 1 && LargestOk(b, s, batch)
    requires s2.votes.active == NextActive(s.votes.active, vs, Height(b) + 1)
    ensures LargestOk(b, s2, batch)
  {
    forall a, h: nat ensures LargestAt(b, s2, batch, a, h) {
      assert LargestAt(b, s, batch, a, h);
    }
  }

  // ---------------------------------------------------------------- heights

  /** One of the two quorum heights after a block: it is the largest window height with a
      quorum, or the old one if there is none, and it never falls. */
  lemma QuorumHeightAdvances(counted: seq<BlockInfo>, hit: BlockInfo -> bool, last: nat)
    requires counted != [] && Consecutive(counted)
    requires last < counted[0].header.height
    requires InWindow(counted, last) ==> hit(Entry(counted, last))
    ensures
      var r := NewestHeight(counted, hit, last);
      && last <= r <= counted[0].header.height
      && (forall h: nat :: InWindow(counted, h) && hit(Entry(counted, h)) ==> h <= r)
      && (InWindow(counted, r) ==> hit(Entry(counted, r)))
  {
    NewestHeightIsLargest(counted, hit, last);
  }

  lemma ExecutedPrevotedHeight(b: Block, batch: nat)
    requires batch >= 1 && b.Child? && Accepted(b, batch)
    requires Inv(b.parent, StateBefore(b, batch), batch)
    ensures
      var s, s1 := StateBefore(b, batch), Executed(b, batch);
      var r := s1.votes.maxHeightPrevoted;
      && s.votes.maxHeightPrevoted <= r <= Height(b)
      && (forall h: nat :: InWindow(s1.votes.infos, h) && HasPrevoteQuorum(s.params, Entry(s1.votes.infos, h)) ==> h <= r)
      && (InWindow(s1.votes.infos, r) ==> HasPrevoteQuorum(s.params, Entry(s1.votes.infos, r)))
      && (r == s.votes.maxHeightPrevoted || InWindow(s1.votes.infos, r))
  {
    var s, s1 := StateBefore(b, batch), Executed(b, batch);
    var last := s.votes.maxHeightPrevoted;
    if InWindow(s1.votes.infos, last) {
      WindowEntries(b, batch, last);
      WeightsGrow(b, batch, last);
    }
    QuorumHeightAdvances(s1.votes.infos, PrevoteQuorumTest(s.params), last);
    NewestHeightIsLargest(s1.votes.infos, PrevoteQuorumTest(s.params), last);
  }

  lemma ExecutedPrecommittedHeight(b: Block, batch: nat)
    requires batch >= 1 && b.Child? && Accepted(b, batch)
    requires Inv(b.parent, StateBefore(b, batch), batch)
    ensures
      var s, s1 := StateBefore(b, batch), Executed(b, batch);
      var r := s1.votes.maxHeightPrecommitted;
      && s.votes.maxHeightPrecommitted <= r <= Height(b)
      && (forall h: nat :: InWindow(s1.votes.infos, h) && HasPrecommitQuorum(s.params, Entry(s1.votes.infos, h)) ==> h <= r)
      && (InWindow(s1.votes.infos, r) ==> HasPrecommitQuorum(s.params, Entry(s1.votes.infos, r)))
      && (r == s.votes.maxHeightPrecommitted || InWindow(s1.votes.infos, r))
  {
    var s, s1 := StateBefore(b, batch), Executed(b, batch);
    var last := s.votes.maxHeightPrecommitted;
    if InWindow(s1.votes.infos, last) {
      WindowEntries(b, batch, last);
      WeightsGrow(b, batch, last);
    }
    QuorumHeightAdvances(s1.votes.infos, PrecommitQuorumTest(s.params), last);
    NewestHeightIsLargest(s1.votes.infos, PrecommitQuorumTest(s.params), last);
  }

  /** A height that newly reaches the precommit quorum has the prevote quorum. */
  lemma PrecommittedIsPrevoted(b: Block, batch: nat)
    requires batch >= 1 && b.Child? && Accepted(b, batch)
    requires Inv(b.parent, StateBefore(b, batch), batch)
    ensures Executed(b, batch).votes.maxHeightPrecommitted <= Executed(b, batch).votes.maxHeightPrevoted
  {
    hide Accepted, StateBefore, WindowOf, Executed, ProcessHeader, Prune, CountVotes, VotesDefined, LargestOk, ActiveOk,
      HeadersMatch, WindowEndsAt, Lookup, TotalWeight, WeightSum, Entry, HeaderAcceptable, Accounted, ParamsOk;
    var s, s1 := StateBefore(b, batch), Executed(b, batch);
    ExecutedPrevotedHeight(b, batch);
    ExecutedPrecommittedHeight(b, batch);
    var r := s1.votes.maxHeightPrecommitted;
    if InWindow(s1.votes.infos, r) {
      WindowAccounted(b, batch, r);
      ExecutedEntryAccounted(b, batch, r);
      ExecutedLookups(b, batch, r);
    }
  }

  /** The height invariant of the new state, from what is known about the three heights. */
  lemma HeightsFollow(s: Store, s1: Store, tip: nat, genesis: nat)
    requires Consecutive(s1.votes.infos)
    requires genesis <= s.votes.maxHeightCertified <= s1.votes.maxHeightCertified <= s.votes.maxHeightPrecommitted
    requires s.votes.maxHeightPrecommitted <= s1.votes.maxHeightPrecommitted <= s1.votes.maxHeightPrevoted <= tip
    requires forall h: nat :: InWindow(s1.votes.infos, h) ==>
               && Lookup(s1.params, h) == Lookup(s.params, h)
               && Entry(s1.votes.infos, h).header.maxHeightPrevoted <= s1.votes.maxHeightPrevoted
               && (HasPrevoteQuorum(s.params, Entry(s1.votes.infos, h)) ==> h <= s1.votes.maxHeightPrevoted)
               && (HasPrecommitQuorum(s.params, Entry(s1.votes.infos, h)) ==> h <= s1.votes.maxHeightPrecommitted)
    requires InWindow(s1.votes.infos, s1.votes.maxHeightPrevoted) ==>
               HasPrevoteQuorum(s.params, Entry(s1.votes.infos, s1.votes.maxHeightPrevoted))
    requires InWindow(s1.votes.infos, s1.votes.maxHeightPrecommitted) ==>
               HasPrecommitQuorum(s.params, Entry(s1.votes.infos, s1.votes.maxHeightPrecommitted))
    ensures HeightsOk(s1, tip, genesis)
  {
  }

  lemma ExecutedWindowEntry(b: Block, batch: nat, s: Store, s1: Store, h: nat)
    requires batch >= 1 && b.Child? && Accepted(b, batch)
    requires s == StateBefore(b, batch) && s1 == Executed(b, batch)
    requires ParamsOk(s, Height(b.parent)) && HeightsOk(s, Height(b.parent), GenesisHeight(b))
    requires InWindow(s1.votes.infos, h)
    ensures Lookup(s1.params, h) == Lookup(s.params, h)
    ensures Entry(s1.votes.infos, h).header.maxHeightPrevoted <= s.votes.maxHeightPrevoted
  {
    ExecutedLookups(b, batch, h);
    SameEntryHeader(WindowOf(b, batch), s1.votes.infos, h);
    WindowEntries(b, batch, h);
  }

  lemma ExecutedHeightsOk(b: Block, batch: nat, s: Store, s1: Store)
    requires batch >= 1 && b.Child? && Accepted(b, batch)
    requires s == StateBefore(b, batch) && s1 == Executed(b, batch)
    requires Inv(b.parent, s, batch)
    ensures HeightsOk(s1, Height(b), GenesisHeight(b))
  {
    ExecutedPrevotedHeight(b, batch);
    ExecutedPrecommittedHeight(b, batch);
    PrecommittedIsPrevoted(b, batch);
    forall h: nat | InWindow(s1.votes.infos, h)
      ensures Lookup(s1.params, h) == Lookup(s.params, h)
      ensures Entry(s1.votes.infos, h).header.maxHeightPrevoted <= s.votes.maxHeightPrevoted
    {
      ExecutedWindowEntry(b, batch, s, s1, h);
    }
    HeightsFollow(s, s1, Height(b), GenesisHeight(b));
  }

  lemma ExecutedInv(b: Block, batch: nat)
    requires batch >= 1 && b.Child? && Accepted(b, batch)
    requires Inv(b.parent, StateBefore(b, batch), batch)
    ensures Inv(b, Executed(b, batch), batch)
  {
    ExecutedHeadersMatch(b, batch, Executed(b, batch));
    ExecutedParamsOk(b, batch);
    ExecutedActiveOk(b, batch);
    ExecutedHeightsOk(b, batch, StateBefore(b, batch), Executed(b, batch));
    var s1 := Executed(b, batch);
    forall h: nat | InWindow(s1.votes.infos, h) ensures EntryAccounted(b, s1, batch, h) {
      ExecutedEntryAccounted(b, batch, h);
    }
    forall a, h: nat ensures LargestAt(b, s1, batch, a, h) {
      ExecutedLargest(b, batch, a, h);
    }
  }

  // ---------------------------------------------------------------- parameter updates

  lemma {:induction false} InsertSortedFacts(vs: seq<Validator>, v: Validator, a: Address)
    ensures TotalWeight(InsertSorted(vs, v)) == TotalWeight(vs) + v.weight
    ensures Find(InsertSorted(vs, v), a).Some? <==> v.address == a || Find(vs, a).Some?
  {
    if vs == [] || v.address >= vs[0].address {
      assert ([v] + vs)[1..] == vs;
    } else {
      InsertSortedFacts(vs[1..], v, a);
      assert ([vs[0]] + InsertSorted(vs[1..], v))[1..] == InsertSorted(vs[1..], v);
    }
  }

  /** Sorting keeps the total weight and the addresses. */
  lemma {:induction false} SortFacts(vs: seq<Validator>, a: Address)
    ensures TotalWeight(SortByAddress(vs)) == TotalWeight(vs)
    ensures Find(SortByAddress(vs), a).Some? <==> Find(vs, a).Some?
  {
    if vs != [] {
      SortFacts(vs[1..], a);
      InsertSortedFacts(SortByAddress(vs[1..]), vs[0], a);
    }
  }

  lemma ParamsOfGood(u: Update, batch: nat)
    requires UpdateValid(u, batch) && TotalWeight(u.validators) < TWO64
    ensures GoodParams(ParamsOf(u))
  {
    SortFacts(u.validators, 0);
  }

  /** An active validator of the next height has a weight in the new parameters. */
  lemma NextActiveHasWeight(active: map<Address, ActiveValidator>, vs: seq<Validator>, next: nat, a: Address)
    requires next >= 1 && a in NextActive(active, vs, next)
    ensures Find(vs, a).Some?
  {
    var v :| v in vs && v.address == a;
    var i :| 0 <= i < |vs| && vs[i] == v;
    FindIffHasAddress(vs, a);
  }

  lemma UpdatedLookups(s: Store, u: Update, tip: nat, h: nat)
    requires CurrentHeight(s.votes) == tip && h <= tip + 1
    ensures
      var after := s.params[tip + 1 := ParamsOf(u)];
      Lookup(after, h) == if h == tip + 1 then Some(ParamsOf(u)) else Lookup(s.params, h)
  {
    WriteChangesOnlyLater(s.params, tip + 1, ParamsOf(u), h);
  }

  lemma UpdatedParamsOk(s: Store, u: Update, batch: nat, tip: nat)
    requires CurrentHeight(s.votes) == tip
    requires UpdateValid(u, batch) && TotalWeight(u.validators) < TWO64
    requires forall k :: k in s.params ==> k <= tip + 1
    requires forall h: nat :: InUse(s.votes.infos, tip, h) && h <= tip ==> Lookup(s.params, h).Some? && GoodParams(Lookup(s.params, h).value)
    ensures
      var after := s.params[tip + 1 := ParamsOf(u)];
      && (forall k :: k in after ==> k <= tip + 1)
      && (forall h: nat :: InUse(s.votes.infos, tip, h) ==> Lookup(after, h).Some? && GoodParams(Lookup(after, h).value))
  {
    ParamsOfGood(u, batch);
    var after := s.params[tip + 1 := ParamsOf(u)];
    forall h: nat | InUse(s.votes.infos, tip, h) ensures Lookup(after, h).Some? && GoodParams(Lookup(after, h).value) {
      UpdatedLookups(s, u, tip, h);
    }
  }

  lemma UpdatedActiveOk(s: Store, u: Update, tip: nat)
    requires CurrentHeight(s.votes) == tip
    requires ActiveOk(s, tip)
    ensures ActiveOk(Store(s.votes.(active := NextActive(s.votes.active, ParamsOf(u).validators, tip + 1)),
                           s.params[tip + 1 := ParamsOf(u)]), tip)
  {
    var active := NextActive(s.votes.active, ParamsOf(u).validators, tip + 1);
    var params := s.params[tip + 1 := ParamsOf(u)];
    forall a | a in active
      ensures forall h: nat :: InUse(s.votes.infos, tip, h) && active[a].minActiveHeight <= h ==> WeightAt(params, h, a).Some?
    {
      NextActiveHasWeight(s.votes.active, ParamsOf(u).validators, tip + 1, a);
      forall h: nat | InUse(s.votes.infos, tip, h) && active[a].minActiveHeight <= h ensures WeightAt(params, h, a).Some? {
        UpdatedLookups(s, u, tip, h);
        if h <= tip {
          assert WeightAt(s.params, h, a).Some?;
        }
      }
    }
  }

  /** Replacing the active list and the parameters of later heights keeps the accounting. */
  lemma LaterParamsKeepAccounting(b: Block, s: Store, s2: Store, batch: nat)
    requires batch >= 1 && Consecutive(s.votes.infos) && Accounted(b, s, batch)
    requires s2.votes.infos == s.votes.infos
    requires forall h: nat :: InWindow(s.votes.infos, h) ==> Lookup(s2.params, h) == Lookup(s.params, h)
    ensures Accounted(b, s2, batch)
  {
    forall h: nat | InWindow(s2.votes.infos, h) ensures EntryAccounted(b, s2, batch, h) {
      assert EntryAccounted(b, s, batch, h);
    }
  }

  lemma LaterParamsKeepHeights(s: Store, s2: Store, tip: nat, genesis: nat)
    requires Consecutive(s.votes.infos) && HeightsOk(s, tip, genesis)
    requires s2.votes == s.votes.(active := s2.votes.active)
    requires forall h: nat :: InWindow(s.votes.infos, h) ==> Lookup(s2.params, h) == Lookup(s.params, h)
    ensures HeightsOk(s2, tip, genesis)
  {
  }

  lemma UpdateShape(s: Store, u: Update, batch: nat)
    requires SetBFTParameters(s, u, batch).Some?
    ensures UpdateValid(u, batch)
    ensures
      var s2 := SetBFTParameters(s, u, batch).value;
      var next := CurrentHeight(s.votes) + 1;
      s2 == s || s2 == Store(s.votes.(active := NextActive(s.votes.active, ParamsOf(u).validators, next)), s.params[next := ParamsOf(u)])
  {
    hide UpdateValid, Lookup, NextActive, ParamsOf;
  }

  /** A parameter update keeps the invariants: it only concerns heights after the tip. */
  lemma UpdatedInv(b: Block, s: Store, u: Update, batch: nat)
    requires batch >= 1 && Inv(b, s, batch) && CurrentHeight(s.votes) == Height(b)
    requires SetBFTParameters(s, u, batch).Some? && TotalWeight(u.validators) < TWO64
    ensures Inv(b, SetBFTParameters(s, u, batch).value, batch)
  {
    hide SetBFTParameters, UpdateValid, Lookup, TotalWeight, GoodParams, WeightAt, EntryAccounted, LargestAt, BlockAt, NextActive;
    var tip := Height(b);
    var s2 := SetBFTParameters(s, u, batch).value;
    UpdateShape(s, u, batch);
    if s2 != s {
      UpdatedParamsOk(s, u, batch, tip);
      UpdatedActiveOk(s, u, tip);
      forall h: nat | InWindow(s.votes.infos, h) ensures Lookup(s2.params, h) == Lookup(s.params, h) {
        UpdatedLookups(s, u, tip, h);
      }
      LaterParamsKeepAccounting(b, s, s2, batch);
      UpdatedLargestOk(b, s, s2, ParamsOf(u).validators, batch);
      LaterParamsKeepHeights(s, s2, tip, GenesisHeight(b));
    }
  }

  lemma GenesisInv(b: Block, batch: nat)
    requires batch >= 1 && b.Genesis? && Accepted(b, batch) && WeightsFit(b)
    ensures Inv(b, StateAfter(b, batch).value, batch)
  {
    hide CountVotes, ProcessHeader, VotesDefined, TotalWeight, WeightSum, Prune, StateBefore, ParamsOf, UpdateValid,
      NextActive, BlockAt, GoodParams, WeightAt, Prevoters, Entry, EntryAccounted, ContradictsWindow;
    var h := b.genesisHeight;
    var s := Store(Votes(h, h, h, [], map[]), map[]);
    UpdatedParamsOk(s, b.initial, batch, h);
    UpdatedActiveOk(s, b.initial, h);
  }

  // ---------------------------------------------------------------- every accepted chain

  /** The invariants hold after every accepted chain. */
  lemma {:induction false} AcceptedInv(b: Block, batch: nat)
    requires batch >= 1 && Accepted(b, batch) && WeightsFit(b)
    ensures Inv(b, StateAfter(b, batch).value, batch)
    decreases b
  {
    hide WindowOf, ProcessHeader, Prune, CountVotes, VotesDefined, LargestOk, ActiveOk, HeadersMatch, Lookup, TotalWeight,
      WeightSum, Entry, HeaderAcceptable, Accounted, ParamsOk, HeightsOk, SetBFTParameters;
    if b.Genesis? {
      GenesisInv(b, batch);
    } else {
      AcceptedInv(b.parent, batch);
      ExecutedInv(b, batch);
      if b.update.Some? {
        UpdatedInv(b, Executed(b, batch), b.update.value, batch);
      }
    }
  }

  /** Vote accounting: on every accepted chain the weights of a window block are the summed weights
      of distinct validators of that height's parameters, and never exceed their total. */
  lemma VoteAccounting(b: Block, batch: nat, h: nat)
    requires batch >= 1 && Accepted(b, batch) && WeightsFit(b)
    requires InWindow(StateAfter(b, batch).value.votes.infos, h)
    ensures
      var s := StateAfter(b, batch).value;
      var p := Lookup(s.params, h);
      var e := Entry(s.votes.infos, h);
      && p.Some?
      && e.prevoteWeight == WeightSum(p.value.validators, Prevoters(b, h, batch)) <= TotalWeight(p.value.validators)
      && e.precommitWeight == WeightSum(p.value.validators, Precommitters(b, h, batch)) <= TotalWeight(p.value.validators)
      && VotersKnown(p.value.validators, Prevoters(b, h, batch) + Precommitters(b, h, batch))
  {
    AcceptedInv(b, batch);
    var s := StateAfter(b, batch).value;
    assert EntryAccounted(b, s, batch, h);
    WeightSumBounded(Lookup(s.params, h).value.validators, Prevoters(b, h, batch));
    WeightSumBounded(Lookup(s.params, h).value.validators, Precommitters(b, h, batch));
  }

  /** The vote update of a header that passed verification never fails: all the parameters it reads
      are stored, and the generator is a validator at every height it votes for. */
  lemma VerifiedHeaderNeverFails(b: Block, header: Header, batch: nat)
    requires batch >= 1 && Accepted(b, batch) && WeightsFit(b)
    requires HeaderAcceptable(StateAfter(b, batch).value.votes, Height(b), header)
    ensures Accepted(Child(b, header, None), batch)
  {
    AcceptedInv(b, batch);
    var s := StateAfter(b, batch).value;
    InsertExtendsWindow(s.votes.infos, header.bft, Height(b), GenesisHeight(b), batch);
    var w := Insert(s.votes.infos, header.bft, WindowLength(batch));
    VotesAreDefined(s, w, Height(b));
  }

  lemma VotesAreDefined(s: Store, w: seq<BlockInfo>, tip: nat)
    requires ParamsOk(s, tip) && ActiveOk(s, tip)
    requires w != [] && Consecutive(w) && w[0].header.height == tip + 1 && |w| <= |s.votes.infos| + 1
    ensures Lookup(s.params, w[|w| - 1].header.height).Some?
    ensures VotesDefined(s.params, w, s.votes.active)
  {
    var oldest := w[|w| - 1].header.height;
    assert InUse(s.votes.infos, tip, oldest);
    forall i | 0 <= i < |w| && (Precommits(s.params, w, s.votes.active, w[i]) || Prevotes(w, s.votes.active, w[i]))
      ensures WeightAt(s.params, w[i].header.height, w[0].header.generator).Some?
    {
      assert InUse(s.votes.infos, tip, w[i].header.height);
    }
  }

  lemma SetKeepsHeights(s: Store, u: Update, batch: nat)
    requires SetBFTParameters(s, u, batch).Some?
    ensures SetBFTParameters(s, u, batch).value.votes == s.votes.(active := SetBFTParameters(s, u, batch).value.votes.active)
  {
  }

  /** A parameter update leaves everything but the active validators alone. */
  lemma UpdateKeepsHeights(b: Block, batch: nat)
    requires batch >= 1 && b.Child? && Accepted(b, batch)
    ensures StateAfter(b, batch).value.votes == Executed(b, batch).votes.(active := StateAfter(b, batch).value.votes.active)
  {
    ExecutedThenUpdate(b, batch);
    if b.update.Some? {
      SetKeepsHeights(Executed(b, batch), b.update.value, batch);
    }
  }

  lemma CertifiedAdvances(v: Votes, header: Header, lastHeight: nat)
    requires HeaderAcceptable(v, lastHeight, header)
    requires v.maxHeightCertified <= v.maxHeightPrecommitted
    ensures v.maxHeightCertified <= CertifiedAfter(v.maxHeightCertified, header.commit) <= v.maxHeightPrecommitted
  {
  }

  /** One block never lowers any of the three heights. */
  lemma HeightsNeverFallInOneBlock(b: Block, batch: nat)
    requires batch >= 1 && b.Child? && Accepted(b, batch) && WeightsFit(b)
    ensures
      var v, v1 := StateAfter(b.parent, batch).value.votes, StateAfter(b, batch).value.votes;
      && v.maxHeightPrevoted <= v1.maxHeightPrevoted
      && v.maxHeightPrecommitted <= v1.maxHeightPrecommitted
      && v.maxHeightCertified <= v1.maxHeightCertified
  {
    AcceptedInv(b.parent, batch);
    UpdateKeepsHeights(b, batch);
    ExecutedPrevotedHeight(b, batch);
    ExecutedPrecommittedHeight(b, batch);
    CertifiedAdvances(StateBefore(b, batch).votes, b.header, Height(b.parent));
  }

  /** BFT heights: after every accepted chain the window is consecutive and bounded, the heights are
      ordered up to the tip, and none of them is below its value at any ancestor. */
  lemma {:induction false} BftHeights(a: Block, b: Block, batch: nat)
    requires batch >= 1 && Accepted(b, batch) && WeightsFit(b) && OnChain(a, b)
    ensures Accepted(a, batch)
    ensures
      var v := StateAfter(b, batch).value.votes;
      && Consecutive(v.infos) && |v.infos| <= 3 * batch
      && (b.Child? ==> v.infos != [] && v.infos[0].header.height == Height(b))
      && GenesisHeight(b) <= v.maxHeightCertified <= v.maxHeightPrecommitted <= v.maxHeightPrevoted <= Height(b)
    ensures
      var v, v1 := StateAfter(a, batch).value.votes, StateAfter(b, batch).value.votes;
      && v.maxHeightPrevoted <= v1.maxHeightPrevoted
      && v.maxHeightPrecommitted <= v1.maxHeightPrecommitted
      && v.maxHeightCertified <= v1.maxHeightCertified
    decreases b
  {
    AcceptedInv(b, batch);
    if a != b {
      BftHeights(a, b.parent, batch);
      HeightsNeverFallInOneBlock(b, batch);
    }
  }
}
