/** Parameters and validators along a chain, told from its blocks alone: what was asked for and when
    (pkg/consensus/liskbft/api.go, module.go, util.go). */
module BftHistory {
  import opened Basics
  import opened Contradiction
  import opened BftParams
  import opened BftVotes
  import opened BftChain
  import opened BftAccounting
  import opened BftInvariants
  import opened BftReachable

  // ---------------------------------------------------------------- one update

  predicate Descending(vs: seq<Validator>) {
    forall i, j :: 0 <= i < j < |vs| ==> vs[i].address >= vs[j].address
  }

  lemma {:induction false} InsertIsPermutation(vs: seq<Validator>, v: Validator)
    ensures multiset(InsertSorted(vs, v)) == multiset(vs) + multiset{v}
  {
    if vs != [] && v.address < vs[0].address {
      InsertIsPermutation(vs[1..], v);
      assert vs == [vs[0]] + vs[1..];
    }
  }

  lemma {:induction false} InsertIsDescending(vs: seq<Validator>, v: Validator)
    requires Descending(vs)
    ensures Descending(InsertSorted(vs, v))
  {
    if vs != [] && v.address < vs[0].address {
      InsertIsDescending(vs[1..], v);
      InsertIsPermutation(vs[1..], v);
      var rest := InsertSorted(vs[1..], v);
      forall j | 0 <= j < |rest| ensures rest[j].address <= vs[0].address {
        assert rest[j] in multiset(rest);
        if rest[j] != v {
          assert rest[j] in vs[1..];
        }
      }
    }
  }

  /** Sorting keeps every validator with its weight and puts the addresses in descending order. */
  lemma {:induction false} SortIsPermutation(vs: seq<Validator>)
    ensures multiset(SortByAddress(vs)) == multiset(vs) && Descending(SortByAddress(vs))
  {
    if vs != [] {
      SortIsPermutation(vs[1..]);
      InsertIsPermutation(SortByAddress(vs[1..]), vs[0]);
      InsertIsDescending(SortByAddress(vs[1..]), vs[0]);
      assert vs == [vs[0]] + vs[1..];
    }
  }

  /** Which updates are accepted, by the exact total: at most a batch of validators, all with a weight, and both
      thresholds above a third of the total and within it. */
  lemma ValidUpdateIff(u: Update, batch: nat)
    requires TotalWeight(u.validators) < TWO64
    ensures
      var total := TotalWeight(u.validators);
      UpdateValid(u, batch) <==>
        && |u.validators| <= batch && (forall v :: v in u.validators ==> v.weight > 0)
        && total < 3 * u.precommitThreshold <= 3 * total && total < 3 * u.certificateThreshold <= 3 * total
  {
  }

  /** The parameters of an update: the validators asked for, in order, and the thresholds, of which that for prevotes
      is the least above two thirds of the total. */
  predicate Realizes(p: Params, u: Update) {
    && multiset(p.validators) == multiset(u.validators) && Descending(p.validators)
    && p.precommitThreshold == u.precommitThreshold && p.certificateThreshold == u.certificateThreshold
    && (TotalWeight(u.validators) < TWO64 / 2 ==>
          3 * (p.prevoteThreshold - 1) <= 2 * TotalWeight(u.validators) < 3 * p.prevoteThreshold)
  }

  lemma ParamsOfRealizes(u: Update)
    ensures Realizes(ParamsOf(u), u)
  {
    hide SortByAddress, TotalWeight;
    SortIsPermutation(u.validators);
    if TotalWeight(u.validators) < TWO64 / 2 { TwoThirds(TotalWeight(u.validators)); }
  }

  lemma TwoThirds(total: nat)
    requires total < TWO64 / 2
    ensures var t := (total % TWO64 * 2 % TWO64) / 3 + 1; 3 * (t - 1) <= 2 * total < 3 * t
  {
  }

  /** An accepted update that changes something takes effect at the next height: its parameters are in force from there
      on, its validators are the active ones, those that stay keep their record, and new ones start with that height. */
  lemma UpdateTakesEffect(s: Store, u: Update, batch: nat)
    requires SetBFTParameters(s, u, batch).Some? && SetBFTParameters(s, u, batch).value != s
    ensures
      var s2 := SetBFTParameters(s, u, batch).value;
      var next := CurrentHeight(s.votes) + 1;
      && (forall h: nat :: h < next ==> Lookup(s2.params, h) == Lookup(s.params, h))
      && Lookup(s2.params, next).Some? && Realizes(Lookup(s2.params, next).value, u)
      && (forall a :: a in s2.votes.active <==> HasAddress(u.validators, a))
      && (forall a :: a in s2.votes.active ==>
            s2.votes.active[a] == if a in s.votes.active then s.votes.active[a] else ActiveValidator(next, next - 1))
      && s2.votes == s.votes.(active := s2.votes.active)
  {
    hide UpdateValid, Lookup, Realizes, SortByAddress;
    var p, next := ParamsOf(u), CurrentHeight(s.votes) + 1;
    var s2 := SetBFTParameters(s, u, batch).value;
    UpdateShape(s, u, batch);
    ParamsOfRealizes(u);
    SortIsPermutation(u.validators);
    forall h: nat | h <= next ensures Lookup(s2.params, h) == if h == next then Some(p) else Lookup(s.params, h) {
      WriteChangesOnlyLater(s.params, next, p, h);
    }
    forall a ensures a in s2.votes.active <==> HasAddress(u.validators, a) {
      SameAddresses(p.validators, u.validators, a);
    }
  }

  lemma SameAddresses(xs: seq<Validator>, ys: seq<Validator>, a: Address)
    requires multiset(xs) == multiset(ys)
    ensures (exists v :: v in xs && v.address == a) <==> HasAddress(ys, a)
  {
    if v :| v in xs && v.address == a {
      assert v in multiset(xs);
      var i :| 0 <= i < |ys| && ys[i] == v;
    }
    if i :| 0 <= i < |ys| && ys[i].address == a {
      assert ys[i] in multiset(ys);
    }
  }

  // ---------------------------------------------------------------- parameters in force

  /** The parameters in force at a height: those that the newest block below it asks for. */
  function InForce(b: Block, h: nat): Params {
    match b
    case Genesis(_, initial) => ParamsOf(initial)
    case Child(parent, header, update) =>
      if update.Some? && header.bft.height < h then ParamsOf(update.value) else InForce(parent, h)
  }

  lemma ParentOf(b: Block, batch: nat)
    requires batch >= 1 && b.Child? && Accepted(b, batch)
    ensures Accepted(b.parent, batch) && StateBefore(b, batch) == StateAfter(b.parent, batch).value
    ensures Height(b) == Height(b.parent) + 1 && GenesisHeight(b) == GenesisHeight(b.parent) <= Height(b.parent)
  {
    hide ProcessBlock, WindowEndsAt, ContradictsWindow, CommitAcceptable;
    AncestorAccepted(b.parent, b, batch);
    assert HeaderAcceptable(StateBefore(b, batch).votes, Height(b.parent), b.header);
  }

  lemma {:induction false} InForceBeyond(b: Block, h: nat, batch: nat)
    requires batch >= 1 && Accepted(b, batch) && h > Height(b)
    ensures InForce(b, h) == InForce(b, Height(b) + 1)
    decreases b
  {
    hide StateAfter, ProcessBlock, ParamsOf, Accepted;
    if b.Child? {
      ParentOf(b, batch);
      InForceBeyond(b.parent, h, batch);
      InForceBeyond(b.parent, Height(b) + 1, batch);
    }
  }

  // ---------------------------------------------------------------- certified heights

  /** The block carries an aggregate commit that is not empty. */
  predicate Commits(x: Block) { x.Child? && (x.header.commit.hasBits || x.header.commit.hasSignature) }

  lemma CertifiedStep(b: Block, batch: nat)
    requires batch >= 1 && b.Child? && Accepted(b, batch)
    ensures
      var c, c1 := StateAfter(b.parent, batch).value.votes.maxHeightCertified, StateAfter(b, batch).value.votes.maxHeightCertified;
      && Accepted(b.parent, batch)
      && c1 == (if Commits(b) then b.header.commit.height else c)
      && (Commits(b) ==> c < c1 <= StateAfter(b.parent, batch).value.votes.maxHeightPrecommitted)
  {
    hide WindowEndsAt, ContradictsWindow, Accepted, StateAfter, Insert, CountVotes;
    ParentOf(b, batch);
    UpdateKeepsHeights(b, batch);
  }

  /** The certified height is that of the newest commit on the chain, which is also the highest, or the genesis height. */
  lemma {:induction false} CertifiedIsNewest(b: Block, batch: nat)
    requires batch >= 1 && Accepted(b, batch)
    ensures
      var c := StateAfter(b, batch).value.votes.maxHeightCertified;
      && c >= GenesisHeight(b)
      && (forall x :: OnChain(x, b) && Commits(x) ==> GenesisHeight(b) < x.header.commit.height <= c)
      && (c == GenesisHeight(b) || exists x :: OnChain(x, b) && Commits(x) && x.header.commit.height == c)
    decreases b
  {
    hide StateAfter;
    var c := StateAfter(b, batch).value.votes.maxHeightCertified;
    if b.Genesis? {
      GenesisState(b, batch);
    } else {
      ParentOf(b, batch);
      CertifiedIsNewest(b.parent, batch);
      CertifiedStep(b, batch);
      if !Commits(b) && c != GenesisHeight(b) {
        var x :| OnChain(x, b.parent) && Commits(x) && x.header.commit.height == c;
        assert OnChain(x, b);
      }
    }
  }

  lemma GenesisState(b: Block, batch: nat)
    requires batch >= 1 && b.Genesis? && Accepted(b, batch)
    ensures
      var s, h := StateAfter(b, batch).value, b.genesisHeight;
      && s.votes.(active := map[]) == Votes(h, h, h, [], map[])
      && s.votes.active == NextActive(map[], ParamsOf(b.initial).validators, h + 1)
      && s.params == map[h + 1 := ParamsOf(b.initial)]
  {
    hide NextActive, ParamsOf, UpdateValid;
    var none: ParamsStore := map[];
    assert Lookup(none, b.genesisHeight).None?;
  }

  /** Later commits are higher. */
  lemma CommitsIncrease(x: Block, y: Block, batch: nat)
    requires batch >= 1 && Accepted(y, batch) && Commits(x) && Commits(y) && OnChain(x, y.parent)
    ensures x.header.commit.height < y.header.commit.height
  {
    hide Accepted, StateAfter;
    CertifiedStep(y, batch);
    CertifiedIsNewest(y.parent, batch);
  }

  // ---------------------------------------------------------------- stored parameters

  /** The oldest height whose parameters are still wanted: that of the window, or the one after the certified height. */
  function Wanted(b: Block, certified: nat, batch: nat): nat {
    var window := if Height(b) < GenesisHeight(b) + 3 * batch then GenesisHeight(b) + 1 else Height(b) + 1 - 3 * batch;
    Min(window, certified + 1)
  }

  lemma WantedIsRequired(b: Block, batch: nat)
    requires batch >= 1 && b.Child? && Accepted(b, batch)
    ensures
      var v := Executed(b, batch).votes;
      v.infos != [] && MinHeightRequired(v) == Wanted(b, v.maxHeightCertified, batch)
  {
    hide Accepted, StateBefore, ProcessHeader, CountVotes, VotesDefined, Prune;
    ParentOf(b, batch);
    var infos := Executed(b, batch).votes.infos;
    assert |infos| >= 1;
  }

  lemma InForceStep(b: Block, h: nat, batch: nat)
    requires batch >= 1 && b.Child? && Accepted(b, batch)
    ensures h <= Height(b) ==> InForce(b, h) == InForce(b.parent, h)
    ensures h > Height(b) ==> InForce(b, h) == if b.update.Some? then ParamsOf(b.update.value) else InForce(b.parent, Height(b))
  {
    hide StateAfter, ProcessBlock, ParamsOf, Accepted;
    ParentOf(b, batch);
    if h > Height(b) { InForceBeyond(b.parent, h, batch); }
  }

  lemma {:induction false} InForceIsAsked(b: Block, h: nat) returns (u: Update)
    ensures InForce(b, h) == ParamsOf(u)
  {
    match b
    case Genesis(_, initial) => u := initial;
    case Child(parent, header, update) =>
      if update.Some? && header.bft.height < h { u := update.value; } else { u := InForceIsAsked(parent, h); }
  }

  /** An update that is passed over asks for the very parameters in force. */
  lemma UnchangedIsSame(u: Update, w: Update)
    requires Unchanged(Some(ParamsOf(w)), u)
    ensures ParamsOf(u) == ParamsOf(w)
  {
    SortFacts(u.validators, 0);
    SortFacts(w.validators, 0);
  }

  /** All written heights are at most the next one. */
  lemma {:induction false} WrittenHeights(b: Block, batch: nat)
    requires batch >= 1 && Accepted(b, batch)
    ensures forall k :: k in StateAfter(b, batch).value.params ==> k <= Height(b) + 1
    decreases b
  {
    hide StateAfter, ProcessBlock, ParamsOf, UpdateValid, NextActive, ProcessHeader, CountVotes, VotesDefined, MinHeightRequired, Lookup;
    if b.Genesis? {
      GenesisState(b, batch);
    } else {
      ParentOf(b, batch);
      WrittenHeights(b.parent, batch);
      ExecutedThenUpdate(b, batch);
    }
  }

  lemma WantedGrows(b: Block, batch: nat)
    requires batch >= 1 && b.Child? && Accepted(b, batch)
    ensures
      var c, c1 := StateAfter(b.parent, batch).value.votes.maxHeightCertified, StateAfter(b, batch).value.votes.maxHeightCertified;
      Accepted(b.parent, batch) && Wanted(b.parent, c, batch) <= Wanted(b, c1, batch) <= Height(b)
  {
    hide StateAfter, ProcessBlock;
    ParentOf(b, batch);
    CertifiedStep(b, batch);
  }

  /** Executing a block leaves the parameters of all wanted heights as they are. */
  lemma ExecutedParams(b: Block, h: nat, batch: nat)
    requires batch >= 1 && b.Child? && Accepted(b, batch)
    requires h >= Wanted(b, StateAfter(b, batch).value.votes.maxHeightCertified, batch)
    ensures Lookup(Executed(b, batch).params, h) == Lookup(StateBefore(b, batch).params, h)
  {
    hide StateAfter, ProcessBlock, ProcessHeader, CountVotes, VotesDefined, Prune, Wanted, Lookup, MinHeightRequired;
    UpdateKeepsHeights(b, batch);
    WantedIsRequired(b, batch);
    PruneKeepsLookup(StateBefore(b, batch).params, MinHeightRequired(Executed(b, batch).votes), h);
  }

  /** The parameters after an update, where those before are known. */
  lemma UpdatedParams(s: Store, u: Update, batch: nat, w: Update, h: nat, p: Params)
    requires SetBFTParameters(s, u, batch).Some?
    requires var tip := CurrentHeight(s.votes);
             && (forall k :: k in s.params ==> k <= tip) && Lookup(s.params, tip) == Some(ParamsOf(w))
             && Lookup(s.params, h) == Some(p) && (h > tip ==> p == ParamsOf(w))
    ensures Lookup(SetBFTParameters(s, u, batch).value.params, h) == Some(if h > CurrentHeight(s.votes) then ParamsOf(u) else p)
  {
    hide UpdateValid, NextActive, ParamsOf, Lookup, Unchanged;
    var s2, tip := SetBFTParameters(s, u, batch).value, CurrentHeight(s.votes);
    if Unchanged(Some(ParamsOf(w)), u) {
      UnchangedIsSame(u, w);
    } else if h <= tip {
      WriteChangesOnlyLater(s.params, tip + 1, ParamsOf(u), h);
    } else {
      LookupByFloor(s2.params, h, tip + 1);
    }
  }

  /** Pruning never loses what is wanted: at every height of the window, and at every height after the certified one,
      the stored parameters are those that the chain last asked for. */
  lemma {:induction false} StoredInForce(b: Block, h: nat, batch: nat)
    requires batch >= 1 && Accepted(b, batch)
    requires h >= Wanted(b, StateAfter(b, batch).value.votes.maxHeightCertified, batch)
    ensures Lookup(StateAfter(b, batch).value.params, h) == Some(InForce(b, h))
    decreases b
  {
    hide StateAfter, ProcessBlock, ParamsOf, SetBFTParameters, ProcessHeader, CountVotes, VotesDefined, Prune, Wanted, Lookup,
      MinHeightRequired;
    if b.Genesis? {
      GenesisState(b, batch);
      GenesisWanted(b, batch);
      LookupByFloor(StateAfter(b, batch).value.params, h, b.genesisHeight + 1);
    } else {
      ParentOf(b, batch);
      WantedGrows(b, batch);
      StoredInForce(b.parent, h, batch);
      StoredInForce(b.parent, Height(b), batch);
      ExecutedParams(b, h, batch);
      ExecutedParams(b, Height(b), batch);
      ExecutedThenUpdate(b, batch);
      InForceStep(b, h, batch);
      if b.update.Some? {
        var w := InForceIsAsked(b.parent, Height(b));
        if h > Height(b) { InForceBeyond(b.parent, h, batch); }
        ExecutedTip(b, batch);
        UpdatedParams(Executed(b, batch), b.update.value, batch, w, h, InForce(b.parent, h));
      }
      if h > Height(b) { InForceBeyond(b.parent, h, batch); }
    }
  }

  lemma GenesisWanted(b: Block, batch: nat)
    requires batch >= 1 && b.Genesis? && Accepted(b, batch)
    ensures Wanted(b, StateAfter(b, batch).value.votes.maxHeightCertified, batch) == b.genesisHeight + 1
  {
    hide StateAfter;
    GenesisState(b, batch);
  }

  lemma ExecutedTip(b: Block, batch: nat)
    requires batch >= 1 && b.Child? && Accepted(b, batch)
    ensures CurrentHeight(Executed(b, batch).votes) == Height(b)
    ensures forall k :: k in Executed(b, batch).params ==> k <= Height(b)
  {
    hide StateAfter, ProcessBlock, ProcessHeader, CountVotes, VotesDefined, Lookup, MinHeightRequired;
    ParentOf(b, batch);
    WrittenHeights(b.parent, batch);
  }

  /** And nothing else is kept: of the heights up to the oldest wanted one, at most one is stored. */
  lemma NothingElseStored(b: Block, batch: nat, j: nat, k: nat)
    requires batch >= 1 && b.Child? && Accepted(b, batch)
    requires var s := StateAfter(b, batch).value;
             && j in s.params && k in s.params
             && j <= Wanted(b, s.votes.maxHeightCertified, batch) && k <= Wanted(b, s.votes.maxHeightCertified, batch)
    ensures j == k
  {
    hide StateAfter, ProcessBlock, ParamsOf, UpdateValid, NextActive, ProcessHeader, CountVotes, VotesDefined, Wanted, Lookup, MinHeightRequired;
    UpdateKeepsHeights(b, batch);
    WantedIsRequired(b, batch);
    WantedGrows(b, batch);
    ExecutedTip(b, batch);
    ExecutedThenUpdate(b, batch);
  }

  // ---------------------------------------------------------------- active validators

  /** The address is one of the validators in force at the height. */
  predicate ValidatorAt(b: Block, h: nat, a: Address) { HasAddress(InForce(b, h).validators, a) }

  /** The record of an active validator begins where it last became a validator. */
  ghost predicate SinceJoined(b: Block, a: Address, from: nat) {
    && GenesisHeight(b) < from <= Height(b) + 1
    && (forall h: nat :: from <= h <= Height(b) + 1 ==> ValidatorAt(b, h, a))
    && (from > GenesisHeight(b) + 1 ==> !ValidatorAt(b, from - 1, a))
  }

  ghost predicate ActiveOnChain(b: Block, active: map<Address, ActiveValidator>, a: Address) {
    && (a in active <==> ValidatorAt(b, Height(b) + 1, a))
    && (a in active ==> SinceJoined(b, a, active[a].minActiveHeight))
  }

  lemma ExecutedActive(b: Block, batch: nat, a: Address)
    requires batch >= 1 && b.Child? && Accepted(b, batch)
    ensures
      var active, after := StateBefore(b, batch).votes.active, Executed(b, batch).votes.active;
      (a in after <==> a in active) && (a in after ==> after[a].minActiveHeight == active[a].minActiveHeight)
  {
    hide StateAfter, ProcessBlock, CountVotes, VotesDefined, Lookup, MinHeightRequired, RecordPrecommit;
    RecordedPrecommit(StateBefore(b, batch).params, WindowOf(b, batch), StateBefore(b, batch).votes.active);
  }

  /** Who is active, and since when, before a block's own update. */
  lemma ActiveBeforeUpdate(b: Block, batch: nat, a: Address)
    requires batch >= 1 && b.Child? && Accepted(b, batch)
    requires (ParentOf(b, batch); ActiveOnChain(b.parent, StateAfter(b.parent, batch).value.votes.active, a))
    ensures
      var active := Executed(b, batch).votes.active;
      && (a in active <==> ValidatorAt(b, Height(b), a))
      && (a in active ==>
            var from := active[a].minActiveHeight;
            && GenesisHeight(b) < from <= Height(b)
            && (forall h: nat :: from <= h <= Height(b) ==> ValidatorAt(b, h, a))
            && (from > GenesisHeight(b) + 1 ==> !ValidatorAt(b, from - 1, a)))
  {
    hide StateAfter, ProcessBlock, ProcessHeader, CountVotes, VotesDefined, Prune, HasAddress;
    ParentOf(b, batch);
    ExecutedActive(b, batch, a);
    forall h: nat | h <= Height(b) ensures ValidatorAt(b, h, a) <==> ValidatorAt(b.parent, h, a) { InForceStep(b, h, batch); }
  }

  lemma SortedAddress(vs: seq<Validator>, a: Address)
    ensures HasAddress(SortByAddress(vs), a) <==> HasAddress(vs, a)
  {
    SortIsPermutation(vs);
    SameAddresses(SortByAddress(vs), vs, a);
    if HasAddress(SortByAddress(vs), a) {
      var i :| 0 <= i < |SortByAddress(vs)| && SortByAddress(vs)[i].address == a;
      assert SortByAddress(vs)[i] in SortByAddress(vs);
    }
  }

  /** The active validators are those in force at the next height, each since it last joined. */
  lemma {:induction false} ActiveInForce(b: Block, batch: nat, a: Address)
    requires batch >= 1 && Accepted(b, batch)
    ensures ActiveOnChain(b, StateAfter(b, batch).value.votes.active, a)
    decreases b
  {
    hide StateAfter, ProcessBlock, ProcessHeader, CountVotes, VotesDefined, Prune, HasAddress, SetBFTParameters, SortByAddress, Lookup;
    if b.Genesis? {
      GenesisState(b, batch);
      SortedAddress(b.initial.validators, a);
      SameAddresses(ParamsOf(b.initial).validators, ParamsOf(b.initial).validators, a);
    } else {
      ParentOf(b, batch);
      ActiveInForce(b.parent, batch, a);
      ActiveBeforeUpdate(b, batch, a);
      ExecutedThenUpdate(b, batch);
      InForceStep(b, Height(b) + 1, batch);
      InForceStep(b, Height(b), batch);
      if b.update.Some? {
        ExecutedTip(b, batch);
        if StateAfter(b, batch).value != Executed(b, batch) {
          UpdateTakesEffect(Executed(b, batch), b.update.value, batch);
          SortedAddress(b.update.value.validators, a);
        } else {
          PassedOver(b, batch);
        }
      }
    }
  }

  /** An update without effect asks for the parameters in force. */
  lemma PassedOver(b: Block, batch: nat)
    requires batch >= 1 && b.Child? && Accepted(b, batch) && b.update.Some?
    requires StateAfter(b, batch).value == Executed(b, batch)
    ensures InForce(b, Height(b) + 1) == InForce(b, Height(b))
  {
    hide StateAfter, ProcessBlock, ProcessHeader, CountVotes, VotesDefined, Prune, Lookup, ParamsOf, Wanted;
    ParentOf(b, batch);
    WantedGrows(b, batch);
    StoredInForce(b, Height(b), batch);
    StoredInForce(b, Height(b) + 1, batch);
    ExecutedTip(b, batch);
    assert Height(b) + 1 !in Executed(b, batch).params;
    NextNotWritten(Executed(b, batch).params, Height(b));
  }

  lemma NextNotWritten(store: ParamsStore, h: nat)
    requires h + 1 !in store
    ensures Lookup(store, h + 1) == Lookup(store, h)
  {
  }
}
