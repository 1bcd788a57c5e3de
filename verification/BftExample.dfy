/** The bound of accountable finality is attained: a validator that forges every height twice gets
    two conflicting blocks finalized, and is itself exactly the weight that is convicted. */
module BftExample {
  import opened Basics
  import opened Contradiction
  import opened BftParams
  import opened BftVotes
  import opened BftChain
  import opened BftAccounting
  import opened BftFinality

  const SOLE: Address := 7
  const UPDATE: Update := Update(1, 1, [Validator(SOLE, 1)])
  const PARAMS: Params := Params(1, 1, 1, [Validator(SOLE, 1)])
  const NO_COMMIT: AggregateCommit := AggregateCommit(0, false, false)
  const START: Block := Genesis(0, UPDATE)

  /** The headers of an honest chain of one validator. */
  const HEADER1: PartialHeader := PartialHeader(1, SOLE, 0, 0)
  const HEADER2: PartialHeader := PartialHeader(2, SOLE, 1, 1)

  function First(content: seq<nat>): Block { Child(START, Header(HEADER1, NO_COMMIT, content), None) }

  function Second(content: seq<nat>): Block { Child(First(content), Header(HEADER2, NO_COMMIT, content), None) }

  const TABLE: ParamsStore := map[1 := PARAMS]
  const ACTIVE: map<Address, ActiveValidator> := map[SOLE := ActiveValidator(1, 0)]
  const STORE0: Store := Store(Votes(0, 0, 0, [], ACTIVE), TABLE)
  const STORE1: Store := Store(Votes(1, 0, 0, [BlockInfo(HEADER1, 1, 0)], ACTIVE), TABLE)
  const STORE2: Store :=
    Store(Votes(2, 1, 0, [BlockInfo(HEADER2, 1, 0), BlockInfo(HEADER1, 1, 1)], map[SOLE := ActiveValidator(1, 1)]), TABLE)

  lemma AfterStart()
    ensures StateAfter(START, 1) == Some(STORE0)
  {
    var vs := UPDATE.validators;
    assert vs[1..] == [] && SortByAddress(vs) == vs;
    assert TotalWeight(vs) == 1;
    assert ParamsOf(UPDATE) == PARAMS;
    var none: map<Address, ActiveValidator> := map[];
    assert (set v | v in vs :: v.address) == {SOLE} by { assert vs[0] in vs; }
    assert NextActive(none, vs, 1) == ACTIVE;
    var empty: ParamsStore := map[];
    assert Lookup(empty, 0).None? && empty[1 := PARAMS] == TABLE;
  }

  /** The parameters are in force from height 1 on, and are never pruned away. */
  lemma Known(h: nat)
    ensures h >= 1 ==> Lookup(TABLE, h) == Some(PARAMS) && WeightAt(TABLE, h, SOLE) == Some(1)
    ensures Prune(TABLE, 1) == TABLE
  {
    if h >= 1 { LookupByFloor(TABLE, h, 1); }
    assert IsFloor(TABLE, 1, 1);
  }

  lemma NewestOfOne(x: BlockInfo, hit: BlockInfo -> bool, otherwise: nat)
    ensures NewestHeight([x], hit, otherwise) == if hit(x) then x.header.height else otherwise
  {
    assert [x][1..] == [];
  }

  lemma NewestOfTwo(x: BlockInfo, y: BlockInfo, hit: BlockInfo -> bool, otherwise: nat)
    ensures NewestHeight([x, y], hit, otherwise) ==
            if hit(x) then x.header.height else if hit(y) then y.header.height else otherwise
  {
    assert [x, y][1..] == [y];
    NewestOfOne(y, hit, otherwise);
  }

  /** The first header prevotes itself. */
  lemma CountFirst()
    ensures
      var w := [BlockInfo(HEADER1, 0, 0)];
      && Consecutive(w) && VotesDefined(TABLE, w, ACTIVE)
      && CountVotes(TABLE, w, ACTIVE) == [BlockInfo(HEADER1, 1, 0)]
      && RecordPrecommit(TABLE, w, ACTIVE) == ACTIVE
  {
    Known(1);
    var w := [BlockInfo(HEADER1, 0, 0)];
    assert MinPrevoteHeight(w, ACTIVE) == 1;
    assert !HasPrevoteQuorum(TABLE, w[0]);
    var c := CountVotes(TABLE, w, ACTIVE);
    assert |c| == 1 && c[0] == AddVotes(TABLE, w, ACTIVE, w[0]) == BlockInfo(HEADER1, 1, 0);
    NewestOfOne(w[0], PrecommitFromTest(TABLE, MinPrecommitHeight(w, ACTIVE)), 0);
  }

  lemma AfterFirst(content: seq<nat>)
    ensures StateAfter(First(content), 1) == Some(STORE1)
  {
    AfterStart();
    CountFirst();
    Known(1);
    var header := First(content).header;
    var none: seq<BlockInfo> := [];
    assert Insert(none, HEADER1, 3) == [BlockInfo(HEADER1, 0, 0)];
    var votes := ProcessHeader(TABLE, STORE0.votes, header, 3);
    NewestOfOne(votes.infos[0], PrevoteQuorumTest(TABLE), 0);
    NewestOfOne(votes.infos[0], PrecommitQuorumTest(TABLE), 0);
    assert BeforeTransactionsExecute(STORE0, header, 1) == Some(STORE1);
  }

  /** The second header prevotes itself and precommits the first one. */
  lemma CountSecond()
    ensures
      var w := [BlockInfo(HEADER2, 0, 0), BlockInfo(HEADER1, 1, 0)];
      && Consecutive(w) && VotesDefined(TABLE, w, ACTIVE)
      && CountVotes(TABLE, w, ACTIVE) == STORE2.votes.infos
      && RecordPrecommit(TABLE, w, ACTIVE) == STORE2.votes.active
  {
    Known(1);
    Known(2);
    var w := [BlockInfo(HEADER2, 0, 0), BlockInfo(HEADER1, 1, 0)];
    assert NotPrevotedFrom(w, 0) == 0 && HeightNotPrevoted(w) == 0;
    assert MinPrevoteHeight(w, ACTIVE) == 2 && MinPrecommitHeight(w, ACTIVE) == 1;
    var c := CountVotes(TABLE, w, ACTIVE);
    assert c[0] == AddVotes(TABLE, w, ACTIVE, w[0]) == BlockInfo(HEADER2, 1, 0);
    assert c[1] == AddVotes(TABLE, w, ACTIVE, w[1]) == BlockInfo(HEADER1, 1, 1);
    NewestOfTwo(w[0], w[1], PrecommitFromTest(TABLE, 1), 0);
  }

  lemma AfterSecond(content: seq<nat>)
    ensures StateAfter(Second(content), 1) == Some(STORE2)
  {
    AfterFirst(content);
    CountSecond();
    Known(1);
    Known(2);
    var header := Second(content).header;
    assert Insert(STORE1.votes.infos, HEADER2, 3) == [BlockInfo(HEADER2, 0, 0), BlockInfo(HEADER1, 1, 0)];
    var votes := ProcessHeader(TABLE, STORE1.votes, header, 3);
    NewestOfTwo(votes.infos[0], votes.infos[1], PrevoteQuorumTest(TABLE), 1);
    NewestOfTwo(votes.infos[0], votes.infos[1], PrecommitQuorumTest(TABLE), 0);
    assert !ContradictsWindow(STORE1.votes.infos, HEADER2);
    assert BeforeTransactionsExecute(STORE1, header, 1) == Some(STORE2);
  }

  lemma Shape(content: seq<nat>)
    ensures
      var b := Second(content);
      && GenesisOf(b) == START && FixedValidators(b) && WeightsFit(b)
      && BlockAt(b, 1) == First(content) && InitialParams(b) == PARAMS && TotalWeight(PARAMS.validators) == 1
  {
    var vs := UPDATE.validators;
    assert vs[1..] == [] && SortByAddress(vs) == vs && TotalWeight(vs) == 1;
    assert WeightsFit(START) && WeightsFit(First(content));
    assert ParamsOf(UPDATE) == PARAMS;
    assert InitialParams(START) == PARAMS;
    assert GenesisOf(First(content)) == START && InitialParams(First(content)) == PARAMS;
    assert BlockAt(First(content), 1) == First(content);
  }

  /** Forging every height twice finalizes conflicting blocks, and the guaranteed weight is the whole weight. */
  lemma BoundIsAttained(c: seq<nat>, d: seq<nat>)
    requires c != d
    ensures
      var b1, b2 := Second(c), Second(d);
      && Accepted(b1, 1) && Accepted(b2, 1) && GenesisOf(b1) == GenesisOf(b2)
      && FixedValidators(b1) && FixedValidators(b2) && WeightsFit(b1)
      && FinalizedBlock(b1, 1) == First(c) && FinalizedBlock(b2, 1) == First(d)
      && Conflicting(First(c), First(d))
      && ConvictedWeight(InitialParams(b1)) == TotalWeight(InitialParams(b1).validators) == 1
  {
    AfterSecond(c);
    AfterSecond(d);
    Shape(c);
    Shape(d);
  }
}
