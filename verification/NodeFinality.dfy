/** Nodes that run Lisk-BFT through the executer: what any two of them treat as final agrees, or validators of
    the guaranteed weight are convicted (pkg/consensus/execute.go, pkg/consensus/liskbft). */
module NodeFinality {
  import opened Basics
  import opened BftParams
  import opened BftVotes
  import opened BftChain
  import opened BftAccounting
  import opened BftReachable
  import opened BftFinality
  import K = KeyOrder
  import X = Executer

  /** How a node's blocks and store read as Lisk-BFT: the header of a block, the parameter change that executing it
      on a store asks for, and the vote state in a store. */
  datatype Reading = Reading(
    header: X.Block -> Header,
    update: (K.Store, X.Block) -> Option<Update>,
    votes: K.Store -> Store)

  /** What the executer's rules accept is a step of Lisk-BFT. */
  ghost predicate StepIsBft(r: X.Rules, c: Reading, start: nat, batch: nat, s: K.Store, last: X.Block, b: X.Block)
    requires batch >= 1
  {
    X.After(r, s, last, b).Some? && WindowEndsAt(c.votes(s).votes.infos, last.height, start, batch) ==>
      ProcessBlock(c.votes(s), last.height, start, c.header(b), c.update(s, b), batch) == Some(c.votes(X.After(r, s, last, b).value))
  }

  /** The rules run Lisk-BFT from a genesis block of height `start`; headers determine their blocks. */
  ghost predicate RunsBft(r: X.Rules, c: Reading, start: nat, batch: nat) {
    && batch >= 1
    && (forall a, b :: c.header(a) == c.header(b) ==> a == b)
    && (forall s :: r.precommitted(s) == c.votes(s).votes.maxHeightPrecommitted)
    && (forall s, last, b :: StepIsBft(r, c, start, batch, s, last, b))
  }

  /** The state of the genesis block. */
  ghost predicate StartsBft(c: Reading, genesis: K.Store, start: nat, initial: Update, batch: nat) {
    batch >= 1 && StateAfter(Genesis(start, initial), batch) == Some(c.votes(genesis))
  }

  /** On no acceptable chain from the genesis block does the application ask for other parameters than those of
      genesis. */
  ghost predicate Steady(r: X.Rules, c: Reading, genesis: K.Store, first: X.Block, initial: Update) {
    forall chain: seq<X.Block> :: |chain| > 1 && chain[0] == first && X.Replay(r, genesis, chain).Some? ==>
      SteadyAt(r, c, genesis, initial, chain)
  }

  ghost predicate SteadyAt(r: X.Rules, c: Reading, genesis: K.Store, initial: Update, chain: seq<X.Block>)
    requires |chain| > 1 && X.Replay(r, genesis, chain).Some?
  {
    var u := c.update(X.Replay(r, genesis, chain[..|chain| - 1]).value, chain[|chain| - 1]);
    u.None? || Unchanged(Some(ParamsOf(initial)), u.value)
  }

  // ---------------------------------------------------------------- chains as blocks

  /** The Lisk-BFT block at the end of a chain of the executer. */
  function Term(r: X.Rules, c: Reading, genesis: K.Store, initial: Update, chain: seq<X.Block>): Block
    requires chain != [] && X.Replay(r, genesis, chain).Some?
  {
    if |chain| == 1 then Genesis(chain[0].height, initial)
    else
      var shorter := chain[..|chain| - 1];
      Child(Term(r, c, genesis, initial, shorter), c.header(chain[|chain| - 1]),
            c.update(X.Replay(r, genesis, shorter).value, chain[|chain| - 1]))
  }

  /** Replaying a chain leads to the Lisk-BFT state of its last block. */
  lemma {:induction false} ReplayIsState(r: X.Rules, c: Reading, genesis: K.Store, initial: Update, chain: seq<X.Block>, batch: nat)
    requires chain != [] && X.Replay(r, genesis, chain).Some?
    requires RunsBft(r, c, chain[0].height, batch) && StartsBft(c, genesis, chain[0].height, initial, batch)
    ensures
      var b := Term(r, c, genesis, initial, chain);
      && StateAfter(b, batch) == Some(c.votes(X.Replay(r, genesis, chain).value))
      && Height(b) == chain[|chain| - 1].height && GenesisHeight(b) == chain[0].height
      && GenesisOf(b) == Genesis(chain[0].height, initial)
  {
    hide ProcessBlock, WindowEndsAt, SetBFTParameters;
    if |chain| > 1 {
      var shorter, last, b := chain[..|chain| - 1], chain[|chain| - 2], chain[|chain| - 1];
      ReplayIsState(r, c, genesis, initial, shorter, batch);
      var s := X.Replay(r, genesis, shorter).value;
      assert StepIsBft(r, c, chain[0].height, batch, s, last, b);
      HeaderHeight(c.votes(s), last.height, chain[0].height, c.header(b), c.update(s, b), batch);
    }
  }

  lemma HeaderHeight(s: Store, tip: nat, genesis: nat, header: Header, update: Option<Update>, batch: nat)
    requires batch >= 1 && WindowEndsAt(s.votes.infos, tip, genesis, batch)
    requires ProcessBlock(s, tip, genesis, header, update, batch).Some?
    ensures header.bft.height == tip + 1
  {
    hide BeforeTransactionsExecute, SetBFTParameters, WindowEndsAt, ContradictsWindow;
  }

  lemma {:induction false} TermFixed(r: X.Rules, c: Reading, genesis: K.Store, initial: Update, chain: seq<X.Block>)
    requires chain != [] && X.Replay(r, genesis, chain).Some? && Steady(r, c, genesis, chain[0], initial)
    ensures FixedValidators(Term(r, c, genesis, initial, chain)) && InitialParams(Term(r, c, genesis, initial, chain)) == ParamsOf(initial)
  {
    hide X.After, ParamsOf, Unchanged;
    if |chain| > 1 {
      assert SteadyAt(r, c, genesis, initial, chain);
      TermFixed(r, c, genesis, initial, chain[..|chain| - 1]);
    }
  }

  /** The block at a height is the block of the chain cut there. */
  lemma {:induction false} TermAt(r: X.Rules, c: Reading, genesis: K.Store, initial: Update, chain: seq<X.Block>, h: nat, batch: nat)
    requires chain != [] && X.Replay(r, genesis, chain).Some? && X.Consecutive(chain)
    requires RunsBft(r, c, chain[0].height, batch) && StartsBft(c, genesis, chain[0].height, initial, batch)
    requires chain[0].height <= h <= chain[|chain| - 1].height
    ensures X.Replay(r, genesis, chain[..h - chain[0].height + 1]).Some?
    ensures BlockAt(Term(r, c, genesis, initial, chain), h) == Term(r, c, genesis, initial, chain[..h - chain[0].height + 1])
  {
    hide StateAfter, X.Replay, RunsBft, StartsBft;
    var n := h - chain[0].height + 1;
    X.ReplayPrefix(r, genesis, chain, n);
    ReplayIsState(r, c, genesis, initial, chain, batch);
    if n == |chain| {
      assert chain[..n] == chain;
    } else {
      var shorter := chain[..|chain| - 1];
      X.ReplayPrefix(r, genesis, chain, |chain| - 1);
      TermAt(r, c, genesis, initial, shorter, h, batch);
      assert shorter[..n] == chain[..n];
    }
  }

  /** A block on a chain is the block of a front of that chain. */
  lemma {:induction false} OnChainIsFront(r: X.Rules, c: Reading, genesis: K.Store, initial: Update, a: seq<X.Block>, b: seq<X.Block>)
    requires a != [] && b != [] && a[0] == b[0]
    requires X.Replay(r, genesis, a).Some? && X.Replay(r, genesis, b).Some?
    requires forall x, y :: c.header(x) == c.header(y) ==> x == y
    requires OnChain(Term(r, c, genesis, initial, a), Term(r, c, genesis, initial, b))
    ensures a <= b
    decreases |b|
  {
    hide X.After;
    if Term(r, c, genesis, initial, a) == Term(r, c, genesis, initial, b) {
      SameTerm(r, c, genesis, initial, a, b);
    } else {
      var shorter := b[..|b| - 1];
      OnChainIsFront(r, c, genesis, initial, a, shorter);
    }
  }

  lemma {:induction false} SameTerm(r: X.Rules, c: Reading, genesis: K.Store, initial: Update, a: seq<X.Block>, b: seq<X.Block>)
    requires a != [] && b != [] && a[0] == b[0]
    requires X.Replay(r, genesis, a).Some? && X.Replay(r, genesis, b).Some?
    requires forall x, y :: c.header(x) == c.header(y) ==> x == y
    requires Term(r, c, genesis, initial, a) == Term(r, c, genesis, initial, b)
    ensures a == b
    decreases |b|
  {
    hide X.After;
    if |a| > 1 && |b| > 1 {
      SameTerm(r, c, genesis, initial, a[..|a| - 1], b[..|b| - 1]);
      assert a == a[..|a| - 1] + [a[|a| - 1]] && b == b[..|b| - 1] + [b[|b| - 1]];
    }
  }

  // ---------------------------------------------------------------- two nodes

  /** The part of a chain up to a height. */
  function UpTo(chain: seq<X.Block>, height: nat): seq<X.Block>
    requires chain != [] && chain[0].height <= height
  {
    if height - chain[0].height + 1 <= |chain| then chain[..height - chain[0].height + 1] else chain
  }

  /** Two acceptable chains of blocks that one or the other node has accepted, and that convict validators of the
      guaranteed weight. */
  ghost predicate Guilty(r: X.Rules, c: Reading, genesis: K.Store, initial: Update, c1: seq<X.Block>, seen1: set<X.Block>,
                         c2: seq<X.Block>, seen2: set<X.Block>, guilty: set<nat>)
  {
    && c1 != [] && c2 != [] && X.Replay(r, genesis, c1).Some? && X.Replay(r, genesis, c2).Some?
    && X.AllIn(c1, seen1) && X.AllIn(c2, seen2)
    && Convicts(guilty, Term(r, c, genesis, initial, c1), Term(r, c, genesis, initial, c2))
  }

  /** A height a node treats as final is the finalized height of a chain it followed, and it still has that block. */
  lemma FinalizedOfNode(r: X.Rules, c: Reading, genesis: K.Store, initial: Update, chain: seq<X.Block>, finalized: nat,
                        seen: set<X.Block>, batch: nat)
    returns (made: seq<X.Block>)
    requires X.Backed(r, genesis, chain, finalized, seen) && chain != [] && X.Consecutive(chain)
    requires RunsBft(r, c, chain[0].height, batch) && StartsBft(c, genesis, chain[0].height, initial, batch)
    requires TotalWeight(initial.validators) < TWO64 && Steady(r, c, genesis, chain[0], initial)
    ensures made != [] && made[0] == chain[0] && X.AllIn(made, seen) && X.Replay(r, genesis, made).Some?
    ensures chain[0].height <= finalized <= chain[|chain| - 1].height && X.Replay(r, genesis, UpTo(chain, finalized)).Some?
    ensures
      var b := Term(r, c, genesis, initial, made);
      && Accepted(b, batch) && FixedValidators(b) && WeightsFit(b) && GenesisOf(b) == Genesis(chain[0].height, initial)
      && FinalizedBlock(b, batch) == Term(r, c, genesis, initial, UpTo(chain, finalized))
  {
    hide StateAfter, X.Replay, X.SameUpTo, StepIsBft, WeightsFit, FixedValidators;
    made :| X.FinalizedBy(r, genesis, made, chain, finalized, seen);
    var start := chain[0].height;
    if finalized == start && finalized != r.precommitted(X.Replay(r, genesis, made).value) {
      made := GenesisOnly(r, c, genesis, initial, made, chain, start, batch);
    }
    var b := Term(r, c, genesis, initial, made);
    ReplayIsState(r, c, genesis, initial, made, batch);
    TermFixed(r, c, genesis, initial, made);
    SharedGenesis(b);
    GenesisFits(start, initial);
    BftHeights(b, b, batch);
    TermAt(r, c, genesis, initial, made, finalized, batch);
    SameFront(made, chain, finalized);
  }

  lemma GenesisFits(start: nat, initial: Update)
    requires TotalWeight(initial.validators) < TWO64
    ensures WeightsFit(Genesis(start, initial))
  {
  }

  /** Before anything else is final, the genesis block alone backs the finalized height. */
  lemma GenesisOnly(r: X.Rules, c: Reading, genesis: K.Store, initial: Update, made: seq<X.Block>, chain: seq<X.Block>, start: nat, batch: nat)
    returns (only: seq<X.Block>)
    requires made != [] && chain != [] && made[0] == chain[0] && start == chain[0].height
    requires RunsBft(r, c, start, batch) && StartsBft(c, genesis, start, initial, batch)
    ensures only == [chain[0]] && X.Replay(r, genesis, only).Some? && r.precommitted(X.Replay(r, genesis, only).value) == start
    ensures X.Consecutive(only) && X.SameUpTo(only, chain, start)
  {
    only := [chain[0]];
  }

  lemma SameFront(made: seq<X.Block>, chain: seq<X.Block>, finalized: nat)
    requires made != [] && chain != [] && made[0] == chain[0] && X.Consecutive(made)
    requires made[0].height <= finalized <= made[|made| - 1].height && X.SameUpTo(made, chain, finalized)
    ensures UpTo(chain, finalized) == made[..finalized - made[0].height + 1] && finalized - chain[0].height < |chain|
  {
    var n := finalized - made[0].height + 1;
    assert made[n - 1].height == finalized;
    assert forall i :: 0 <= i < n ==> made[i].height <= finalized;
  }

  /** Any two nodes with the same genesis, after any runs of accepted and removed blocks: what one treats as final is
      a front of what the other does, or two chains they followed convict validators of the guaranteed weight. */
  lemma NodesAgree(n1: X.Executer, n2: X.Executer, c: Reading, initial: Update, batch: nat)
    requires n1.Valid() && n2.Valid() && n1.rules == n2.rules && n1.genesis == n2.genesis && n1.chain[0] == n2.chain[0]
    requires RunsBft(n1.rules, c, n1.chain[0].height, batch) && StartsBft(c, n1.genesis, n1.chain[0].height, initial, batch)
    requires TotalWeight(initial.validators) < TWO64 && Steady(n1.rules, c, n1.genesis, n1.chain[0], initial)
    ensures n1.chain[0].height <= n1.finalizedHeight <= n1.chain[|n1.chain| - 1].height
    ensures n2.chain[0].height <= n2.finalizedHeight <= n2.chain[|n2.chain| - 1].height
    ensures
      || UpTo(n1.chain, n1.finalizedHeight) <= UpTo(n2.chain, n2.finalizedHeight)
      || UpTo(n2.chain, n2.finalizedHeight) <= UpTo(n1.chain, n1.finalizedHeight)
      || exists c1, c2, guilty :: Guilty(n1.rules, c, n1.genesis, initial, c1, n1.seen, c2, n2.seen, guilty)
  {
    hide X.Backed, X.Replay, StateAfter, StepIsBft, StartsBft, Convicts, WeightsFit, FixedValidators;
    X.HeightsOf(n1.rules, n1.genesis, n1.chain, n1.store, n1.diffs, n1.finalizedHeight);
    X.HeightsOf(n2.rules, n2.genesis, n2.chain, n2.store, n2.diffs, n2.finalizedHeight);
    var chain1 := FinalizedOfNode(n1.rules, c, n1.genesis, initial, n1.chain, n1.finalizedHeight, n1.seen, batch);
    var chain2 := FinalizedOfNode(n1.rules, c, n1.genesis, initial, n2.chain, n2.finalizedHeight, n2.seen, batch);
    var b1, b2 := Term(n1.rules, c, n1.genesis, initial, chain1), Term(n1.rules, c, n1.genesis, initial, chain2);
    var f1, f2 := UpTo(n1.chain, n1.finalizedHeight), UpTo(n2.chain, n2.finalizedHeight);
    if Conflicting(FinalizedBlock(b1, batch), FinalizedBlock(b2, batch)) {
      AccountableFinality(b1, b2, batch);
      var guilty :| Convicts(guilty, b1, b2);
      assert Guilty(n1.rules, c, n1.genesis, initial, chain1, n1.seen, chain2, n2.seen, guilty);
    } else if OnChain(FinalizedBlock(b1, batch), FinalizedBlock(b2, batch)) {
      OnChainIsFront(n1.rules, c, n1.genesis, initial, f1, f2);
    } else {
      OnChainIsFront(n1.rules, c, n1.genesis, initial, f2, f1);
    }
  }
}
