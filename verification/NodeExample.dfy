/** Two nodes that follow the two chains of a validator who forges every height twice: the agreement of nodes is
    about something, and its exception is needed. */
module NodeExample {
  import opened Basics
  import opened Codec
  import opened CodecFields
  import opened Contradiction
  import opened BftParams
  import opened BftVotes
  import opened BftChain
  import opened BftExample
  import opened NodeFinality
  import K = KeyOrder
  import X = Executer

  function HeaderOf(b: X.Block): Header {
    Header(if b.height == 1 then HEADER1 else if b.height == 2 then HEADER2 else PartialHeader(b.height, 0, 0, 0), NO_COMMIT, b.rest)
  }

  /** The store holds the number of blocks. */
  function VotesIn(s: K.Store): Store {
    if X.STATE_PREFIX !in s then STORE0 else if s[X.STATE_PREFIX] == [1] then STORE1 else STORE2
  }

  function Execute(s: K.Store, last: X.Block, b: X.Block): Option<seq<X.Write>> {
    if last.height == 0 && X.STATE_PREFIX !in s then Some([X.SetKey([], [1])])
    else if last.height == 1 && X.STATE_PREFIX in s && s[X.STATE_PREFIX] == [1] then Some([X.SetKey([], [2])])
    else None
  }

  const RULES: X.Rules := X.Rules(Execute, s => VotesIn(s).votes.maxHeightPrecommitted)
  const READING: Reading := Reading(HeaderOf, (s, b) => None, VotesIn)

  lemma ExecuteStep(s: K.Store, last: X.Block, b: X.Block)
    requires X.After(RULES, s, last, b).Some?
    ensures
      var after := X.After(RULES, s, last, b).value;
      || (last.height == 0 && VotesIn(s) == STORE0 && VotesIn(after) == STORE1)
      || (last.height == 1 && VotesIn(s) == STORE1 && VotesIn(after) == STORE2)
  {
    var writes := Execute(s, last, b).value;
    assert writes[..0] == [] && X.Written(s, writes) == X.WriteTo(X.Written(s, []), writes[0]);
    assert X.STATE_PREFIX + [] == X.STATE_PREFIX;
  }

  lemma RulesRunBft()
    ensures RunsBft(RULES, READING, 0, 1) && StartsBft(READING, map[], 0, UPDATE, 1) && Steady(RULES, READING, map[], X.Block(0, []), UPDATE)
    ensures X.SmallRules(RULES) && TotalWeight(UPDATE.validators) == 1
  {
    hide ProcessBlock, SetBFTParameters, WindowEndsAt, SortByAddress;
    AfterStart();
    forall s, last, b ensures StepIsBft(RULES, READING, 0, 1, s, last, b) {
      if X.After(RULES, s, last, b).Some? {
        ExecuteStep(s, last, b);
        AfterFirst(b.rest);
        AfterSecond(b.rest);
      }
    }
    assert UPDATE.validators[1..] == [];
  }

  function ChainOf(rest: Bytes): seq<X.Block> { [X.Block(0, []), X.Block(1, rest), X.Block(2, rest)] }

  lemma ReplayOf(rest: Bytes)
    ensures
      var one := map[X.STATE_PREFIX := [1]];
      && X.After(RULES, map[], X.Block(0, []), X.Block(1, rest)) == Some(one)
      && X.After(RULES, one, X.Block(1, rest), X.Block(2, rest)) == Some(map[X.STATE_PREFIX := [2]])
  {
    var w1, w2 := [X.SetKey([], [1])], [X.SetKey([], [2])];
    assert w1[..0] == [] && w2[..0] == [] && X.STATE_PREFIX + [] == X.STATE_PREFIX;
    var none: K.Store, one: K.Store := map[], map[X.STATE_PREFIX := [1]];
    assert one[X.STATE_PREFIX := [2]] == map[X.STATE_PREFIX := [2]];
    assert X.Written(none, w1) == X.WriteTo(X.Written(none, []), w1[0]) == one;
    assert X.Written(one, w2) == X.WriteTo(X.Written(one, []), w2[0]) == one[X.STATE_PREFIX := [2]];
  }

  /** A node that is given the two blocks of one of the chains. */
  method Follow(u: Unicode, rest: Bytes) returns (n: X.Executer)
    ensures fresh(n) && n.Valid() && n.rules == RULES && n.genesis == map[]
    ensures n.chain == ChainOf(rest) && n.finalizedHeight == 1
  {
    hide X.After, X.Inv, X.Backed, RunsBft, StartsBft, Steady;
    RulesRunBft();
    ReplayOf(rest);
    n := new X.Executer(RULES, u, X.Block(0, []), map[], []);
    X.LastBlock(n.rules, n.genesis, n.chain, n.store, n.diffs, n.finalizedHeight);
    var _ := n.ProcessValidated(X.Block(1, rest), true);
    var _ := n.ProcessValidated(X.Block(2, rest), true);
  }

  /** The two nodes treat different blocks as final, and so the sole validator is convicted. */
  method Fork(u: Unicode, c: Bytes, d: Bytes) returns (n1: X.Executer, n2: X.Executer)
    requires c != d
    ensures n1.Valid() && n2.Valid() && n1.rules == n2.rules == RULES && n1.genesis == n2.genesis == map[]
    ensures n1.chain == ChainOf(c) && n2.chain == ChainOf(d) && n1.finalizedHeight == n2.finalizedHeight == 1
    ensures !(UpTo(n1.chain, 1) <= UpTo(n2.chain, 1)) && !(UpTo(n2.chain, 1) <= UpTo(n1.chain, 1))
    ensures exists c1, c2, guilty :: Guilty(RULES, READING, map[], UPDATE, c1, n1.seen, c2, n2.seen, guilty)
  {
    hide X.Inv, X.Backed, RunsBft, StartsBft, Steady, Guilty;
    n1 := Follow(u, c);
    n2 := Follow(u, d);
    assert UpTo(n1.chain, 1)[1] != UpTo(n2.chain, 1)[1];
    RulesRunBft();
    NodesAgree(n1, n2, READING, UPDATE, 1);
  }
}
