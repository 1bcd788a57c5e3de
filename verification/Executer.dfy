/** Accepting and deleting blocks: the consensus store, the stored diffs, the chain and the finalized height
    (pkg/consensus/execute.go, pkg/blockchain/chain.go). */
module Executer {
  import opened Basics
  import opened Codec
  import opened CodecFields
  import opened KeyOrder
  import opened DiffCache
  import opened DiffDb
  import opened DiffCommit
  import opened DiffCodec

  /** A block: its height and the rest of it. */
  datatype Block = Block(height: nat, rest: Bytes)

  /** A write of block execution to the consensus store. */
  datatype Write = SetKey(key: Bytes, value: Bytes) | DelKey(key: Bytes)

  /** Verification and execution as the executer uses them: `run` gives the writes of a block on top of the last
      one, or None when a check fails; `precommitted` reads maxHeightPrecommitted from a store. */
  datatype Rules = Rules(run: (Store, Block, Block) -> Option<seq<Write>>, precommitted: Store -> nat)

  /** blockchain.DBPrefixState. */
  const STATE_PREFIX: Bytes := [10]

  function WriteTo(s: Store, w: Write): Store {
    match w
    case SetKey(k, v) => s[STATE_PREFIX + k := v]
    case DelKey(k) => s - {STATE_PREFIX + k}
  }

  function Written(s: Store, writes: seq<Write>): Store {
    if writes == [] then s else WriteTo(Written(s, writes[..|writes| - 1]), writes[|writes| - 1])
  }

  // ---------------------------------------------------------------- replay

  /** The consensus store after a block, if the block is acceptable. */
  function After(r: Rules, s: Store, last: Block, b: Block): Option<Store> {
    if b.height != last.height + 1 then None
    else
      match r.run(s, last, b)
      case None => None
      case Some(writes) => Some(Written(s, writes))
  }

  /** The consensus store after replaying a chain from the genesis block. */
  function Replay(r: Rules, genesis: Store, chain: seq<Block>): Option<Store> {
    if |chain| <= 1 then Some(genesis)
    else
      var before := Replay(r, genesis, chain[..|chain| - 1]);
      if before.None? then None else After(r, before.value, chain[|chain| - 2], chain[|chain| - 1])
  }

  lemma ReplayStep(r: Rules, genesis: Store, chain: seq<Block>, b: Block)
    requires chain != [] && Replay(r, genesis, chain).Some?
    ensures Replay(r, genesis, chain + [b]) == After(r, Replay(r, genesis, chain).value, chain[|chain| - 1], b)
  {
    assert (chain + [b])[..|chain|] == chain;
  }

  lemma {:induction false} ReplayPrefix(r: Rules, genesis: Store, chain: seq<Block>, n: nat)
    requires n <= |chain| && Replay(r, genesis, chain).Some?
    ensures Replay(r, genesis, chain[..n]).Some?
    decreases |chain|
  {
    if n == |chain| {
      assert chain[..n] == chain;
    } else if |chain| > 1 {
      ReplayPrefix(r, genesis, chain[..|chain| - 1], n);
      assert chain[..|chain| - 1][..n] == chain[..n];
    }
  }

  // ---------------------------------------------------------------- sizes

  /** Entries whose encoding still fits into a Go slice. */
  predicate SmallEntry(k: Bytes, v: Bytes) { |k| + |v| < 0x1000_0000_0000_0000 }

  ghost predicate Small(s: Store) { forall k :: k in s ==> SmallEntry(k, s[k]) }

  predicate SmallWrites(writes: seq<Write>) {
    forall i :: 0 <= i < |writes| && writes[i].SetKey? ==> SmallEntry(STATE_PREFIX + writes[i].key, writes[i].value)
  }

  ghost predicate SmallRules(r: Rules) {
    forall s, last, b :: r.run(s, last, b).Some? ==> SmallWrites(r.run(s, last, b).value)
  }

  lemma {:induction false} WrittenSmall(s: Store, writes: seq<Write>)
    requires Small(s) && SmallWrites(writes)
    ensures Small(Written(s, writes))
  {
    if writes != [] { WrittenSmall(s, writes[..|writes| - 1]); }
  }

  lemma {:induction false} ReplaySmall(r: Rules, genesis: Store, chain: seq<Block>)
    requires SmallRules(r) && Small(genesis) && Replay(r, genesis, chain).Some?
    ensures Small(Replay(r, genesis, chain).value)
    decreases |chain|
  {
    hide Small, Written;
    if |chain| > 1 {
      var before := Replay(r, genesis, chain[..|chain| - 1]);
      ReplaySmall(r, genesis, chain[..|chain| - 1]);
      WrittenSmall(before.value, r.run(before.value, chain[|chain| - 2], chain[|chain| - 1]).value);
    }
  }

  lemma SizeFieldShort(n: nat)
    requires n < UINT64
    ensures |Varint(n)| <= 10
  {
    hide Varint, Pow128;
    Pow128Values();
    Pow128Next(9);
    VarintLength(n, 10);
  }

  lemma SmallKvFits(k: Bytes, v: Bytes)
    requires SmallEntry(k, v)
    ensures KvFits(KV(k, v)) && Fits(k)
  {
    hide Varint;
    SizeFieldShort(10);
    SizeFieldShort(18);
    SizeFieldShort(|k|);
    SizeFieldShort(|v|);
  }

  /** The diff between two small stores can be encoded. */
  lemma SmallDiffFits(diff: Diff, base: Store, view: Store)
    requires Undoes(diff, base, view) && Small(base) && Small(view)
    ensures DiffFits(diff)
  {
    hide KvFits, Fits;
    forall i | 0 <= i < |diff.added| ensures Fits(diff.added[i]) {
      assert diff.added[i] in diff.added;
      SmallKvFits(diff.added[i], view[diff.added[i]]);
    }
    forall i | 0 <= i < |diff.updated| ensures KvFits(diff.updated[i]) {
      assert diff.updated[i] in diff.updated;
      SmallKvFits(diff.updated[i].key, diff.updated[i].value);
    }
    forall i | 0 <= i < |diff.deleted| ensures KvFits(diff.deleted[i]) {
      assert diff.deleted[i] in diff.deleted;
      SmallKvFits(diff.deleted[i].key, diff.deleted[i].value);
    }
  }

  // ---------------------------------------------------------------- stored diffs

  /** The diff of a height is stored and leads from `after` back to `before`. */
  ghost predicate DiffStored(diffs: map<nat, Bytes>, height: nat, before: Store, after: Store) {
    && height in diffs
    && exists d :: DiffFits(d) && Undoes(d, before, after) && diffs[height] == DiffEncoded(d)
  }

  ghost predicate DiffStoredAt(r: Rules, genesis: Store, chain: seq<Block>, diffs: map<nat, Bytes>, i: nat)
    requires 1 <= i < |chain| && Replay(r, genesis, chain).Some?
  {
    ReplayPrefix(r, genesis, chain, i);
    ReplayPrefix(r, genesis, chain, i + 1);
    DiffStored(diffs, chain[i].height, Replay(r, genesis, chain[..i]).value, Replay(r, genesis, chain[..i + 1]).value)
  }

  /** Every height above the finalized one has its diff. */
  ghost predicate DiffsStored(r: Rules, genesis: Store, chain: seq<Block>, diffs: map<nat, Bytes>, finalized: nat)
    requires Replay(r, genesis, chain).Some?
  {
    forall i :: 1 <= i < |chain| && chain[i].height > finalized ==> DiffStoredAt(r, genesis, chain, diffs, i)
  }

  predicate Consecutive(chain: seq<Block>) {
    forall i :: 0 <= i < |chain| ==> chain[i].height == chain[0].height + i
  }

  /** What every reachable state keeps. */
  ghost predicate Inv(r: Rules, genesis: Store, chain: seq<Block>, store: Store, diffs: map<nat, Bytes>, finalized: nat) {
    && chain != [] && Consecutive(chain) && finalized >= chain[0].height
    && Replay(r, genesis, chain) == Some(store) && Small(genesis)
    && DiffsStored(r, genesis, chain, diffs, finalized)
  }

  /** A stored diff stays good when the chain changes only above it. */
  lemma DiffStillStored(r: Rules, genesis: Store, chain: seq<Block>, other: seq<Block>, diffs: map<nat, Bytes>, newDiffs: map<nat, Bytes>,
                        i: nat, finalized: nat, excluded: nat)
    requires Replay(r, genesis, chain).Some? && Replay(r, genesis, other).Some?
    requires 1 <= i < |chain| && i < |other| && other[..i + 1] == chain[..i + 1]
    requires DiffStoredAt(r, genesis, chain, diffs, i)
    requires chain[i].height > finalized && chain[i].height != excluded
    requires forall h :: h in diffs && h > finalized && h != excluded ==> h in newDiffs && newDiffs[h] == diffs[h]
    ensures DiffStoredAt(r, genesis, other, newDiffs, i)
  {
    hide Replay, DiffStored;
    ReplayPrefix(r, genesis, chain, i);
    ReplayPrefix(r, genesis, chain, i + 1);
    assert other[..i] == other[..i + 1][..i] == chain[..i + 1][..i] == chain[..i];
    assert other[i] == other[..i + 1][i] == chain[..i + 1][i] == chain[i];
    SameDiff(diffs, newDiffs, chain[i].height, Replay(r, genesis, chain[..i]).value, Replay(r, genesis, chain[..i + 1]).value,
             finalized, excluded);
  }

  lemma AcceptKeepsInv(r: Rules, genesis: Store, chain: seq<Block>, store: Store, diffs: map<nat, Bytes>, finalized: nat,
                       b: Block, after: Store, newDiffs: map<nat, Bytes>, newFinalized: nat)
    requires Inv(r, genesis, chain, store, diffs, finalized)
    requires After(r, store, chain[|chain| - 1], b) == Some(after)
    requires newFinalized >= finalized
    requires forall h :: h in diffs && h > newFinalized && h != b.height ==> h in newDiffs && newDiffs[h] == diffs[h]
    requires b.height > newFinalized ==> DiffStored(newDiffs, b.height, store, after)
    ensures Inv(r, genesis, chain + [b], after, newDiffs, newFinalized)
  {
    hide After, Small, Replay, DiffStored;
    var grown := chain + [b];
    ReplayStep(r, genesis, chain, b);
    HeightOfAccepted(r, store, chain[|chain| - 1], b);
    assert grown[..|chain|] == chain && grown[..|chain| + 1] == grown;
    forall i | 1 <= i < |grown| && grown[i].height > newFinalized ensures DiffStoredAt(r, genesis, grown, newDiffs, i) {
      if i < |chain| {
        assert grown[..i + 1] == chain[..i + 1];
        DiffStillStored(r, genesis, chain, grown, diffs, newDiffs, i, newFinalized, b.height);
      }
    }
  }

  lemma HeightOfAccepted(r: Rules, s: Store, last: Block, b: Block)
    requires After(r, s, last, b).Some?
    ensures b.height == last.height + 1
  {
  }

  lemma SameDiff(diffs: map<nat, Bytes>, newDiffs: map<nat, Bytes>, h: nat, before: Store, after: Store, finalized: nat, other: nat)
    requires DiffStored(diffs, h, before, after) && h > finalized && h != other
    requires forall h :: h in diffs && h > finalized && h != other ==> h in newDiffs && newDiffs[h] == diffs[h]
    ensures DiffStored(newDiffs, h, before, after)
  {
    hide Undoes, DiffFits, DiffEncoded;
  }

  lemma DeleteKeepsInv(r: Rules, genesis: Store, chain: seq<Block>, store: Store, diffs: map<nat, Bytes>, finalized: nat, before: Store)
    requires Inv(r, genesis, chain, store, diffs, finalized) && |chain| >= 2
    requires Replay(r, genesis, chain[..|chain| - 1]) == Some(before)
    ensures Inv(r, genesis, chain[..|chain| - 1], before, diffs - {chain[|chain| - 1].height}, finalized)
  {
    hide After, DiffStoredAt, Small, Replay;
    var shorter := chain[..|chain| - 1];
    var left := diffs - {chain[|chain| - 1].height};
    forall i | 1 <= i < |shorter| && shorter[i].height > finalized ensures DiffStoredAt(r, genesis, shorter, left, i) {
      assert shorter[..i + 1] == chain[..i + 1];
      DiffStillStored(r, genesis, chain, shorter, diffs, left, i, finalized, chain[|chain| - 1].height);
    }
  }

  /** The blocks of `a` at or below a height are where they were. */
  ghost predicate SameUpTo(a: seq<Block>, b: seq<Block>, height: nat) {
    forall i :: 0 <= i < |a| && a[i].height <= height ==> i < |b| && b[i] == a[i]
  }

  // ---------------------------------------------------------------- where the finalized height comes from

  ghost predicate AllIn(chain: seq<Block>, seen: set<Block>) { forall i :: 0 <= i < |chain| ==> chain[i] in seen }

  /** The chain `c` consists of blocks the node accepted at some time, its own store tells the height `finalized`, and
      up to that height `chain` is the same. */
  ghost predicate FinalizedBy(r: Rules, genesis: Store, c: seq<Block>, chain: seq<Block>, finalized: nat, seen: set<Block>) {
    && c != [] && chain != [] && c[0] == chain[0] && Consecutive(c) && AllIn(c, seen)
    && Replay(r, genesis, c).Some?
    && (finalized == c[0].height || finalized == r.precommitted(Replay(r, genesis, c).value))
    && SameUpTo(c, chain, finalized)
  }

  /** Some chain the node followed made the height final, and it has accepted all blocks of its present chain. */
  ghost predicate Backed(r: Rules, genesis: Store, chain: seq<Block>, finalized: nat, seen: set<Block>) {
    AllIn(chain, seen) && exists c :: FinalizedBy(r, genesis, c, chain, finalized, seen)
  }

  lemma BackedByGenesis(r: Rules, genesis: Store, block: Block)
    ensures Backed(r, genesis, [block], block.height, {block})
  {
    assert FinalizedBy(r, genesis, [block], [block], block.height, {block});
  }

  /** An accepted block keeps the backing, or backs the height its store tells. */
  lemma BackedGrows(r: Rules, genesis: Store, chain: seq<Block>, b: Block, finalized: nat, seen: set<Block>)
    requires chain != [] && Consecutive(chain + [b]) && Replay(r, genesis, chain + [b]).Some?
    requires Backed(r, genesis, chain, finalized, seen)
    ensures Backed(r, genesis, chain + [b], finalized, seen + {b})
    ensures Backed(r, genesis, chain + [b], r.precommitted(Replay(r, genesis, chain + [b]).value), seen + {b})
  {
    hide Replay, Consecutive;
    var c :| FinalizedBy(r, genesis, c, chain, finalized, seen);
    GrowKeeps(c, chain, b, finalized);
    assert FinalizedBy(r, genesis, c, chain + [b], finalized, seen + {b});
    var height := r.precommitted(Replay(r, genesis, chain + [b]).value);
    KeepsItself(chain + [b], height);
    assert FinalizedBy(r, genesis, chain + [b], chain + [b], height, seen + {b});
  }

  /** Deleting a block above the finalized height keeps the backing. */
  lemma BackedShrinks(r: Rules, genesis: Store, chain: seq<Block>, finalized: nat, seen: set<Block>)
    requires |chain| >= 2 && chain[|chain| - 1].height > finalized && Backed(r, genesis, chain, finalized, seen)
    ensures Backed(r, genesis, chain[..|chain| - 1], finalized, seen)
  {
    hide Replay, Consecutive;
    var c :| FinalizedBy(r, genesis, c, chain, finalized, seen);
    ShrinkKeeps(c, chain, finalized);
    assert FinalizedBy(r, genesis, c, chain[..|chain| - 1], finalized, seen);
  }

  // ---------------------------------------------------------------- Executer

  method ExecuteWrites(db: Database, writes: seq<Write>)
    requires db.Valid() && db.prefix == STATE_PREFIX
    modifies db.cache
    ensures db.Valid() && db.Contents() == Written(old(db.Contents()), writes)
  {
    hide Consistent, View;
    for i := 0 to |writes|
      invariant db.Valid() && db.Contents() == Written(old(db.Contents()), writes[..i])
    {
      assert writes[..i + 1][..i] == writes[..i];
      match writes[i] {
        case SetKey(k, v) => db.Set(k, v);
        case DelKey(k) => db.Del(k);
      }
    }
    assert writes[..|writes|] == writes;
  }

  /** Executing a block on a database of its own: the store after it, and the diff that leads back. */
  method ExecuteBlock(store: Store, writes: seq<Write>) returns (next: Store, diff: Diff)
    ensures next == Written(store, writes) && Undoes(diff, store, next)
  {
    hide Undoes, Apply, View, Consistent, Written;
    var db := new Database(store, STATE_PREFIX);
    ExecuteWrites(db, writes);
    var batch := new Batch();
    diff := Commit(db, batch);
    assert batch.ops[0..] == batch.ops;
    next := Apply(store, batch.ops);
  }

  /** Apart from the diff of the block at `height`, the diffs are as before, without those below a finalized height
      that has moved. */
  ghost predicate DiffsKept(before: map<nat, Bytes>, after: map<nat, Bytes>, height: nat, was: nat, now: nat) {
    && (forall h :: h in after && h != height ==> h in before && after[h] == before[h])
    && (forall h :: h in after <==> (h == height || h in before) && !(h in before && was < now && h < now))
  }

  lemma KeptDiffs(before: map<nat, Bytes>, after: map<nat, Bytes>, height: nat, diff: Bytes, was: nat, now: nat)
    requires was < now ==> after == map h | h in before[height := diff] && !(h in before.Keys && h < now) :: before[height := diff][h]
    requires now <= was ==> after == before[height := diff]
    ensures DiffsKept(before, after, height, was, now)
  {
  }

  class Executer {
    const rules: Rules
    const unicode: Unicode
    ghost const genesis: Store
    var store: Store
    var diffs: map<nat, Bytes>
    var chain: seq<Block>
    var finalizedHeight: nat
    /** Every block accepted so far, deleted ones included. */
    ghost var seen: set<Block>

    ghost predicate Valid()
      reads this
    {
      && SmallRules(rules) && Inv(rules, genesis, chain, store, diffs, finalizedHeight)
      && Backed(rules, genesis, chain, finalizedHeight, seen)
    }

    /** processGenesisBlock: the genesis block is final from the start. */
    constructor (r: Rules, u: Unicode, block: Block, state: Store, diff: Bytes)
      requires SmallRules(r) && Small(state)
      ensures Valid() && rules == r && genesis == state && chain == [block] && finalizedHeight == block.height && seen == {block}
    {
      rules, unicode, genesis, store, seen := r, u, state, state, {block};
      diffs, chain, finalizedHeight := map[block.height := diff], [block], block.height;
      new;
      BackedByGenesis(r, state, block);
    }

    /** processValidated. `abiOk` tells whether the application accepts the commit. */
    method ProcessValidated(block: Block, abiOk: bool) returns (ok: bool)
      requires Valid()
      modifies this
      ensures Valid()
      ensures ok <==> abiOk && After(rules, old(store), old(chain)[|old(chain)| - 1], block).Some?
      ensures ok ==>
                && chain == old(chain) + [block] && seen == old(seen) + {block}
                && Some(store) == After(rules, old(store), old(chain)[|old(chain)| - 1], block)
                && finalizedHeight == if rules.precommitted(store) > old(finalizedHeight) then rules.precommitted(store) else old(finalizedHeight)
      ensures ok ==> DiffsKept(old(diffs), diffs, block.height, old(finalizedHeight), finalizedHeight)
      ensures !ok ==> chain == old(chain) && store == old(store) && finalizedHeight == old(finalizedHeight) && diffs == old(diffs) && seen == old(seen)
    {
      hide Inv, Undoes, DiffFits, Apply, View, Consistent, Small, SmallRules, DiffEncoded, DiffStored, Written, Backed,
        Replay, FinalizedBy, Consecutive, RevertOps, DiffsStored, DiffsKept;
      LastBlock(rules, genesis, chain, store, diffs, finalizedHeight);
      if block.height != chain[|chain| - 1].height + 1 {
        return false;
      }
      var writes := rules.run(store, chain[|chain| - 1], block);
      if writes.None? {
        return false;
      }
      var next, diff := ExecuteBlock(store, writes.value);
      AcceptedDiff(rules, genesis, chain, store, diffs, finalizedHeight, block, next, diff);
      var encoded := EncodeDiff(unicode, diff);
      if !abiOk {
        return false;
      }
      var newDiffs := diffs[block.height := encoded];
      var newFinalized := finalizedHeight;
      var precommitted := rules.precommitted(next);
      if precommitted > finalizedHeight {
        newFinalized := precommitted;
        newDiffs := DeleteDiffs(newDiffs, diffs.Keys, precommitted);
      }
      KeptDiffs(diffs, newDiffs, block.height, encoded, finalizedHeight, newFinalized);
      StoredForBlock(newDiffs, block.height, store, next, diff, newFinalized);
      AcceptKeepsInv(rules, genesis, chain, store, diffs, finalizedHeight, block, next, newDiffs, newFinalized);
      LastBlock(rules, genesis, chain + [block], next, newDiffs, newFinalized);
      HeightsOf(rules, genesis, chain + [block], next, newDiffs, newFinalized);
      BackedGrows(rules, genesis, chain, block, finalizedHeight, seen);
      store, diffs, chain, finalizedHeight, seen := next, newDiffs, chain + [block], newFinalized, seen + {block};
      return true;
    }

    /** deleteBlock for the last block: it goes exactly when it is above the finalized height. */
    method DeleteBlock(abiOk: bool) returns (ok: bool)
      requires Valid()
      modifies this
      ensures Valid()
      ensures ok <==> abiOk && old(chain)[|old(chain)| - 1].height > finalizedHeight
      ensures finalizedHeight == old(finalizedHeight) && seen == old(seen)
      ensures ok ==>
                && |old(chain)| >= 2 && chain == old(chain)[..|old(chain)| - 1] && diffs == old(diffs) - {old(chain)[|old(chain)| - 1].height}
                && Replay(rules, genesis, chain) == Some(store)
                && After(rules, store, chain[|chain| - 1], old(chain)[|old(chain)| - 1]) == Some(old(store))
      ensures !ok ==> chain == old(chain) && store == old(store) && diffs == old(diffs)
    {
      hide Inv, Undoes, DiffFits, Apply, Small, SmallRules, DiffEncoded, DiffDecoded, DiffStored, After, Replay, Backed;
      LastBlock(rules, genesis, chain, store, diffs, finalizedHeight);
      var last := chain[|chain| - 1];
      if last.height <= finalizedHeight {
        return false;
      }
      LastDiff(rules, genesis, chain, store, diffs, finalizedHeight);
      if last.height !in diffs {
        return false;
      }
      var diff := DecodeDiff(unicode, diffs[last.height]);
      if diff.None? {
        return false;
      }
      var batch := new Batch();
      RevertDiff(batch, diff.value);
      assert batch.ops == RevertOps(diff.value);
      if !abiOk {
        return false;
      }
      var before := Apply(store, batch.ops);
      DeleteKeepsInv(rules, genesis, chain, store, diffs, finalizedHeight, before);
      BackedShrinks(rules, genesis, chain, finalizedHeight, seen);
      store, diffs, chain := before, diffs - {last.height}, chain[..|chain| - 1];
      return true;
    }

    /** The tie break of process: the last block makes way for another one of its height; if that one is not
        acceptable, chain and store are as before. */
    method TieBreak(block: Block, revertOk: bool) returns (ok: bool)
      requires Valid()
      modifies this
      ensures Valid() && finalizedHeight >= old(finalizedHeight)
      ensures ok <==> revertOk && old(chain)[|old(chain)| - 1].height > old(finalizedHeight)
      ensures !ok ==> chain == old(chain) && store == old(store)
      ensures ok ==>
                var before := Replay(rules, genesis, old(chain)[..|old(chain)| - 1]);
                && before.Some?
                && var next := After(rules, before.value, old(chain)[|old(chain)| - 2], block);
                if next.Some? then chain == old(chain)[..|old(chain)| - 1] + [block] && store == next.value
                else chain == old(chain) && store == old(store)
    {
      hide Inv, After, Replay, Backed;
      LastBlock(rules, genesis, chain, store, diffs, finalizedHeight);
      var last := chain[|chain| - 1];
      ok := DeleteBlock(revertOk);
      if !ok {
        return;
      }
      var accepted := ProcessValidated(block, true);
      if !accepted {
        assert old(chain) == chain + [last];
        var _ := ProcessValidated(last, true);
      }
    }

    /** Any run of accepted and removed blocks: the finalized height never decreases, and every block at or below
        it stays where it is. */
    method Run(requests: seq<Request>)
      requires Valid()
      modifies this
      ensures Valid() && finalizedHeight >= old(finalizedHeight)
      ensures SameUpTo(old(chain), chain, old(finalizedHeight))
      ensures seen <= old(seen) + Offered(requests)
    {
      hide Inv, After, Replay, Backed;
      KeepsItself(chain, finalizedHeight);
      for i := 0 to |requests|
        invariant Valid() && finalizedHeight >= old(finalizedHeight)
        invariant seen <= old(seen) + Offered(requests)
        invariant SameUpTo(old(chain), chain, old(finalizedHeight))
      {
        ghost var before := chain;
        LastBlock(rules, genesis, chain, store, diffs, finalizedHeight);
        HeightsOf(rules, genesis, chain, store, diffs, finalizedHeight);
        match requests[i] {
          case Accept(block, abiOk) =>
            var ok := ProcessValidated(block, abiOk);
            if ok { GrowKeeps(old(chain), before, block, old(finalizedHeight)); }
          case Remove(abiOk) =>
            var ok := DeleteBlock(abiOk);
            if ok { ShrinkKeeps(old(chain), before, old(finalizedHeight)); }
        }
      }
    }
  }

  datatype Request = Accept(block: Block, abiOk: bool) | Remove(abiOk: bool)

  /** The blocks of a run of requests. */
  ghost function Offered(requests: seq<Request>): set<Block> { set q | q in requests && q.Accept? :: q.block }

  lemma KeepsItself(a: seq<Block>, height: nat)
    ensures SameUpTo(a, a, height)
  {
  }

  lemma HeightsOf(r: Rules, genesis: Store, chain: seq<Block>, store: Store, diffs: map<nat, Bytes>, finalized: nat)
    requires Inv(r, genesis, chain, store, diffs, finalized)
    ensures Consecutive(chain)
  {
  }

  lemma GrowKeeps(a: seq<Block>, b: seq<Block>, block: Block, height: nat)
    requires SameUpTo(a, b, height)
    ensures SameUpTo(a, b + [block], height)
  {
  }

  lemma ShrinkKeeps(a: seq<Block>, b: seq<Block>, height: nat)
    requires SameUpTo(a, b, height) && b != [] && b[|b| - 1].height > height
    ensures SameUpTo(a, b[..|b| - 1], height)
  {
  }

  lemma LastBlock(r: Rules, genesis: Store, chain: seq<Block>, store: Store, diffs: map<nat, Bytes>, finalized: nat)
    requires Inv(r, genesis, chain, store, diffs, finalized)
    ensures chain != [] && Replay(r, genesis, chain) == Some(store)
    ensures chain[|chain| - 1].height > finalized ==> |chain| >= 2
  {
  }

  /** The new store and the diff of an accepted block. */
  lemma AcceptedDiff(r: Rules, genesis: Store, chain: seq<Block>, store: Store, diffs: map<nat, Bytes>, finalized: nat,
                     b: Block, next: Store, diff: Diff)
    requires Inv(r, genesis, chain, store, diffs, finalized) && SmallRules(r)
    requires After(r, store, chain[|chain| - 1], b) == Some(next) && Undoes(diff, store, next)
    ensures DiffFits(diff)
  {
    hide Undoes, DiffFits, Small, DiffsStored, Replay, SmallWrites, Written;
    ReplaySmall(r, genesis, chain);
    WrittenSmall(store, r.run(store, chain[|chain| - 1], b).value);
    SmallDiffFits(diff, store, next);
  }

  lemma StoredForBlock(diffs: map<nat, Bytes>, h: nat, before: Store, after: Store, d: Diff, finalized: nat)
    requires DiffFits(d) && Undoes(d, before, after)
    requires h > finalized ==> h in diffs && diffs[h] == DiffEncoded(d)
    ensures h > finalized ==> DiffStored(diffs, h, before, after)
  {
    hide DiffFits, Undoes, DiffEncoded;
  }

  /** The stored diff of the last block above the finalized height decodes and reverts it. */
  lemma LastDiff(r: Rules, genesis: Store, chain: seq<Block>, store: Store, diffs: map<nat, Bytes>, finalized: nat)
    requires Inv(r, genesis, chain, store, diffs, finalized) && chain[|chain| - 1].height > finalized
    ensures |chain| >= 2 && chain[|chain| - 1].height in diffs
    ensures Replay(r, genesis, chain[..|chain| - 1]).Some?
    ensures
      var before := Replay(r, genesis, chain[..|chain| - 1]).value;
      var d := DiffDecoded(diffs[chain[|chain| - 1].height]);
      && d.Some? && Apply(store, RevertOps(d.value)) == before
      && After(r, before, chain[|chain| - 2], chain[|chain| - 1]) == Some(store)
  {
    hide Undoes, DiffFits, Apply, DiffEncoded, DiffDecoded, After, Small;
    var last := chain[|chain| - 1];
    assert |chain| >= 2;
    assert DiffStoredAt(r, genesis, chain, diffs, |chain| - 1);
    assert chain[..|chain| - 1 + 1] == chain;
    var before := Replay(r, genesis, chain[..|chain| - 1]).value;
    var d :| DiffFits(d) && Undoes(d, before, store) && diffs[last.height] == DiffEncoded(d);
    StoredDiffRestores(d, before, store);
  }

  /** deleting the diffs below the new finalized height. */
  method DeleteDiffs(diffs: map<nat, Bytes>, stored: set<nat>, height: nat) returns (r: map<nat, Bytes>)
    ensures r == map h | h in diffs && !(h in stored && h < height) :: diffs[h]
  {
    r := diffs;
    var keys := stored;
    while keys != {}
      invariant keys <= stored
      invariant r == map h | h in diffs && !(h in stored && h !in keys && h < height) :: diffs[h]
      decreases |keys|
    {
      var key :| key in keys;
      keys := keys - {key};
      if key < height {
        r := r - {key};
      }
    }
  }
}
