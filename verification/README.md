# Verified model of lisk-engine

lisk-engine is the engine of a Lisk node: it runs the Lisk-BFT consensus over a
chain of blocks, keeps the consensus state in a revertible store, commits to
state and blocks with two Merkle trees, encodes everything with a canonical
binary codec, and picks transactions for new blocks. This project models that
core in Dafny and proves what the engine promises about it.

`dafny verify dfyconfig.toml` checks all files. The main results, by component:

- **Lisk-BFT** (`Bft*.dfy`). Blocks are terms with a parent, so a chain is a
  block. `BftMachine` holds the module as the source has it: classes with the
  vote window, the active validators, the parameter cache and the store.
  `BftChain` is the same step as a function, `BftReachable` proves the
  invariants of every accepted chain, and `BftFinality` proves accountable
  finality: two conflicting finalized blocks convict validators of weight at
  least `prevoteThreshold + precommitThreshold - total`. `BftExample` shows two
  such chains. `BftHistory`, `BftVoting` and `BftAcceptance` say from the blocks
  of a chain alone which parameters are in force, what pruning keeps, who is
  active since when, what a block votes for and which header is accepted, each
  as an if-and-only-if. `BftProgress` and `BftLiveness` prove that honest
  validators get their blocks accepted and finalized.
- **Regular Merkle tree** (`Rmt*.dfy`). Appending in place keeps the root, the
  append path and the location store; right witnesses recombine to the root;
  proofs for any number of values are accepted exactly when none that needs a
  sibling hash is asked for twice, and for which lists of indexes an accepted
  proof is sound is decided exactly (`RmtTruth.TruthfulIff`).
- **Sparse Merkle trie** (`Smt*.dfy`). The batched update on flat height-8
  subtrees in a database refines a map: the root is always the root of the map,
  and every reachable subtree is stored. Proofs are complete, and sound for query
  keys of full length.
- **Diff database and execution** (`KeyOrder`, `Diff*.dfy`, `Executer.dfy`). Reads and
  writes through the cache are those of a plain map; commit and its diff are
  inverse; over every run of accepted and deleted blocks the store is the replay
  of the chain and finality never moves back.
- **Nodes** (`NodeFinality.dfy`, `NodeExample.dfy`). Both halves together: two
  nodes that execute, delete and finalize blocks under Lisk-BFT agree on what is
  final, or the blocks they have accepted convict validators of that weight.
- **Codec, addresses** (`Codec*.dfy`, `Transaction.dfy`, `BitWords.dfy`,
  `WireFormat.dfy`, `Code*.dfy`, `Lisk32*.dfy`). Strict decoding accepts exactly
  the encodings; Lisk32 strings have exactly one valid checksum and round trip,
  and no change of up to three characters goes unnoticed: the checksum is a code
  over the field of 1024 elements with three consecutive roots.
- **Transaction selection** (`Selector.dfy`). Greedy by fee priority within
  nonce order and size.

Hashes are terms built by their constructors, so two hashes are equal exactly
when what was hashed is equal; the theorems about trees hold as far as SHA-256
has no collisions. Integer widths are written out where they matter: the uint64
sums and thresholds of validator weights, the varint codec, the running index of
right witnesses, the 32-bit parsing of Merkle indexes, the shifts and masks of
the address checksum.

Seven properties hold only under a condition, and each comes with that condition:

- Weight totals are exact if and only if they are below 2^64, and prevote
  thresholds if and only if they are below 2^63 (`BftFinality.AggregateExact`,
  `PrevoteThresholdExact`, with `WrappedTotalIsAccepted` and
  `WrappedThresholdIsAccepted` as inputs past the bounds). The results about
  accepted chains assume totals below 2^64.
- `DiffDb.Database.Range` with the limit 1 returns the first entry if and only
  if that entry is cached or comes first among the stored ones
  (`HiddenByDeletion` is the input that fails). `DiffParams` proves that lookups
  of the Lisk-BFT parameters in force at heights from the last pruning on meet
  the condition.
- A signed number is read back if and only if it is not the smallest int64
  (`Codec.ReadIntInverts`).
- A proof of appended values of the regular Merkle tree exists if and only if the
  tree has at most 30 layers, because node indexes are parsed as signed 32-bit
  numbers (`RmtProof.GenerateProof`).
- That proof is accepted if and only if every value that is asked for more than
  once has the leaf beside it asked for, too, or has none
  (`RmtProof.ProveAndVerify`; `RepeatedLeafFails` is the input that fails).
- Everything that is accepted for a list of places of the regular Merkle tree is
  true if and only if every hash is compared (`RmtTruth.TruthfulIff`). A query at
  a place that is no node of its own, because the place has an only child, takes
  the place of what comes from below. So if a query lies further down, the first
  must be the only one on its chain of only children, and the neighbour of the
  chain's top must be at or above a query; and no index may be repeated, because
  only the last hash counts. `RmtOutside.AnyHashPasses` is the input that fails.
  Outside the tree, an index below the leaves is refused, the hashes at 1 and 3
  are never looked at, and an index beyond the right edge can be accepted
  (`RmtOutside.TooDeepIsRefused`, `NeverLookedAt`, `BeyondTheEdge`).
- An accepted query of the sparse Merkle trie tells the truth about the key if and
  only if its key has full length, or it shows an empty place, or its key and
  value joined do not begin with the key asked for (`SmtVerify.AcceptedIsTrue`;
  `PresentPassesAsAbsent` is the input that fails).

## Model

| member | source | states |
|---|---|---|
| `Contradiction.ContradictionIsSymmetric` | pkg/consensus/contradiction/contradiction.go:48-79 | whether two headers contradict does not depend on their order |
| `Contradiction.CompatibleIffOneFollows` | pkg/consensus/contradiction/contradiction.go:48-79 | two headers of one generator are compatible if and only if one is a legal successor of the other: it acknowledges the other's height and lowers neither what it generated nor what it saw prevoted |
| `BftParams.QuorumIntersection` | pkg/consensus/liskbft/api.go:128-133 | two voter sets that reach two thresholds share validators of weight at least the sum of the thresholds minus the total |
| `BftParams.PruneKeepsLookup` | pkg/consensus/liskbft/util.go:45-57 | pruning at a minimum height leaves the parameters in force unchanged at every height from that minimum on |
| `BftParams.PruneIsTight` | pkg/consensus/liskbft/util.go:45-57 | every surviving entry is still the one in force at some height from the minimum on, so none could be dropped |
| `BftParams.WriteChangesOnlyLater` | pkg/consensus/liskbft/util.go:15-28 | writing parameters for a height decides that height and leaves all lower heights alone |
| `BftParams.LookupByFloor` | pkg/consensus/liskbft/util.go:15-28 | the entry in force at a height is that of the greatest written height not above it |
| `BftVotes.NewestHeightSpec` | pkg/consensus/liskbft/validator.go:246-272 | the scan returns the height of the newest window block that reaches its threshold, or the old value when none does |
| `BftMachine.LoadEntries` | pkg/consensus/liskbft/validator.go:345-380 | the entries loaded for a range answer every height of the range exactly as the floor lookup in the store; loading fails exactly when a first height above zero has no parameters |
| `BftMachine.ParamsCache.Cache` | pkg/consensus/liskbft/validator.go:345-380 | after caching a range every height in it is answered as the store answers it; fails exactly when the lookup of the first height fails |
| `BftMachine.ParamsCache.GetParameters` | pkg/consensus/liskbft/validator.go:382-393 | the answer equals the floor lookup in the store, from the cache or not |
| `BftMachine.VoteState.InsertBlockBFTInfo` | pkg/consensus/liskbft/validator.go:157-175 | the new header goes in front with zero weights and the window keeps at most the maximal length |
| `BftMachine.VoteState.GetHeightNotPrevoted` | pkg/consensus/liskbft/validator.go:282-298 | the descent through the generator's own blocks; DescentIff says exactly when it ends below a height |
| `BftMachine.VoteState.AddPrecommits` | pkg/consensus/liskbft/validator.go:198-222 | precommit weights grow exactly at heights from the minimum on that reached the prevote threshold, and the largest such height is recorded for the validator |
| `BftMachine.VoteState.AddPrevotes` | pkg/consensus/liskbft/validator.go:224-243 | prevote weights grow by the generator's weight at that height, exactly at heights from the minimum on |
| `BftMachine.VoteState.UpdatePrevotesPrecommits` | pkg/consensus/liskbft/validator.go:177-244 | the votes the newest header implies, which BlockPrevotesIff and BlockPrecommitsIff tell from the blocks of the chain, are counted, and the largest precommitted height recorded; fails exactly when the generator is no validator at a height it votes for |
| `BftMachine.VoteState.UpdateMaxHeightPrevoted` | pkg/consensus/liskbft/validator.go:246-258 | the prevoted height becomes that of the newest block with a prevote quorum |
| `BftMachine.VoteState.UpdateMaxHeightPrecommitted` | pkg/consensus/liskbft/validator.go:260-272 | the precommitted height becomes that of the newest block with a precommit quorum |
| `BftMachine.VoteState.UpdateMaxHeightCertified` | pkg/consensus/liskbft/validator.go:274-280 | a commit that is not empty sets the certified height, as CertifiedIsNewest is about it |
| `BftMachine.VoteState.ProcessHeader` | pkg/consensus/liskbft/module.go:83-112 | the whole vote state after a header equals the specification that the invariants are proved about; fails exactly when a lookup of parameters or of a weight fails |
| `BftMachine.VoteState.IsContradicting` | pkg/consensus/liskbft/validator.go:300-312 | a header contradicts the chain exactly when it contradicts the newest window header of the same generator |
| `BftMachine.AggregateWeight` | pkg/consensus/liskbft/api.go:121-127 | the sum of the weights modulo 2^64; refused exactly when some weight is zero |
| `BftMachine.Module.DeleteBFTParams` | pkg/consensus/liskbft/util.go:45-57 | exactly the entries that a newer one at or below the height supersedes are gone |
| `BftMachine.Module.BeforeTransactionsExecute` | pkg/consensus/liskbft/module.go:83-126 | the store after a header equals the chain step that the invariants are proved about; StoredInForce and NothingElseStored say what pruning leaves; on failure the store is as before |
| `BftMachine.Module.SetBFTParameters` | pkg/consensus/liskbft/api.go:112-202 | the store after new parameters, thresholds with the uint64 wrap and the new active list, as UpdateTakesEffect and ValidUpdateIff are about them; on failure the store is as before |
| `BftReachable.AcceptedInv` | pkg/consensus/liskbft/module.go:83-126 | the joint invariant of votes, heights, active validators and parameters holds after every accepted chain whose updates have totals below 2^64 |
| `BftReachable.VoteAccounting` | pkg/consensus/liskbft/validator.go:177-244 | on every accepted chain the two weights of a window block are the summed weights of sets of distinct validators of that height, so nobody counts twice and neither exceeds the total |
| `BftReachable.VerifiedHeaderNeverFails` | pkg/consensus/liskbft/validator.go:177-244 | processing a header that passed verification never meets missing parameters or an unknown validator |
| `BftReachable.HeightsNeverFallInOneBlock` | pkg/consensus/liskbft/module.go:83-126 | an accepted block lowers none of the prevoted, precommitted and certified heights |
| `BftReachable.BftHeights` | pkg/consensus/liskbft/validator.go:157-175 | after every accepted chain the window is consecutive and at most three batches long, certified <= precommitted <= prevoted <= tip, and no height is below its value at any ancestor |
| `BftFinality.DescentCrosses` | pkg/consensus/liskbft/validator.go:282-298 | along a validator's own blocks, as the descent follows them, some block crosses any height between its ends |
| `BftFinality.VotesContradict` | pkg/consensus/contradiction/contradiction.go:48-79 | a header that precommits a block and a header that prevotes a conflicting one, by one validator, lead to two headers of that validator that the rule flags |
| `BftFinality.ConflictingQuorumsConvict` | pkg/consensus/verify.go:50-69 | over one fixed validator set, a precommit quorum at a height and a prevote quorum of another chain at or above it, where the two chains differ at that height, convict validators of at least the guaranteed weight |
| `BftFinality.AccountableFinality` | pkg/consensus/liskbft/validator.go:157-312 | if two accepted chains whose blocks never change the parameters of their common genesis finalize conflicting blocks, validators of weight at least prevoteThreshold + precommitThreshold - total each signed two headers that the contradiction rule flags |
| `BftFinality.FinalityIsSafe` | pkg/consensus/liskbft/validator.go:157-312 | while every set of validators that signed two such headers weighs less, the finalized blocks of two accepted chains never conflict |
| `BftFinality.AggregateExact` | pkg/consensus/liskbft/api.go:121-127 | the aggregate weight is the total if and only if the total is below 2^64 |
| `BftFinality.WrappedTotalIsAccepted` | pkg/consensus/liskbft/api.go:121-180 | the exactness of totals fails past that bound: a concrete update that is accepted although its total wraps, and whose two validators each reach both thresholds alone |
| `BftFinality.ConvictedWeightIsPositive` | pkg/consensus/liskbft/api.go:128-177 | for totals below 2^63 the convicted weight is positive, and more than a third for a two-thirds precommit threshold |
| `BftFinality.PrevoteThresholdExact` | pkg/consensus/liskbft/api.go:171-177 | the stored prevote threshold is two thirds of the total plus one if and only if the total is below 2^63 |
| `BftFinality.WrappedThresholdIsAccepted` | pkg/consensus/liskbft/api.go:121-177 | past that bound: an accepted update whose total is stored exactly and whose prevote threshold is 1 |
| `BftFinality.UnchangedUpdate` | pkg/consensus/liskbft/api.go:151-159 | asking for the parameters in force changes nothing |
| `BftExample.BoundIsAttained` | pkg/consensus/liskbft/validator.go:157-312 | the hypotheses of accountable finality can be met and its bound is tight: a sole validator that forges heights 1 and 2 twice gets two conflicting blocks finalized on two accepted chains, and the convicted weight is its whole weight |
| `BftHistory.SortIsPermutation` | pkg/consensus/liskbft/validator.go:96-102 | sorting keeps every validator with its weight and puts the addresses in descending order |
| `BftHistory.ValidUpdateIff` | pkg/consensus/liskbft/api.go:117-135 | an update is accepted if and only if it has at most a batch of validators, all with a weight, and both thresholds are above a third of the exact total and within it |
| `BftHistory.ParamsOfRealizes` | pkg/consensus/liskbft/api.go:164-170 | the parameters hold the validators asked for, both thresholds as asked for, and the least prevote threshold above two thirds of the total |
| `BftHistory.UpdateTakesEffect` | pkg/consensus/liskbft/api.go:158-201 | an update that changes something holds from the next height on and leaves lower heights alone; its validators are exactly the active ones, those that stay keep their record, and new ones start with that height |
| `BftHistory.UnchangedIsSame` | pkg/consensus/liskbft/api.go:149-156 | an update that is passed over asks for the very parameters in force |
| `BftHistory.StoredInForce` | pkg/consensus/liskbft/module.go:113-120 | after every accepted chain the parameters found at any height of the window, or after the certified height, are those that the newest block below that height asked for, whatever has been pruned |
| `BftHistory.NothingElseStored` | pkg/consensus/liskbft/module.go:113-120 | of the heights up to the oldest one wanted, at most one is still stored |
| `BftHistory.CertifiedIsNewest` | pkg/consensus/liskbft/validator.go:274-280 | the certified height is the greatest that a commit on the chain certifies, or the genesis height |
| `BftHistory.CommitsIncrease` | pkg/consensus/certificate.go:228-246 | every commit on a chain certifies a greater height than all before it |
| `BftHistory.ActiveInForce` | pkg/consensus/liskbft/api.go:183-200 | after every accepted chain the active validators are those in force at the next height, and each record begins with the height at which the validator last joined |
| `BftVoting.BlockPrevotesIff` | pkg/consensus/liskbft/validator.go:226-243 | a block prevotes exactly the heights of the last 3 * batch ones that are above the height it claims to have generated last and from which on its generator has been a validator |
| `BftVoting.DescentIff` | pkg/consensus/liskbft/validator.go:282-298 | the descent ends below a height if and only if no block of the generator from there on claims a height at or above it that another generated on the chain |
| `BftVoting.LargestIsPrecommitted` | pkg/consensus/liskbft/validator.go:212-221 | the record of an active validator names a height that it precommitted on the chain, unless it has precommitted none since it joined |
| `BftVoting.BlockPrecommitsIff` | pkg/consensus/liskbft/validator.go:177-224 | a block precommits exactly the heights of the last 3 * batch ones that had a prevote quorum before it and from which on its generator has been a validator, has precommitted nothing, and has claimed nothing that another generated |
| `BftProgress.PrevotedHeight` | pkg/consensus/liskbft/validator.go:246-258 | the prevoted height is the greatest that ever had a prevote quorum of the parameters in force while it was voted on, or the genesis height |
| `BftProgress.PrecommittedHeight` | pkg/consensus/liskbft/validator.go:260-272 | the finalized height is the greatest that ever had a precommit quorum of the parameters in force while it was voted on, or the genesis height |
| `BftProgress.HonestChainFinalizes` | pkg/consensus/liskbft/validator.go:177-272 | progress: if all claims from a height on are true of the chain, and validators that reach both thresholds have each generated from that height on and once more after the last of them, while the height is voted on, the height is final |
| `BftAcceptance.AcceptedIff` | pkg/consensus/verify.go:12-79 | a header is accepted on top of a chain if and only if it has the next height, the chain's prevoted height, a claim that covers what the generator's recent blocks show and claim, and a commit that is empty at the certified height or certifies a later final one |
| `BftAcceptance.NoContradictionIff` | pkg/consensus/liskbft/validator.go:300-314 | comparing with the generator's newest block in the window is comparing with all of them |
| `BftLiveness.HonestBlockAccepted` | pkg/consensus/verify.go:12-79 | on every truthful chain the block that a validator adds honestly is accepted |
| `BftLiveness.HonestRunFinalizes` | pkg/consensus/liskbft/validator.go:177-272 | liveness: from every truthful chain, once validators that reach both thresholds have each generated twice in turn within the window, the first of these blocks is final |
| `RmtRoot.NodeSplit` | pkg/trie/rmt/root.go:18-36 | a node of a layer is the branch over its two children when both have leaves, and otherwise its left child |
| `RmtRoot.SplitIsPow` | pkg/trie/rmt/root.go:25-27 | the divider is the power of two that the length exceeds but does not exceed twice |
| `RmtAppend.RegularMerkleTree.Append` | pkg/trie/rmt/rmt.go:87-143 | after any sequence of appends the root is the recursive root of all values, the append path lists the perfect subtrees of the set bits of the size from low to high, and the store holds every node's subtree root |
| `RmtAppend.RegularMerkleTree.ClimbSpine` | pkg/trie/rmt/rmt.go:101-129 | walking up from the new leaf yields the new root and stores every node above the new leaf |
| `RmtAppend.RegularMerkleTree.MergeTrailing` | pkg/trie/rmt/rmt.go:130-139 | the append path of the grown tree |
| `RmtAppend.GrownPath` | pkg/trie/rmt/rmt.go:130-139 | the carry merges the trailing perfect subtrees and the new leaf into one path element |
| `RmtAppend.RegularMerkleTree.constructor` | pkg/trie/rmt/rmt.go:51-58 | a new tree is valid and empty |
| `RmtAppend.RegularMerkleTree.ReplaceNode` | pkg/trie/rmt/rmt.go:254-262 | replaces the hash of a stored location and is refused exactly when the location is not stored |
| `RmtLayers.GetLayerStructure` | pkg/trie/rmt/util.go:31-49 | the size of layer L is size / 2^L rounded half down |
| `RmtLayers.RoundedCountsNodes` | pkg/trie/rmt/util.go:31-49 | that size counts exactly the nodes of the layer that have leaves in their right half |
| `RmtLayers.GetRightSiblingInfo` | pkg/trie/rmt/util.go:146-161 | walks down to the stored node that stands for the sibling position, as ResolveFinds characterizes it |
| `RmtLayers.ResolveFinds` | pkg/trie/rmt/util.go:146-161 | the resolved location is a stored node that covers the same leaves and has the same root as the position asked for, and there is none exactly when the position has no leaves |
| `RmtWitness.GenerateRightWitness` | pkg/trie/rmt/rmt.go:168-205 | the witness of a boundary, refused exactly beyond the size: the right siblings on the boundary's way to the root, from the bottom up |
| `RmtWitness.RightWitnessRecombines` | pkg/trie/rmt/root.go:84-141 | for every appended sequence and every prefix of it, append path and right witness recompute the root; exactly the empty tree fails |
| `RmtWitness.AppendPathFoldsToRoot` | pkg/trie/rmt/root.go:76-82 | the append path of a tree folds to its root |
| `RmtWitness.CollectRightWitness` | pkg/trie/rmt/rmt.go:183-204 | the loop over the layers collects the witness of a boundary that is not zero |
| `RmtWitness.GetRootFromPath` | pkg/trie/rmt/root.go:76-82 | folds a path from the left, as AppendPathFoldsToRoot is about it |
| `RmtWitness.CalculateRootFromRightWitness` | pkg/trie/rmt/root.go:84-127 | the loop, with its running index wrapping around at 2^64, agrees on all inputs with the recombination that RightWitnessRecombines is about; no result stands for a panic or a loop without end |
| `RmtWitness.WrapKeepsBit` | pkg/trie/rmt/root.go:100-122 | wrapping around never changes a bit the loop looks at |
| `RmtIndex.IndexRoundTrip` | pkg/trie/rmt/util.go:113-144 | the index of a location decodes back to it, and it exists exactly below the 32-bit parsing limit |
| `RmtIndex.StoredIsResolved` | pkg/trie/rmt/util.go:146-161 | the subtree of any position inside the tree is stored at the node that doubling its index leads to, under the same hash |
| `RmtIndex.Joined` | pkg/trie/rmt/util.go:243-310 | a node's hash is that of its two children in order; a position without a right child has the hash, and the stored node, of its left child |
| `RmtWork.PlaceIsOrder` | pkg/trie/rmt/util.go:165-176 | the comparison of indexes is a total order in which lower layers come first |
| `RmtWork.SortedIndexes` | pkg/trie/rmt/util.go:165-176 | sorting puts the indexes in this order and keeps repetitions |
| `RmtWork.FindInsertIndex` | pkg/trie/rmt/util.go:214-241 | the binary search finds the index, or the one place where inserting it keeps the order |
| `RmtWork.InsertIndex` | pkg/trie/rmt/util.go:178-189 | an index goes to its place, and one that is there already is not inserted again |
| `RmtWork.RemoveIndex` | pkg/trie/rmt/util.go:191-199 | every occurrence goes, and nothing else |
| `RmtReach.FirstIsNext` | pkg/trie/rmt/util.go:243-310 | the work list skips nothing: no node that the queries determine lies between what was visited and its first index |
| `RmtReach.FrontierStep` | pkg/trie/rmt/util.go:243-310 | replacing the first index by its parent keeps the list complete |
| `RmtVerify.MateKnown` | pkg/trie/rmt/util.go:283-289 | when an index is visited, its sibling's hash is known if and only if some query lies at or below the sibling |
| `RmtVerify.WalkArrives` | pkg/trie/rmt/util.go:243-310 | with the right hashes for any set of nodes and exactly the needed sibling hashes, the loop arrives at the root |
| `RmtVerify.WalkUses` | pkg/trie/rmt/util.go:243-310 | the loop succeeds only if there are as many sibling hashes as all its turns need, those of repeated indexes included |
| `RmtGenerate.MateQueried` | pkg/trie/rmt/rmt.go:345-356 | the test whether the sibling was asked for is right: it holds if and only if the queries determine the sibling, also where it compares with the original indexes only |
| `RmtGenerate.GetSiblingHashes` | pkg/trie/rmt/rmt.go:312-369 | for any list of nodes, with leaves possibly repeated, the result is exactly the hashes that the queries need besides their own, in the order in which verification uses them |
| `RmtProof.CalculatePathNodes` | pkg/trie/rmt/util.go:243-310 | the loop over the two caches agrees on all inputs with the recursion that WalkArrives, WalkUses and ArrivedIsRight are about; refused for lists of different or zero length, and when it comes to an index from 2^63 on |
| `RmtProof.VerifyProof` | pkg/trie/rmt/verify.go:5-22 | accepts exactly the proofs whose loop ends with the given root |
| `RmtProof.AcceptedIff` | pkg/trie/rmt/verify.go:5-22 | for any list of existing nodes with their hashes, the proof with the needed hashes is accepted if and only if some index is not 0 and no index that needs a sibling hash is repeated |
| `RmtProof.RepeatedLeafFails` | pkg/trie/rmt/verify.go:5-22 | completeness fails for some repeated queries: of two leaves, asking twice for one is refused, and asking once is not |
| `RmtProof.GetIndexes` | pkg/trie/rmt/rmt.go:294-310 | the index of a leaf for every value that was appended and 0 for every other one; fails exactly when some value was appended and the tree has more than 30 layers |
| `RmtProof.GenerateProof` | pkg/trie/rmt/rmt.go:145-166 | the proof with exactly the needed hashes, for any list of values; fails exactly when some value was appended and the tree has more than 30 layers |
| `RmtProof.ProveAndVerify` | pkg/trie/rmt/rmt.go:145-166 | for any list of values, generating and verifying succeed if and only if some value was appended and every repeated one has the leaf beside it asked for, too, or has none |
| `RmtSound.KnownFromBelow` | pkg/trie/rmt/util.go:261-268 | what is known of a place with no query on its chain of only children is the hash of the stored node at the end of the chain |
| `RmtSound.ArrivedIsRight` | pkg/trie/rmt/util.go:243-310 | if the loop arrives at the root of a tree, with whatever sibling hashes, and every hash is compared, all hashes it still has to visit are the tree's |
| `RmtSound.LookedUpIsRight` | pkg/trie/rmt/util.go:283-289 | under the same condition a hash that will be looked up as a sibling's is the tree's |
| `RmtAside.MixedArrives` | pkg/trie/rmt/util.go:243-310 | if two trees of one shape never meet among the visited places, the hashes of both together arrive at the root of one, with some sibling hashes |
| `RmtAside.UnderApart` | pkg/trie/rmt/util.go:298-305 | if nothing visited looks up what comes from below a query, everything below that query is left aside |
| `RmtAside.ChainApart` | pkg/trie/rmt/util.go:298-305 | of two queries on one chain of only children the lower one is left aside |
| `RmtAside.LeftAside` | pkg/trie/rmt/util.go:243-310 | where the condition on the indexes fails, some query is left aside |
| `RmtTruth.AcceptedIsNode` | pkg/trie/rmt/verify.go:5-22 | soundness for any number of places of the tree at which every hash is compared: what is accepted, with whatever sibling hashes, is the tree's hash at its index; of a repeated index this is the last one given |
| `RmtTruth.TruthfulIff` | pkg/trie/rmt/verify.go:5-22 | the exact condition: for any list of places, all that is ever accepted is true if and only if no index is repeated and, for each query at a place that is no node and with a query further down, that is the only such query on its chain of only children and the neighbour of the chain's top is at or above a query |
| `RmtTruth.Untrue` | pkg/trie/rmt/verify.go:5-22 | where that condition fails, hashes of another tree are accepted with some sibling hashes |
| `RmtOutside.AnyHashPasses` | pkg/trie/rmt/verify.go:5-22 | of three leaves with the queries 5 and 10, any hash is accepted at the leaf 10 |
| `RmtOutside.NeighbourCompares` | pkg/trie/rmt/verify.go:5-22 | the condition fails for the indexes 5 and 10 and holds for 4, 5 and 10 |
| `RmtOutside.TooDeepIsRefused` | pkg/trie/rmt/verify.go:5-22 | an index below the leaves is never accepted |
| `RmtOutside.NeverLookedAt` | pkg/trie/rmt/verify.go:5-22 | the hashes given at the indexes 1 and 3 never matter |
| `RmtOutside.BeyondTheEdge` | pkg/trie/rmt/verify.go:5-22 | an index beyond the right edge can be accepted: of six leaves the last one passes at index 11 |
| `SmtTree.CanonicalIsRoot` | pkg/trie/smt/smt.go:166-230 | a canonical term that holds the entries of a map is the sparse Merkle root of that map, and no other term is |
| `SmtTree.UpdatedGet` | pkg/trie/smt/smt.go:254-396 | after updating, every requested key has its new value or is gone, and every other key is unchanged |
| `SmtTree.UpdatedRoot` | pkg/trie/smt/smt.go:78-108 | updating the root of a map gives the root of the updated map |
| `SmtTree.UpdatedCanonical` | pkg/trie/smt/smt.go:254-396 | updating keeps terms canonical: a deletion leaves no branch over an empty node and a leaf, or over two empty nodes |
| `SmtTree.RootOfTwo` | pkg/trie/smt/verify.go:73-127 | of two keys that part at the first bit the one with the bit unset is on the left |
| `SmtLayers.PassCut` | pkg/trie/smt/hasher.go:8-21 | one pass over the list of nodes works the whole tree up by exactly one layer |
| `SmtLayers.TreeHasher` | pkg/trie/smt/hasher.go:3-26 | the hash computed from the flat list of nodes is the hash of the tree the list lays out |
| `SmtSubtree.NewSubtreeFromData` | pkg/trie/smt/subtree.go:58-70 | the record of a subtree carries the hash of its tree |
| `SmtSubtree.PassSubTree` | pkg/trie/smt/utils.go:20-64 | one pass with the queue of placeholders is one layer of collapsing, the queue holding exactly the layouts of the joined subtrees |
| `SmtSubtree.CalculateSubTree` | pkg/trie/smt/utils.go:10-78 | the result is the collapsed subtree: pairs of an empty node and a leaf, or of two empty nodes, move up |
| `SmtSubtree.JoinPair` | pkg/trie/smt/utils.go:31-59 | joining two neighbours takes their lists off the end of the queue and puts the joint list in front |
| `SmtStore.CollapsedIsSubOf` | pkg/trie/smt/utils.go:10-78 | collapsing a subtree gives the top eight layers of the canonical term over its tips |
| `SmtStore.Encode` | pkg/trie/smt/subtree.go:81-93 | the bytes of a subtree, which NewSubTree reads back |
| `SmtStore.ParseNodes` | pkg/trie/smt/subtree.go:25-56 | reads the node list back, with the error paths of an unknown prefix and of short data |
| `SmtStore.NewSubTree` | pkg/trie/smt/subtree.go:25-56 | decoding what encode wrote gives back the subtree |
| `SmtStore.HashesOfSub` | pkg/trie/smt/subtree.go:58-70 | the top eight layers of a term hash to the term |
| `SmtStore.ParsedInverts` | pkg/trie/smt/subtree.go:25-93 | parsing inverts encoding for every list of nodes |
| `SmtStore.EncodedExample` | pkg/trie/smt/subtree_test.go:30-34 | a subtree with a node of each kind, cell by cell |
| `SmtBins.FillBins` | pkg/trie/smt/smt.go:171-182 | the bins hold exactly the requests, each by the next byte of its key |
| `SmtBins.SplitBins` | pkg/trie/smt/smt.go:357-381 | the two halves of the bins are the bins of the requests on either side |
| `SmtPresence.PresentFrame` | pkg/trie/smt/smt.go:291-341 | what is stored for one path survives every change below another path |
| `SmtPresence.StubDeleted` | pkg/trie/smt/smt.go:299-305 | deleting the record of a subtree does not lose anything below it |
| `SmtAssembly.AssembledUpdates` | pkg/trie/smt/smt.go:184-230 | tips updated one by one make up the update of the whole subtree |
| `SmtUpdate.GetSubtree` | pkg/trie/smt/smt.go:155-164 | returns the subtree of a hash, and fails exactly when the hash is neither empty nor stored |
| `SmtUpdate.UpdateNode` | pkg/trie/smt/smt.go:254-396 | the list returned is that of a subtree whose canonical term is the updated term of the node, everything below it is stored, and nothing outside the node's path was touched |
| `SmtUpdate.UpdateEdge` | pkg/trie/smt/smt.go:291-341 | the same at the lower edge, where a stub is replaced by the updated subtree below it |
| `SmtUpdate.UpdateSides` | pkg/trie/smt/smt.go:343-396 | the same above the lower edge, from the two sides |
| `SmtUpdate.UpdateTips` | pkg/trie/smt/smt.go:184-208 | the loop over the nodes updates every tip with the requests below its path and leaves the others alone |
| `SmtUpdate.UpdateSubtree` | pkg/trie/smt/smt.go:166-230 | the new subtree is that of the updated term, stored under its root together with everything below |
| `SmtTrie.Unique` | pkg/trie/smt/smt.go:85-95 | the requests without repeated keys: the first occurrence wins |
| `SmtTrie.Trie.Update` | pkg/trie/smt/smt.go:78-108 | after every call the root is the sparse Merkle root of the resulting map and every stub reachable from it is stored and decodes to its subtree; lengths that differ are refused without any change |
| `SmtTrie.CallsCombine` | pkg/trie/smt/smt.go:78-108 | two calls equal one call in which the later requests override the earlier ones |
| `SmtTrie.Trie.constructor` | pkg/trie/smt/smt.go:55-71 | a new trie is valid and its root is the empty hash |
| `SmtTrie.Trie.AtRoot` | pkg/trie/smt/smt.go:55-71 | a trie opened at the root another one left in the database has that one's entries |
| `SmtTrie.FirstCounts` | pkg/trie/smt/smt.go:78-108 | of a repeated key the first value counts |
| `SmtQuery.PassQuery` | pkg/trie/smt/utils.go:139-178 | one pass of the collection follows the node asked for by its number |
| `SmtQuery.CalculateQueryHashes` | pkg/trie/smt/utils.go:119-188 | the siblings, ancestors and bitmap collected are those of the node asked for |
| `SmtProve.MarkedOnPath` | pkg/trie/smt/utils.go:119-188 | what is collected in a subtree is the trace of the key's path down to its lower edge |
| `SmtProve.TraceSplits` | pkg/trie/smt/smt.go:459-479 | the trace of a key's whole path is the upper part combined with that of the lower subtree |
| `SmtProve.FindTip` | pkg/trie/smt/smt.go:410-421 | finds the node whose bins hold the key's bin |
| `SmtProve.GenerateQueryProof` | pkg/trie/smt/smt.go:398-480 | the query proof shows the end of the key's path and everything along it; refused exactly for keys of another length |
| `SmtProve.QuerySubtree` | pkg/trie/smt/smt.go:402-437 | the node on the key's path and the siblings, ancestors and bitmap of the part of the path inside the subtree |
| `SmtProve.TipOnPath` | pkg/trie/smt/smt.go:410-421 | the node whose bins hold the key's bin lies on the key's path |
| `SmtVerify.StripPrefixFalse` | pkg/trie/smt/utils.go:235-245 | drops exactly the leading false bits |
| `SmtVerify.CalculateSiblingHashes` | pkg/trie/smt/utils.go:210-233 | for one query nothing is filtered out: the siblings from the bottom up |
| `SmtVerify.SiblingsApart` | pkg/trie/smt/utils.go:210-233 | the siblings along a path are not empty and differ from each other and from everything on the path |
| `SmtVerify.Prove` | pkg/trie/smt/smt.go:110-153 | the proof of a key against the current root, as ProofIsAccepted is about it; refused exactly for keys of another length |
| `SmtVerify.CalculateRoot` | pkg/trie/smt/verify.go:73-127 | the loop agrees with the recursive climb from the query to the root, which fails exactly when the sibling hashes run out |
| `SmtVerify.Verify` | pkg/trie/smt/verify.go:11-71 | the work list for one query accepts exactly the proofs that climb to the root |
| `SmtVerify.ProofIsAccepted` | pkg/trie/smt/verify.go:11-127 | completeness: the proof of every key is accepted against the root, and its query carries the stored value, an empty place or another leaf on the key's path |
| `SmtVerify.AcceptedIsTrue` | pkg/trie/smt/verify.go:11-127 | soundness, exactly: an accepted query tells whether the key is in the tree, and with which value, if and only if its key has full length, or it shows an empty place, or its key and value joined do not begin with the key asked for |
| `SmtVerify.AcceptedAgreesWithMap` | pkg/trie/smt/verify.go:11-127 | the same against the map whose root it is |
| `SmtVerify.PresentPassesAsAbsent` | pkg/trie/smt/verify.go:11-127 | in a tree of one leaf, a query whose key takes in the first byte of the value is accepted and tells that the leaf's key is absent |
| `SmtVerify.DigestDetermines` | pkg/trie/smt/node.go:41-51 | although a leaf hashes its key and value joined, in a tree with keys of one length the hash of a node determines the node |
| `SmtVerify.ProveAndVerify` | pkg/trie/smt/smt.go:110-153 | proving and verifying a key always succeeds and returns what the map holds |
| `SmtVerify.ClimbTrace` | pkg/trie/smt/verify.go:73-127 | climbing over the collected path of a tree arrives at its hash |
| `SmtVerify.ClimbedIsThere` | pkg/trie/smt/verify.go:73-127 | whatever climbs to the hash of a tree is the hash of what lies in the tree on the way down |
| `SmtVerify.EndOnPath` | pkg/trie/smt/smt.go:398-480 | a key's path ends in an empty node or in a leaf that shares the path, and that end decides the key's value |
| `KeyOrder.RangeUnique` | pkg/db/diffdb/db.go:273-279 | a range in a given order is a single determined list |
| `KeyOrder.BetweenHasPrefix` | pkg/db/diffdb/db.go:113-116 | whatever lies between two keys with a prefix has that prefix |
| `KeyOrder.SortedOrdered` | pkg/db/diffdb/db.go:273-279 | sorting entries with distinct keys puts every key before all later ones |
| `DiffCache.CacheDB.Del` | pkg/db/diffdb/cachedb.go:103-116 | a key that is not stored leaves the cache, a stored one is marked |
| `DiffCache.CacheDB.DataBetween` | pkg/db/diffdb/cachedb.go:140-154 | exactly the live entries of the range, each once |
| `DiffCache.CacheDB.Copy` | pkg/db/diffdb/cachedb.go:156-164 | a copy with the same contents that shares nothing |
| `DiffCache.CachingKeepsView` | pkg/db/diffdb/cachedb.go:68-77 | caching a stored value keeps the cache consistent and changes nothing a user sees |
| `DiffCache.SettingChangesView` | pkg/db/diffdb/cachedb.go:56-88 | setting or adding changes what users see at the key alone and keeps the cache consistent |
| `DiffCache.DeletingChangesView` | pkg/db/diffdb/cachedb.go:103-116 | deleting removes the key alone from what users see and keeps the cache consistent |
| `DiffCache.CacheDB.Get` | pkg/db/diffdb/cachedb.go:91-101 | tells a live value, a pending deletion and an unknown key apart |
| `DiffDb.Database.Get` | pkg/db/diffdb/db.go:91-108 | returns what the contents hold and does not change them |
| `DiffDb.Database.Set` | pkg/db/diffdb/db.go:162-180 | the contents change at the key and nowhere else |
| `DiffDb.Database.Del` | pkg/db/diffdb/db.go:183-193 | the key is gone and nothing else |
| `DiffDb.Database.Range` | pkg/db/diffdb/db.go:110-134 | always entries of the contents in order; without a limit exactly the inclusive range; with the limit 1 its first entry if and only if that entry is cached or comes first among the stored ones |
| `DiffDb.MergeSortLimit` | pkg/db/diffdb/db.go:261-284 | the cached entries and those stored entries that are not cached, sorted, up to the limit |
| `DiffDb.HiddenByDeletion` | pkg/db/diffdb/db.go:110-134 | limited ranges are not always right: a concrete pending deletion hides a stored entry from a range with the limit 1 |
| `DiffDb.Database.Snapshot` | pkg/db/diffdb/db.go:217-225 | a snapshot holds the present contents and disturbs no other snapshot |
| `DiffDb.Database.DeleteSnapshot` | pkg/db/diffdb/db.go:228-232 | only the snapshot is gone |
| `DiffDb.Database.RestoreSnapshot` | pkg/db/diffdb/db.go:235-245 | the contents are exactly those at the time of the snapshot, whatever happened since; an unknown number changes nothing |
| `DiffDb.IterateRange` | pkg/db/iterator.go:9-46 | entries of the inclusive range in order, at most as many as the limit but at least one; what is left out comes after everything returned, and only when the limit is reached |
| `DiffDb.Database.constructor` | pkg/db/diffdb/db.go:62-71 | a new database shows the store |
| `DiffDb.Database.EnsureCache` | pkg/db/diffdb/db.go:248-255 | reads a key in without changing the contents, and tells whether it is stored |
| `DiffDb.Database.ReadStored` | pkg/db/diffdb/db.go:117-131 | reads in stored entries only, and returns those that are not pending deletion |
| `DiffDb.LimitOne` | pkg/db/diffdb/db.go:110-134 | with the limit 1 the first entry comes out if and only if it is cached or first among the stored ones |
| `DiffCommit.Commit` | pkg/db/diffdb/cachedb.go:165-197 | writing the batch turns the store into the contents, and the diff undoes exactly that |
| `DiffCommit.RevertDiff` | pkg/db/diffdb/db.go:203-214 | the batch that deletes what was added and puts back what was deleted or changed |
| `DiffCommit.RevertRestores` | pkg/db/diffdb/db.go:203-214 | writing that batch to the committed store gives back the store before the commit |
| `DiffCommit.CommitKey` | pkg/db/diffdb/cachedb.go:168-194 | what one cached key contributes to the batch and to the diff |
| `DiffCodec.EncodeDiff` | pkg/db/diffdb/diff_codec.go:74-92 | the bytes of a diff, which DiffRoundTrip inverts |
| `DiffCodec.DecodeDiff` | pkg/db/diffdb/diff_codec.go:94-147 | the decoded diff as DiffRoundTrip is about it, with its error paths; a missing list is empty |
| `DiffCodec.ReadKvs` | pkg/codec/reader.go:317-344 | the pairs of a list, each read by a reader of its own on the same data |
| `DiffCodec.DiffRoundTrip` | pkg/db/diffdb/diff_codec.go:74-147 | decoding inverts encoding for every diff |
| `DiffCodec.StoredDiffRestores` | pkg/db/diffdb/diff_codec.go:74-147 | a diff that was stored and read back restores the store before the commit |
| `DiffCodec.EncodeKv` | pkg/db/diffdb/diff_codec.go:9-14 | the bytes of a pair, which DecodeKv reads back |
| `DiffCodec.DecodeKv` | pkg/db/diffdb/diff_codec.go:38-54 | the pair at the reader's position and the position after it |
| `DiffParams.GetParams` | pkg/consensus/liskbft/util.go:15-28 | the limited lookup returns the newest entry up to a height as long as every pending deletion is covered by an entry up to some lower minimum |
| `DiffParams.DeleteParams` | pkg/consensus/liskbft/util.go:45-57 | exactly the superseded entries go, and every pending deletion stays covered |
| `DiffParams.SetParams` | pkg/consensus/liskbft/api.go:161-180 | writing parameters keeps every pending deletion covered, so lookups stay right |
| `DiffParams.PrunedKeepsNewest` | pkg/consensus/liskbft/module.go:113-121 | pruning changes the newest entry of no height at or above the minimum |
| `DiffParams.NewestByHeight` | pkg/consensus/liskbft/util.go:15-28 | the newest entry is that of the greatest height not above the one asked for |
| `DiffParams.HeightOrder` | pkg/collection/bytes/int.go:6-10 | the keys of heights are ordered and told apart as the heights are |
| `DiffParams.CoveredIsReachable` | pkg/consensus/liskbft/util.go:15-28 | deletions covered by a newer entry up to a minimum never hide the newest entry up to a height at or above it |
| `Executer.Executer.constructor` | pkg/consensus/execute.go:456-496 | the genesis block starts the chain and is final |
| `Executer.Executer.ProcessValidated` | pkg/consensus/execute.go:357-454 | accepts exactly the acceptable blocks; the store is the replay of the longer chain, every height above the finalized one keeps its diff, the finalized height is the larger of the old one and the precommitted height; the block's diff is stored, and diffs below a finalized height that has moved are gone; otherwise nothing changes |
| `Executer.Executer.DeleteBlock` | pkg/consensus/execute.go:498-540 | the last block goes if and only if it is above the finalized height, its stored diff always leads back to the replay of the shorter chain, and the finalized height stays |
| `Executer.Executer.TieBreak` | pkg/consensus/execute.go:316-331 | the last block is replaced when it may be deleted and the new block is acceptable on the chain below, otherwise chain and store are as before |
| `Executer.Executer.Run` | pkg/consensus/execute.go:283-540 | over any run of accepted and removed blocks the finalized height never falls, no block at or below it moves, and nothing was accepted that was not offered |
| `Executer.AcceptKeepsInv` | pkg/consensus/execute.go:357-454 | accepting keeps: consecutive heights, store equal to the replay, diffs for all heights above the finalized one |
| `Executer.DeleteKeepsInv` | pkg/consensus/execute.go:498-540 | deleting the last block keeps them too |
| `Executer.LastDiff` | pkg/consensus/execute.go:498-540 | above the finalized height the last block's diff is stored, decodes and leads back to the store before the block |
| `Executer.ExecuteBlock` | pkg/consensus/execute.go:357-408 | the store after a block's writes, and a diff that undoes exactly them |
| `Executer.ExecuteWrites` | pkg/consensus/execute.go:357-454 | the writes of a block, one by one through the diff database, give the written store |
| `Executer.DeleteDiffs` | pkg/consensus/execute.go:418-432 | exactly the listed diffs below the height are dropped |
| `Executer.BackedGrows` | pkg/consensus/execute.go:404-432 | accepting a block keeps the finalized height that of some chain the node followed, or makes it that of the new chain |
| `Executer.BackedShrinks` | pkg/consensus/execute.go:498-512 | deleting a block above the finalized height keeps the blocks that made it final |
| `NodeFinality.ReplayIsState` | pkg/consensus/execute.go:357-454 | if the rules the executer runs are Lisk-BFT, replaying any chain leads to the Lisk-BFT state after its last block |
| `NodeFinality.FinalizedOfNode` | pkg/consensus/execute.go:411-420 | the block at the height a node treats as final is the finalized block of an accepted chain, and the node still has it, whatever was deleted since |
| `NodeFinality.NodesAgree` | pkg/consensus/execute.go:283-540 | two nodes with one genesis and one fixed validator set, after any runs of accepted and deleted blocks: each still has its finalized block, and what one treats as final is a front of what the other does, or chains of blocks that the two have accepted convict validators of the guaranteed weight |
| `NodeExample.RulesRunBft` | pkg/consensus/execute.go:357-454 | rules that run Lisk-BFT exist, so the hypotheses of the agreement can be met |
| `NodeExample.Fork` | pkg/consensus/execute.go:357-454 | two nodes given the two chains of a validator who forges twice end with different final blocks, and that validator is convicted |
| `Codec.ReadUint` | pkg/codec/reader.go:437-459 | the loop agrees on all inputs with the reader that ReadVarintInverts and ReadVarintCanonical characterize |
| `Codec.ReadVarintInverts` | pkg/codec/reader.go:437-459 | reading inverts writing for every uint64, whatever follows |
| `Codec.ReadVarintCanonical` | pkg/codec/reader.go:437-488 | no other byte string is accepted for a number |
| `Codec.ShortestIsVarintLength` | pkg/codec/reader.go:465-488 | varintShortestSize is the length of the encoding |
| `Codec.ReadIntInverts` | pkg/codec/reader.go:360-369 | reading a signed number inverts writing it if and only if it is not the smallest int64, which reads as 0 |
| `Codec.UnZigZagInjective` | pkg/codec/reader.go:360-369 | only 0 and the wrapped value read as the same signed number |
| `Codec.CheckFindsKey` | pkg/codec/reader.go:415-435 | a field is found only behind its own key |
| `Codec.KeyIsFound` | pkg/codec/key.go:11-26 | a written key is found, and every other field number is absent there |
| `CodecFields.ArrayCanonical` | pkg/codec/reader.go:229-246 | what a list is read from is the encoding of that list |
| `CodecFields.ArrayInverts` | pkg/codec/writer.go:29-36 | a written list is read back in full when no element of it follows |
| `CodecFields.UIntCanonical` | pkg/codec/reader.go:33-48 | the bytes a strict number field is read from are its encoding |
| `CodecFields.UIntInverts` | pkg/codec/writer.go:73-76 | a written number is read back, whatever follows |
| `CodecFields.BytesCanonical` | pkg/codec/reader.go:212-226 | the bytes a strict bytes field is read from are its encoding |
| `CodecFields.BytesInverts` | pkg/codec/writer.go:23-26 | written bytes are read back, whatever follows |
| `CodecFields.StringCanonical` | pkg/codec/reader.go:249-263 | the bytes a strict string field is read from are its encoding, and the string is valid and normalized |
| `CodecFields.StringInverts` | pkg/codec/writer.go:39-41 | a written string that is valid and normalized is read back, whatever follows |
| `CodecReader.Writer.WriteBytesArray` | pkg/codec/writer.go:29-36 | appends the fields of all elements in order |
| `CodecReader.Reader.CheckField` | pkg/codec/reader.go:415-435 | moves past the key exactly when it is the expected one |
| `CodecReader.Reader.ReadUInt` | pkg/codec/reader.go:33-48 | the number behind the key and the position after it, with the missing and the malformed field told apart as the source does |
| `CodecReader.Reader.ReadInt` | pkg/codec/reader.go:107-121 | the signed number with the wrap of its uint64 addition |
| `CodecReader.Reader.ReadBytes` | pkg/codec/reader.go:212-226 | the bytes behind the key and the position after them |
| `CodecReader.Reader.ReadString` | pkg/codec/reader.go:249-263 | the same, accepting only valid UTF-8 in normal form C |
| `CodecReader.Reader.ReadBytesArray` | pkg/codec/reader.go:229-246 | all elements up to another field or the end |
| `CodecReader.Writer.WriteUInt` | pkg/codec/writer.go:73-76 | appends the field that UIntInverts reads back |
| `CodecReader.Writer.WriteInt` | pkg/codec/writer.go:110-113 | appends the zigzag field of a signed number |
| `CodecReader.Writer.WriteBytes` | pkg/codec/writer.go:23-26 | appends the field that BytesInverts reads back |
| `CodecReader.Writer.WriteString` | pkg/codec/writer.go:39-41 | appends the field of the normalized string |
| `CodecReader.Reader.ReadUIntValue` | pkg/codec/reader.go:350-358 | the shortest-form number at the position; on failure the position stays |
| `CodecReader.Reader.ReadSizedBytes` | pkg/codec/reader.go:371-384 | the sized bytes at the position, refused when they exceed the data |
| `TransactionCodec.Encode` | pkg/blockchain/transaction_codec.go:9-19 | the bytes of a transaction, which DecodedInverts reads back |
| `TransactionCodec.DecodeStrict` | pkg/blockchain/transaction_codec.go:32-41 | agrees with the field by field decoding that AcceptedIffEncoding characterizes |
| `TransactionCodec.DecodedIsCanonical` | pkg/blockchain/transaction_codec.go:96-147 | what strict decoding accepts encodes back to the same bytes |
| `TransactionCodec.DecodedInverts` | pkg/blockchain/transaction_codec.go:96-147 | strict decoding inverts encoding for every transaction with valid, normalized strings |
| `TransactionCodec.AcceptedIffEncoding` | pkg/blockchain/transaction_codec.go:32-41 | a buffer is accepted if and only if it is the encoding of such a transaction, and of no other one |
| `WireFormat.LongNumber` | pkg/codec/writer_test.go:83-108 | a number of seven groups, lowest group first, byte by byte |
| `WireFormat.ShortNumbers` | pkg/codec/writer_test.go:83-108 | short numbers, unsigned and signed, byte by byte |
| `WireFormat.TransactionLayout` | pkg/blockchain/transaction.go:19-29 | where the fields of a transaction go, byte by byte |
| `WireFormat.DiffLayout` | pkg/db/diffdb/diff.go:5-19 | where the fields of a stored diff and of its pairs go, byte by byte |
| `Lisk32Checksum.StepLinear` | pkg/codec/bytes.go:197-209 | a step of the fold is linear under exclusive or |
| `Lisk32Checksum.FoldSplits` | pkg/codec/bytes.go:197-209 | folding in up to six values is folding in zeros and adding the values at the low end by exclusive or |
| `Lisk32Checksum.ChecksumCompletes` | pkg/codec/bytes.go:186-209 | for every sequence of 5-bit values six more make polymod equal 1 if and only if they are the checksum |
| `Lisk32Checksum.ShiftWord` | pkg/codec/bytes.go:200-202 | masking, shifting and adding the value by exclusive or on numbers is shifting five bits out and the value in on 30-bit words |
| `Lisk32Checksum.Polymod` | pkg/codec/bytes.go:197-209 | the shifts, masks and exclusive ors on numbers compute the fold on 30-bit words that StepLinear and FoldSplits are about, and stay below 2^30 |
| `Lisk32Checksum.CreateChecksum` | pkg/codec/bytes.go:186-194 | shifting and masking six times yields the six values that ChecksumCompletes shows to be the only completion |
| `Lisk32Scale.FoldScales` | pkg/codec/bytes.go:197-209 | polymod is linear over the field of 32 elements: multiplying all values and the start word by an element multiplies the result |
| `Lisk32Scale.GeneratorDoubles` | pkg/codec/bytes.go:16 | each generator word is the one before times x, digit by digit in that field |
| `CodeBound.Bound` | pkg/codec/bytes.go:197-209 | a polynomial over the field of 1024 elements with at most m terms that vanishes at m consecutive powers is nil, if its degree stays below the order of their ratio |
| `Lisk32Code.StepEval` | pkg/codec/bytes.go:197-209 | at a root of the generator polynomial a turn of polymod multiplies by the root and adds the value |
| `Lisk32Code.FoldEval` | pkg/codec/bytes.go:197-209 | at such a root polymod of a list is the value of the list as a polynomial |
| `Lisk32Code.RatioSeparates` | pkg/codec/bytes.go:197-209 | the ratio of three roots of the generator polynomial has an order above 37 |
| `Lisk32Code.ThreeErrorsDetected` | pkg/codec/bytes.go:197-209 | two lists of at most 38 values with the same polymod are equal or differ at more than three places |
| `Lisk32.ConvertUIntArray` | pkg/codec/bytes.go:160-184 | the result is the same bit string cut into groups of the new width, without an incomplete last group; empty when a value is out of range |
| `Lisk32.BytesToLisk32` | pkg/codec/bytes.go:103-118 | the address string that DecodedInverts reads back; empty for nothing, refused for other lengths than 20 |
| `Lisk32.ValidateLisk32` | pkg/codec/bytes.go:141-158 | accepts exactly 41 characters of the set with polymod 1 behind the prefix |
| `Lisk32.Lisk32ToBytes` | pkg/codec/bytes.go:120-139 | the address of a valid string, refused for every other one |
| `Lisk32.DecodedInverts` | pkg/codec/bytes.go:103-139 | Lisk32ToBytes inverts BytesToLisk32 on the empty and on every 20-byte address |
| `Lisk32.DecodedIsCanonical` | pkg/codec/bytes.go:120-158 | a valid string is, behind its first three characters, the string of the address it decodes to |
| `Lisk32.ChunkFlat` | pkg/codec/bytes.go:160-184 | cutting the bits of a list into groups of the same width gives the list back, whatever incomplete group follows |
| `Lisk32.FlatChunk` | pkg/codec/bytes.go:160-184 | the groups cut from a string of whole groups make up that string |
| `Lisk32.Uint5ToLisk32` | pkg/codec/bytes.go:211-218 | the characters of 5-bit values |
| `Lisk32Errors.ErrorsDetected` | pkg/codec/bytes.go:141-158 | no string that differs from a valid one in one, two or three characters behind the prefix is valid |
| `Lisk32Published.TestAddressIsValid` | pkg/codec/bytes_test.go:64-72 | the address of the tests is valid |
| `Lisk32Published.ValidatorAddressIsValid` | cmd/debug/app/default/dev-validators.json:1364 | the address of a validator is valid; together the two use every character of the set |
| `Selector.FeePriorityTransactions.Push` | pkg/generator/selector.go:22-24 | keeps the heap order and adds the transaction |
| `Selector.FeePriorityTransactions.Pop` | pkg/generator/selector.go:25-31 | removes an entry that pays every whole fee per byte that another entry pays, and keeps the heap order |
| `Selector.GetSortedTransactionMapByNonce` | pkg/generator/selector.go:33-52 | every sender's transactions, sorted by nonce, and no others |
| `Selector.SelectTransactionsByFee` | pkg/generator/generator.go:274-312 | the result fits the size, every turn was about a transaction that pays every whole fee per byte that any of the remaining senders' next ones pays, and the loop ends when nobody is left or the best does not fit |
| `Selector.TakenIsPrefix` | pkg/generator/generator.go:299-311 | each sender contributes a prefix of its nonce-sorted list |
| `Selector.LimitTransactionsWithSize` | pkg/generator/generator.go:314-325 | the longest front that fits; everything if and only if everything fits, so a selection under the same bound loses nothing |
| `Selector.RootIsGreatest` | pkg/generator/selector.go:17-19 | in a heap nothing has a greater fee priority than the first entry |
| `Selector.FeePriorityTransactions.Down` | pkg/generator/selector.go:25-31 | sinking the first entry of an almost-heap restores the heap and keeps the entries |
| `Selector.SortIsSorted` | pkg/generator/selector.go:46-50 | sorting by nonce orders a sender's list and keeps its transactions |
| `Selector.InitHeap` | pkg/generator/generator.go:277-282 | the heap holds exactly the first transaction of every sender |
| `Selector.PriorityIsGreatest` | pkg/generator/selector.go:40 | the priority is the greatest whole fee per byte that the transaction pays |
| `Selector.OutranksIff` | pkg/generator/selector.go:17-19 | the order of the heap, on fees and sizes alone |

## Left out

- Networking, peer-to-peer synchronization, RPC, the engine's start-up and command line: plumbing around the modelled core.
- Signatures, BLS aggregation, encryption and the key-value store's internals: code outside the repository; a store is a map, and a header's signature is taken to name its generator.
- Hash functions: terms instead of bytes, see above.
- Goroutines, channels, mutexes and the wall clock: the trie's goroutines are awaited where they are started and are modelled in that order.
- Error texts and logging: an error is a missing result or a false flag.
- Sharing of byte slices between caller and callee: values are never shared.
- BFT generator keys, validators' BLS keys and the hash of the validator list; whether a header implies maximal prevotes; uint32 wrap-around of heights.
- The certificate part of an aggregate commit: only the height bounds that a block's commit must meet are modelled.
- BftReachable.AcceptedInv: assumes that the totals of all validator updates are below 2^64, because past that the stored weights are not sums.
- BftReachable.VoteAccounting: the same; past the bound a weight is a sum modulo 2^64.
- BftReachable.VerifiedHeaderNeverFails: the same, for it needs the invariant.
- BftReachable.HeightsNeverFallInOneBlock: the same; past the bound a weight can wrap around to a smaller one.
- BftReachable.BftHeights: the same.
- BftVoting.BlockPrecommitsIff: the same, for it counts weights.
- BftVoting.DescentIff: the same, for it needs the invariant.
- BftProgress.PrevotedHeight: the same.
- BftProgress.PrecommittedHeight: the same.
- BftAcceptance.NoContradictionIff: the same.
- BftLiveness.HonestBlockAccepted: the same.
- BftProgress.HonestChainFinalizes: for validators that do not change from the height on, and for chains on which all claims from the height on are true, also those of validators that are not needed for the thresholds; totals below 2^64.
- BftLiveness.HonestRunFinalizes: the same, in a run without updates.
- BftAcceptance.AcceptedIff: the guards of verifyBlock that concern consensus heights; signatures, timestamps and roots are not part of this model.
- BftFinality.AccountableFinality: for chains whose validator set does not change, as the protocol's own argument is.
- BftMachine.Module.SetBFTParameters: without BLS keys and the hash of the validator list; the order of validators with equal addresses is that of an insertion sort.
- NodeFinality.NodesAgree: verification and execution are any rules that accept only steps of Lisk-BFT; the codec of the vote state in the store is a parameter.
- BftMachine.Module.BeforeTransactionsExecute: for a header whose height follows the window, which verification of the block has established before.
- Regular Merkle tree: updating leaves in place, the root from an append path alone; the logarithm is exact where the source takes it in floating point.
- RmtGenerate.GetSiblingHashes: for existing nodes of which at most leaves are repeated, in a tree of at most 30 layers or without any, which is what GenerateProof asks for.
- RmtProof.GenerateProof: for hashes of values; the hashes of inner nodes, which the store may still have after they were replaced, are not asked for.
- RmtProof.CalculatePathNodes: an index from 2^63 on is always refused; the source refuses it when it comes to it, and where it sorts such an index among others depends on the sorting algorithm, because their comparison is not an order.
- RmtTruth.AcceptedIsNode: for places of a tree of at most 30 layers at which every hash is compared; TruthfulIff shows that nothing less will do.
- RmtTruth.TruthfulIff: for places of a tree of at most 30 layers; for indexes outside it RmtOutside says which are refused or not looked at, and not when one beyond the right edge is accepted.
- RmtProof.ProveAndVerify: for trees of at most 30 layers; GenerateProof has the other case.
- Sparse Merkle trie: subtree height 4, key length 0, proofs for several keys; hashes, keys and values of fixed length are single cells of an encoding, and the running sums of bin lengths are counts.
- SmtStore.Encode: fixed-length hashes, keys and values are cells and not bytes.
- SmtStore.ParseNodes: the same.
- SmtStore.NewSubTree: for data that Encode wrote; the error paths for other node lists are in ParseNodes, and a structure that lays out no tree is not modelled.
- SmtTrie.Trie.Update: for keys of the trie's key length and values of 32 bytes or none, as its callers pass them.
- SmtVerify.Prove: one key.
- SmtVerify.CalculateSiblingHashes: one query, so nothing is filtered across queries.
- SmtVerify.CalculateRoot: a work list of one query.
- SmtVerify.Verify: one query; a bitmap longer than the query key, on which the source panics, counts as rejected, and sibling hashes are never of length zero.
- DiffDb.IterateRange: inclusive on both ends; the source's reverse iteration also returns stored keys that extend the upper end, which cannot happen for keys of one length.
- DiffDb.Database.Range: limits other than 1 and none have only the clauses about order, contents and length; nothing in the engine uses them.
- DiffCodec.ReadKvs: the end of a pair's own reader is not wrapped around at 2^63, as the source's sum is for sizes just below 2^63, where it then takes both fields of the pair as missing.
- DiffCodec.ReadSizedKv: the same.
- DiffCodec.DecodeDiff: the same.
- Diff database: iteration by prefix, and views with a longer prefix that share a cache; one database is one prefix.
- Cache records that the source updates through a reference are replaced in the map.
- Executer.Executer.constructor: the state after executing the genesis block is given.
- Executer.Executer.ProcessValidated: verification and execution of a block are a parameter of the model, and whether the application accepts a step is a flag.
- Executer.Executer.TieBreak: the application is taken to accept the commits of both blocks.
- Executer: the fork choice itself, the block cache, temporary blocks, events, and deletion of other blocks than the last; the key prefixes of blocks, state and diffs are separate maps.
- Codec: fields of other number types, booleans, arrays of numbers, nested objects other than the pairs of a diff; UTF-8 validity and normalization are parameters; the writer's running size.
- Lisk32.DecodedIsCanonical: says nothing about the first three characters, because the source does not look at them.
- Selector.SelectTransactionsByFee: the application's verdict on a transaction is a parameter, and the source's unstable sort of equal nonces is an insertion sort.
- Transaction pool, block and certificate generation, framework state machine, slots: not part of this model.
