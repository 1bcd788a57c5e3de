/** The Lisk-BFT vote state and what one block does to it, as functions on values
    (pkg/consensus/liskbft/validator.go and module.go, LIP-0058). */
module BftVotes {
  import opened Basics
  import opened Contradiction
  import opened BftParams

  /** One entry of the header window. */
  datatype BlockInfo = BlockInfo(header: PartialHeader, prevoteWeight: nat, precommitWeight: nat)

  datatype ActiveValidator = ActiveValidator(minActiveHeight: nat, largestHeightPrecommit: nat)

  /** The stored vote state; `infos` is the header window, newest first. */
  datatype Votes = Votes(
    maxHeightPrevoted: nat,
    maxHeightPrecommitted: nat,
    maxHeightCertified: nat,
    infos: seq<BlockInfo>,
    active: map<Address, ActiveValidator>)

  datatype AggregateCommit = AggregateCommit(height: nat, hasBits: bool, hasSignature: bool)

  /** A header; `content` stands for everything else it commits to (timestamp, roots, signature), so that
      blocks with equal heights can still differ. */
  datatype Header = Header(bft: PartialHeader, commit: AggregateCommit, content: seq<nat>)

  /** Window heights are consecutive, newest first. */
  predicate Consecutive(infos: seq<BlockInfo>) {
    && (forall i :: 0 <= i < |infos| ==> infos[i].header.height == infos[0].header.height - i)
    && (infos != [] ==> infos[|infos| - 1].header.height >= 1)
  }

  // ---------------------------------------------------------------- window

  /** insertBlockBFTInfo: the new header goes first, and at most `maxLength` are kept. */
  function Insert(infos: seq<BlockInfo>, header: PartialHeader, maxLength: nat): seq<BlockInfo>
    requires maxLength >= 1
  {
    [BlockInfo(header, 0, 0)] + infos[..Min(|infos|, maxLength - 1)]
  }

  /** getHeightNotPrevoted, from a height `previous` that the generator claims to have generated:
      follow the generator's own blocks down the window while they confirm the claim. */
  function NotPrevotedFrom(infos: seq<BlockInfo>, previous: nat): nat
    requires infos != [] && Consecutive(infos)
    requires previous < infos[0].header.height
    decreases previous
  {
    var tip := infos[0].header;
    if tip.height - previous >= |infos| then
      infos[|infos| - 1].header.height - 1
    else
      var claimed := infos[tip.height - previous].header;
      if claimed.generator != tip.generator || claimed.maxHeightGenerated >= previous then
        previous
      else
        NotPrevotedFrom(infos, claimed.maxHeightGenerated)
  }

  function HeightNotPrevoted(infos: seq<BlockInfo>): nat
    requires infos != [] && Consecutive(infos)
    requires infos[0].header.maxHeightGenerated < infos[0].header.height
  {
    NotPrevotedFrom(infos, infos[0].header.maxHeightGenerated)
  }

  /** Both windows hold the same headers. */
  predicate SameHeaders(a: seq<BlockInfo>, b: seq<BlockInfo>) {
    |a| == |b| && forall i :: 0 <= i < |a| ==> a[i].header == b[i].header
  }

  // ---------------------------------------------------------------- implied votes

  /** The newest header of the window implies votes. */
  predicate ImpliesVotes(infos: seq<BlockInfo>, active: map<Address, ActiveValidator>) {
    && infos != []
    && infos[0].header.maxHeightGenerated < infos[0].header.height
    && infos[0].header.generator in active
  }

  function MinPrecommitHeight(infos: seq<BlockInfo>, active: map<Address, ActiveValidator>): nat
    requires ImpliesVotes(infos, active) && Consecutive(infos)
  {
    var v := active[infos[0].header.generator];
    Max(v.minActiveHeight, Max(HeightNotPrevoted(infos) + 1, v.largestHeightPrecommit + 1))
  }

  function MinPrevoteHeight(infos: seq<BlockInfo>, active: map<Address, ActiveValidator>): nat
    requires ImpliesVotes(infos, active)
  {
    Max(infos[0].header.maxHeightGenerated + 1, active[infos[0].header.generator].minActiveHeight)
  }

  predicate HasPrevoteQuorum(store: ParamsStore, info: BlockInfo) {
    var p := Lookup(store, info.header.height);
    p.Some? && info.prevoteWeight >= p.value.prevoteThreshold
  }

  predicate HasPrecommitQuorum(store: ParamsStore, info: BlockInfo) {
    var p := Lookup(store, info.header.height);
    p.Some? && info.precommitWeight >= p.value.precommitThreshold
  }

  /** A precommit for heights from `min` on concerns the entry `info`. */
  predicate PrecommitsFrom(store: ParamsStore, min: nat, info: BlockInfo) {
    info.header.height >= min && HasPrevoteQuorum(store, info)
  }

  /** The newest header precommits the window entry `info`. */
  predicate Precommits(store: ParamsStore, infos: seq<BlockInfo>, active: map<Address, ActiveValidator>, info: BlockInfo)
    requires Consecutive(infos)
  {
    && ImpliesVotes(infos, active)
    && PrecommitsFrom(store, MinPrecommitHeight(infos, active), info)
  }

  /** The newest header prevotes the window entry `info`. */
  predicate Prevotes(infos: seq<BlockInfo>, active: map<Address, ActiveValidator>, info: BlockInfo) {
    && ImpliesVotes(infos, active)
    && info.header.height >= MinPrevoteHeight(infos, active)
  }

  /** Weight of the generator in the parameters of a height; None when it is missing there. */
  function WeightAt(store: ParamsStore, h: nat, a: Address): Option<nat> {
    match Lookup(store, h)
    case None => None
    case Some(p) => Find(p.validators, a)
  }

  /** The generator has a weight in the parameters of every height it votes for. */
  predicate VotesDefined(store: ParamsStore, infos: seq<BlockInfo>, active: map<Address, ActiveValidator>)
    requires Consecutive(infos)
  {
    forall i :: 0 <= i < |infos| && (Precommits(store, infos, active, infos[i]) || Prevotes(infos, active, infos[i])) ==>
      WeightAt(store, infos[i].header.height, infos[0].header.generator).Some?
  }

  /** One entry after a precommit of `who` for heights from `min` on. */
  function AddPrecommitFrom(store: ParamsStore, who: Address, min: nat, info: BlockInfo): (r: BlockInfo)
    ensures r.header == info.header && r.prevoteWeight == info.prevoteWeight
  {
    var w := WeightAt(store, info.header.height, who);
    if w.Some? && PrecommitsFrom(store, min, info) then
      info.(precommitWeight := Add64(info.precommitWeight, w.value))
    else info
  }

  /** One entry after a prevote of `who` for heights from `min` on. */
  function AddPrevoteFrom(store: ParamsStore, who: Address, min: nat, info: BlockInfo): (r: BlockInfo)
    ensures r.header == info.header && r.precommitWeight == info.precommitWeight
  {
    var w := WeightAt(store, info.header.height, who);
    if w.Some? && info.header.height >= min then
      info.(prevoteWeight := Add64(info.prevoteWeight, w.value))
    else info
  }

  /** One window entry after the newest header's precommit and prevote are added. */
  function AddVotes(store: ParamsStore, infos: seq<BlockInfo>, active: map<Address, ActiveValidator>, info: BlockInfo): BlockInfo
    requires Consecutive(infos)
  {
    if !ImpliesVotes(infos, active) then info
    else
      var who := infos[0].header.generator;
      AddPrevoteFrom(store, who, MinPrevoteHeight(infos, active),
        AddPrecommitFrom(store, who, MinPrecommitHeight(infos, active), info))
  }

  function CountVotes(store: ParamsStore, infos: seq<BlockInfo>, active: map<Address, ActiveValidator>): (counted: seq<BlockInfo>)
    requires Consecutive(infos)
    ensures SameHeaders(infos, counted)
  {
    seq(|infos|, i requires 0 <= i < |infos| => AddVotes(store, infos, active, infos[i]))
  }

  /** Height of the newest window entry, from index `i` on, that satisfies `hit`. */
  function NewestHeight(infos: seq<BlockInfo>, hit: BlockInfo -> bool, otherwise: nat): nat {
    if infos == [] then otherwise
    else if hit(infos[0]) then infos[0].header.height
    else NewestHeight(infos[1..], hit, otherwise)
  }

  /** The first hit of the window decides; without a hit the old value stays. */
  lemma {:induction false} NewestHeightSpec(infos: seq<BlockInfo>, hit: BlockInfo -> bool, otherwise: nat)
    ensures
      var r := NewestHeight(infos, hit, otherwise);
      || (r == otherwise && forall i :: 0 <= i < |infos| ==> !hit(infos[i]))
      || (exists j :: 0 <= j < |infos| && hit(infos[j]) && r == infos[j].header.height
                      && forall i :: 0 <= i < j ==> !hit(infos[i]))
  {
    if infos != [] && !hit(infos[0]) {
      var rest := infos[1..];
      NewestHeightSpec(rest, hit, otherwise);
      if exists j :: 0 <= j < |rest| && hit(rest[j]) {
        var j :| 0 <= j < |rest| && hit(rest[j]) && NewestHeight(infos, hit, otherwise) == rest[j].header.height
                 && forall i :: 0 <= i < j ==> !hit(rest[i]);
        forall i | 0 <= i < j + 1 ensures !hit(infos[i]) {
          if i > 0 { assert infos[i] == rest[i - 1]; }
        }
        assert hit(infos[j + 1]);
      } else {
        forall i | 0 <= i < |infos| ensures !hit(infos[i]) {
          if i > 0 { assert infos[i] == rest[i - 1]; }
        }
      }
    }
  }

  function PrecommitFromTest(store: ParamsStore, min: nat): BlockInfo -> bool { info => PrecommitsFrom(store, min, info) }

  function PrevoteQuorumTest(store: ParamsStore): BlockInfo -> bool { info => HasPrevoteQuorum(store, info) }

  function PrecommitQuorumTest(store: ParamsStore): BlockInfo -> bool { info => HasPrecommitQuorum(store, info) }

  /** The active validators after the newest header's precommits: its generator remembers
      the largest height it precommitted. */
  function RecordPrecommit(store: ParamsStore, infos: seq<BlockInfo>, active: map<Address, ActiveValidator>): map<Address, ActiveValidator>
    requires Consecutive(infos)
  {
    if !ImpliesVotes(infos, active) then active
    else
      var who := infos[0].header.generator;
      var largest := NewestHeight(infos, PrecommitFromTest(store, MinPrecommitHeight(infos, active)), active[who].largestHeightPrecommit);
      active[who := active[who].(largestHeightPrecommit := largest)]
  }

  // ---------------------------------------------------------------- one block

  function CertifiedAfter(certified: nat, commit: AggregateCommit): nat {
    if !commit.hasBits && !commit.hasSignature then certified else commit.height
  }

  /** The vote state after a header was processed, before parameters are pruned. */
  function ProcessHeader(store: ParamsStore, v: Votes, header: Header, maxLength: nat): Votes
    requires maxLength >= 1
    requires Consecutive(Insert(v.infos, header.bft, maxLength))
  {
    var window := Insert(v.infos, header.bft, maxLength);
    var counted := CountVotes(store, window, v.active);
    Votes(
      NewestHeight(counted, PrevoteQuorumTest(store), v.maxHeightPrevoted),
      NewestHeight(counted, PrecommitQuorumTest(store), v.maxHeightPrecommitted),
      CertifiedAfter(v.maxHeightCertified, header.commit),
      counted,
      RecordPrecommit(store, window, v.active))
  }

  /** contradicting: the newest window header of the same generator decides. */
  predicate ContradictsWindow(infos: seq<BlockInfo>, header: PartialHeader) {
    if infos == [] then false
    else if infos[0].header.generator == header.generator then
      AreDistinctHeadersContradicting(infos[0].header, header)
    else ContradictsWindow(infos[1..], header)
  }
}
