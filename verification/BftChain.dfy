/** Chains of accepted blocks and the consensus state each of them leads to
    (pkg/consensus/verify.go, liskbft/module.go, liskbft/api.go). */
module BftChain {
  import opened Basics
  import opened Contradiction
  import opened BftParams
  import opened BftVotes

  /** The parameter change an application asks for after a block. */
  datatype Update = Update(precommitThreshold: nat, certificateThreshold: nat, validators: seq<Validator>)

  /** A block is identified with its whole ancestry: the previous-block identifier is a
      collision-free digest of the previous header, so it is modelled as that block itself. */
  datatype Block =
    | Genesis(genesisHeight: nat, initial: Update)
    | Child(parent: Block, header: Header, update: Option<Update>)

  /** The consensus store: votes and parameters. */
  datatype Store = Store(votes: Votes, params: ParamsStore)

  function Height(b: Block): nat {
    match b
    case Genesis(h, _) => h
    case Child(_, header, _) => header.bft.height
  }

  function GenesisHeight(b: Block): nat {
    match b
    case Genesis(h, _) => h
    case Child(parent, _, _) => GenesisHeight(parent)
  }

  // ---------------------------------------------------------------- setting parameters

  /** The aggregate weight as the uint64 accumulator ends up. */
  function Aggregate(vs: seq<Validator>): nat { TotalWeight(vs) % TWO64 }

  /** Insertion into a list sorted by descending address. */
  function InsertSorted(vs: seq<Validator>, v: Validator): seq<Validator> {
    if vs == [] || v.address >= vs[0].address then [v] + vs
    else [vs[0]] + InsertSorted(vs[1..], v)
  }

  function SortByAddress(vs: seq<Validator>): seq<Validator> {
    if vs == [] then [] else InsertSorted(SortByAddress(vs[1..]), vs[0])
  }

  function CurrentHeight(v: Votes): nat {
    if v.infos == [] then v.maxHeightPrevoted else v.infos[0].header.height
  }

  /** Validators that stay keep their entry, new ones become active from `next` on. */
  function NextActive(active: map<Address, ActiveValidator>, vs: seq<Validator>, next: nat): map<Address, ActiveValidator>
    requires next >= 1
  {
    map a | a in (set v | v in vs :: v.address) ::
      if a in active then active[a] else ActiveValidator(next, next - 1)
  }

  predicate UpdateValid(u: Update, batch: nat) {
    && |u.validators| <= batch
    && (forall v | v in u.validators :: v.weight > 0)
    && Aggregate(u.validators) / 3 + 1 <= u.precommitThreshold <= Aggregate(u.validators)
    && Aggregate(u.validators) / 3 + 1 <= u.certificateThreshold <= Aggregate(u.validators)
  }

  /** The parameters an update leads to. */
  function ParamsOf(u: Update): Params {
    Params(
      (Aggregate(u.validators) * 2 % TWO64) / 3 + 1,
      u.precommitThreshold,
      u.certificateThreshold,
      SortByAddress(u.validators))
  }

  predicate Unchanged(current: Option<Params>, u: Update) {
    && current.Some?
    && current.value.validators == SortByAddress(u.validators)
    && current.value.precommitThreshold == u.precommitThreshold
    && current.value.certificateThreshold == u.certificateThreshold
  }

  /** SetBFTParameters; None when the update is rejected. */
  function SetBFTParameters(s: Store, u: Update, batch: nat): Option<Store> {
    var current := CurrentHeight(s.votes);
    if !UpdateValid(u, batch) then None
    else if Unchanged(Lookup(s.params, current), u) then Some(s)
    else
      var p := ParamsOf(u);
      Some(Store(
        s.votes.(active := NextActive(s.votes.active, p.validators, current + 1)),
        s.params[current + 1 := p]))
  }

  // ---------------------------------------------------------------- processing a block

  function WindowLength(batch: nat): nat { 3 * batch }

  /** The oldest height whose parameters are still needed. */
  function MinHeightRequired(v: Votes): nat
    requires v.infos != []
  {
    Min(v.infos[|v.infos| - 1].header.height, v.maxHeightCertified + 1)
  }

  /** BeforeTransactionsExecute; None when it returns an error. */
  function BeforeTransactionsExecute(s: Store, header: Header, batch: nat): (r: Option<Store>)
    requires batch >= 1
    requires Consecutive(Insert(s.votes.infos, header.bft, WindowLength(batch)))
    ensures r.Some? ==> SameHeaders(Insert(s.votes.infos, header.bft, WindowLength(batch)), r.value.votes.infos)
  {
    var window := Insert(s.votes.infos, header.bft, WindowLength(batch));
    if Lookup(s.params, window[|window| - 1].header.height).None? then None
    else if !VotesDefined(s.params, window, s.votes.active) then None
    else
      var votes := ProcessHeader(s.params, s.votes, header, WindowLength(batch));
      Some(Store(votes, Prune(s.params, MinHeightRequired(votes))))
  }

  /** The height bounds of verifyAggregateCommit. */
  predicate CommitAcceptable(v: Votes, commit: AggregateCommit) {
    || (!commit.hasBits && !commit.hasSignature && commit.height == v.maxHeightCertified)
    || (commit.hasBits && commit.hasSignature && v.maxHeightCertified < commit.height <= v.maxHeightPrecommitted)
  }

  /** The guards of verifyBlock that concern consensus heights. */
  predicate HeaderAcceptable(v: Votes, lastHeight: nat, header: Header) {
    && header.bft.height == lastHeight + 1
    && header.bft.maxHeightPrevoted == v.maxHeightPrevoted
    && !ContradictsWindow(v.infos, header.bft)
    && CommitAcceptable(v, header.commit)
  }

  /** The window is the tail of the chain that ends in a block of height `tip`. */
  predicate WindowEndsAt(infos: seq<BlockInfo>, tip: nat, genesis: nat, batch: nat) {
    && tip >= genesis
    && |infos| == Min(WindowLength(batch), tip - genesis)
    && Consecutive(infos)
    && (infos != [] ==> infos[0].header.height == tip)
  }

  lemma InsertExtendsWindow(infos: seq<BlockInfo>, header: PartialHeader, tip: nat, genesis: nat, batch: nat)
    requires batch >= 1
    requires WindowEndsAt(infos, tip, genesis, batch) && header.height == tip + 1
    ensures WindowEndsAt(Insert(infos, header, WindowLength(batch)), tip + 1, genesis, batch)
  {
    var window := Insert(infos, header, WindowLength(batch));
    forall i | 0 <= i < |window| ensures window[i].header.height == window[0].header.height - i {
      if i > 0 { assert window[i] == infos[i - 1]; }
    }
  }

  lemma SameHeadersEndAt(a: seq<BlockInfo>, b: seq<BlockInfo>, tip: nat, genesis: nat, batch: nat)
    requires SameHeaders(a, b) && WindowEndsAt(a, tip, genesis, batch)
    ensures WindowEndsAt(b, tip, genesis, batch)
  {
  }

  /** The state after one more block; None when it is rejected. */
  function ProcessBlock(s: Store, tip: nat, genesis: nat, header: Header, update: Option<Update>, batch: nat): (r: Option<Store>)
    requires batch >= 1
    requires WindowEndsAt(s.votes.infos, tip, genesis, batch)
    ensures r.Some? ==> WindowEndsAt(r.value.votes.infos, header.bft.height, genesis, batch)
  {
    if !HeaderAcceptable(s.votes, tip, header) then None
    else
      InsertExtendsWindow(s.votes.infos, header.bft, tip, genesis, batch);
      var executed := BeforeTransactionsExecute(s, header, batch);
      if executed.None? then None
      else
        SameHeadersEndAt(Insert(s.votes.infos, header.bft, WindowLength(batch)), executed.value.votes.infos, tip + 1, genesis, batch);
        if update.None? then executed
        else SetBFTParameters(executed.value, update.value, batch)
  }

  /** The consensus store after the chain that ends in `b`; None when some block of it is rejected. */
  function StateAfter(b: Block, batch: nat): (r: Option<Store>)
    requires batch >= 1
    ensures r.Some? ==> WindowEndsAt(r.value.votes.infos, Height(b), GenesisHeight(b), batch)
  {
    match b
    case Genesis(h, initial) =>
      SetBFTParameters(Store(Votes(h, h, h, [], map[]), map[]), initial, batch)
    case Child(parent, header, update) =>
      var before := StateAfter(parent, batch);
      if before.None? then None
      else ProcessBlock(before.value, Height(parent), GenesisHeight(parent), header, update, batch)
  }

  predicate Accepted(b: Block, batch: nat)
    requires batch >= 1
  {
    StateAfter(b, batch).Some?
  }

  // ---------------------------------------------------------------- ancestry

  /** `a` is `b` or an ancestor of `b`. */
  predicate OnChain(a: Block, b: Block) {
    a == b || (b.Child? && OnChain(a, b.parent))
  }

  /** The block of the chain ending in `b` at height `h`. */
  function BlockAt(b: Block, h: nat): Block {
    if b.Genesis? || Height(b) <= h then b else BlockAt(b.parent, h)
  }
}
