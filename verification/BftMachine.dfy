/** The vote state as it is updated in place, block by block: the methods of BFTVotes, the parameter
    cache, and the module step that drives them (pkg/consensus/liskbft/validator.go, module.go, util.go, api.go). */
module BftMachine {
  import opened Basics
  import opened Contradiction
  import opened BftParams
  import opened BftVotes
  import opened BftChain

  // ---------------------------------------------------------------- ranges over the parameter store

  /** The written heights in an inclusive range, ascending. */
  function Written(store: ParamsStore, from: nat, to: int): (ks: seq<nat>)
    ensures forall k :: k in ks <==> k in store && from <= k <= to
    ensures forall i, j :: 0 <= i < j < |ks| ==> ks[i] < ks[j]
    decreases if to < from then 0 else 1 + to - from
  {
    if to < from then []
    else
      var rest := Written(store, from, to - 1);
      assert forall i :: 0 <= i < |rest| ==> rest[i] in rest;
      rest + if to in store then [to] else []
  }

  /** The written heights in an inclusive range, descending. */
  function WrittenDown(store: ParamsStore, from: nat, to: int): (ks: seq<nat>)
    ensures forall k :: k in ks <==> k in store && from <= k <= to
    ensures forall i, j :: 0 <= i < j < |ks| ==> ks[i] > ks[j]
    decreases if to < from then 0 else 1 + to - from
  {
    if to < from then []
    else
      var rest := WrittenDown(store, from, to - 1);
      assert forall i :: 0 <= i < |rest| ==> rest[i] in rest;
      (if to in store then [to] else []) + rest
  }

  /** The value of the first entry whose height is at most `height`. */
  method FirstAtOrBelow(entries: seq<(nat, Params)>, height: nat) returns (r: Option<Params>)
    ensures r == First(entries, height)
  {
    for i := 0 to |entries|
      invariant First(entries, height) == First(entries[i..], height)
    {
      if entries[i].0 <= height {
        return Some(entries[i].1);
      }
    }
    return None;
  }

  function First(entries: seq<(nat, Params)>, height: nat): Option<Params> {
    if entries == [] then None
    else if entries[0].0 <= height then Some(entries[0].1)
    else First(entries[1..], height)
  }

  /** The index of the first entry at or below a height. */
  lemma {:induction false} FirstIndex(entries: seq<(nat, Params)>, height: nat) returns (i: nat)
    ensures i <= |entries|
    ensures forall j :: 0 <= j < i ==> entries[j].0 > height
    ensures i < |entries| ==> entries[i].0 <= height
    ensures First(entries, height) == if i < |entries| then Some(entries[i].1) else None
  {
    if entries == [] || entries[0].0 <= height {
      i := 0;
    } else {
      var k := FirstIndex(entries[1..], height);
      i := k + 1;
    }
  }

  /** What the cache searches: the written heights of the range, newest first, and behind them the
      parameters in force at its lower end. */
  method LoadEntries(store: ParamsStore, from: nat, to: nat) returns (r: Option<seq<(nat, Params)>>)
    ensures r.None? <==> from > 0 && Lookup(store, from).None?
    ensures r.Some? ==> forall h: nat :: from <= h <= to ==> First(r.value, h) == Lookup(store, h)
  {
    var keys := WrittenDown(store, from, to);
    var entries := seq(|keys|, i requires 0 <= i < |keys| => (assert keys[i] in keys; (keys[i], store[keys[i]])));
    if from > 0 {
      var nextLowest := Lookup(store, from);
      if nextLowest.None? {
        return None;
      }
      entries := entries + [(from, nextLowest.value)];
    }
    forall h: nat | from <= h <= to ensures First(entries, h) == Lookup(store, h) {
      FirstEntryIsLookup(store, from, to, keys, entries, h);
    }
    return Some(entries);
  }

  /** A height with parameters passes them on to every later height. */
  lemma FloorsPersist(store: ParamsStore, from: nat, h: nat)
    requires from <= h && Lookup(store, from).Some?
    ensures Lookup(store, h).Some?
  {
  }

  // ---------------------------------------------------------------- parameter cache

  class ParamsCache {
    const store: ParamsStore
    var data: map<nat, Params>

    /** Whatever is cached agrees with the store. */
    predicate Valid()
      reads this
    {
      forall h :: h in data ==> Lookup(store, h) == Some(data[h])
    }

    constructor (store: ParamsStore)
      ensures Valid() && this.store == store && data == map[]
    {
      this.store := store;
      data := map[];
    }

    /** cache: load the parameters of every height of a range, from one range read and one floor read. */
    method Cache(from: nat, to: nat) returns (ok: bool)
      requires Valid() && from <= to
      modifies this
      ensures Valid()
      ensures ok <==> Lookup(store, from).Some?
      ensures ok ==> forall h :: from <= h <= to ==> h in data
    {
      var entries := LoadEntries(store, from, to);
      if entries.None? {
        return false;
      }
      var height := from;
      while height <= to
        invariant from <= height <= to + 1
        invariant Valid()
        invariant forall h :: from <= h < height ==> h in data
        invariant height > from ==> Lookup(store, from).Some?
      {
        var value := FirstAtOrBelow(entries.value, height);
        assert value == Lookup(store, height);
        if value.None? {
          if height > from { FloorsPersist(store, from, height); }
          return false;
        }
        data := data[height := value.value];
        height := height + 1;
      }
      return true;
    }

    method GetParameters(height: nat) returns (r: Option<Params>)
      requires Valid()
      modifies this
      ensures Valid()
      ensures r == Lookup(store, height)
    {
      if height in data {
        return Some(data[height]);
      }
      r := Lookup(store, height);
      if r.Some? {
        data := data[height := r.value];
      }
    }
  }

  /** The first entry at or below a height, in the descending list, is the floor of the height. */
  lemma FirstBelowIsFloor(store: ParamsStore, keys: seq<nat>, from: nat, to: nat, height: nat, i: nat)
    requires keys == WrittenDown(store, from, to) && from <= height <= to && i <= |keys|
    requires forall j :: 0 <= j < i ==> keys[j] > height
    requires i < |keys| ==> keys[i] <= height
    ensures i < |keys| ==> Lookup(store, height) == Some(store[keys[i]])
    ensures i == |keys| ==> Lookup(store, height) == if from == 0 then None else Lookup(store, from)
  {
    if i < |keys| {
      forall j | j in store && j <= height ensures j <= keys[i] {
        assert keys[i] in keys;
        if j >= from {
          assert j in keys;
          var n :| 0 <= n < |keys| && keys[n] == j;
          assert n >= i;
        }
      }
      LookupByFloor(store, height, keys[i]);
    } else {
      match Floor(store, height) {
        case None =>
          assert Lookup(store, height).None?;
          assert Lookup(store, from).None?;
        case Some(k) =>
          assert k !in keys;
          LookupByFloor(store, from, k);
      }
    }
  }

  /** Searching the list that the cache builds finds the parameters in force. */
  lemma FirstEntryIsLookup(store: ParamsStore, from: nat, to: nat, keys: seq<nat>, entries: seq<(nat, Params)>, height: nat)
    requires from <= height <= to && keys == WrittenDown(store, from, to)
    requires |entries| == |keys| + (if from > 0 then 1 else 0)
    requires forall i :: 0 <= i < |keys| ==> keys[i] in store && entries[i] == (keys[i], store[keys[i]])
    requires from > 0 ==> Lookup(store, from).Some? && entries[|keys|] == (from, Lookup(store, from).value)
    ensures First(entries, height) == Lookup(store, height)
  {
    hide Lookup, WrittenDown, Floor, First;
    var i := FirstIndex(entries, height);
    forall j | 0 <= j < Min(i, |keys|) ensures keys[j] > height {
      assert entries[j].0 > height;
    }
    FirstBelowIsFloor(store, keys, from, to, height, Min(i, |keys|));
  }

  // ---------------------------------------------------------------- vote state

  class VoteState {
    var maxHeightPrevoted: nat
    var maxHeightPrecommitted: nat
    var maxHeightCertified: nat
    var infos: seq<BlockInfo>
    var active: map<Address, ActiveValidator>

    function Value(): Votes
      reads this
    {
      Votes(maxHeightPrevoted, maxHeightPrecommitted, maxHeightCertified, infos, active)
    }

    constructor (v: Votes)
      ensures Value() == v
    {
      maxHeightPrevoted := v.maxHeightPrevoted;
      maxHeightPrecommitted := v.maxHeightPrecommitted;
      maxHeightCertified := v.maxHeightCertified;
      infos := v.infos;
      active := v.active;
    }

    method InsertBlockBFTInfo(header: PartialHeader, maxLength: nat)
      requires maxLength >= 1
      modifies this`infos
      ensures infos == Insert(old(infos), header, maxLength)
    {
      var headers := [BlockInfo(header, 0, 0)];
      var i := 0;
      while i < |infos| && i + 1 != maxLength
        invariant 0 <= i <= Min(|infos|, maxLength - 1)
        invariant headers == [BlockInfo(header, 0, 0)] + infos[..i]
      {
        headers := headers + [infos[i]];
        i := i + 1;
      }
      infos := headers;
    }

    method GetHeightNotPrevoted() returns (h: nat)
      requires infos != [] && Consecutive(infos)
      requires infos[0].header.maxHeightGenerated < infos[0].header.height
      ensures h == HeightNotPrevoted(infos)
    {
      var tip := infos[0].header;
      h := tip.maxHeightGenerated;
      while tip.height - h < |infos|
        invariant h < tip.height
        invariant NotPrevotedFrom(infos, h) == HeightNotPrevoted(infos)
        decreases h
      {
        var info := infos[tip.height - h].header;
        if info.generator != tip.generator || info.maxHeightGenerated >= h {
          return;
        }
        h := info.maxHeightGenerated;
      }
      h := infos[|infos| - 1].header.height - 1;
    }

    /** The precommit of `who` for one entry; None when `who` is no validator at its height. */
    static method Precommit(cache: ParamsCache, who: Address, ghost min: nat, info: BlockInfo) returns (r: Option<BlockInfo>, voted: bool)
      requires cache.Valid() && Lookup(cache.store, info.header.height).Some? && info.header.height >= min
      modifies cache
      ensures cache.Valid()
      ensures voted == PrecommitsFrom(cache.store, min, info)
      ensures r.None? <==> voted && WeightAt(cache.store, info.header.height, who).None?
      ensures r.Some? ==> r.value == AddPrecommitFrom(cache.store, who, min, info)
    {
      var params := cache.GetParameters(info.header.height);
      voted := info.prevoteWeight >= params.value.prevoteThreshold;
      if !voted {
        return Some(info), voted;
      }
      var weight := Find(params.value.validators, who);
      if weight.None? {
        return None, voted;
      }
      r := Some(info.(precommitWeight := Add64(info.precommitWeight, weight.value)));
    }

    /** The precommits of the newest header from height `min` on, newest block first. */
    method AddPrecommits(cache: ParamsCache, who: Address, min: nat) returns (ok: bool)
      requires Consecutive(infos) && who in active
      requires cache.Valid() && forall i :: 0 <= i < |infos| ==> Lookup(cache.store, infos[i].header.height).Some?
      modifies this`infos, this`active, cache
      ensures cache.Valid()
      ensures ok <==> forall i :: 0 <= i < |old(infos)| && PrecommitsFrom(cache.store, min, old(infos)[i]) ==>
                        WeightAt(cache.store, old(infos)[i].header.height, who).Some?
      ensures ok ==> infos == PrecommitPass(cache.store, old(infos), who, min, |old(infos)|)
      ensures ok ==> active == old(active)[who := old(active)[who].(
                       largestHeightPrecommit := NewestHeight(old(infos), PrecommitFromTest(cache.store, min), old(active)[who].largestHeightPrecommit))]
    {
      hide AddPrecommitFrom, PrecommitsFrom, WeightAt, Lookup, NewestHeight;
      var w, before := infos, active;
      var hasPrecommitted := false;
      var i := 0;
      ghost var first := 0;
      while i < |infos| && infos[i].header.height >= min
        invariant cache.Valid() && 0 <= i <= |infos| == |w|
        invariant infos == PrecommitPass(cache.store, w, who, min, i)
        invariant forall j :: 0 <= j < i && PrecommitsFrom(cache.store, min, w[j]) ==>
                    WeightAt(cache.store, w[j].header.height, who).Some?
        invariant !hasPrecommitted ==> active == before && forall j :: 0 <= j < i ==> !PrecommitsFrom(cache.store, min, w[j])
        invariant hasPrecommitted ==>
                    && 0 <= first < i && PrecommitsFrom(cache.store, min, w[first])
                    && (forall j :: 0 <= j < first ==> !PrecommitsFrom(cache.store, min, w[j]))
                    && active == before[who := before[who].(largestHeightPrecommit := w[first].header.height)]
      {
        var counted, voted := Precommit(cache, who, min, infos[i]);
        if counted.None? {
          return false;
        }
        infos := infos[i := counted.value];
        if voted && !hasPrecommitted {
          active := active[who := active[who].(largestHeightPrecommit := infos[i].header.height)];
          hasPrecommitted := true;
          first := i;
        }
        i := i + 1;
      }
      PrecommitPassDone(cache.store, w, who, min, i);
      NewestHeightSpec(w, PrecommitFromTest(cache.store, min), before[who].largestHeightPrecommit);
      return true;
    }

    /** The prevotes of the newest header from height `min` on, newest block first. */
    method AddPrevotes(cache: ParamsCache, who: Address, min: nat) returns (ok: bool)
      requires Consecutive(infos)
      requires cache.Valid() && forall i :: 0 <= i < |infos| ==> Lookup(cache.store, infos[i].header.height).Some?
      modifies this`infos, cache
      ensures cache.Valid()
      ensures ok <==> forall i :: 0 <= i < |old(infos)| && old(infos)[i].header.height >= min ==>
                        WeightAt(cache.store, old(infos)[i].header.height, who).Some?
      ensures ok ==> infos == PrevotePass(cache.store, old(infos), who, min, |old(infos)|)
    {
      hide Lookup;
      var w := infos;
      var i := 0;
      while i < |infos| && infos[i].header.height >= min
        invariant cache.Valid() && 0 <= i <= |infos| == |w|
        invariant infos == PrevotePass(cache.store, w, who, min, i)
        invariant forall j :: 0 <= j < i && w[j].header.height >= min ==> WeightAt(cache.store, w[j].header.height, who).Some?
      {
        var params := cache.GetParameters(infos[i].header.height);
        var weight := Find(params.value.validators, who);
        if weight.None? {
          return false;
        }
        infos := infos[i := infos[i].(prevoteWeight := Add64(infos[i].prevoteWeight, weight.value))];
        i := i + 1;
      }
      return true;
    }
  
    /** updatePrevotesPrecommits: the votes the newest header implies. */
    method UpdatePrevotesPrecommits(cache: ParamsCache) returns (ok: bool)
      requires Consecutive(infos)
      requires cache.Valid() && forall i :: 0 <= i < |infos| ==> Lookup(cache.store, infos[i].header.height).Some?
      modifies this`infos, this`active, cache
      ensures cache.Valid()
      ensures ok <==> VotesDefined(cache.store, old(infos), old(active))
      ensures ok ==> infos == CountVotes(cache.store, old(infos), old(active))
      ensures ok ==> active == RecordPrecommit(cache.store, old(infos), old(active))
    {
      hide CountVotes, PrecommitPass, PrevotePass, VotesDefined, Lookup, ParamsCache.Valid;
      if infos == [] || infos[0].header.maxHeightGenerated >= infos[0].header.height || infos[0].header.generator !in active {
        NoVotes(cache.store, infos, active);
        return true;
      }
      var w, before := infos, active;
      var header := infos[0].header;
      var validator := active[header.generator];
      var heightNotPrevoted := GetHeightNotPrevoted();
      var minPrecommit := Max(validator.minActiveHeight, Max(heightNotPrevoted + 1, validator.largestHeightPrecommit + 1));
      var minPrevote := Max(header.maxHeightGenerated + 1, validator.minActiveHeight);
      assert minPrecommit == MinPrecommitHeight(w, before) && minPrevote == MinPrevoteHeight(w, before);
      PassesDefined(cache.store, w, before, minPrecommit, minPrevote);
      ok := AddPrecommits(cache, header.generator, minPrecommit);
      if !ok {
        return;
      }
      PrecommitPassHeaders(cache.store, w, header.generator, minPrecommit, infos);
      ok := AddPrevotes(cache, header.generator, minPrevote);
      if ok {
        PassesCount(cache.store, w, before, minPrecommit, minPrevote);
      }
    }
  
    method UpdateMaxHeightPrevoted(cache: ParamsCache)
      requires cache.Valid() && forall i :: 0 <= i < |infos| ==> Lookup(cache.store, infos[i].header.height).Some?
      modifies this`maxHeightPrevoted, cache
      ensures cache.Valid()
      ensures maxHeightPrevoted == NewestHeight(infos, PrevoteQuorumTest(cache.store), old(maxHeightPrevoted))
    {
      for i := 0 to |infos|
        invariant cache.Valid() && maxHeightPrevoted == old(maxHeightPrevoted)
        invariant NewestHeight(infos, PrevoteQuorumTest(cache.store), maxHeightPrevoted)
               == NewestHeight(infos[i..], PrevoteQuorumTest(cache.store), maxHeightPrevoted)
      {
        var params := cache.GetParameters(infos[i].header.height);
        if infos[i].prevoteWeight >= params.value.prevoteThreshold {
          maxHeightPrevoted := infos[i].header.height;
          return;
        }
      }
    }

    method UpdateMaxHeightPrecommitted(cache: ParamsCache)
      requires cache.Valid() && forall i :: 0 <= i < |infos| ==> Lookup(cache.store, infos[i].header.height).Some?
      modifies this`maxHeightPrecommitted, cache
      ensures cache.Valid()
      ensures maxHeightPrecommitted == NewestHeight(infos, PrecommitQuorumTest(cache.store), old(maxHeightPrecommitted))
    {
      for i := 0 to |infos|
        invariant cache.Valid() && maxHeightPrecommitted == old(maxHeightPrecommitted)
        invariant NewestHeight(infos, PrecommitQuorumTest(cache.store), maxHeightPrecommitted)
               == NewestHeight(infos[i..], PrecommitQuorumTest(cache.store), maxHeightPrecommitted)
      {
        var params := cache.GetParameters(infos[i].header.height);
        if infos[i].precommitWeight >= params.value.precommitThreshold {
          maxHeightPrecommitted := infos[i].header.height;
          return;
        }
      }
    }

    method UpdateMaxHeightCertified(commit: AggregateCommit)
      modifies this`maxHeightCertified
      ensures maxHeightCertified == CertifiedAfter(old(maxHeightCertified), commit)
    {
      if commit.hasBits || commit.hasSignature {
        maxHeightCertified := commit.height;
      }
    }

    /** The part of a block step that works on the vote state; false when a lookup fails. */
    method ProcessHeader(cache: ParamsCache, header: Header, maxLength: nat) returns (ok: bool)
      requires maxLength >= 1 && Consecutive(Insert(infos, header.bft, maxLength))
      requires cache.Valid()
      modifies this, cache
      ensures
        var window := Insert(old(infos), header.bft, maxLength);
        ok <==> Lookup(cache.store, window[|window| - 1].header.height).Some? && VotesDefined(cache.store, window, old(active))
      ensures ok ==> infos != [] && Value() == BftVotes.ProcessHeader(cache.store, old(Value()), header, maxLength)
    {
      hide CountVotes, NewestHeight, RecordPrecommit, VotesDefined, PrevoteQuorumTest, PrecommitQuorumTest, Lookup,
        ParamsCache.Valid;
      InsertBlockBFTInfo(header.bft, maxLength);
      ghost var window := infos;
      ok := cache.Cache(infos[|infos| - 1].header.height, infos[0].header.height);
      if !ok {
        return;
      }
      WindowHasParams(cache.store, window);
      ok := UpdatePrevotesPrecommits(cache);
      if !ok {
        return;
      }
      CountedHasParams(cache.store, window, infos);
      UpdateMaxHeightPrevoted(cache);
      UpdateMaxHeightPrecommitted(cache);
      UpdateMaxHeightCertified(header.commit);
    }

    method IsContradicting(header: PartialHeader) returns (r: bool)
      ensures r == ContradictsWindow(infos, header)
    {
      for i := 0 to |infos|
        invariant ContradictsWindow(infos, header) == ContradictsWindow(infos[i..], header)
      {
        if infos[i].header.generator == header.generator {
          return AreDistinctHeadersContradicting(infos[i].header, header);
        }
      }
      return false;
    }
  }

  // ---------------------------------------------------------------- the module over its store

  /** The uint64 sum of the weights; None when some weight is zero. */
  method AggregateWeight(vs: seq<Validator>) returns (r: Option<nat>)
    ensures r.None? <==> exists v :: v in vs && v.weight == 0
    ensures r.Some? ==> r.value == Aggregate(vs)
  {
    var aggregate: nat := 0;
    for i := 0 to |vs|
      invariant aggregate < TWO64
      invariant forall j :: 0 <= j < i ==> vs[j].weight > 0
      invariant Add64(aggregate, TotalWeight(vs[i..])) == Aggregate(vs)
    {
      if vs[i].weight == 0 {
        assert vs[i] in vs;
        return None;
      }
      AccumulateWeight(aggregate, vs[i..]);
      aggregate := Add64(aggregate, vs[i].weight);
    }
    return Some(aggregate);
  }

  class Module {
    const batch: nat
    var store: Store

    constructor (batch: nat, genesisHeight: nat)
      ensures this.batch == batch
      ensures store == Store(Votes(genesisHeight, genesisHeight, genesisHeight, [], map[]), map[])
    {
      this.batch := batch;
      store := Store(Votes(genesisHeight, genesisHeight, genesisHeight, [], map[]), map[]);
    }

    /** deleteBFTParams: drop every written height up to `height` except the largest. */
    method DeleteBFTParams(height: nat)
      modifies this
      ensures store == old(store).(params := Prune(old(store).params, height))
    {
      var params := store.params;
      var keys := Written(params, 0, height);
      var i := 0;
      while i + 1 < |keys|
        invariant 0 <= i <= |keys| && (i > 0 ==> i < |keys|)
        invariant store == old(store).(params := params - set j | 0 <= j < i :: keys[j])
      {
        store := store.(params := store.params - {keys[i]});
        i := i + 1;
      }
      DroppedIsPruned(params, keys, height, i);
    }

    /** The step a new block header takes; on an error the store is left as it was. */
    method BeforeTransactionsExecute(header: Header) returns (ok: bool)
      requires batch >= 1 && Consecutive(Insert(store.votes.infos, header.bft, WindowLength(batch)))
      modifies this
      ensures BftChain.BeforeTransactionsExecute(old(store), header, batch) == if ok then Some(store) else None
      ensures !ok ==> store == old(store)
    {
      hide BftVotes.ProcessHeader, VotesDefined, Prune, Lookup, Consecutive;
      var cache := new ParamsCache(store.params);
      var votes := new VoteState(store.votes);
      ok := votes.ProcessHeader(cache, header, WindowLength(batch));
      if !ok {
        return;
      }
      store := store.(votes := votes.Value());
      DeleteBFTParams(MinHeightRequired(store.votes));
    }

    /** SetBFTParameters, with the uint64 accumulator of the aggregate weight. */
    method SetBFTParameters(u: Update) returns (ok: bool)
      modifies this
      ensures BftChain.SetBFTParameters(old(store), u, batch) == if ok then Some(store) else None
      ensures !ok ==> store == old(store)
    {
      if |u.validators| > batch {
        return false;
      }
      var sum := AggregateWeight(u.validators);
      if sum.None? {
        return false;
      }
      var aggregate := sum.value;
      if aggregate / 3 + 1 > u.precommitThreshold || u.precommitThreshold > aggregate {
        return false;
      }
      if aggregate / 3 + 1 > u.certificateThreshold || u.certificateThreshold > aggregate {
        return false;
      }
      var validators := SortByAddress(u.validators);
      var current := CurrentHeight(store.votes);
      var params := Lookup(store.params, current);
      if params.Some? && params.value.validators == validators
         && params.value.precommitThreshold == u.precommitThreshold
         && params.value.certificateThreshold == u.certificateThreshold {
        return true;
      }
      var next := Params(aggregate * 2 % TWO64 / 3 + 1, u.precommitThreshold, u.certificateThreshold, validators);
      store := Store(
        store.votes.(active := NextActive(store.votes.active, validators, current + 1)),
        store.params[current + 1 := next]);
      return true;
    }
  }

  lemma AccumulateWeight(aggregate: nat, rest: seq<Validator>)
    requires rest != []
    ensures Add64(aggregate, TotalWeight(rest)) == Add64(Add64(aggregate, rest[0].weight), TotalWeight(rest[1..]))
  {
    AddTwice(aggregate, rest[0].weight, TotalWeight(rest[1..]));
    assert TotalWeight(rest) == rest[0].weight + TotalWeight(rest[1..]);
  }

  lemma AddTwice(x: nat, y: nat, z: nat)
    ensures Add64(Add64(x, y), z) == Add64(x, y + z)
  {
  }

  /** With parameters at its oldest height, the whole window has parameters. */
  lemma WindowHasParams(store: ParamsStore, window: seq<BlockInfo>)
    requires window != [] && Consecutive(window) && Lookup(store, window[|window| - 1].header.height).Some?
    ensures forall i :: 0 <= i < |window| ==> Lookup(store, window[i].header.height).Some?
  {
    forall i | 0 <= i < |window| ensures Lookup(store, window[i].header.height).Some? {
      FloorsPersist(store, window[|window| - 1].header.height, window[i].header.height);
    }
  }

  lemma CountedHasParams(store: ParamsStore, window: seq<BlockInfo>, counted: seq<BlockInfo>)
    requires SameHeaders(window, counted)
    requires forall i :: 0 <= i < |window| ==> Lookup(store, window[i].header.height).Some?
    ensures forall i :: 0 <= i < |counted| ==> Lookup(store, counted[i].header.height).Some?
  {
  }

  /** In an ascending list of all written heights up to a height, only the last is the floor. */
  lemma OnlyLastIsFloor(params: ParamsStore, keys: seq<nat>, height: nat, i: nat)
    requires keys == Written(params, 0, height) && i < |keys|
    ensures keys[i] in params && keys[i] <= height
    ensures IsFloor(params, height, keys[i]) <==> i == |keys| - 1
  {
    hide Written;
    assert keys[i] in keys;
    var last := |keys| - 1;
    assert keys[last] in keys;
    if i == last {
      forall j | j in params && j <= height ensures j <= keys[last] {
        assert j in keys;
      }
    }
  }

  /** Dropping all but the last of the written heights up to a height is pruning. */
  lemma DroppedIsPruned(params: ParamsStore, keys: seq<nat>, height: nat, n: nat)
    requires keys == Written(params, 0, height) && n == if |keys| == 0 then 0 else |keys| - 1
    ensures params - (set j | 0 <= j < n :: keys[j]) == Prune(params, height)
  {
    hide Written, IsFloor;
    var dropped := set j | 0 <= j < n :: keys[j];
    assert forall j :: 0 <= j < n ==> keys[j] in keys;
    forall k | k in params ensures k in dropped <==> !(k > height || IsFloor(params, height, k)) {
      if k <= height {
        assert k in keys;
        var i :| 0 <= i < |keys| && keys[i] == k;
        OnlyLastIsFloor(params, keys, height, i);
      }
    }
  }

  /** The window when the first `n` entries have been given the precommits. */
  ghost function PrecommitPass(store: ParamsStore, w: seq<BlockInfo>, who: Address, min: nat, n: nat): seq<BlockInfo> {
    seq(|w|, j requires 0 <= j < |w| => if j < n then AddPrecommitFrom(store, who, min, w[j]) else w[j])
  }

  /** The window when the first `n` entries have been given the prevotes. */
  ghost function PrevotePass(store: ParamsStore, w: seq<BlockInfo>, who: Address, min: nat, n: nat): seq<BlockInfo> {
    seq(|w|, j requires 0 <= j < |w| => if j < n then AddPrevoteFrom(store, who, min, w[j]) else w[j])
  }

  /** Entries below the bound are not touched, so stopping at the first of them misses nothing. */
  lemma PrecommitPassDone(store: ParamsStore, w: seq<BlockInfo>, who: Address, min: nat, n: nat)
    requires Consecutive(w) && n <= |w| && (n < |w| ==> w[n].header.height < min)
    ensures PrecommitPass(store, w, who, min, n) == PrecommitPass(store, w, who, min, |w|)
    ensures forall j :: n <= j < |w| ==> !PrecommitsFrom(store, min, w[j])
  {
  }

  lemma PrecommitPassHeaders(store: ParamsStore, w: seq<BlockInfo>, who: Address, min: nat, passed: seq<BlockInfo>)
    requires Consecutive(w) && passed == PrecommitPass(store, w, who, min, |w|)
    ensures SameHeaders(w, passed) && Consecutive(passed)
  {
  }

  lemma NoVotes(store: ParamsStore, w: seq<BlockInfo>, active: map<Address, ActiveValidator>)
    requires Consecutive(w) && !ImpliesVotes(w, active)
    ensures VotesDefined(store, w, active) && CountVotes(store, w, active) == w
    ensures RecordPrecommit(store, w, active) == active
  {
  }

  /** The two passes fail exactly when some implied vote has no weight. */
  lemma PassesDefined(store: ParamsStore, w: seq<BlockInfo>, active: map<Address, ActiveValidator>, minPrecommit: nat, minPrevote: nat)
    requires Consecutive(w) && ImpliesVotes(w, active)
    requires minPrecommit == MinPrecommitHeight(w, active) && minPrevote == MinPrevoteHeight(w, active)
    ensures
      var who := w[0].header.generator;
      VotesDefined(store, w, active) <==>
        && (forall i :: 0 <= i < |w| && PrecommitsFrom(store, minPrecommit, w[i]) ==> WeightAt(store, w[i].header.height, who).Some?)
        && (forall i :: 0 <= i < |w| && w[i].header.height >= minPrevote ==> WeightAt(store, w[i].header.height, who).Some?)
  {
  }

  /** One pass after the other counts all the votes. */
  lemma PassesCount(store: ParamsStore, w: seq<BlockInfo>, active: map<Address, ActiveValidator>, minPrecommit: nat, minPrevote: nat)
    requires Consecutive(w) && ImpliesVotes(w, active)
    requires minPrecommit == MinPrecommitHeight(w, active) && minPrevote == MinPrevoteHeight(w, active)
    ensures
      var who := w[0].header.generator;
      PrevotePass(store, PrecommitPass(store, w, who, minPrecommit, |w|), who, minPrevote, |w|) == CountVotes(store, w, active)
  {
  }
}
