/** BFT parameters: validator weights, thresholds, the height-indexed parameter store
    with its floor lookup and its pruning (pkg/consensus/liskbft/api.go, util.go). */
module BftParams {
  import opened Basics
  import opened Contradiction

  datatype Validator = Validator(address: Address, weight: nat)

  datatype Params = Params(
    prevoteThreshold: nat,
    precommitThreshold: nat,
    certificateThreshold: nat,
    validators: seq<Validator>)

  /** The parameter store: the parameters written for a height hold from that height on,
      until the next written height. */
  type ParamsStore = map<nat, Params>

  const TWO64: nat := 0x1_0000_0000_0000_0000

  /** uint64 addition. */
  function Add64(x: nat, y: nat): nat { (x + y) % TWO64 }

  // ---------------------------------------------------------------- validator weights

  predicate HasAddress(vs: seq<Validator>, a: Address) {
    exists i :: 0 <= i < |vs| && vs[i].address == a
  }

  /** Weight of the first entry with the given address, as the linear lookup finds it. */
  function Find(vs: seq<Validator>, a: Address): Option<nat> {
    if vs == [] then None
    else if vs[0].address == a then Some(vs[0].weight)
    else Find(vs[1..], a)
  }

  /** Sum of all weights, without wrap-around. */
  function TotalWeight(vs: seq<Validator>): nat {
    if vs == [] then 0 else vs[0].weight + TotalWeight(vs[1..])
  }

  /** Sum of the weights of a set of distinct addresses, each taken at its first entry. */
  function WeightSum(vs: seq<Validator>, who: set<Address>): nat {
    if vs == [] then 0
    else (if vs[0].address in who then vs[0].weight else 0) + WeightSum(vs[1..], who - {vs[0].address})
  }

  lemma {:induction false} FindIffHasAddress(vs: seq<Validator>, a: Address)
    ensures Find(vs, a).Some? <==> HasAddress(vs, a)
  {
    if vs != [] {
      FindIffHasAddress(vs[1..], a);
      if HasAddress(vs, a) && vs[0].address != a {
        var i :| 0 <= i < |vs| && vs[i].address == a;
        assert vs[1..][i - 1].address == a;
      }
      if HasAddress(vs[1..], a) {
        var i :| 0 <= i < |vs[1..]| && vs[1..][i].address == a;
        assert vs[i + 1].address == a;
      }
    }
  }

  lemma {:induction false} WeightSumOfNobody(vs: seq<Validator>)
    ensures WeightSum(vs, {}) == 0
  {
    if vs != [] {
      assert {} - {vs[0].address} == {};
      WeightSumOfNobody(vs[1..]);
    }
  }

  /** Counting one more, previously uncounted validator adds exactly its weight. */
  lemma {:induction false} WeightSumInsert(vs: seq<Validator>, who: set<Address>, a: Address)
    requires a !in who
    requires Find(vs, a).Some?
    ensures WeightSum(vs, who + {a}) == WeightSum(vs, who) + Find(vs, a).value
  {
    if vs[0].address == a {
      assert who + {a} - {a} == who == who - {a};
    } else {
      assert who + {a} - {vs[0].address} == who - {vs[0].address} + {a};
      WeightSumInsert(vs[1..], who - {vs[0].address}, a);
    }
  }

  lemma {:induction false} WeightSumBounded(vs: seq<Validator>, who: set<Address>)
    ensures WeightSum(vs, who) <= TotalWeight(vs)
  {
    if vs != [] {
      WeightSumBounded(vs[1..], who - {vs[0].address});
    }
  }

  lemma {:induction false} WeightSumMonotone(vs: seq<Validator>, p: set<Address>, q: set<Address>)
    requires p <= q
    ensures WeightSum(vs, p) <= WeightSum(vs, q)
  {
    if vs != [] {
      WeightSumMonotone(vs[1..], p - {vs[0].address}, q - {vs[0].address});
    }
  }

  /** Inclusion and exclusion for weights. */
  lemma {:induction false} WeightSumUnion(vs: seq<Validator>, p: set<Address>, q: set<Address>)
    ensures WeightSum(vs, p * q) + WeightSum(vs, p + q) == WeightSum(vs, p) + WeightSum(vs, q)
  {
    if vs != [] {
      var a := vs[0].address;
      assert p * q - {a} == (p - {a}) * (q - {a});
      assert p + q - {a} == (p - {a}) + (q - {a});
      WeightSumUnion(vs[1..], p - {a}, q - {a});
    }
  }

  /** Two quorums overlap in at least the sum of their thresholds less the total weight. */
  lemma QuorumIntersection(vs: seq<Validator>, p: set<Address>, q: set<Address>, x: nat, y: nat)
    requires WeightSum(vs, p) >= x && WeightSum(vs, q) >= y
    ensures WeightSum(vs, p * q) >= x + y - TotalWeight(vs)
  {
    WeightSumUnion(vs, p, q);
    WeightSumBounded(vs, p + q);
  }

  // ---------------------------------------------------------------- floor lookup and pruning

  /** `k` is the largest written height that is at most `h`. */
  predicate IsFloor(store: ParamsStore, h: nat, k: nat) {
    && k in store && k <= h
    && forall j :: j in store && j <= h ==> j <= k
  }

  /** Largest written height that is at most `h`, if there is one. */
  function Floor(store: ParamsStore, h: nat): (r: Option<nat>)
    ensures r.None? ==> forall j :: j in store ==> j > h
    ensures r.Some? ==> IsFloor(store, h, r.value)
  {
    if h in store then Some(h)
    else if h == 0 then None
    else Floor(store, h - 1)
  }

  /** getBFTParams: the parameters in force at a height. */
  function Lookup(store: ParamsStore, h: nat): Option<Params> {
    match Floor(store, h)
    case None => None
    case Some(k) => Some(store[k])
  }

  lemma LookupByFloor(store: ParamsStore, h: nat, k: nat)
    requires IsFloor(store, h, k)
    ensures Floor(store, h) == Some(k) && Lookup(store, h) == Some(store[k])
  {
    assert Floor(store, h).Some?;
  }

  /** deleteBFTParams: of the heights up to `min`, only the largest written one is kept. */
  function Prune(store: ParamsStore, min: nat): ParamsStore {
    map k | k in store && (k > min || IsFloor(store, min, k)) :: store[k]
  }

  /** Pruning does not change the parameters in force at any height from `min` on. */
  lemma PruneKeepsLookup(store: ParamsStore, min: nat, h: nat)
    requires min <= h
    ensures Lookup(Prune(store, min), h) == Lookup(store, h)
    ensures Floor(Prune(store, min), h) == Floor(store, h)
  {
    var pruned := Prune(store, min);
    match Floor(store, h) {
      case None =>
        assert forall j :: j in pruned ==> j > h;
        assert Floor(pruned, h).None?;
      case Some(k) =>
        if k <= min {
          assert IsFloor(store, min, k);
        }
        assert IsFloor(pruned, h, k);
        LookupByFloor(pruned, h, k);
    }
  }

  /** Nothing that is kept can be dropped: each surviving height is the floor of some height from `min` on. */
  lemma PruneIsTight(store: ParamsStore, min: nat, k: nat)
    requires k in Prune(store, min)
    ensures exists h :: h >= min && Floor(store, h) == Some(k)
  {
    if k > min {
      LookupByFloor(store, k, k);
    } else {
      LookupByFloor(store, min, k);
    }
  }

  /** Writing parameters for a height leaves lower heights alone and decides that height. */
  lemma WriteChangesOnlyLater(store: ParamsStore, at: nat, p: Params, h: nat)
    ensures h < at ==> Lookup(store[at := p], h) == Lookup(store, h)
    ensures h == at ==> Lookup(store[at := p], h) == Some(p)
  {
    var written := store[at := p];
    if h < at {
      match Floor(store, h) {
        case None => assert Floor(written, h).None?;
        case Some(k) =>
          assert IsFloor(written, h, k);
          LookupByFloor(written, h, k);
      }
    }
  }
}
