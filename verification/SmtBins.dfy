/** Update requests sorted into bins by the next byte of their keys (pkg/trie/smt/smt.go). */
module SmtBins {
  import opened Basics
  import opened SmtTree
  import opened SmtStore

  datatype Request = Request(key: Key, value: Value)

  /** The number in the next `w` bits of a key. */
  function Index(k: Key, d: nat, w: nat): (i: nat)
    requires d + w <= |k|
    ensures i < Pow2(w)
    decreases w
  {
    if w == 0 then 0 else (if k[d] then Pow2(w - 1) else 0) + Index(k, d + 1, w - 1)
  }

  predicate HasKey(list: seq<Request>, k: Key) { exists j :: 0 <= j < |list| && list[j].key == k }

  predicate DistinctKeys(list: seq<Request>) { forall i, j :: 0 <= i < j < |list| ==> list[i].key != list[j].key }

  /** A request of the map that belongs into bin `i`. */
  predicate RequestOf(us: Entries, n: nat, d: nat, w: nat, i: nat, x: Request)
    requires d + w <= n
  {
    x.key in us && us[x.key] == x.value && |x.key| == n && Index(x.key, d, w) == i
  }

  predicate BinOf(bin: seq<Request>, us: Entries, n: nat, d: nat, w: nat, i: nat)
    requires d + w <= n
  {
    DistinctKeys(bin) && forall j :: 0 <= j < |bin| ==> RequestOf(us, n, d, w, i, bin[j])
  }

  predicate Binned(bins: seq<seq<Request>>, n: nat, d: nat, w: nat, k: Key)
    requires d + w <= n && |bins| == Pow2(w)
  {
    |k| == n && HasKey(bins[Index(k, d, w)], k)
  }

  /** The bins hold exactly the requests of the map, each by the next `w` bits of its key. */
  ghost predicate BinsFor(bins: seq<seq<Request>>, us: Entries, n: nat, d: nat, w: nat) {
    && d + w <= n && |bins| == Pow2(w)
    && (forall i :: 0 <= i < |bins| ==> BinOf(bins[i], us, n, d, w, i))
    && (forall k :: k in us ==> Binned(bins, n, d, w, k))
  }

  // ---------------------------------------------------------------- splitting

  lemma IndexBit(k: Key, d: nat, w: nat)
    requires d + w <= |k| && w >= 1
    ensures k[d] <==> Index(k, d, w) >= Pow2(w - 1)
    ensures Index(k, d + 1, w - 1) == Index(k, d, w) - if k[d] then Pow2(w - 1) else 0
  {
  }

  /** The two halves of the bins are the bins of the two halves of the requests. */
  lemma SplitBins(bins: seq<seq<Request>>, us: Entries, p: Bits, n: nat, w: nat)
    requires w >= 1 && BinsFor(bins, us, n, |p|, w) && AllBelow(p, n, us)
    ensures |bins| == 2 * Pow2(w - 1)
    ensures BinsFor(bins[..Pow2(w - 1)], Half(us, p, false), n, |p| + 1, w - 1)
    ensures BinsFor(bins[Pow2(w - 1)..], Half(us, p, true), n, |p| + 1, w - 1)
  {
    SplitOne(bins, us, p, n, w, false);
    SplitOne(bins, us, p, n, w, true);
  }

  lemma SplitOne(bins: seq<seq<Request>>, us: Entries, p: Bits, n: nat, w: nat, b: bool)
    requires w >= 1 && BinsFor(bins, us, n, |p|, w) && AllBelow(p, n, us)
    ensures |bins| == 2 * Pow2(w - 1)
    ensures BinsFor(if b then bins[Pow2(w - 1)..] else bins[..Pow2(w - 1)], Half(us, p, b), n, |p| + 1, w - 1)
  {
    hide Index, Pow2;
    PowNext(w);
    var half := Pow2(w - 1);
    var part := if b then bins[half..] else bins[..half];
    var shift := if b then half else 0;
    forall i | 0 <= i < half ensures BinOf(part[i], Half(us, p, b), n, |p| + 1, w - 1, i) {
      assert part[i] == bins[i + shift];
      assert BinOf(bins[i + shift], us, n, |p|, w, i + shift);
      forall j | 0 <= j < |part[i]| ensures RequestOf(Half(us, p, b), n, |p| + 1, w - 1, i, part[i][j]) {
        RequestMoves(us, p, n, w, i + shift, part[i][j], b);
      }
    }
    forall k | k in Half(us, p, b) ensures Binned(part, n, |p| + 1, w - 1, k) {
      assert Binned(bins, n, |p|, w, k);
      BelowEither(p, n, k);
      IndexBit(k, |p|, w);
    }
  }

  lemma PowNext(w: nat)
    requires w >= 1
    ensures Pow2(w) == 2 * Pow2(w - 1)
  {
  }

  lemma RequestMoves(us: Entries, p: Bits, n: nat, w: nat, i: nat, x: Request, b: bool)
    requires w >= 1 && |p| + w <= n && AllBelow(p, n, us) && RequestOf(us, n, |p|, w, i, x) && (b <==> i >= Pow2(w - 1))
    ensures RequestOf(Half(us, p, b), n, |p| + 1, w - 1, i - if b then Pow2(w - 1) else 0, x)
  {
    hide Index, Pow2;
    IndexBit(x.key, |p|, w);
    BelowEither(p, n, x.key);
  }

  // ---------------------------------------------------------------- counting

  function Total(bins: seq<seq<Request>>): nat {
    if bins == [] then 0 else |bins[0]| + Total(bins[1..])
  }

  lemma {:induction false} TotalZero(bins: seq<seq<Request>>)
    ensures Total(bins) == 0 <==> forall i :: 0 <= i < |bins| ==> bins[i] == []
  {
    if bins != [] {
      TotalZero(bins[1..]);
      assert forall i :: 0 < i < |bins| ==> bins[i] == bins[1..][i - 1];
    }
  }

  lemma {:induction false} TotalOne(bins: seq<seq<Request>>)
    requires Total(bins) == 1
    ensures exists i :: OnlyBin(bins, i)
  {
    if |bins[0]| == 1 {
      TotalZero(bins[1..]);
      forall j | 0 <= j < |bins| && j != 0 ensures bins[j] == [] { assert bins[j] == bins[1..][j - 1]; }
      assert OnlyBin(bins, 0);
    } else {
      TotalOne(bins[1..]);
      var i :| OnlyBin(bins[1..], i);
      forall j | 0 <= j < |bins| && j != i + 1 ensures bins[j] == [] { if j > 0 { assert bins[j] == bins[1..][j - 1]; } }
      assert OnlyBin(bins, i + 1);
    }
  }

  /** All requests are one request in bin `i`. */
  predicate OnlyBin(bins: seq<seq<Request>>, i: int) {
    0 <= i < |bins| && |bins[i]| == 1 && forall j :: 0 <= j < |bins| && j != i ==> bins[j] == []
  }

  lemma NoRequests(bins: seq<seq<Request>>, us: Entries, n: nat, d: nat, w: nat)
    requires BinsFor(bins, us, n, d, w)
    ensures Total(bins) == 0 <==> us == map[]
  {
    hide Index;
    TotalZero(bins);
    if us != map[] {
      var k :| k in us;
      assert Binned(bins, n, d, w, k);
    }
    if Total(bins) != 0 {
      var i :| 0 <= i < |bins| && bins[i] != [];
      assert BinOf(bins[i], us, n, d, w, i);
      assert RequestOf(us, n, d, w, i, bins[i][0]);
    }
  }

  lemma OneRequest(bins: seq<seq<Request>>, us: Entries, n: nat, d: nat, w: nat, i: nat)
    requires BinsFor(bins, us, n, d, w) && OnlyBin(bins, i)
    ensures us == map[bins[i][0].key := bins[i][0].value]
  {
    hide Index;
    assert BinOf(bins[i], us, n, d, w, i);
    assert RequestOf(us, n, d, w, i, bins[i][0]);
    forall k | k in us ensures k == bins[i][0].key {
      assert Binned(bins, n, d, w, k);
    }
  }

  /** Below a full path there is room for one request only. */
  lemma FullPath(bins: seq<seq<Request>>, us: Entries, p: Bits, n: nat)
    requires BinsFor(bins, us, n, n, 0) && |p| == n && AllBelow(p, n, us)
    ensures Total(bins) <= 1
  {
    var bin := bins[0];
    assert BinOf(bin, us, n, n, 0, 0);
    if |bin| >= 2 {
      assert RequestOf(us, n, n, 0, 0, bin[0]) && RequestOf(us, n, n, 0, 0, bin[1]);
      SameKey(p, n, bin[0].key, bin[1].key);
    }
    assert bins[1..] == [];
  }

  /** The lone bin of the last layer lists all requests. */
  lemma LastBin(bins: seq<seq<Request>>, us: Entries, n: nat, d: nat)
    requires BinsFor(bins, us, n, d, 0)
    ensures |bins| == 1 && ListOf(bins[0], us, n)
  {
    assert BinOf(bins[0], us, n, d, 0, 0);
    forall j | 0 <= j < |bins[0]| ensures bins[0][j].key in us && us[bins[0][j].key] == bins[0][j].value && |bins[0][j].key| == n {
      assert RequestOf(us, n, d, 0, 0, bins[0][j]);
    }
    forall k | k in us ensures HasKey(bins[0], k) {
      assert Binned(bins, n, d, 0, k);
    }
  }

  /** The list holds exactly the requests of the map. */
  ghost predicate ListOf(list: seq<Request>, us: Entries, n: nat) {
    && DistinctKeys(list)
    && (forall j :: 0 <= j < |list| ==> list[j].key in us && us[list[j].key] == list[j].value && |list[j].key| == n)
    && (forall k :: k in us ==> HasKey(list, k))
  }

  // ---------------------------------------------------------------- filling the bins

  /** Requests into bins by their next byte. */
  method FillBins(list: seq<Request>, height: nat, n: nat, ghost us: Entries) returns (bins: seq<seq<Request>>)
    requires ListOf(list, us, n) && height + 8 <= n
    ensures BinsFor(bins, us, n, height, 8)
  {
    hide Index, Pow2, ListOf, HasKey, DistinctKeys;
    bins := seq(Pow2(8), _ => []);
    EmptyBins(list, us, n, height);
    for i := 0 to |list|
      invariant |bins| == Pow2(8)
      invariant FilledWith(bins, list, i, us, n, height)
    {
      FillStep(bins, list, i, us, n, height);
      var binIndex := Index(list[i].key, height, 8);
      bins := bins[binIndex := bins[binIndex] + [list[i]]];
    }
    AllFilled(bins, list, us, n, height);
  }

  /** The first `i` requests are in their bins. */
  ghost predicate FilledWith(bins: seq<seq<Request>>, list: seq<Request>, i: nat, us: Entries, n: nat, d: nat)
    requires |bins| == Pow2(8) && d + 8 <= n && i <= |list|
  {
    && ListOf(list, us, n)
    && (forall b :: 0 <= b < |bins| ==> BinOf(bins[b], us, n, d, 8, b))
    && (forall b, j :: 0 <= b < |bins| && 0 <= j < |bins[b]| ==> HasKey(list[..i], bins[b][j].key))
    && (forall j :: 0 <= j < i ==> Binned(bins, n, d, 8, list[j].key))
  }

  lemma EmptyBins(list: seq<Request>, us: Entries, n: nat, d: nat)
    requires ListOf(list, us, n) && d + 8 <= n
    ensures FilledWith(seq(Pow2(8), _ => []), list, 0, us, n, d)
  {
  }

  lemma FillStep(bins: seq<seq<Request>>, list: seq<Request>, i: nat, us: Entries, n: nat, d: nat)
    requires |bins| == Pow2(8) && d + 8 <= n && i < |list| && FilledWith(bins, list, i, us, n, d)
    ensures |list[i].key| == n
    ensures
      var b := Index(list[i].key, d, 8);
      FilledWith(bins[b := bins[b] + [list[i]]], list, i + 1, us, n, d)
  {
    hide Index, Pow2;
    var b := Index(list[i].key, d, 8);
    var now := bins[b := bins[b] + [list[i]]];
    assert BinOf(bins[b], us, n, d, 8, b);
    forall c | 0 <= c < |now| ensures BinOf(now[c], us, n, d, 8, c) {
      assert BinOf(bins[c], us, n, d, 8, c);
      if c == b {
        forall j | 0 <= j < |bins[b]| ensures bins[b][j].key != list[i].key {
          NotYetThere(list, i, bins[b][j].key);
        }
      }
    }
    forall c, j | 0 <= c < |now| && 0 <= j < |now[c]| ensures HasKey(list[..i + 1], now[c][j].key) {
      if c == b && j == |bins[b]| {
        assert list[..i + 1][i] == list[i];
      } else {
        assert HasKey(list[..i], bins[c][j].key);
        MoreKeys(list, i, bins[c][j].key);
      }
    }
    forall j | 0 <= j <= i ensures Binned(now, n, d, 8, list[j].key) {
      if j == i {
        assert now[b][|bins[b]|] == list[i];
      } else {
        assert Binned(bins, n, d, 8, list[j].key);
        StillThere(bins, now, b, n, d, list[j].key, list[i]);
      }
    }
  }

  lemma NotYetThere(list: seq<Request>, i: nat, k: Key)
    requires DistinctKeys(list) && i < |list| && HasKey(list[..i], k)
    ensures k != list[i].key
  {
    var j :| 0 <= j < i && list[..i][j].key == k;
    assert list[j].key == k;
  }

  lemma MoreKeys(list: seq<Request>, i: nat, k: Key)
    requires i < |list| && HasKey(list[..i], k)
    ensures HasKey(list[..i + 1], k)
  {
    var j :| 0 <= j < i && list[..i][j].key == k;
    assert list[..i + 1][j].key == k;
  }

  lemma StillThere(bins: seq<seq<Request>>, now: seq<seq<Request>>, b: nat, n: nat, d: nat, k: Key, x: Request)
    requires |bins| == Pow2(8) && d + 8 <= n && b < |bins| && now == bins[b := bins[b] + [x]] && Binned(bins, n, d, 8, k)
    ensures Binned(now, n, d, 8, k)
  {
    hide Index, Pow2;
    var c := Index(k, d, 8);
    var j :| 0 <= j < |bins[c]| && bins[c][j].key == k;
    assert now[c][j].key == k;
  }

  lemma AllFilled(bins: seq<seq<Request>>, list: seq<Request>, us: Entries, n: nat, d: nat)
    requires |bins| == Pow2(8) && d + 8 <= n && FilledWith(bins, list, |list|, us, n, d)
    ensures BinsFor(bins, us, n, d, 8)
  {
    hide Index, Pow2;
    forall k | k in us ensures Binned(bins, n, d, 8, k) {
      var j :| 0 <= j < |list| && list[j].key == k;
      assert Binned(bins, n, d, 8, list[j].key);
    }
  }
}
