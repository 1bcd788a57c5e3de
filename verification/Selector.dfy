/** Choosing transactions for a block: the heap of senders' next transactions and the greedy selection
    (pkg/generator/selector.go, generator.go). */
module Selector {

  /** A transaction: who sent it, its nonce, its fee and its encoded size. */
  datatype Tx = Tx(sender: nat, nonce: nat, fee: nat, size: nat, id: nat)

  predicate Sized(tx: Tx) { tx.size >= 1 }

  /** FeePriority: fee per byte, rounded down. */
  function Priority(tx: Tx): nat
    requires Sized(tx)
  {
    tx.fee / tx.size
  }

  /** The fee is at least `p` per byte. */
  predicate Pays(tx: Tx, p: nat) { p * tx.size <= tx.fee }

  /** Whatever whole fee per byte the other transaction pays, this one pays, too. */
  ghost predicate Outranks(tx: Tx, other: Tx) { forall p: nat :: Pays(other, p) ==> Pays(tx, p) }

  /** The priority is the greatest whole fee per byte that the transaction pays. */
  lemma PriorityIsGreatest(tx: Tx, p: nat)
    requires Sized(tx)
    ensures Pays(tx, p) <==> p <= Priority(tx)
  {
    var q := Priority(tx);
    QuotientRange(tx.fee, tx.size);
    if p <= q { TimesGrows(p, q, tx.size); } else { TimesGrows(q + 1, p, tx.size); }
  }

  lemma QuotientRange(n: nat, d: nat)
    requires d >= 1
    ensures n / d * d <= n < (n / d + 1) * d
  {
  }

  lemma TimesGrows(a: nat, b: nat, c: nat)
    requires a <= b
    ensures a * c <= b * c
  {
  }

  /** The order of the heap, on fees and sizes. */
  lemma OutranksIff(tx: Tx, other: Tx)
    requires Sized(tx) && Sized(other)
    ensures Outranks(tx, other) <==> Priority(tx) >= Priority(other)
  {
    hide Priority, Pays;
    forall p: nat ensures (Pays(tx, p) <==> p <= Priority(tx)) && (Pays(other, p) <==> p <= Priority(other)) {
      PriorityIsGreatest(tx, p);
      PriorityIsGreatest(other, p);
    }
    assert Pays(other, Priority(other));
  }

  predicate AllSized(txs: seq<Tx>) { forall i :: 0 <= i < |txs| ==> Sized(txs[i]) }

  // ---------------------------------------------------------------- the heap

  function Parent(k: nat): nat
    requires k > 0
  {
    (k - 1) / 2
  }

  /** Entry `k` does not come before entry `i`. */
  predicate NotBefore(h: seq<Tx>, i: nat, k: nat)
    requires AllSized(h) && i < |h| && k < |h|
  {
    Priority(h[i]) >= Priority(h[k])
  }

  /** No entry comes before its parent. */
  predicate HeapFrom(h: seq<Tx>, n: nat)
    requires AllSized(h) && n <= |h|
  {
    forall k :: 0 < k < n ==> NotBefore(h, Parent(k), k)
  }

  predicate IsHeap(h: seq<Tx>)
    requires AllSized(h)
  {
    HeapFrom(h, |h|)
  }

  lemma {:induction false} RootIsGreatest(h: seq<Tx>, n: nat, i: nat)
    requires AllSized(h) && n <= |h| && HeapFrom(h, n) && i < n
    ensures Priority(h[0]) >= Priority(h[i])
  {
    hide Priority;
    if i > 0 {
      RootIsGreatest(h, n, Parent(i));
      assert NotBefore(h, Parent(i), i);
    }
  }

  function Swapped(h: seq<Tx>, i: nat, j: nat): (r: seq<Tx>)
    requires i < |h| && j < |h|
    ensures |r| == |h|
  {
    h[i := h[j]][j := h[i]]
  }

  lemma SwapKeepsAll(h: seq<Tx>, i: nat, j: nat)
    requires i < |h| && j < |h| && AllSized(h)
    ensures multiset(Swapped(h, i, j)) == multiset(h) && AllSized(Swapped(h, i, j))
  {
  }

  /** A heap except that entry `j` may come before its parent. */
  predicate HeapButUp(h: seq<Tx>, j: nat)
    requires AllSized(h) && j < |h|
  {
    && (forall k :: 0 < k < |h| && k != j ==> NotBefore(h, Parent(k), k))
    && (forall k :: 0 < k < |h| && Parent(k) == j && j > 0 ==> NotBefore(h, Parent(j), k))
  }

  /** The first `n` entries are a heap except that a child of entry `i` may come before it. */
  predicate HeapButDown(h: seq<Tx>, i: nat, n: nat)
    requires AllSized(h) && n <= |h| && i <= n
  {
    && (forall k :: 0 < k < n && Parent(k) != i ==> NotBefore(h, Parent(k), k))
    && (forall k :: 0 < k < n && Parent(k) == i && i > 0 ==> NotBefore(h, Parent(i), k))
  }

  lemma UpStep(h: seq<Tx>, j: nat)
    requires AllSized(h) && 0 < j < |h| && HeapButUp(h, j) && !NotBefore(h, Parent(j), j)
    ensures AllSized(Swapped(h, Parent(j), j)) && HeapButUp(Swapped(h, Parent(j), j), Parent(j))
    ensures multiset(Swapped(h, Parent(j), j)) == multiset(h)
  {
    hide Priority;
    SwapKeepsAll(h, Parent(j), j);
  }

  lemma UpDone(h: seq<Tx>, j: nat)
    requires AllSized(h) && j < |h| && HeapButUp(h, j) && (j > 0 ==> NotBefore(h, Parent(j), j))
    ensures IsHeap(h)
  {
    hide NotBefore;
  }

  lemma UpStart(h: seq<Tx>, tx: Tx)
    requires AllSized(h) && IsHeap(h) && Sized(tx)
    ensures AllSized(h + [tx]) && HeapButUp(h + [tx], |h|)
  {
    hide Priority;
    assert forall k :: 0 < k < |h| ==> NotBefore(h, Parent(k), k);
  }

  lemma DownStep(h: seq<Tx>, i: nat, n: nat, j: nat)
    requires AllSized(h) && n <= |h| && i < n && HeapButDown(h, i, n) && 0 < j < n && Parent(j) == i && !NotBefore(h, i, j)
    requires forall k :: 0 < k < n && Parent(k) == i ==> NotBefore(h, j, k)
    ensures AllSized(Swapped(h, i, j)) && HeapButDown(Swapped(h, i, j), j, n)
    ensures multiset(Swapped(h, i, j)) == multiset(h)
  {
    hide Priority;
    SwapKeepsAll(h, i, j);
  }

  lemma DownDone(h: seq<Tx>, i: nat, n: nat)
    requires AllSized(h) && n <= |h| && i <= n && HeapButDown(h, i, n)
    requires forall k :: 0 < k < n && Parent(k) == i ==> NotBefore(h, i, k)
    ensures HeapFrom(h, n)
  {
    hide NotBefore;
  }

  lemma Children(i: nat, k: nat)
    requires k > 0
    ensures Parent(k) == i <==> k == 2 * i + 1 || k == 2 * i + 2
  {
  }

  lemma NoChildren(i: nat, n: nat)
    requires 2 * i + 1 >= n
    ensures forall k :: 0 < k < n ==> Parent(k) != i
  {
    forall k | 0 < k < n ensures Parent(k) != i {
      Children(i, k);
    }
  }

  /** The child that comes first is before the other. */
  lemma BestChild(h: seq<Tx>, i: nat, n: nat, j: nat)
    requires AllSized(h) && n <= |h| && 2 * i + 1 < n
    requires j == if 2 * i + 2 < n && !NotBefore(h, 2 * i + 1, 2 * i + 2) then 2 * i + 2 else 2 * i + 1
    ensures Parent(j) == i && forall k :: 0 < k < n && Parent(k) == i ==> NotBefore(h, j, k)
  {
    hide Priority;
    forall k | 0 < k < n && Parent(k) == i ensures NotBefore(h, j, k) {
      Children(i, k);
    }
  }

  lemma BestChildDone(h: seq<Tx>, i: nat, n: nat, j: nat)
    requires AllSized(h) && n <= |h| && i < n && j < n && NotBefore(h, i, j)
    requires forall k :: 0 < k < n && Parent(k) == i ==> NotBefore(h, j, k)
    ensures forall k :: 0 < k < n && Parent(k) == i ==> NotBefore(h, i, k)
  {
    hide Priority;
  }

  lemma RootOut(h: seq<Tx>)
    requires AllSized(h) && IsHeap(h) && h != []
    ensures
      var n := |h| - 1;
      AllSized(Swapped(h, 0, n)) && HeapButDown(Swapped(h, 0, n), 0, n) && multiset(Swapped(h, 0, n)) == multiset(h)
  {
    hide Priority;
    SwapKeepsAll(h, 0, |h| - 1);
    assert forall k :: 0 < k < |h| ==> NotBefore(h, Parent(k), k);
  }

  lemma LastOff(h: seq<Tx>, n: nat)
    requires AllSized(h) && |h| == n + 1 && HeapFrom(h, n)
    ensures AllSized(h[..n]) && IsHeap(h[..n]) && multiset(h) == multiset(h[..n]) + multiset{h[n]}
  {
    hide Priority;
    assert h == h[..n] + [h[n]];
    forall k | 0 < k < n ensures NotBefore(h[..n], Parent(k), k) {
      assert NotBefore(h, Parent(k), k);
    }
  }

  class FeePriorityTransactions {
    var items: seq<Tx>

    ghost predicate Valid()
      reads this
    {
      AllSized(items) && IsHeap(items)
    }

    constructor ()
      ensures Valid() && items == []
    {
      items := [];
    }

    /** heap.Push: append, then move up. */
    method Push(tx: Tx)
      requires Valid() && Sized(tx)
      modifies this
      ensures Valid() && multiset(items) == multiset(old(items)) + multiset{tx}
    {
      hide NotBefore, HeapButUp, IsHeap;
      UpStart(items, tx);
      items := items + [tx];
      var j := |items| - 1;
      while j > 0 && !NotBefore(items, Parent(j), j)
        invariant AllSized(items) && 0 <= j < |items| && HeapButUp(items, j)
        invariant multiset(items) == multiset(old(items)) + multiset{tx}
      {
        UpStep(items, j);
        items := Swapped(items, Parent(j), j);
        j := Parent(j);
      }
      UpDone(items, j);
    }

    /** heap.Pop: the root goes last, the rest is put in order again, and the last entry is taken. */
    method Pop() returns (tx: Tx)
      requires Valid() && items != []
      modifies this
      ensures Valid() && Sized(tx) && tx in old(items) && multiset(old(items)) == multiset(items) + multiset{tx}
      ensures forall other :: other in old(items) ==> Outranks(tx, other)
    {
      hide Priority, HeapFrom, HeapButDown, Outranks;
      tx := items[0];
      var n := |items| - 1;
      forall other | other in items ensures Outranks(tx, other) {
        var k :| 0 <= k < |items| && items[k] == other;
        RootIsGreatest(items, |items|, k);
        OutranksIff(tx, other);
      }
      RootOut(items);
      items := Swapped(items, 0, n);
      Down(n);
      LastOff(items, n);
      items := items[..n];
    }

    /** down: move the root of the first `n` entries to its place. */
    method Down(n: nat)
      requires AllSized(items) && n < |items| && HeapButDown(items, 0, n)
      modifies this
      ensures |items| == |old(items)| && items[n] == old(items)[n] && multiset(items) == multiset(old(items))
      ensures AllSized(items) && HeapFrom(items, n)
    {
      hide NotBefore, HeapButDown, HeapFrom;
      var i := 0;
      while 2 * i + 1 < n
        invariant AllSized(items) && |items| == |old(items)| && 0 <= i <= n && HeapButDown(items, i, n)
        invariant items[n] == old(items)[n] && multiset(items) == multiset(old(items))
        decreases n - i
      {
        var j := 2 * i + 1;
        if j + 1 < n && !NotBefore(items, j, j + 1) {
          j := j + 1;
        }
        BestChild(items, i, n, j);
        if NotBefore(items, i, j) {
          BestChildDone(items, i, n, j);
          DownDone(items, i, n);
          return;
        }
        DownStep(items, i, n, j);
        items := Swapped(items, i, j);
        i := j;
      }
      NoChildren(i, n);
      DownDone(items, i, n);
    }
  }

  // ---------------------------------------------------------------- senders' lists

  /** What each sender still has, lowest nonce first. */
  type Queues = map<nat, seq<Tx>>

  predicate NonceSorted(txs: seq<Tx>) { forall i, j :: 0 <= i < j < |txs| ==> txs[i].nonce <= txs[j].nonce }

  ghost predicate ValidQueues(m: Queues) {
    forall s :: s in m ==> m[s] != [] && AllSized(m[s]) && forall i :: 0 <= i < |m[s]| ==> m[s][i].sender == s
  }

  function OfSender(txs: seq<Tx>, sender: nat): seq<Tx> {
    if txs == [] then []
    else if txs[|txs| - 1].sender == sender then OfSender(txs[..|txs| - 1], sender) + [txs[|txs| - 1]]
    else OfSender(txs[..|txs| - 1], sender)
  }

  function InsertByNonce(txs: seq<Tx>, tx: Tx): seq<Tx> {
    if txs == [] || txs[|txs| - 1].nonce <= tx.nonce then txs + [tx]
    else InsertByNonce(txs[..|txs| - 1], tx) + [txs[|txs| - 1]]
  }

  /** sort.Slice by nonce. */
  function SortByNonce(txs: seq<Tx>): seq<Tx> {
    if txs == [] then [] else InsertByNonce(SortByNonce(txs[..|txs| - 1]), txs[|txs| - 1])
  }

  lemma {:induction false} InsertContents(txs: seq<Tx>, tx: Tx)
    ensures multiset(InsertByNonce(txs, tx)) == multiset(txs) + multiset{tx}
  {
    if txs != [] && txs[|txs| - 1].nonce > tx.nonce {
      InsertContents(txs[..|txs| - 1], tx);
      assert txs == txs[..|txs| - 1] + [txs[|txs| - 1]];
    }
  }

  predicate NoneAbove(txs: seq<Tx>, nonce: nat) { forall i :: 0 <= i < |txs| ==> txs[i].nonce <= nonce }

  lemma SortedSnoc(txs: seq<Tx>, last: Tx)
    requires NonceSorted(txs) && NoneAbove(txs, last.nonce)
    ensures NonceSorted(txs + [last])
  {
  }

  lemma {:induction false} InsertNoneAbove(txs: seq<Tx>, tx: Tx, nonce: nat)
    requires NoneAbove(txs, nonce) && tx.nonce <= nonce
    ensures NoneAbove(InsertByNonce(txs, tx), nonce)
  {
    if txs != [] && txs[|txs| - 1].nonce > tx.nonce { InsertNoneAbove(txs[..|txs| - 1], tx, nonce); }
  }

  lemma {:induction false} InsertIsSorted(txs: seq<Tx>, tx: Tx)
    requires NonceSorted(txs)
    ensures NonceSorted(InsertByNonce(txs, tx))
  {
    if txs == [] {
    } else if txs[|txs| - 1].nonce <= tx.nonce {
      SortedSnoc(txs, tx);
    } else {
      var init, last := txs[..|txs| - 1], txs[|txs| - 1];
      InsertIsSorted(init, tx);
      InsertNoneAbove(init, tx, last.nonce);
      SortedSnoc(InsertByNonce(init, tx), last);
    }
  }

  lemma {:induction false} SortIsSorted(txs: seq<Tx>)
    ensures NonceSorted(SortByNonce(txs)) && multiset(SortByNonce(txs)) == multiset(txs)
  {
    hide Priority, InsertByNonce;
    if txs != [] {
      SortIsSorted(txs[..|txs| - 1]);
      InsertIsSorted(SortByNonce(txs[..|txs| - 1]), txs[|txs| - 1]);
      InsertContents(SortByNonce(txs[..|txs| - 1]), txs[|txs| - 1]);
      assert txs == txs[..|txs| - 1] + [txs[|txs| - 1]];
    }
  }

  /** Every sender's transactions, sorted by nonce. */
  ghost predicate QueuesOf(m: Queues, txs: seq<Tx>) {
    && (forall s :: s in m <==> OfSender(txs, s) != [])
    && (forall s :: s in m ==> NonceSorted(m[s]) && multiset(m[s]) == multiset(OfSender(txs, s)))
  }

  lemma OfSenderStep(txs: seq<Tx>, n: nat, s: nat)
    requires n < |txs|
    ensures OfSender(txs[..n + 1], s) == OfSender(txs[..n], s) + if txs[n].sender == s then [txs[n]] else []
  {
    assert txs[..n + 1][..n] == txs[..n];
  }

  lemma {:induction false} OfSenderAll(txs: seq<Tx>, s: nat)
    requires AllSized(txs)
    ensures AllSized(OfSender(txs, s)) && forall i :: 0 <= i < |OfSender(txs, s)| ==> OfSender(txs, s)[i].sender == s
  {
    if txs != [] { OfSenderAll(txs[..|txs| - 1], s); }
  }

  lemma SameContents(a: seq<Tx>, b: seq<Tx>, s: nat)
    requires multiset(a) == multiset(b) && AllSized(b) && forall i :: 0 <= i < |b| ==> b[i].sender == s
    ensures AllSized(a) && (forall i :: 0 <= i < |a| ==> a[i].sender == s) && (a == [] <==> b == [])
  {
    forall i | 0 <= i < |a| ensures a[i] in b {
      assert a[i] in multiset(a);
    }
    assert |multiset(a)| == |a| && |multiset(b)| == |b|;
  }

  /** getSortedTransactionMapByNonce. */
  method GetSortedTransactionMapByNonce(txs: seq<Tx>) returns (m: Queues)
    requires AllSized(txs)
    ensures QueuesOf(m, txs) && ValidQueues(m)
  {
    hide OfSender, SortByNonce;
    m := map[];
    NobodyYet();
    for i := 0 to |txs|
      invariant forall s :: s in m <==> OfSender(txs[..i], s) != []
      invariant forall s :: s in m ==> m[s] == OfSender(txs[..i], s)
    {
      var sender := txs[i].sender;
      forall s ensures OfSender(txs[..i + 1], s) == OfSender(txs[..i], s) + if txs[i].sender == s then [txs[i]] else [] {
        OfSenderStep(txs, i, s);
      }
      var senderMap := if sender in m then m[sender] else [];
      m := m[sender := senderMap + [txs[i]]];
    }
    assert txs[..|txs|] == txs;
    var keys := m.Keys;
    while keys != {}
      invariant keys <= m.Keys
      invariant forall s :: s in m <==> OfSender(txs, s) != []
      invariant forall s :: s in keys ==> m[s] == OfSender(txs, s)
      invariant forall s :: s in m && s !in keys ==> m[s] == SortByNonce(OfSender(txs, s))
      decreases |keys|
    {
      var key :| key in keys;
      keys := keys - {key};
      m := m[key := SortByNonce(m[key])];
    }
    forall s | s in m
      ensures NonceSorted(m[s]) && multiset(m[s]) == multiset(OfSender(txs, s))
      ensures m[s] != [] && AllSized(m[s]) && forall i :: 0 <= i < |m[s]| ==> m[s][i].sender == s
    {
      SortIsSorted(OfSender(txs, s));
      OfSenderAll(txs, s);
      SameContents(m[s], OfSender(txs, s), s);
    }
  }

  lemma NobodyYet()
    ensures forall s :: OfSender([], s) == []
  {
  }

  // ---------------------------------------------------------------- the greedy selection

  /** What happened to the transaction popped next: it was taken, or it failed and its sender is out. */
  datatype Turn = Taken(tx: Tx) | Failed(tx: Tx)

  /** `tx` is the next of its sender, and no other sender's next pays a whole fee per byte that it does not pay. */
  ghost predicate IsBest(m: Queues, tx: Tx)
    requires ValidQueues(m)
  {
    && tx.sender in m && m[tx.sender][0] == tx
    && forall s :: s in m ==> Outranks(tx, m[s][0])
  }

  function Next(m: Queues, turn: Turn): Queues {
    var s := turn.tx.sender;
    if turn.Failed? || s !in m || |m[s]| <= 1 then m - {s} else m[s := m[s][1..]]
  }

  lemma NextValid(m: Queues, turn: Turn)
    requires ValidQueues(m)
    ensures ValidQueues(Next(m, turn))
  {
  }

  /** The queues after a number of turns. */
  function Remaining(m: Queues, turns: seq<Turn>): Queues {
    if turns == [] then m else Next(Remaining(m, turns[..|turns| - 1]), turns[|turns| - 1])
  }

  function TakenOf(turns: seq<Turn>): seq<Tx> {
    if turns == [] then []
    else
      var init, last := turns[..|turns| - 1], turns[|turns| - 1];
      if last.Taken? then TakenOf(init) + [last.tx] else TakenOf(init)
  }

  function TotalSize(txs: seq<Tx>): nat {
    if txs == [] then 0 else TotalSize(txs[..|txs| - 1]) + txs[|txs| - 1].size
  }

  lemma {:induction false} RemainingValid(m: Queues, turns: seq<Turn>)
    requires ValidQueues(m)
    ensures ValidQueues(Remaining(m, turns))
  {
    hide Next;
    if turns != [] {
      RemainingValid(m, turns[..|turns| - 1]);
      NextValid(Remaining(m, turns[..|turns| - 1]), turns[|turns| - 1]);
    }
  }

  /** Every turn was about the best transaction at that time. */
  ghost predicate Greedy(m: Queues, turns: seq<Turn>)
    requires ValidQueues(m)
  {
    turns == [] ||
    (var init := turns[..|turns| - 1];
     RemainingValid(m, init);
     Greedy(m, init) && IsBest(Remaining(m, init), turns[|turns| - 1].tx))
  }

  /** A sender that is still in has given exactly the front of its list; one that is out has given some front of it. */
  lemma {:induction false} TakenIsPrefix(m: Queues, turns: seq<Turn>, s: nat)
    requires ValidQueues(m) && Greedy(m, turns)
    ensures s in m ==> OfSender(TakenOf(turns), s) <= m[s]
    ensures s in m && s in Remaining(m, turns) ==> OfSender(TakenOf(turns), s) + Remaining(m, turns)[s] == m[s]
    ensures s !in m ==> OfSender(TakenOf(turns), s) == [] && s !in Remaining(m, turns)
  {
    hide OfSender, Next;
    if turns == [] {
      OfSenderNone(s);
    } else {
      var init, last := turns[..|turns| - 1], turns[|turns| - 1];
      RemainingValid(m, init);
      TakenIsPrefix(m, init, s);
      PrefixStep(m, Remaining(m, init), TakenOf(init), last, s);
    }
  }

  lemma OfSenderNone(s: nat)
    ensures OfSender([], s) == []
  {
  }

  lemma OfSenderSnoc(txs: seq<Tx>, tx: Tx, s: nat)
    ensures OfSender(txs + [tx], s) == OfSender(txs, s) + if tx.sender == s then [tx] else []
  {
    assert (txs + [tx])[..|txs|] == txs;
  }

  lemma PrefixStep(m: Queues, left: Queues, taken: seq<Tx>, turn: Turn, s: nat)
    requires ValidQueues(left) && IsBest(left, turn.tx)
    requires s in m ==> OfSender(taken, s) <= m[s]
    requires s in m && s in left ==> OfSender(taken, s) + left[s] == m[s]
    requires s !in m ==> OfSender(taken, s) == [] && s !in left
    ensures
      var now, next := (if turn.Taken? then taken + [turn.tx] else taken), Next(left, turn);
      && (s in m ==> OfSender(now, s) <= m[s])
      && (s in m && s in next ==> OfSender(now, s) + next[s] == m[s])
      && (s !in m ==> OfSender(now, s) == [] && s !in next)
  {
    hide OfSender, Outranks;
    OfSenderSnoc(taken, turn.tx, s);
    if turn.Taken? && turn.tx.sender == s {
      assert left[s] == [turn.tx] + left[s][1..];
      assert m[s] == OfSender(taken, s) + [turn.tx] + left[s][1..];
    }
  }

  // ---------------------------------------------------------------- the heap holds the senders' next transactions

  predicate IsHead(m: Queues, x: Tx) { x.sender in m && m[x.sender] != [] && m[x.sender][0] == x }

  ghost predicate Holds(heap: multiset<Tx>, m: Queues) {
    forall x :: heap[x] == if IsHead(m, x) then 1 else 0
  }

  lemma HoldsOneMore(heap: multiset<Tx>, m: Queues, s: nat, txs: seq<Tx>)
    requires Holds(heap, m) && s !in m && txs != [] && txs[0].sender == s
    ensures Holds(heap + multiset{txs[0]}, m[s := txs])
  {
  }

  lemma HoldsOneLess(heap: multiset<Tx>, m: Queues, tx: Tx)
    requires Holds(heap + multiset{tx}, m)
    ensures IsHead(m, tx) && Holds(heap, m - {tx.sender})
  {
    var more := heap + multiset{tx};
    assert more[tx] >= 1;
    forall x ensures heap[x] == if IsHead(m - {tx.sender}, x) then 1 else 0 {
      assert more[x] == heap[x] + if x == tx then 1 else 0;
    }
  }

  lemma HeadOnHeap(heap: multiset<Tx>, m: Queues, s: nat)
    requires Holds(heap, m) && ValidQueues(m) && s in m
    ensures m[s][0] in heap
  {
    assert IsHead(m, m[s][0]);
  }

  /** What is popped is the best. */
  lemma PoppedIsBest(items: seq<Tx>, m: Queues, tx: Tx)
    requires Holds(multiset(items), m) && ValidQueues(m) && tx in items
    requires forall other :: other in items ==> Outranks(tx, other)
    ensures IsBest(m, tx)
  {
    hide Outranks;
    assert multiset(items)[tx] >= 1;
    forall s | s in m ensures Outranks(tx, m[s][0]) {
      HeadOnHeap(multiset(items), m, s);
      assert m[s][0] in items;
    }
  }

  /** The places in all queues. */
  ghost function Places(m: Queues): set<(nat, int)> { set s, i | s in m && 0 <= i < |m[s]| :: (s, i) }

  lemma NextHasFewer(m: Queues, turn: Turn)
    requires ValidQueues(m) && turn.tx.sender in m
    ensures Places(Next(m, turn)) < Places(m)
  {
    var s := turn.tx.sender;
    var n := Next(m, turn);
    var last := |m[s]| - 1;
    assert (s, last) in Places(m) && (s, last) !in Places(n);
    forall t, i | (t, i) in Places(n) ensures (t, i) in Places(m) {
      assert t in m && i < |m[t]|;
    }
  }

  function Tried(turns: seq<Turn>): seq<Tx> { seq(|turns|, i requires 0 <= i < |turns| => turns[i].tx) }

  /** What the application said of every transaction tried. */
  ghost predicate AsJudged(accept: (seq<Tx>, Tx) -> bool, turns: seq<Turn>) {
    forall i :: 0 <= i < |turns| ==> (turns[i].Taken? <==> accept(Tried(turns[..i]), turns[i].tx))
  }

  lemma GreedyStep(m: Queues, turns: seq<Turn>, turn: Turn)
    requires ValidQueues(m) && Greedy(m, turns)
    requires (RemainingValid(m, turns); IsBest(Remaining(m, turns), turn.tx))
    ensures Greedy(m, turns + [turn]) && Remaining(m, turns + [turn]) == Next(Remaining(m, turns), turn)
    ensures TakenOf(turns + [turn]) == TakenOf(turns) + if turn.Taken? then [turn.tx] else []
  {
    hide IsBest, Next;
    assert (turns + [turn])[..|turns|] == turns;
  }

  lemma JudgedStep(accept: (seq<Tx>, Tx) -> bool, turns: seq<Turn>, turn: Turn)
    requires AsJudged(accept, turns) && (turn.Taken? <==> accept(Tried(turns), turn.tx))
    ensures AsJudged(accept, turns + [turn])
  {
    forall i | 0 <= i <= |turns| ensures (turns + [turn])[i].Taken? <==> accept(Tried((turns + [turn])[..i]), (turns + [turn])[i].tx) {
      assert (turns + [turn])[..i] == turns[..i];
      if i == |turns| { assert turns[..i] == turns; }
    }
  }

  lemma SizeStep(txs: seq<Tx>, tx: Tx)
    ensures TotalSize(txs + [tx]) == TotalSize(txs) + tx.size
  {
    assert (txs + [tx])[..|txs|] == txs;
  }

  /** The heap at the start: one entry for every sender. */
  method InitHeap(m: Queues) returns (heap: FeePriorityTransactions)
    requires ValidQueues(m)
    ensures fresh(heap) && heap.Valid() && Holds(multiset(heap.items), m)
  {
    hide IsHeap, Holds, AllSized;
    heap := new FeePriorityTransactions();
    var keys := m.Keys;
    ghost var done: Queues := map[];
    HoldsNothing();
    while keys != {}
      invariant fresh(heap) && heap.Valid() && keys <= m.Keys
      invariant done == map s | s in m && s !in keys :: m[s]
      invariant Holds(multiset(heap.items), done)
      decreases |keys|
    {
      var key :| key in keys;
      keys := keys - {key};
      HeadIsSized(m, key);
      HoldsOneMore(multiset(heap.items), done, key, m[key]);
      heap.Push(m[key][0]);
      done := done[key := m[key]];
    }
    assert done == m;
  }

  lemma HoldsNothing()
    ensures Holds(multiset([]), map[])
  {
  }

  lemma HeadIsSized(m: Queues, s: nat)
    requires ValidQueues(m) && s in m
    ensures m[s] != [] && Sized(m[s][0]) && m[s][0].sender == s
  {
  }

  /** Where the selection stands after some turns. */
  ghost predicate Progress(queues: Queues, turns: seq<Turn>, accept: (seq<Tx>, Tx) -> bool, maxSize: nat,
                           left: Queues, tried: seq<Tx>, result: seq<Tx>, totalSize: nat)
  {
    && ValidQueues(queues) && Greedy(queues, turns) && AsJudged(accept, turns)
    && Remaining(queues, turns) == left && tried == Tried(turns)
    && result == TakenOf(turns) && totalSize == TotalSize(result) <= maxSize
  }

  lemma ProgressStart(queues: Queues, accept: (seq<Tx>, Tx) -> bool, maxSize: nat)
    requires ValidQueues(queues)
    ensures Progress(queues, [], accept, maxSize, queues, [], [], 0)
  {
  }

  lemma ProgressStep(queues: Queues, turns: seq<Turn>, accept: (seq<Tx>, Tx) -> bool, maxSize: nat,
                     left: Queues, tried: seq<Tx>, result: seq<Tx>, totalSize: nat, turn: Turn)
    requires Progress(queues, turns, accept, maxSize, left, tried, result, totalSize)
    requires ValidQueues(left) && IsBest(left, turn.tx) && totalSize + turn.tx.size <= maxSize
    requires turn.Taken? <==> accept(tried, turn.tx)
    ensures turn.Taken? ==>
              Progress(queues, turns + [turn], accept, maxSize, Next(left, turn), tried + [turn.tx],
                       result + [turn.tx], totalSize + turn.tx.size)
    ensures turn.Failed? ==>
              Progress(queues, turns + [turn], accept, maxSize, Next(left, turn), tried + [turn.tx], result, totalSize)
  {
    hide Next, IsBest, AsJudged, Greedy, ValidQueues, Remaining, TakenOf, TotalSize, Tried;
    GreedyStep(queues, turns, turn);
    JudgedStep(accept, turns, turn);
    TriedStep(turns, turn);
    SizeStep(result, turn.tx);
    assert TakenOf(turns) + [] == TakenOf(turns);
  }

  /** What is popped next is the best, and the heap then holds the others. */
  lemma PoppedNext(items: seq<Tx>, rest: seq<Tx>, m: Queues, tx: Tx)
    requires Holds(multiset(items), m) && ValidQueues(m) && tx in items && multiset(items) == multiset(rest) + multiset{tx}
    requires forall other :: other in items ==> Outranks(tx, other)
    ensures IsBest(m, tx) && IsHead(m, tx) && Holds(multiset(rest), m - {tx.sender})
  {
    hide Holds, Outranks, ValidQueues, IsBest;
    PoppedIsBest(items, m, tx);
    HoldsOneLess(multiset(rest), m, tx);
  }

  /** selectTransactionsByFee. `accept` is the application's verdict on a transaction after those tried before. */
  method SelectTransactionsByFee(txs: seq<Tx>, maxSize: nat, accept: (seq<Tx>, Tx) -> bool)
    returns (result: seq<Tx>, ghost queues: Queues, ghost turns: seq<Turn>)
    requires AllSized(txs)
    ensures QueuesOf(queues, txs) && ValidQueues(queues) && Greedy(queues, turns) && AsJudged(accept, turns)
    ensures result == TakenOf(turns) && TotalSize(result) <= maxSize
    ensures
      var left := Remaining(queues, turns);
      left == map[] || exists best :: ValidQueues(left) && IsBest(left, best) && TotalSize(result) + best.size > maxSize
  {
    hide ValidQueues, QueuesOf, Greedy, AsJudged, Holds, IsHeap, AllSized, IsBest, Next, Remaining, Tried, Outranks, TakenOf,
      TotalSize, Progress, Places;
    var bySender: Queues := GetSortedTransactionMapByNonce(txs);
    queues, turns := bySender, [];
    var heap := InitHeap(bySender);
    var totalSize: nat := 0;
    var tried: seq<Tx> := [];
    result := [];
    ProgressStart(queues, accept, maxSize);
    while bySender != map[]
      invariant fresh(heap) && heap.Valid() && ValidQueues(bySender) && Holds(multiset(heap.items), bySender)
      invariant Progress(queues, turns, accept, maxSize, bySender, tried, result, totalSize)
      decreases Places(bySender)
    {
      SomeHead(multiset(heap.items), bySender);
      ghost var before := heap.items;
      var nextTx := heap.Pop();
      PoppedNext(before, heap.items, bySender, nextTx);
      if nextTx.size + totalSize > maxSize {
        break;
      }
      var ok := accept(tried, nextTx);
      ghost var turn := if ok then Taken(nextTx) else Failed(nextTx);
      ProgressStep(queues, turns, accept, maxSize, bySender, tried, result, totalSize, turn);
      NextValid(bySender, turn);
      NextHasFewer(bySender, turn);
      AfterTurn(bySender, turn);
      turns := turns + [turn];
      tried := tried + [nextTx];
      if !ok {
        bySender := bySender - {nextTx.sender};
        continue;
      }
      result := result + [nextTx];
      totalSize := totalSize + nextTx.size;
      var rest := bySender[nextTx.sender][1..];
      if |rest| == 0 {
        bySender := bySender - {nextTx.sender};
        continue;
      }
      HeadOfRest(bySender, nextTx.sender);
      HoldsNext(multiset(heap.items), bySender, nextTx.sender, rest);
      bySender := bySender[nextTx.sender := rest];
      heap.Push(rest[0]);
    }
    ProgressMeans(queues, turns, accept, maxSize, bySender, tried, result, totalSize);
  }

  lemma ProgressMeans(queues: Queues, turns: seq<Turn>, accept: (seq<Tx>, Tx) -> bool, maxSize: nat,
                      left: Queues, tried: seq<Tx>, result: seq<Tx>, totalSize: nat)
    requires Progress(queues, turns, accept, maxSize, left, tried, result, totalSize)
    ensures ValidQueues(queues) && Greedy(queues, turns) && AsJudged(accept, turns)
    ensures Remaining(queues, turns) == left && result == TakenOf(turns) && totalSize == TotalSize(result) <= maxSize
  {
  }

  lemma HoldsNext(heap: multiset<Tx>, m: Queues, s: nat, rest: seq<Tx>)
    requires Holds(heap, m - {s}) && s in m && rest != [] && rest[0].sender == s
    ensures Holds(heap + multiset{rest[0]}, m[s := rest])
  {
    hide Holds;
    HoldsOneMore(heap, m - {s}, s, rest);
    assert (m - {s})[s := rest] == m[s := rest];
  }

  lemma TriedStep(turns: seq<Turn>, turn: Turn)
    ensures Tried(turns + [turn]) == Tried(turns) + [turn.tx]
  {
  }

  lemma SomeHead(heap: multiset<Tx>, m: Queues)
    requires Holds(heap, m) && ValidQueues(m) && m != map[]
    ensures heap != multiset{}
  {
    var s :| s in m;
    HeadOnHeap(heap, m, s);
  }

  lemma AfterTurn(m: Queues, turn: Turn)
    requires ValidQueues(m) && IsHead(m, turn.tx)
    ensures
      var s := turn.tx.sender;
      && (turn.Failed? || |m[s]| == 1 ==> Next(m, turn) == m - {s})
      && (turn.Taken? && |m[s]| > 1 ==> Next(m, turn) == m[s := m[s][1..]])
  {
  }

  lemma HeadOfRest(m: Queues, s: nat)
    requires ValidQueues(m) && s in m && |m[s]| > 1
    ensures m[s][1..] != [] && m[s][1..][0].sender == s && Sized(m[s][1..][0])
  {
  }

  /** limitTransactionsWithSize: the longest front that fits, so everything when everything fits. */
  method LimitTransactionsWithSize(maxSize: nat, txs: seq<Tx>) returns (selected: seq<Tx>)
    ensures selected <= txs && TotalSize(selected) <= maxSize
    ensures selected != txs ==> TotalSize(txs[..|selected| + 1]) > maxSize
    ensures selected == txs <==> TotalSize(txs) <= maxSize
  {
    hide TotalSize;
    var totalSize := 0;
    selected := [];
    NoSize();
    for i := 0 to |txs|
      invariant selected == txs[..i] && totalSize == TotalSize(selected) <= maxSize
    {
      assert txs[..i + 1] == txs[..i] + [txs[i]];
      SizeStep(txs[..i], txs[i]);
      if txs[i].size + totalSize > maxSize {
        SizeGrows(txs, i + 1);
        return;
      }
      totalSize := totalSize + txs[i].size;
      selected := selected + [txs[i]];
    }
    assert txs[..|txs|] == txs;
  }

  lemma NoSize()
    ensures TotalSize([]) == 0
  {
  }

  lemma {:induction false} SizeGrows(txs: seq<Tx>, n: nat)
    requires n <= |txs|
    ensures TotalSize(txs[..n]) <= TotalSize(txs)
    decreases |txs|
  {
    if n == |txs| {
      assert txs[..n] == txs;
    } else {
      SizeGrows(txs[..|txs| - 1], n);
      assert txs[..|txs| - 1][..n] == txs[..n];
    }
  }
}
