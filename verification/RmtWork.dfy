/** The order in which proofs visit the nodes of a tree, and the lists of indexes still to visit
    (pkg/trie/rmt/util.go). */
module RmtWork {
  import opened Basics
  import opened RmtRoot
  import opened RmtTree
  import opened RmtIndex

  // ---------------------------------------------------------------- order

  /** The comparison of indexes.sort: lower layers first, and from left to right in a layer. */
  predicate Comes(a: nat, b: nat) { if Digits(a) == Digits(b) then a < b else a > b }

  /** The place of an index in the order; earlier places are greater. */
  function Place(x: nat): (p: nat)
    ensures p >= 1
  {
    PowNext(Digits(x) - 1);
    3 * Pow2(Digits(x) - 1) - x
  }

  lemma PlaceRange(x: nat)
    requires x >= 1
    ensures Pow2(Digits(x) - 1) < Place(x) <= 2 * Pow2(Digits(x) - 1)
  {
    PowNext(Digits(x) - 1);
  }

  lemma {:induction false} MoreDigits(a: nat, b: nat)
    requires a >= 1 && b >= 1 && Digits(a) > Digits(b)
    ensures a > b && Place(a) > Place(b)
  {
    hide Digits, Pow2;
    PlaceRange(a);
    PlaceRange(b);
    PowNext(Digits(b) - 1);
    Pow2Monotone(Digits(b), Digits(a) - 1);
  }

  lemma PlaceIsOrder(a: nat, b: nat)
    requires a >= 1 && b >= 1
    ensures Comes(a, b) <==> Place(a) > Place(b)
    ensures Place(a) == Place(b) <==> a == b
  {
    hide Digits, Pow2;
    if Digits(a) > Digits(b) { MoreDigits(a, b); } else if Digits(b) > Digits(a) { MoreDigits(b, a); }
  }

  lemma PlaceOfParent(x: nat)
    requires x >= 2
    ensures Place(x / 2) < Place(x)
  {
    hide Pow2;
    DigitsHalf(x);
    MoreDigits(x, x / 2);
  }

  lemma PlaceOfMate(x: nat)
    requires x >= 4 && x % 2 == 0
    ensures Place(x + 1) == Place(x) - 1
  {
    hide Digits, Pow2;
    DigitsHalf(x);
    DigitsHalf(x + 1);
  }

  lemma PlaceOfChild(x: nat, c: nat)
    requires x >= 1 && c / 2 == x
    ensures Place(c) > Place(x)
  {
    PlaceOfParent(c);
  }

  /** The index at a place. */
  function IndexAt(p: nat): (x: nat)
    requires p >= 3
    ensures x >= 2 && Place(x) == p
  {
    var k := CeilLog2From(p, 0);
    IndexInRange(p, k);
    3 * Pow2(k - 1) - p
  }

  lemma IndexInRange(p: nat, k: nat)
    requires p >= 3 && p <= Pow2(k) && (k == 0 || Pow2(k - 1) < p)
    ensures k >= 2 && Pow2(k - 1) <= 3 * Pow2(k - 1) - p < Pow2(k) && 3 * Pow2(k - 1) - p >= 2
    ensures Digits(3 * Pow2(k - 1) - p) == k
  {
    assert Pow2(0) == 1 && Pow2(1) == 2;
    PowNext(k - 1);
    Pow2Monotone(1, k - 1);
    DigitsUnique(3 * Pow2(k - 1) - p, k);
  }

  lemma PlaceOfTop()
    ensures Place(2) == 4 && Place(3) == 3 && Digits(2) == 2
  {
    DigitsUnique(2, 2);
    DigitsUnique(3, 2);
  }

  /** Every index inside a tree other than the root comes before the root. */
  lemma BeforeTop(n: nat, x: nat)
    requires Inside(n, x)
    ensures x == 2 || Place(x) > 4
  {
    hide Digits, Pow2;
    PlaceOfTop();
    if x != 2 {
      ParentOf(n, x);
      PlaceOfTop();
      DigitsAtLeastTwo(x / 2);
      MoreDigits(x, 2);
    }
  }

  // ---------------------------------------------------------------- sorted lists

  /** Nothing of the list comes before `x`. */
  ghost predicate Leads(x: nat, w: seq<nat>) { forall y :: y in w ==> Place(y) <= Place(x) }

  ghost predicate InOrder(w: seq<nat>) {
    w == [] || (w[0] >= 1 && Leads(w[0], w[1..]) && InOrder(w[1..]))
  }

  lemma {:induction false} OrderAt(w: seq<nat>, i: nat, j: nat)
    requires InOrder(w) && i < j < |w|
    ensures w[i] >= 1 && w[j] >= 1 && Place(w[i]) >= Place(w[j])
    decreases i + j
  {
    hide Place;
    if i > 0 {
      OrderAt(w[1..], i - 1, j - 1);
    } else {
      assert w[j] in w[1..];
      AllPositive(w, j);
    }
  }

  lemma {:induction false} AllPositive(w: seq<nat>, i: nat)
    requires InOrder(w) && i < |w|
    ensures w[i] >= 1
  {
    hide Place, Leads;
    if i > 0 { AllPositive(w[1..], i - 1); }
  }

  /** indexes.insert: an index that is there already is not inserted again. */
  function Insert(w: seq<nat>, x: nat): seq<nat> {
    if w == [] then [x]
    else if w[0] == x then w
    else if Place(x) > Place(w[0]) then [x] + w
    else [w[0]] + Insert(w[1..], x)
  }

  lemma {:induction false} Inserted(w: seq<nat>, x: nat)
    requires InOrder(w) && x >= 1
    ensures InOrder(Insert(w, x))
    ensures forall y :: y in Insert(w, x) <==> y in w || y == x
    ensures x in w ==> Insert(w, x) == w
  {
    hide Place;
    if w == [] {
      assert [x][1..] == [];
    } else {
      assert w == [w[0]] + w[1..];
      PlaceIsOrder(x, w[0]);
      if w[0] != x {
        if Place(x) > Place(w[0]) {
          assert ([x] + w)[1..] == w;
        } else {
          Inserted(w[1..], x);
          assert ([w[0]] + Insert(w[1..], x))[1..] == Insert(w[1..], x);
        }
      }
    }
  }

  /** Sorting with repetitions kept. */
  function PutIn(w: seq<nat>, x: nat): seq<nat> {
    if w == [] || Place(x) >= Place(w[0]) then [x] + w else [w[0]] + PutIn(w[1..], x)
  }

  /** indexes.sort. */
  function SortIndexes(s: seq<nat>): seq<nat> {
    if s == [] then [] else PutIn(SortIndexes(s[1..]), s[0])
  }

  lemma {:induction false} PutInOrder(w: seq<nat>, x: nat)
    requires InOrder(w) && x >= 1
    ensures InOrder(PutIn(w, x)) && multiset(PutIn(w, x)) == multiset(w) + multiset{x}
  {
    hide Place;
    if w == [] || Place(x) >= Place(w[0]) {
      assert ([x] + w)[1..] == w;
    } else {
      assert w == [w[0]] + w[1..];
      PutInOrder(w[1..], x);
      var rest := PutIn(w[1..], x);
      assert ([w[0]] + rest)[1..] == rest;
      forall y | y in rest ensures Place(y) <= Place(w[0]) {
        assert y in multiset(rest);
      }
    }
  }

  lemma {:induction false} SortedIndexes(s: seq<nat>)
    requires forall i :: 0 <= i < |s| ==> s[i] >= 1
    ensures InOrder(SortIndexes(s)) && multiset(SortIndexes(s)) == multiset(s)
  {
    if s != [] {
      assert s == [s[0]] + s[1..];
      SortedIndexes(s[1..]);
      PutInOrder(SortIndexes(s[1..]), s[0]);
    }
  }

  function Total(w: seq<nat>): nat { if w == [] then 0 else w[0] + Total(w[1..]) }

  lemma {:induction false} InsertTotal(w: seq<nat>, x: nat)
    ensures Total(Insert(w, x)) <= Total(w) + x
  {
    if w == [] {
      assert [x][1..] == [];
    } else if w[0] != x {
      if Place(x) > Place(w[0]) {
        assert ([x] + w)[1..] == w;
      } else {
        InsertTotal(w[1..], x);
        assert ([w[0]] + Insert(w[1..], x))[1..] == Insert(w[1..], x);
      }
    }
  }

  // ---------------------------------------------------------------- the methods

  /** findInsertIndex: the binary search for the place of an index in a sorted list. */
  method FindInsertIndex(arr: seq<nat>, idx: nat) returns (r: nat)
    requires InOrder(arr) && idx >= 1
    ensures r <= |arr|
    ensures (r < |arr| && arr[r] == idx) || (idx !in arr && arr[..r] + [idx] + arr[r..] == Insert(arr, idx))
  {
    hide Place, Digits;
    var low, high := -1, |arr|;
    while 1 + low < high
      invariant -1 <= low < high <= |arr|
      invariant forall i :: 0 <= i <= low ==> Place(arr[i]) > Place(idx)
      invariant forall i :: high <= i < |arr| ==> Place(arr[i]) < Place(idx)
    {
      var middle := low + (high - low) / 2;
      if arr[middle] == idx {
        return middle;
      }
      AllPositive(arr, middle);
      PlaceIsOrder(idx, arr[middle]);
      forall i | 0 <= i < |arr| && i != middle
        ensures if i < middle then Place(arr[i]) >= Place(arr[middle]) else Place(arr[i]) <= Place(arr[middle])
      {
        if i < middle { OrderAt(arr, i, middle); } else { OrderAt(arr, middle, i); }
      }
      if Comes(idx, arr[middle]) {
        high := middle;
      } else {
        low := middle;
      }
    }
    InsertAt(arr, idx, high);
    return high;
  }

  lemma {:induction false} InsertAt(arr: seq<nat>, idx: nat, r: nat)
    requires r <= |arr|
    requires forall i :: 0 <= i < r ==> Place(arr[i]) > Place(idx)
    requires forall i :: r <= i < |arr| ==> Place(arr[i]) < Place(idx)
    ensures idx !in arr && arr[..r] + [idx] + arr[r..] == Insert(arr, idx)
  {
    hide Place, Insert;
    if r == 0 {
      InsertFirst(arr, idx);
      assert arr[..r] + [idx] + arr[r..] == [idx] + arr;
    } else {
      InsertAt(arr[1..], idx, r - 1);
      InsertSkips(arr, idx);
      Spliced(arr, idx, r);
      assert arr == [arr[0]] + arr[1..];
    }
  }

  lemma InsertFirst(arr: seq<nat>, idx: nat)
    requires arr != [] ==> Place(arr[0]) < Place(idx)
    ensures Insert(arr, idx) == [idx] + arr
  {
  }

  lemma InsertSkips(arr: seq<nat>, idx: nat)
    requires arr != [] && Place(arr[0]) > Place(idx)
    ensures Insert(arr, idx) == [arr[0]] + Insert(arr[1..], idx)
  {
  }

  lemma Spliced(arr: seq<nat>, idx: nat, r: nat)
    requires 0 < r <= |arr|
    ensures arr[..r] + [idx] + arr[r..] == [arr[0]] + (arr[1..][..r - 1] + [idx] + arr[1..][r - 1..])
  {
  }

  /** indexes.insert. */
  method InsertIndex(idxs: seq<nat>, idx: nat) returns (r: seq<nat>)
    requires InOrder(idxs) && idx >= 1
    ensures r == Insert(idxs, idx)
  {
    hide Place;
    Inserted(idxs, idx);
    var index := FindInsertIndex(idxs, idx);
    if |idxs| <= index {
      r := idxs + [idx];
    } else if idxs[index] != idx {
      r := idxs[..index] + [idx] + idxs[index..];
    } else {
      r := idxs;
    }
  }

  /** indexes.remove: every occurrence goes. */
  function Without(w: seq<nat>, x: nat): seq<nat> {
    if w == [] then [] else if w[0] == x then Without(w[1..], x) else [w[0]] + Without(w[1..], x)
  }

  lemma {:induction false} WithoutSnoc(w: seq<nat>, y: nat, x: nat)
    ensures Without(w + [y], x) == Without(w, x) + if y == x then [] else [y]
  {
    if w == [] {
      assert w + [y] == [y] && [y][1..] == [];
    } else {
      assert (w + [y])[1..] == w[1..] + [y];
      WithoutSnoc(w[1..], y, x);
    }
  }

  method RemoveIndex(idxs: seq<nat>, val: nat) returns (r: seq<nat>)
    ensures r == Without(idxs, val)
  {
    r := [];
    for i := 0 to |idxs|
      invariant r == Without(idxs[..i], val)
    {
      assert idxs[..i + 1] == idxs[..i] + [idxs[i]];
      WithoutSnoc(idxs[..i], idxs[i], val);
      if idxs[i] != val {
        r := r + [idxs[i]];
      }
    }
    assert idxs[..|idxs|] == idxs;
  }

  lemma {:induction false} WithoutOrder(w: seq<nat>, x: nat)
    requires InOrder(w)
    ensures InOrder(Without(w, x)) && forall y :: y in Without(w, x) <==> y in w && y != x
  {
    hide Place;
    if w != [] {
      assert w == [w[0]] + w[1..];
      WithoutOrder(w[1..], x);
      assert ([w[0]] + Without(w[1..], x))[1..] == Without(w[1..], x);
    }
  }
}
