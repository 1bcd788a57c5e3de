/** The trie itself: a root in a database, and updates of it (pkg/trie/smt/smt.go). */
module SmtTrie {
  import opened Basics
  import opened SmtTree
  import opened SmtSubtree
  import opened SmtStore
  import opened SmtBins
  import opened SmtPresence
  import opened SmtUpdate

  /** The requests of a call as a map: the first occurrence of a key wins. */
  function FirstWins(keys: seq<Key>, values: seq<Value>): Entries
    requires |keys| == |values|
  {
    if keys == [] then map[] else FirstWins(keys[1..], values[1..])[keys[0] := values[0]]
  }

  lemma {:induction false} FirstWinsSnoc(keys: seq<Key>, values: seq<Value>, i: nat)
    requires |keys| == |values| && i < |keys|
    ensures
      var us := FirstWins(keys[..i], values[..i]);
      FirstWins(keys[..i + 1], values[..i + 1]) == if keys[i] in us then us else us[keys[i] := values[i]]
  {
    if i == 0 {
      assert keys[..1] == [keys[0]] && values[..1] == [values[0]];
      assert keys[..1][1..] == [] && values[..1][1..] == values[..0];
    } else {
      FirstWinsSnoc(keys[1..], values[1..], i - 1);
      assert keys[..i + 1][1..] == keys[1..][..i] && values[..i + 1][1..] == values[1..][..i];
      assert keys[..i][1..] == keys[1..][..i - 1] && values[..i][1..] == values[1..][..i - 1];
    }
  }

  /** Of a repeated key the first value counts, and no other keys are there. */
  lemma {:induction false} FirstCounts(keys: seq<Key>, values: seq<Value>, i: nat, k: Key)
    requires |keys| == |values| && i < |keys| && forall j :: 0 <= j < i ==> keys[j] != keys[i]
    ensures keys[i] in FirstWins(keys, values) && FirstWins(keys, values)[keys[i]] == values[i]
    ensures k in FirstWins(keys, values) ==> k in keys
  {
    if i > 0 { FirstCounts(keys[1..], values[1..], i - 1, k); } else if k in FirstWins(keys, values) { OnlyGivenKeys(keys, values, k); }
  }

  lemma {:induction false} OnlyGivenKeys(keys: seq<Key>, values: seq<Value>, k: Key)
    requires |keys| == |values| && k in FirstWins(keys, values)
    ensures k in keys
  {
    if k != keys[0] { OnlyGivenKeys(keys[1..], values[1..], k); }
  }

  predicate AllLong(keys: seq<Key>, n: nat) { forall i :: 0 <= i < |keys| ==> |keys[i]| == n }

  /** The loop of Update that drops repeated keys. */
  method Unique(keys: seq<Key>, values: seq<Value>, n: nat) returns (list: seq<Request>)
    requires |keys| == |values| && AllLong(keys, n)
    ensures ListOf(list, FirstWins(keys, values), n) && (keys != [] ==> list != [])
  {
    hide FirstWins;
    list := [];
    var keyMap: set<Key> := {};
    NoKeysYet(keys, values);
    for i := 0 to |keys|
      invariant ListOf(list, FirstWins(keys[..i], values[..i]), n) && (i > 0 ==> list != [])
      invariant keyMap == FirstWins(keys[..i], values[..i]).Keys
    {
      FirstWinsSnoc(keys, values, i);
      if keys[i] !in keyMap {
        OneMore(list, FirstWins(keys[..i], values[..i]), n, Request(keys[i], values[i]));
        list := list + [Request(keys[i], values[i])];
        keyMap := keyMap + {keys[i]};
      } else {
        assert FirstWins(keys[..i], values[..i]) != map[];
      }
    }
    assert keys[..|keys|] == keys && values[..|values|] == values;
  }

  lemma NoKeysYet(keys: seq<Key>, values: seq<Value>)
    requires |keys| == |values|
    ensures FirstWins(keys[..0], values[..0]) == map[]
  {
  }

  lemma OneMore(list: seq<Request>, us: Entries, n: nat, x: Request)
    requires ListOf(list, us, n) && x.key !in us && |x.key| == n
    ensures ListOf(list + [x], us[x.key := x.value], n)
  {
    var more := list + [x];
    forall k | k in us[x.key := x.value] ensures HasKey(more, k) {
      if k == x.key {
        assert more[|list|].key == k;
      } else {
        var j :| 0 <= j < |list| && list[j].key == k;
        assert more[j].key == k;
      }
    }
  }

  lemma FirstWinsLong(list: seq<Request>, us: Entries, n: nat)
    requires ListOf(list, us, n)
    ensures AllBelow([], n, us)
  {
    forall k | k in us ensures |k| == n {
      var j :| 0 <= j < |list| && list[j].key == k;
    }
  }

  /** Updating in two calls is updating once with the later requests overriding. */
  lemma CallsCombine(m: Entries, us: Entries, vs: Entries)
    ensures Applied(Applied(m, us), vs) == Applied(m, us + vs)
  {
  }

  class Trie {
    const keyLength: nat
    var root: Hash
    ghost var entries: Entries

    /** The root is the root of the entries, and everything below it is stored. */
    ghost predicate Valid(db: Db)
      reads this, db
    {
      && keyLength >= 1
      && AllBelow([], 8 * keyLength, entries) && Canonical(root, [], 8 * keyLength) && Holds(root, entries, [], 8 * keyLength)
      && Coherent(db.data) && (root == Empty || root in db.data) && Present(db.data, root, 0)
    }

    /** NewTrie without a root. */
    constructor (length: nat, db: Db)
      requires length >= 1 && Coherent(db.data)
      ensures Valid(db) && keyLength == length && entries == map[] && root == Empty
    {
      keyLength, root, entries := length, Empty, map[];
    }

    /** NewTrie with the root another trie left in the database: it continues with the same entries. */
    constructor AtRoot(left: Trie, db: Db)
      requires left.Valid(db)
      ensures Valid(db) && keyLength == left.keyLength && entries == left.entries && root == left.root
    {
      keyLength, root, entries := left.keyLength, left.root, left.entries;
    }

    /** Update: the new root is the root of the updated entries, whatever the order and batching of the requests. */
    method Update(db: Db, keys: seq<Key>, values: seq<Value>) returns (r: Option<Hash>)
      requires Valid(db) && AllLong(keys, 8 * keyLength)
      requires forall i :: 0 <= i < |values| ==> |values[i]| in {0, 256}
      modifies this, db
      ensures Valid(db)
      ensures |keys| != |values| ==> r == None && root == old(root) && entries == old(entries) && db.data == old(db.data)
      ensures |keys| == |values| ==>
                && r == Some(root) && entries == Applied(old(entries), FirstWins(keys, values))
                && AllBelow([], 8 * keyLength, entries) && root == Root(entries, [], 8 * keyLength)
    {
      hide Coherent, Canonical, Holds, Present, AllBelow, FirstWins, Updated, SubReady, SubDone, Record, Applied, Root, ListOf;
      if |keys| != |values| {
        return None;
      }
      var n := 8 * keyLength;
      ghost var us := FirstWins(keys, values);
      if |keys| == 0 {
        NothingChanges(entries, root, n, keys, values);
        return Some(root);
      }
      var list := Unique(keys, values, n);
      FirstWinsLong(list, us, n);
      var sub := GetSubtree(db, root);
      if sub.None? {
        return None;
      }
      RootReady(db.data, list, n, root, us);
      ghost var before := db.data;
      var newRoot := UpdateSubtree(db, list, sub.value, 0, n, root, [], us);
      if newRoot.None? {
        return None;
      }
      UpdatedRoot(entries, us, n, root);
      RootDone(before, db.data, root, n, list, us);
      RecordOfTip(Updated(root, us, [], n));
      root := newRoot.value.root;
      entries := Applied(entries, us);
      return Some(root);
    }
  }

  lemma NothingChanges(m: Entries, t: Hash, n: nat, keys: seq<Key>, values: seq<Value>)
    requires keys == [] && values == [] && AllBelow([], n, m) && Canonical(t, [], n) && Holds(t, m, [], n)
    ensures Applied(m, FirstWins(keys, values)) == m && t == Root(m, [], n)
  {
    hide Canonical, Holds, Root;
    CanonicalIsRoot(t, m, [], n);
  }

  lemma RootReady(m: Table, list: seq<Request>, n: nat, t: Hash, us: Entries)
    requires Coherent(m) && ListOf(list, us, n) && n > 0 && n % 8 == 0 && Canonical(t, [], n) && Present(m, t, 0) && AllBelow([], n, us)
    ensures SubReady(m, list, 0, n, t, [], us)
  {
  }

  lemma RootDone(before: Table, after: Table, t: Hash, n: nat, list: seq<Request>, us: Entries)
    requires ListOf(list, us, n) && list != [] && AllBelow([], n, us) && SubDone(before, after, t, n, [], us)
    ensures
      var now := Updated(t, us, [], n);
      Coherent(after) && now in after && Present(after, now, 0)
  {
    hide Coherent, Present, Updated, Frame;
    assert list[0].key in us;
  }
}
