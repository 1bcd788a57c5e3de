/** What validation of an address rules out (pkg/codec/bytes.go). */
module Lisk32Errors {
  import opened Basics
  import opened BitWords
  import opened Lisk32Checksum
  import opened Lisk32
  import opened Lisk32Code

  lemma {:induction false} FewerDifferences(s: string, t: string)
    requires |s| == |t| && Indexes(s).Some? && Indexes(t).Some?
    ensures Differences(Words(Indexes(s).value), Words(Indexes(t).value)) <= Differences(s, t)
  {
    hide Indexes, Words;
    if s != [] {
      var n := |s| - 1;
      WordsOfFront(s, n);
      WordsOfFront(t, n);
      FewerDifferences(s[..n], t[..n]);
      SameWord(s, t, n);
    } else {
      WordsOfFront(s, 0);
      WordsOfFront(t, 0);
    }
  }

  lemma WordsOfFront(s: string, n: nat)
    requires Indexes(s).Some? && n <= |s|
    ensures Indexes(s[..n]).Some? && |Indexes(s).value| == |s| && Words(Indexes(s).value)[..n] == Words(Indexes(s[..n]).value)
  {
    hide BitsOf, IndexIn;
    IndexesPrefix(s, n);
  }

  /** The same character has the same word. */
  lemma SameWord(s: string, t: string, n: nat)
    requires Indexes(s).Some? && Indexes(t).Some? && n < |s| && n < |t|
    ensures |Indexes(s).value| == |s| && |Indexes(t).value| == |t|
    ensures s[n] == t[n] ==> Words(Indexes(s).value)[n] == Words(Indexes(t).value)[n]
  {
    hide BitsOf, IndexIn;
  }

  lemma {:induction false} SameHasNoDifferences(s: string)
    ensures Differences(s, s) == 0
  {
    if s != [] { SameHasNoDifferences(s[..|s| - 1]); }
  }

  /** No string that differs from a valid one in one, two or three characters behind the prefix is valid. */
  lemma ErrorsDetected(s: string, t: string)
    requires Valid(s) && |t| == 41 && 1 <= Differences(s[3..], t[3..]) <= 3
    ensures !Valid(t)
  {
    hide Indexes, PolymodOf, Words, Differences, TextOf, Numbers;
    if Valid(t) {
      var v, w := Indexes(s[3..]).value, Indexes(t[3..]).value;
      TextOfIndexes(s[3..]);
      TextOfIndexes(t[3..]);
      FewerDifferences(s[3..], t[3..]);
      ThreeErrorsDetected(Words(v), Words(w));
      NumbersOfWords(v);
      NumbersOfWords(w);
      SameHasNoDifferences(s[3..]);
    }
  }
}
