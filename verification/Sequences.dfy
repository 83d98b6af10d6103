/** What the modules say about sequences in general. */
module Sequences {

  /** No element occurs twice. */
  predicate Distinct<T(==)>(s: seq<T>) {
    forall i, j :: 0 <= i < j < |s| ==> s[i] != s[j]
  }

  /** The first sequence is the second with some elements left out. */
  predicate Subsequence<T(==)>(s: seq<T>, t: seq<T>)
    decreases t
  {
    s == [] || (t != [] && ((s[0] == t[0] && Subsequence(s[1..], t[1..])) || Subsequence(s, t[1..])))
  }

  lemma {:induction false} SubsequenceOfItself<T>(s: seq<T>)
    ensures Subsequence(s, s)
  {
    if s != [] {
      SubsequenceOfItself(s[1..]);
    }
  }

  /** The elements, order and repetition aside. */
  function Members<T>(s: seq<T>): set<T> {
    set x | x in s
  }
}
