/** Collection helpers shared by the model: Go's `map[T]bool` sets, lists without repeats, and suffixes. */
module Collections {

  /** Go's `m[x]` on a `map[T]bool`: a missing key reads as false. */
  function Present<T>(m: map<T, bool>, x: T): bool {
    x in m && m[x]
  }

  /** No value occurs twice in `s`. */
  predicate NoDuplicates<T(==)>(s: seq<T>) {
    forall i, j :: 0 <= i < j < |s| ==> s[i] != s[j]
  }

  /** `r` is the end of `s`. */
  predicate IsSuffix<T(==)>(r: seq<T>, s: seq<T>) {
    |r| <= |s| && s[|s| - |r|..] == r
  }

  /** The end of the end of `s` is the end of `s`. */
  lemma SuffixTrans<T>(r: seq<T>, q: seq<T>, s: seq<T>)
    requires IsSuffix(r, q) && IsSuffix(q, s)
    ensures IsSuffix(r, s)
  {
    assert s[|s| - |r|..] == s[|s| - |q|..][|q| - |r|..];
  }
}
