/** What several components need: sequences without repetition, the associativity of
    concatenation, and the largest 32-bit int. */
module Common {

  const MAX_INT: int := 0x7fff_ffff

  predicate Distinct<T(==)>(s: seq<T>) {
    forall i, j :: 0 <= i < j < |s| ==> s[i] != s[j]
  }

  lemma Associative<T>(a: seq<T>, b: seq<T>, c: seq<T>)
    ensures a + (b + c) == a + b + c
  {}
}
