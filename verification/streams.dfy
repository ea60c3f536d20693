/** Unbounded sources (Python's `itertools.count` and other infinite
    iterables), seen through their finite prefixes. */
module Streams {

  /** An unbounded source: element `i` is the `i`-th value it yields. */
  type Stream<T> = nat -> T

  /** `itertools.count(start)`. */
  function Count(start: int): Stream<int> {
    (i: nat) => start + i
  }

  /** The first `n` values the source yields. */
  function Prefix<T>(s: Stream<T>, n: nat): (r: seq<T>)
    ensures |r| == n
    ensures forall i :: 0 <= i < n ==> r[i] == s(i)
  {
    seq(n, i requires 0 <= i < n => s(i))
  }

  /** The source after its first `n` values have been pulled. */
  function Suffix<T>(s: Stream<T>, n: nat): Stream<T> {
    (i: nat) => s(n + i)
  }

  lemma PrefixSplit<T>(s: Stream<T>, m: nat, n: nat)
    ensures Prefix(s, m + n) == Prefix(s, m) + Prefix(Suffix(s, m), n)
  {
    assert forall i :: 0 <= i < m + n ==>
      Prefix(s, m + n)[i] == (Prefix(s, m) + Prefix(Suffix(s, m), n))[i];
  }
}
