/** `take(n, it)` and `drop(n, it)` over finite and unbounded sources. */
module TakeDrop {
  import opened SeqUtil
  import opened Streams

  /** The values `take(n, it)` yields: one pull per value, stopping after `n`
      values or at the end of the source; nothing when `n <= 0`. */
  function Take<T>(n: int, xs: seq<T>): (r: seq<T>)
    ensures r == xs[..Min(Max(n, 0), |xs|)]
    decreases |xs|
  {
    if n <= 0 || |xs| == 0 then [] else [xs[0]] + Take(n - 1, xs[1..])
  }

  /** The values `drop(n, it)` yields: the first `n` values are skipped, the
      rest pass through; everything when `n <= 0`. */
  function Drop<T>(n: int, xs: seq<T>): (r: seq<T>)
    ensures r == xs[Min(Max(n, 0), |xs|)..]
    decreases |xs|
  {
    if n <= 0 || |xs| == 0 then xs else Drop(n - 1, xs[1..])
  }

  /** `take(n, it)` drained, on an iterator that has already yielded the first
      `pos` values of `src`: the values it yields and the iterator's position
      afterwards, one pull per yielded value. */
  method TakeRun<T>(n: int, src: seq<T>, pos: nat) returns (out: seq<T>, pos': nat)
    requires pos <= |src|
    ensures pos' == pos + Min(Max(n, 0), |src| - pos)
    ensures out == src[pos..pos']
  {
    out := [];
    pos' := pos;
    if n <= 0 {
      return;
    }
    var i := 0;
    while i < n
      invariant 0 <= i <= n
      invariant pos' == pos + i <= |src|
      invariant out == src[pos..pos']
    {
      if pos' == |src| {
        return;
      }
      out := out + [src[pos']];
      pos' := pos' + 1;
      i := i + 1;
    }
  }

  /** `drop(n, it)` drained: every value is pulled and counted, and yielded once
      the count reaches `n`. */
  method DropRun<T>(n: int, xs: seq<T>) returns (out: seq<T>)
    ensures out == xs[Min(Max(n, 0), |xs|)..]
  {
    var k := 0;
    out := [];
    ghost var lo := Max(n, 0);
    while k < |xs|
      invariant 0 <= k <= |xs|
      invariant k <= lo ==> out == []
      invariant lo <= k ==> out == xs[lo..k]
    {
      var value := xs[k];
      if k >= n {
        assert xs[lo..k + 1] == xs[lo..k] + [value];
        out := out + [value];
      }
      k := k + 1;
    }
    assert lo <= |xs| ==> xs[lo..|xs|] == xs[lo..];
  }

  lemma TakeDropSplit<T>(n: int, xs: seq<T>)
    ensures Take(n, xs) + Drop(n, xs) == xs
  {
  }

  /** A second `take` on the same iterator continues where the first stopped:
      after `take(n, it)` the iterator holds `drop(n, it)`. */
  lemma TakeThenTake<T>(n: int, m: int, xs: seq<T>)
    ensures Take(n, xs) + Take(m, Drop(n, xs)) == Take(Max(n, 0) + Max(m, 0), xs)
  {
    var a := Min(Max(n, 0), |xs|);
    var b := Min(Max(n, 0) + Max(m, 0), |xs|);
    assert xs[..a] + xs[a..][..b - a] == xs[..b];
  }

  /** `take` over an unbounded source yields its first `n` values. */
  lemma TakeOfStream<T>(n: int, s: Stream<T>, len: nat)
    requires len >= n
    ensures Take(n, Prefix(s, len)) == Prefix(s, Max(n, 0))
  {
  }

  /** `drop(n, ...)` over an unbounded source: its `i`-th value is the source's
      `(n + i)`-th, whatever finite window of the source is looked at. */
  lemma DropOfStream<T>(n: int, s: Stream<T>, len: nat, i: nat)
    requires Max(n, 0) + i < len
    ensures i < |Drop(n, Prefix(s, len))|
    ensures Drop(n, Prefix(s, len))[i] == s(Max(n, 0) + i)
  {
  }

  lemma DropOfCount(n: nat, len: nat, i: nat)
    requires n + i < len
    ensures Drop(n, Prefix(Count(0), len))[i] == n + i
  {
    DropOfStream(n, Count(0), len, i);
  }

  /** The examples of the test suite on finite data. */
  lemma TakeDropExamples()
    ensures Take(3, [0, 1, 2, 3, 4]) == [0, 1, 2]
    ensures Drop(3, [0, 1, 2, 3, 4]) == [3, 4]
    ensures Take(0, [0, 1, 2, 3, 4]) == []
    ensures Drop(0, [0, 1, 2, 3, 4]) == [0, 1, 2, 3, 4]
  {
  }

  /** The examples of the test suite on `itertools.count(10)`: the first five
      values, and three values after skipping five. */
  lemma TakeDropCountExamples()
    ensures Take(5, Prefix(Count(10), 8)) == [10, 11, 12, 13, 14]
    ensures Take(3, Drop(5, Prefix(Count(10), 8))) == [15, 16, 17]
  {
    var c := Prefix(Count(10), 8);
    assert c == [10, 11, 12, 13, 14, 15, 16, 17];
  }

  /** Skipping `n` values of `itertools.count(0)` and taking `k` gives the
      first `k` values of `itertools.count(n)`. */
  lemma DropCountThenTake(n: nat, k: nat)
    ensures Take(k, Drop(n, Prefix(Count(0), n + k))) == Prefix(Count(n), k)
  {
    var p := Prefix(Count(0), n + k);
    var d := Drop(n, p);
    var q := Prefix(Count(n), k);
    assert d == p[n..];
    forall i | 0 <= i < k
      ensures d[i] == q[i]
    {
      assert d[i] == p[n + i] == Count(0)(n + i) == n + i;
      assert q[i] == Count(n)(i) == n + i;
    }
    assert d == q;
    assert Take(k, d) == d;
  }

  /** The test suite's instance: `take(5, drop(100, count(0)))`. */
  lemma DropHundredExample()
    ensures Take(5, Drop(100, Prefix(Count(0), 105))) == [100, 101, 102, 103, 104]
  {
    DropCountThenTake(100, 5);
    assert Prefix(Count(100), 5) == [100, 101, 102, 103, 104];
  }
}
