/** `batched(iterable, k)`: consecutive groups of `k` values, the last one
    possibly shorter. */
module Batching {
  import opened PyRuntime
  import opened SeqUtil
  import opened Streams

  /** A grouping of values into batches of size `k`: no batch is empty, every
      batch holds at most `k` values, and every batch but the last holds exactly `k`. */
  predicate WellSized<T>(batches: seq<seq<T>>, k: nat) {
    && (forall i :: 0 <= i < |batches| ==> 0 < |batches[i]| <= k)
    && (forall i :: 0 <= i < |batches| - 1 ==> |batches[i]| == k)
  }

  /** The batches `batched` yields for a positive `k`. */
  function Chunks<T>(xs: seq<T>, k: nat): seq<seq<T>>
    requires k > 0
    decreases |xs|
  {
    if |xs| == 0 then []
    else if |xs| <= k then [xs]
    else [xs[..k]] + Chunks(xs[k..], k)
  }

  /** Concatenating the batches gives back the input, in order; the batches are
      well sized; there are none exactly when the input is empty. */
  lemma {:induction false} ChunksProperties<T>(xs: seq<T>, k: nat)
    requires k > 0
    ensures Flatten(Chunks(xs, k)) == xs
    ensures WellSized(Chunks(xs, k), k)
    ensures |Chunks(xs, k)| == 0 <==> |xs| == 0
    decreases |xs|
  {
    if |xs| > k {
      ChunksProperties(xs[k..], k);
      var r := Chunks(xs, k);
      var t := Chunks(xs[k..], k);
      assert r == [xs[..k]] + t;
      assert r[1..] == t;
      assert xs == xs[..k] + xs[k..];
    } else if |xs| > 0 {
      assert Chunks(xs, k) == [xs];
      assert Flatten([xs]) == xs + Flatten([]);
    }
  }

  /** `batched(xs, k)` drained: ValueError for a non-positive `k`, the batches otherwise. */
  function Batched<T>(xs: seq<T>, k: int): (r: Outcome<seq<seq<T>>>)
    ensures r.Raised? <==> k <= 0
    ensures r.Raised? ==> r.error == ValueError
    ensures r.Returned? ==> Flatten(r.value) == xs && WellSized(r.value, k)
    ensures r.Returned? ==> (|r.value| == 0 <==> |xs| == 0)
  {
    if k <= 0 then Raised(ValueError)
    else
      ChunksProperties(xs, k);
      Returned(Chunks(xs, k))
  }

  /** The batches are the only well-sized grouping that concatenates back to the input. */
  lemma {:induction false} ChunksUnique<T>(xs: seq<T>, k: nat, b: seq<seq<T>>)
    requires k > 0
    requires Flatten(b) == xs && WellSized(b, k)
    ensures b == Chunks(xs, k)
    decreases |b|
  {
    if |b| == 0 {
    } else if |b| == 1 {
      assert Flatten(b) == b[0] + Flatten(b[1..]);
      assert xs == b[0];
    } else {
      assert Flatten(b) == b[0] + Flatten(b[1..]);
      assert |b[0]| == k;
      assert Flatten(b[1..]) == xs[k..];
      assert 0 < |b[1]| && Flatten(b[1..]) == b[1] + Flatten(b[2..]);
      assert |xs| > k;
      assert WellSized(b[1..], k);
      ChunksUnique(xs[k..], k, b[1..]);
      assert b == [b[0]] + b[1..];
    }
  }

  /** A full batch at the front of the input is the first batch yielded. */
  lemma ChunksCons<T>(a: seq<T>, c: seq<T>, k: nat)
    requires k > 0 && |a| == k
    ensures Chunks(a + c, k) == [a] + Chunks(c, k)
  {
    if |c| == 0 {
      assert a + c == a;
    } else {
      assert (a + c)[..k] == a;
      assert (a + c)[k..] == c;
    }
  }

  /** `batched(xs, k)` as the source writes it: an outer loop that starts a
      fresh batch and an inner loop of `k` pulls; the end of the source inside
      the inner loop yields the partial batch if it is not empty and stops. */
  method BatchedRun<T>(xs: seq<T>, k: int) returns (r: Outcome<seq<seq<T>>>)
    ensures r == Batched(xs, k)
  {
    if k <= 0 {
      return Raised(ValueError);
    }
    var pos := 0;
    var out: seq<seq<T>> := [];
    while true
      invariant 0 <= pos <= |xs|
      invariant Chunks(xs, k) == out + Chunks(xs[pos..], k)
      decreases |xs| - pos
    {
      var batch: seq<T> := [];
      var j := 0;
      while j < k
        invariant 0 <= j <= k
        invariant pos + j <= |xs|
        invariant batch == xs[pos..pos + j]
      {
        if pos + j == |xs| {
          assert xs[pos..] == batch;
          if |batch| > 0 {
            assert Chunks(batch, k) == [batch];
            out := out + [batch];
          }
          assert out == Chunks(xs, k);
          assert Batched(xs, k) == Returned(Chunks(xs, k));
          return Returned(out);
        }
        batch := batch + [xs[pos + j]];
        j := j + 1;
      }
      ChunksCons(batch, xs[pos + k..], k);
      assert xs[pos..] == batch + xs[pos + k..];
      out := out + [batch];
      pos := pos + k;
    }
  }

  /** `batched` over an unbounded source: batch `i` holds values `i*k .. i*k+k-1`. */
  function BatchedStream<T>(s: Stream<T>, k: int): (r: Outcome<Stream<seq<T>>>)
    ensures r.Raised? <==> k <= 0
    ensures r.Raised? ==> r.error == ValueError
    ensures r.Returned? ==> forall i: nat :: |r.value(i)| == k
  {
    if k <= 0 then Raised(ValueError)
    else
      var size: nat := k;
      Returned((i: nat) => Prefix(Suffix(s, i * size), size))
  }

  /** Pulling one batch's worth of values from the source shifts the batches by one. */
  lemma BatchShift<T>(s: Stream<T>, k: int, i: nat)
    requires k > 0
    ensures BatchedStream(Suffix(s, k), k).value(i) == BatchedStream(s, k).value(i + 1)
  {
    var size: nat := k;
    assert (i + 1) * size == size + i * size;
    var x := BatchedStream(Suffix(s, k), k).value(i);
    var y := BatchedStream(s, k).value(i + 1);
    assert x == Prefix(Suffix(Suffix(s, size), i * size), size);
    assert y == Prefix(Suffix(s, (i + 1) * size), size);
    assert forall j :: 0 <= j < size ==> x[j] == y[j];
  }

  /** The first `m` batches over an unbounded source are the batches of its
      first `m * k` values: no batch looks past the values it groups. */
  lemma {:induction false} BatchedStreamPrefix<T>(s: Stream<T>, k: int, m: nat)
    requires k > 0
    ensures Prefix(BatchedStream(s, k).value, m) == Chunks(Prefix(s, m * k), k)
    decreases m
  {
    if m > 0 {
      var b := BatchedStream(s, k).value;
      var s' := Suffix(s, k);
      var b' := BatchedStream(s', k).value;
      var rest: nat := (m - 1) * k;
      BatchedStreamPrefix(s', k, m - 1);
      assert m * k == k + rest;
      PrefixSplit(s, k, rest);
      ChunksCons(Prefix(s, k), Prefix(s', rest), k);
      assert Chunks(Prefix(s, m * k), k) == [Prefix(s, k)] + Prefix(b', m - 1);
      assert b(0) == Prefix(s, k) by {
        assert forall j :: 0 <= j < k ==> b(0)[j] == s(j);
      }
      forall i: nat | i < m - 1 ensures b'(i) == b(i + 1) {
        BatchShift(s, k, i);
      }
      assert Prefix(b, m) == [b(0)] + Prefix(b', m - 1);
    }
  }

  lemma BatchedExamples()
    ensures Batched([1, 2, 3, 4], 2) == Returned([[1, 2], [3, 4]])
    ensures Batched([1, 2, 3, 4, 5], 2) == Returned([[1, 2], [3, 4], [5]])
    ensures Batched([10, 11, 12], 2) == Returned([[10, 11], [12]])
    ensures Batched([1, 2, 3], 0) == Raised(ValueError)
    ensures Batched([1, 2, 3], -1) == Raised(ValueError)
    ensures Prefix(BatchedStream(Count(1), 4).value, 3) == [[1, 2, 3, 4], [5, 6, 7, 8], [9, 10, 11, 12]]
  {
    var x4 := [1, 2, 3, 4];
    assert x4[..2] == [1, 2] && x4[2..] == [3, 4];
    assert Chunks(x4, 2) == [[1, 2], [3, 4]];
    var x5 := [1, 2, 3, 4, 5];
    assert x5[..2] == [1, 2] && x5[2..] == [3, 4, 5];
    assert x5[2..][..2] == [3, 4] && x5[2..][2..] == [5];
    assert Chunks(x5, 2) == [[1, 2], [3, 4], [5]];
    var x3 := [10, 11, 12];
    assert x3[..2] == [10, 11] && x3[2..] == [12];
    assert Chunks(x3, 2) == [[10, 11], [12]];
    var b := BatchedStream(Count(1), 4).value;
    assert b(0) == [1, 2, 3, 4];
    assert b(1) == [5, 6, 7, 8];
    assert b(2) == [9, 10, 11, 12];
  }
}
