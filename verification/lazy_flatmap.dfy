/** `lazy_flatmap(fn, xs)`: the values of `fn(x)` for each `x` of `xs`, in order. */
module LazyFlatMap {
  import opened SeqUtil
  import opened Streams

  /** The values `lazy_flatmap(fn, xs)` yields: the outer loop over `xs`, the
      inner loop over `fn(x)`. */
  function FlatMap<T, U>(fn: T -> seq<U>, xs: seq<T>): (r: seq<U>)
    ensures r == Flatten(Map(fn, xs))
    decreases |xs|
  {
    if |xs| == 0 then []
    else
      assert Map(fn, xs) == [fn(xs[0])] + Map(fn, xs[1..]);
      fn(xs[0]) + FlatMap(fn, xs[1..])
  }

  lemma {:induction false} FlatMapAppend<T, U>(fn: T -> seq<U>, xs: seq<T>, ys: seq<T>)
    ensures FlatMap(fn, xs + ys) == FlatMap(fn, xs) + FlatMap(fn, ys)
  {
    MapAppend(fn, xs, ys);
    FlattenAppend(Map(fn, xs), Map(fn, ys));
  }

  /** Over an unbounded source, reading more of the source only extends the output. */
  lemma FlatMapPrefixMonotone<T, U>(fn: T -> seq<U>, s: Stream<T>, n: nat, n': nat)
    requires n <= n'
    ensures IsPrefix(FlatMap(fn, Prefix(s, n)), FlatMap(fn, Prefix(s, n')))
  {
    PrefixSplit(s, n, n' - n);
    FlatMapAppend(fn, Prefix(s, n), Prefix(Suffix(s, n), n' - n));
    IsPrefixAppend(FlatMap(fn, Prefix(s, n)), FlatMap(fn, Prefix(Suffix(s, n), n' - n)), []);
    assert FlatMap(fn, Prefix(s, n)) + FlatMap(fn, Prefix(Suffix(s, n), n' - n)) + []
        == FlatMap(fn, Prefix(s, n'));
  }

  /** Once the first `n` source values give `m` outputs, the first `m` outputs
      are fixed: no further source value changes them. */
  lemma FlatMapPrefixStable<T, U>(fn: T -> seq<U>, s: Stream<T>, n: nat, n': nat, m: nat)
    requires n <= n'
    requires m <= |FlatMap(fn, Prefix(s, n))|
    ensures m <= |FlatMap(fn, Prefix(s, n'))|
    ensures FlatMap(fn, Prefix(s, n'))[..m] == FlatMap(fn, Prefix(s, n))[..m]
  {
    FlatMapPrefixMonotone(fn, s, n, n');
  }

  /** `lazy_flatmap(lambda x: x, ...)` concatenates, skipping empty lists. */
  lemma FlatMapExampleIdentity()
    ensures FlatMap((x: seq<int>) => x, [[1], [2, 3], []]) == [1, 2, 3]
  {
    var id := (x: seq<int>) => x;
    var a: seq<seq<int>> := [[1], [2, 3], []];
    assert a[1..] == [[2, 3], []] && a[1..][1..] == [[]] && a[1..][1..][1..] == [];
    assert FlatMap(id, a[1..][1..]) == [];
    assert FlatMap(id, a[1..]) == [2, 3];
  }

  lemma FlatMapExampleLeadingEmpty()
    ensures FlatMap((x: seq<int>) => x, [[], [0], [10]]) == [0, 10]
  {
    var id := (x: seq<int>) => x;
    var b: seq<seq<int>> := [[], [0], [10]];
    assert b[1..] == [[0], [10]] && b[1..][1..] == [[10]] && b[1..][1..][1..] == [];
    assert FlatMap(id, b[1..][1..]) == [10];
    assert FlatMap(id, b[1..]) == [0, 10];
  }

  lemma FlatMapExampleFiltered()
    ensures FlatMap((xs: seq<int>) => Filter((n: int) => n % 2 == 1, xs), [[1, 2], [3]]) == [1, 3]
  {
    var odd := (n: int) => n % 2 == 1;
    var fn := (xs: seq<int>) => Filter(odd, xs);
    assert [1, 2][1..] == [2];
    assert Filter(odd, [1, 2]) == [1];
    assert Filter(odd, [3]) == [3];
    var a: seq<seq<int>> := [[1, 2], [3]];
    assert a[1..] == [[3]] && a[1..][1..] == [];
    assert FlatMap(fn, a[1..]) == [3];
  }

  /** The first five values of `lazy_flatmap(lambda n: [n], itertools.count(0))`. */
  lemma FlatMapExampleCount()
    ensures FlatMap((n: int) => [n], Prefix(Count(0), 5)) == [0, 1, 2, 3, 4]
  {
    var fn := (n: int) => [n];
    var p := Prefix(Count(0), 5);
    assert p == [0, 1, 2, 3, 4];
    assert p[1..][1..][1..][1..][1..] == [];
    assert FlatMap(fn, p[1..][1..][1..][1..]) == [4];
    assert FlatMap(fn, p[1..][1..][1..]) == [3, 4];
    assert FlatMap(fn, p[1..][1..]) == [2, 3, 4];
    assert FlatMap(fn, p[1..]) == [1, 2, 3, 4];
  }
}
