/** `compose2(f, g)` and `pipe_iter(data, *stages)`. */
module Pipes {
  import opened SeqUtil
  import opened Streams

  /** `compose2(f, g)`: the function `x -> f(g(x))`. */
  function Compose2<A(!new), B, C>(f: B -> C, g: A -> B): (h: A -> C)
    ensures forall x :: h(x) == f(g(x))
  {
    x => f(g(x))
  }

  lemma Compose2Associative<A(!new), B(!new), C, D>(f: C -> D, g: B -> C, h: A -> B, x: A)
    ensures Compose2(f, Compose2(g, h))(x) == Compose2(Compose2(f, g), h)(x)
  {
  }

  /** A stage of the pipeline: an iterable in, an iterable out. */
  type Stage<!T> = seq<T> -> seq<T>

  /** `pipe_iter(data, *stages)` drained: the loop `data = stage(data)` over the
      stages in order, then every value of the final iterable. */
  function Pipe<T>(data: seq<T>, stages: seq<Stage<T>>): seq<T>
    decreases |stages|
  {
    if |stages| == 0 then data else Pipe(stages[0](data), stages[1..])
  }

  /** `sn(...s1(data))`: the last stage applied to the nesting of the others. */
  function Nested<T>(data: seq<T>, stages: seq<Stage<T>>): seq<T>
    decreases |stages|
  {
    if |stages| == 0 then data else stages[|stages| - 1](Nested(data, stages[..|stages| - 1]))
  }

  /** The left-to-right loop computes the nested application. */
  lemma {:induction false} PipeIsNested<T>(data: seq<T>, stages: seq<Stage<T>>)
    ensures Pipe(data, stages) == Nested(data, stages)
    decreases |stages|
  {
    if |stages| > 0 {
      PipeIsNested(stages[0](data), stages[1..]);
      NestedCons(data, stages);
    }
  }

  /** Applying the first stage, then nesting the rest, is nesting them all. */
  lemma {:induction false} NestedCons<T>(data: seq<T>, stages: seq<Stage<T>>)
    requires |stages| > 0
    ensures Nested(stages[0](data), stages[1..]) == Nested(data, stages)
    decreases |stages|
  {
    if |stages| > 1 {
      var init := stages[..|stages| - 1];
      assert stages[1..][..|stages[1..]| - 1] == init[1..];
      assert init[0] == stages[0];
      NestedCons(data, init);
    }
  }

  /** Splitting the stage list is harmless. */
  lemma {:induction false} PipeSplit<T>(data: seq<T>, ss1: seq<Stage<T>>, ss2: seq<Stage<T>>)
    ensures Pipe(data, ss1 + ss2) == Pipe(Pipe(data, ss1), ss2)
    decreases |ss1|
  {
    if |ss1| == 0 {
      assert ss1 + ss2 == ss2;
    } else {
      assert (ss1 + ss2)[0] == ss1[0];
      assert (ss1 + ss2)[1..] == ss1[1..] + ss2;
      PipeSplit(ss1[0](data), ss1[1..], ss2);
    }
  }

  /** Two stages piped are the composition of the two. */
  lemma PipeTwoIsCompose<T(!new)>(data: seq<T>, s1: Stage<T>, s2: Stage<T>)
    ensures Pipe(data, [s1, s2]) == Compose2(s2, s1)(data)
  {
    var stages := [s1, s2];
    assert stages[1..] == [s2] && stages[1..][1..] == [];
    assert Pipe(data, stages) == Pipe(s1(data), [s2]);
    assert Pipe(s1(data), [s2]) == Pipe(s2(s1(data)), []);
  }

  /** `pipe_iter` drained, as the source writes it. */
  method PipeIter<T>(data: seq<T>, stages: seq<Stage<T>>) returns (out: seq<T>)
    ensures out == Nested(data, stages)
  {
    out := data;
    var i := 0;
    while i < |stages|
      invariant 0 <= i <= |stages|
      invariant out == Nested(data, stages[..i])
    {
      assert stages[..i + 1][..i] == stages[..i];
      out := stages[i](out);
      i := i + 1;
    }
    assert stages[..|stages|] == stages;
  }

  /** A stage that works value by value: more input only extends its output. */
  ghost predicate Monotone<T(!new)>(st: Stage<T>) {
    forall a, b :: IsPrefix(a, b) ==> IsPrefix(st(a), st(b))
  }

  lemma {:induction false} PipeMonotone<T(!new)>(stages: seq<Stage<T>>, a: seq<T>, b: seq<T>)
    requires forall i :: 0 <= i < |stages| ==> Monotone(stages[i])
    requires IsPrefix(a, b)
    ensures IsPrefix(Pipe(a, stages), Pipe(b, stages))
    decreases |stages|
  {
    if |stages| > 0 {
      assert Monotone(stages[0]);
      PipeMonotone(stages[1..], stages[0](a), stages[0](b));
    }
  }

  /** Over an unbounded source, with value-by-value stages, the first `m` outputs
      computed from `n` source values stay the same however many more are read. */
  lemma PipePrefixStable<T(!new)>(stages: seq<Stage<T>>, s: Stream<T>, n: nat, n': nat, m: nat)
    requires forall i :: 0 <= i < |stages| ==> Monotone(stages[i])
    requires n <= n' && m <= |Pipe(Prefix(s, n), stages)|
    ensures m <= |Pipe(Prefix(s, n'), stages)|
    ensures Pipe(Prefix(s, n'), stages)[..m] == Pipe(Prefix(s, n), stages)[..m]
  {
    PipeMonotone(stages, Prefix(s, n), Prefix(s, n'));
  }

  predicate IsEvenInt(x: int) { x % 2 == 0 }

  function Triple(x: int): int { x * 3 }

  /** The `evens` and `times3` stages of the test suite. */
  function Evens(xs: seq<int>): seq<int> { Filter(IsEvenInt, xs) }

  function Times3(xs: seq<int>): seq<int> { Map(Triple, xs) }

  lemma EvensTimes3Monotone()
    ensures Monotone(Evens) && Monotone(Times3)
  {
    forall a, b | IsPrefix(a, b) ensures IsPrefix(Evens(a), Evens(b)) && IsPrefix(Times3(a), Times3(b)) {
      var rest := b[|a|..];
      assert b == a + rest;
      FilterAppend(IsEvenInt, a, rest);
      MapAppend(Triple, a, rest);
    }
  }

  /** The even values among the first `2k` values of a source yielding
      1, 2, 3, ... are `2, 4, ..., 2k`. */
  lemma {:induction false} EvensOfCount(c: Stream<int>, k: nat)
    requires forall i: nat :: c(i) == 1 + i
    ensures |Evens(Prefix(c, 2 * k))| == k
    ensures forall i :: 0 <= i < k ==> Evens(Prefix(c, 2 * k))[i] == 2 * (i + 1)
    decreases k
  {
    if k > 0 {
      EvensOfCount(c, k - 1);
      var front := Prefix(c, 2 * (k - 1));
      var pair := Prefix(Suffix(c, 2 * (k - 1)), 2);
      PrefixSplit(c, 2 * (k - 1), 2);
      assert pair == [2 * k - 1, 2 * k];
      assert pair[1..] == [2 * k];
      assert Filter(IsEvenInt, pair) == [2 * k];
      FilterAppend(IsEvenInt, front, pair);
      assert Evens(Prefix(c, 2 * k)) == Evens(front) + [2 * k];
    }
  }

  lemma PipeFirstTen(c: Stream<int>)
    requires forall i: nat :: c(i) == 1 + i
    ensures Pipe(Prefix(c, 10), [Evens, Times3]) == [6, 12, 18, 24, 30]
  {
    var p := Prefix(c, 10);
    EvensOfCount(c, 5);
    assert Evens(p) == [2, 4, 6, 8, 10];
    assert Times3([2, 4, 6, 8, 10]) == [6, 12, 18, 24, 30];
    var stages: seq<Stage<int>> := [Evens, Times3];
    assert stages[1..] == [Times3] && stages[1..][1..] == [];
    assert Pipe(p, stages) == Pipe(Evens(p), [Times3]);
    var t: seq<Stage<int>> := [Times3];
    assert t[1..] == [];
    assert Pipe(Evens(p), t) == Pipe(Times3(Evens(p)), []) == Times3(Evens(p));
  }

  /** `pipe_iter(count(1), evens, times3)` starts 6, 12, 18, 24, 30, and no later
      source value changes that. */
  lemma PipeCountExample(n: nat)
    requires n >= 10
    ensures 5 <= |Pipe(Prefix(Count(1), n), [Evens, Times3])|
    ensures Pipe(Prefix(Count(1), n), [Evens, Times3])[..5] == [6, 12, 18, 24, 30]
  {
    var c := Count(1);
    PipeFirstTen(c);
    EvensTimes3Monotone();
    var stages: seq<Stage<int>> := [Evens, Times3];
    PipePrefixStable(stages, c, 10, n, 5);
  }

  lemma PipeExamples()
    ensures Compose2((b: int) => b * 2, (a: int) => a + 3)(4) == 14
    ensures Pipe([1, 2, 3], [(xs: seq<int>) => xs]) == [1, 2, 3]
    ensures forall data: seq<int> :: Pipe(data, []) == data
  {
  }
}
