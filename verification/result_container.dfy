/** The `Result` container (`Ok`/`Err`), `result_apply`, the bridges to and from
    `Maybe`, and the short-circuiting folds `result_sequence` and `result_traverse`. */
module ResultContainer {
  import opened SeqUtil
  import opened MaybeContainer
  import IntParsing

  datatype Result<+T, +E> = Ok(value: T) | Err(error: E)

  /** `result_apply(val, rf)`: an `Err` on the function side wins, then an `Err`
      on the value side; two `Ok`s apply the function. */
  function ResultApply<T, U, E>(val: Result<T, E>, rf: Result<T -> U, E>): (r: Result<U, E>)
    ensures r.Ok? <==> val.Ok? && rf.Ok?
    ensures r.Ok? ==> r.value == rf.value(val.value)
    ensures rf.Err? ==> r == Err(rf.error)
    ensures rf.Ok? && val.Err? ==> r == Err(val.error)
  {
    if rf.Err? then Err(rf.error)
    else if val.Err? then Err(val.error)
    else Ok(rf.value(val.value))
  }

  /** Applicative identity: applying `Ok` of the identity gives the value back. */
  lemma ApplyIdentity<T, E>(val: Result<T, E>)
    ensures ResultApply(val, Ok((x: T) => x)) == val
  {
  }

  /** Applying two functions in turn is applying their composition, and both
      sides agree on which error is reported. */
  lemma ApplyComposition<A, B, C, E>(val: Result<A, E>, rg: Result<A -> B, E>, rf: Result<B -> C, E>)
    ensures ResultApply(ResultApply(val, rg), rf) ==
            ResultApply(val, ResultApply(rg, ResultApply(rf, Ok((f: B -> C) => (g: A -> B) => (x: A) => f(g(x))))))
  {
  }

  /** `maybe_to_result(m, error)`. */
  function MaybeToResult<T, E>(m: Maybe<T>, error: E): (r: Result<T, E>)
    ensures m.Just? <==> r.Ok?
    ensures m.Just? ==> r.value == m.value
    ensures m.Nothing? ==> r.error == error
  {
    match m
    case Just(v) => Ok(v)
    case Nothing => Err(error)
  }

  /** `result_to_maybe(r)`: the error is dropped. */
  function ResultToMaybe<T, E>(r: Result<T, E>): (m: Maybe<T>)
    ensures m.Just? <==> r.Ok?
    ensures m.Just? ==> m.value == r.value
  {
    match r
    case Ok(v) => Just(v)
    case Err(_) => Nothing
  }

  /** `Maybe` to `Result` and back loses nothing; `Result` to `Maybe` and back
      keeps an `Ok` and replaces an error by the one supplied. */
  lemma BridgeRoundTrips<T, E>(m: Maybe<T>, r: Result<T, E>, error: E)
    ensures ResultToMaybe(MaybeToResult(m, error)) == m
    ensures MaybeToResult(ResultToMaybe(r), error) == (if r.Ok? then r else Err(error))
  {
  }

  /** The index of the first `Err`, or the length when every element is `Ok`. */
  function FirstErr<T, E>(xs: seq<Result<T, E>>): (k: nat)
    ensures k <= |xs|
    ensures forall j :: 0 <= j < k ==> xs[j].Ok?
    ensures k < |xs| ==> xs[k].Err?
    decreases |xs|
  {
    if |xs| == 0 || xs[0].Err? then 0 else 1 + FirstErr(xs[1..])
  }

  /** `result_sequence(xs)`, folding left to right: the first `Err` unchanged,
      or `Ok` of all payloads in order. */
  function Sequence<T, E>(xs: seq<Result<T, E>>): (r: Result<seq<T>, E>)
    ensures r.Ok? <==> FirstErr(xs) == |xs|
    ensures r.Ok? ==> |r.value| == |xs| && forall i :: 0 <= i < |xs| ==> r.value[i] == xs[i].value
    ensures r.Err? ==> r.error == xs[FirstErr(xs)].error
    decreases |xs|
  {
    if |xs| == 0 then Ok([])
    else if xs[0].Err? then Err(xs[0].error)
    else
      match Sequence(xs[1..])
      case Err(e) => Err(e)
      case Ok(vs) => Ok([xs[0].value] + vs)
  }

  /** `result_sequence` as the source writes it: pull, return the first `Err`,
      otherwise append the payload. */
  method SequenceRun<T, E>(xs: seq<Result<T, E>>) returns (r: Result<seq<T>, E>)
    ensures r == Sequence(xs)
  {
    var acc: seq<T> := [];
    var i := 0;
    while i < |xs|
      invariant 0 <= i <= |xs|
      invariant forall j :: 0 <= j < i ==> xs[j].Ok?
      invariant |acc| == i && forall j :: 0 <= j < i ==> acc[j] == xs[j].value
    {
      if xs[i].Err? {
        assert FirstErr(xs) == i by {
          FirstErrIs(xs, i);
        }
        return Err(xs[i].error);
      }
      acc := acc + [xs[i].value];
      i := i + 1;
    }
    FirstErrIs(xs, |xs|);
    assert Sequence(xs).value == acc;
    return Ok(acc);
  }

  /** The first `Err` is at `k` when everything before `k` is `Ok` and `k` is an
      `Err` or the end. */
  lemma {:induction false} FirstErrIs<T, E>(xs: seq<Result<T, E>>, k: nat)
    requires k <= |xs|
    requires forall j :: 0 <= j < k ==> xs[j].Ok?
    requires k < |xs| ==> xs[k].Err?
    ensures FirstErr(xs) == k
    decreases k
  {
    if k > 0 {
      FirstErrIs(xs[1..], k - 1);
    }
  }

  /** `result_traverse(xs, f)`: `f` applied left to right, stopping at the first `Err`. */
  function Traverse<A, B, E>(xs: seq<A>, f: A -> Result<B, E>): (r: Result<seq<B>, E>)
    ensures r.Ok? <==> forall i :: 0 <= i < |xs| ==> f(xs[i]).Ok?
    ensures r.Ok? ==> |r.value| == |xs| && forall i :: 0 <= i < |xs| ==> f(xs[i]) == Ok(r.value[i])
    decreases |xs|
  {
    if |xs| == 0 then Ok([])
    else
      match f(xs[0])
      case Err(e) => Err(e)
      case Ok(b) =>
        match Traverse(xs[1..], f)
        case Err(e) => Err(e)
        case Ok(bs) => Ok([b] + bs)
  }

  /** `result_traverse` is `result_sequence` of `map(f, xs)`. */
  lemma {:induction false} TraverseIsSequenceOfMap<A, B, E>(xs: seq<A>, f: A -> Result<B, E>)
    ensures Traverse(xs, f) == Sequence(SeqUtil.Map(f, xs))
    decreases |xs|
  {
    if |xs| > 0 {
      TraverseIsSequenceOfMap(xs[1..], f);
      assert SeqUtil.Map(f, xs)[1..] == SeqUtil.Map(f, xs[1..]);
    }
  }

  /** When every call before position `i` succeeds and the call at `i` fails,
      `result_traverse` reports that failure and `i` is the first `Err`. */
  lemma TraverseStopsAt<A, B, E>(xs: seq<A>, f: A -> Result<B, E>, i: nat)
    requires i < |xs|
    requires forall j :: 0 <= j < i ==> f(xs[j]).Ok?
    requires f(xs[i]).Err?
    ensures FirstErr(SeqUtil.Map(f, xs)) == i
    ensures Traverse(xs, f) == Err(f(xs[i]).error)
  {
    FirstErrIs(SeqUtil.Map(f, xs), i);
    TraverseIsSequenceOfMap(xs, f);
  }

  /** When every call succeeds, `result_traverse` collects the payloads in order. */
  lemma TraverseAllOk<A, B, E>(xs: seq<A>, f: A -> Result<B, E>, acc: seq<B>)
    requires forall j :: 0 <= j < |xs| ==> f(xs[j]).Ok?
    requires |acc| == |xs| && forall j :: 0 <= j < |xs| ==> acc[j] == f(xs[j]).value
    ensures FirstErr(SeqUtil.Map(f, xs)) == |xs|
    ensures Traverse(xs, f) == Ok(acc)
  {
    var rs := SeqUtil.Map(f, xs);
    FirstErrIs(rs, |xs|);
    TraverseIsSequenceOfMap(xs, f);
    assert Sequence(rs).value == acc;
  }

  /** `result_traverse` as the source writes it, also returning the arguments
      `f` was called with, in order: every element up to and including the
      first one whose result is an `Err`, and none after it. */
  method TraverseRun<A, B, E>(xs: seq<A>, f: A -> Result<B, E>) returns (r: Result<seq<B>, E>, calls: seq<A>)
    ensures r == Traverse(xs, f)
    ensures calls == xs[..Min(FirstErr(SeqUtil.Map(f, xs)) + 1, |xs|)]
  {
    var acc: seq<B> := [];
    calls := [];
    var i := 0;
    while i < |xs|
      invariant 0 <= i <= |xs|
      invariant calls == xs[..i]
      invariant forall j :: 0 <= j < i ==> f(xs[j]).Ok?
      invariant |acc| == i && forall j :: 0 <= j < i ==> acc[j] == f(xs[j]).value
    {
      var x := xs[i];
      assert xs[..i + 1] == xs[..i] + [x];
      calls := calls + [x];
      var res := f(x);
      if res.Err? {
        TraverseStopsAt(xs, f, i);
        return Err(res.error), calls;
      }
      acc := acc + [res.value];
      i := i + 1;
    }
    TraverseAllOk(xs, f, acc);
    assert calls == xs[..|xs|];
    return Ok(acc), calls;
  }

  /** `result_traverse` calls `f` on the head first: an `Err` there is the
      answer, otherwise the head's payload leads the rest's. */
  lemma TraverseCons<A, B, E>(x: A, ys: seq<A>, f: A -> Result<B, E>)
    ensures f(x).Err? ==> Traverse([x] + ys, f) == Err(f(x).error)
    ensures f(x).Ok? && Traverse(ys, f).Err? ==> Traverse([x] + ys, f) == Traverse(ys, f)
    ensures f(x).Ok? && Traverse(ys, f).Ok? ==> Traverse([x] + ys, f) == Ok([f(x).value] + Traverse(ys, f).value)
  {
    assert ([x] + ys)[1..] == ys;
  }

  /** `result_sequence` looks at the head first in the same way. */
  lemma SequenceCons<T, E>(x: Result<T, E>, ys: seq<Result<T, E>>)
    ensures x.Err? ==> Sequence([x] + ys) == Err(x.error)
    ensures x.Ok? && Sequence(ys).Err? ==> Sequence([x] + ys) == Sequence(ys)
    ensures x.Ok? && Sequence(ys).Ok? ==> Sequence([x] + ys) == Ok([x.value] + Sequence(ys).value)
  {
    assert ([x] + ys)[1..] == ys;
  }

  /** The examples of the test suite, with a parser `f` that succeeds on "1",
      "2", "3" and fails on "x". */
  lemma ResultExamples(f: string -> Result<int, string>)
    requires f("1") == Ok(1) && f("2") == Ok(2) && f("3") == Ok(3) && f("x") == Err("'x'")
    ensures ResultApply(Result<int, string>.Ok(3), Ok((x: int) => x + 1)) == Ok(4)
    ensures ResultApply(Result<int, string>.Ok(3), Result<int -> int, string>.Err("E1")) == Err("E1")
    ensures ResultApply(Result<int, string>.Err("bad"), Ok((x: int) => x * 2)) == Err("bad")
    ensures MaybeToResult(Just(10), "no") == Ok(10)
    ensures MaybeToResult(Maybe<int>.Nothing, "err!") == Err("err!")
    ensures ResultToMaybe(Result<int, string>.Ok(42)) == Just(42)
    ensures ResultToMaybe(Result<int, string>.Err("x")) == Nothing
    ensures Sequence([Result<int, string>.Ok(1), Ok(2)]) == Ok([1, 2])
    ensures Sequence([Ok(1), Err("boom"), Ok(3)]) == Err("boom")
    ensures Traverse(["1", "2", "3"], f) == Ok([1, 2, 3])
    ensures Traverse(["1", "x", "3"], f) == Err("'x'")
  {
    var none: seq<Result<int, string>> := [];
    SequenceCons<int, string>(Ok(2), none);
    assert [Result<int, string>.Ok(2)] + none == [Ok(2)] && [2] + [] == [2];
    SequenceCons<int, string>(Ok(1), [Ok(2)]);
    assert [Result<int, string>.Ok(1)] + [Ok(2)] == [Ok(1), Ok(2)] && [1] + [2] == [1, 2];
    SequenceCons(Err("boom"), [Ok(3)]);
    SequenceCons(Ok(1), [Err("boom"), Ok(3)]);
    assert [Result<int, string>.Ok(1)] + [Err("boom"), Ok(3)] == [Ok(1), Err("boom"), Ok(3)];
    var nothing: seq<string> := [];
    TraverseCons("3", nothing, f);
    assert ["3"] + nothing == ["3"] && [3] + [] == [3];
    TraverseCons("2", ["3"], f);
    assert ["2"] + ["3"] == ["2", "3"] && [2] + [3] == [2, 3];
    TraverseCons("1", ["2", "3"], f);
    assert ["1"] + ["2", "3"] == ["1", "2", "3"] && [1] + [2, 3] == [1, 2, 3];
    TraverseCons("x", ["3"], f);
    TraverseCons("1", ["x", "3"], f);
    assert ["1"] + ["x", "3"] == ["1", "x", "3"];
  }

  /** The test suite's `parse_int`: `Ok(int(s))`, or `Err` of the quoted input
      when `int` raises ValueError. */
  function ParseInt(s: string): (r: Result<int, string>)
    ensures r.Ok? <==> IntParsing.ToIntOrNone(s).Just?
    ensures r.Ok? ==> r.value == IntParsing.ToIntOrNone(s).value
    ensures r.Err? ==> r.error == "'" + s + "'"
  {
    match IntParsing.IntOf(s)
    case Returned(n) => Ok(n)
    case Raised(_) => Err("'" + s + "'")
  }

  /** The values `parse_int` gives on the test suite's strings. */
  lemma ParseIntExamples()
    ensures ParseInt("1") == Ok(1) && ParseInt("2") == Ok(2) && ParseInt("3") == Ok(3)
  {
    IntParsing.IntOfShowInt(1);
    IntParsing.IntOfShowInt(2);
    IntParsing.IntOfShowInt(3);
    assert IntParsing.ShowInt(1) == "1" && IntParsing.ShowInt(2) == "2" && IntParsing.ShowInt(3) == "3";
  }

  lemma ParseIntExampleInvalid()
    ensures ParseInt("x") == Err("'x'")
  {
    IntParsing.NoDigitRaises("x");
    assert "'" + "x" + "'" == "'x'";
  }

  /** `result_traverse` with the test suite's `parse_int`. */
  lemma TraverseParseIntExamples()
    ensures Traverse(["1", "2", "3"], ParseInt) == Ok([1, 2, 3])
    ensures Traverse(["1", "x", "3"], ParseInt) == Err("'x'")
  {
    ParseIntExamples();
    ParseIntExampleInvalid();
    ResultExamples(ParseInt);
  }
}
