/** `keep_if` and `process_numbers_pipeline`: parse, keep the even numbers,
    square them, keep the squares of at least 100. */
module NumbersPipeline {
  import opened PyRuntime
  import opened SeqUtil
  import opened MaybeContainer
  import opened IntParsing

  /** `keep_if(pred)`: a function giving `Just(x)` when `pred(x)` holds and `Nothing` otherwise. */
  function KeepIf<T(!new)>(pred: T -> bool): (k: T -> Maybe<T>)
    ensures forall x :: k(x).Just? <==> pred(x)
    ensures forall x :: k(x).Just? ==> k(x).value == x
  {
    x => if pred(x) then Just(x) else Nothing
  }

  /** Two `keep_if` filters chained with `flatmap` keep exactly what both
      predicates accept. */
  lemma KeepIfChain<T(!new)>(p: T -> bool, q: T -> bool, x: T)
    ensures FlatMap(KeepIf(p)(x), Pure(KeepIf(q))) == KeepIf((y: T) => p(y) && q(y))(x)
    ensures FlatMap(Just(x), Pure(KeepIf(p))) == (if p(x) then Just(x) else Nothing)
  {
  }

  /** `(n & 1) == 0`: the lowest two's-complement bit is clear, for negative `n` too. */
  predicate IsEven(n: int) { n % 2 == 0 }

  function Square(n: int): int { n * n }

  predicate AtLeast100(n: int) { n >= 100 }

  /** One element of the generator: the chain of `flatmap`/`map` calls followed by `get_or(None)`. */
  function ProcessOne(s: string): (r: Nullable<int>)
    ensures r.Some? <==> exists n :: ToIntOrNone(s) == Just(n) && IsEven(n) && n * n >= 100
    ensures r.Some? ==> r.value == ToIntOrNone(s).value * ToIntOrNone(s).value
    ensures r.Some? ==> r.value >= 100 && r.value % 4 == 0
  {
    var parsed := ToIntOrNone(s);
    assert parsed.Just? && IsEven(parsed.value) ==> (parsed.value * parsed.value) % 4 == 0 by {
      if parsed.Just? && IsEven(parsed.value) {
        EvenSquare(parsed.value);
      }
    }
    var m := FlatMap(parsed, Pure(KeepIf(IsEven)));
    var sq := MaybeContainer.Map(m, Pure(Square));
    ToNullable(FlatMap(sq, Pure(KeepIf(AtLeast100))))
  }

  lemma EvenSquare(n: int)
    requires n % 2 == 0
    ensures (n * n) % 4 == 0
  {
    var h := n / 2;
    assert n == 2 * h;
    assert n * n == 4 * (h * h);
  }

  /** `[v for v in xs if v is not None]`. */
  function Somes<T>(xs: seq<Nullable<T>>): (r: seq<T>)
    ensures |r| <= |xs|
    ensures forall i :: 0 <= i < |r| ==> Some(r[i]) in xs
    decreases |xs|
  {
    if |xs| == 0 then []
    else (if xs[0].Some? then [xs[0].value] else []) + Somes(xs[1..])
  }

  /** `process_numbers_pipeline(strings)`. */
  function ProcessNumbers(ss: seq<string>): (r: seq<int>)
    ensures |r| <= |ss|
    ensures forall i :: 0 <= i < |r| ==> r[i] >= 100 && r[i] % 4 == 0
  {
    SomesOfMapKeeps(ProcessOne, ss, v => v >= 100 && v % 4 == 0);
    Somes(SeqUtil.Map(ProcessOne, ss))
  }

  /** Whatever every result of `g` satisfies, every kept result satisfies. */
  lemma SomesOfMapKeeps<A, T>(g: A -> Nullable<T>, xs: seq<A>, p: T -> bool)
    requires forall x :: g(x).Some? ==> p(g(x).value)
    ensures forall v :: v in Somes(SeqUtil.Map(g, xs)) ==> p(v)
  {
    var rs := SeqUtil.Map(g, xs);
    forall v | v in Somes(rs)
      ensures p(v)
    {
      var i :| 0 <= i < |Somes(rs)| && Somes(rs)[i] == v;
      var j :| 0 <= j < |rs| && rs[j] == Some(v);
      assert rs[j] == g(xs[j]);
    }
  }

  /** The pipeline, written directly over the integers: the squares of the even
      parsed numbers whose square is at least 100, in input order. */
  function Expected(ss: seq<string>): seq<int>
    decreases |ss|
  {
    if |ss| == 0 then [] else Contribution(ss[0]) + Expected(ss[1..])
  }

  /** What one input string contributes to the output. */
  function Contribution(s: string): seq<int> {
    match ToIntOrNone(s)
    case Just(n) => if n % 2 == 0 && n * n >= 100 then [n * n] else []
    case Nothing => []
  }

  lemma {:induction false} ProcessNumbersMatchesExpected(ss: seq<string>)
    ensures ProcessNumbers(ss) == Expected(ss)
    decreases |ss|
  {
    if |ss| > 0 {
      ProcessNumbersMatchesExpected(ss[1..]);
      assert SeqUtil.Map(ProcessOne, ss) == [ProcessOne(ss[0])] + SeqUtil.Map(ProcessOne, ss[1..]);
      assert ([ProcessOne(ss[0])] + SeqUtil.Map(ProcessOne, ss[1..]))[1..] == SeqUtil.Map(ProcessOne, ss[1..]);
    }
  }

  /** The pipeline works element by element: it distributes over concatenation,
      so the input order is kept. */
  lemma {:induction false} ProcessNumbersAppend(a: seq<string>, b: seq<string>)
    ensures ProcessNumbers(a + b) == ProcessNumbers(a) + ProcessNumbers(b)
    decreases |a|
  {
    ProcessNumbersMatchesExpected(a + b);
    ProcessNumbersMatchesExpected(a);
    ProcessNumbersMatchesExpected(b);
    ExpectedAppend(a, b);
  }

  lemma {:induction false} ExpectedAppend(a: seq<string>, b: seq<string>)
    ensures Expected(a + b) == Expected(a) + Expected(b)
    decreases |a|
  {
    if |a| == 0 {
      assert a + b == b;
    } else {
      assert (a + b)[0] == a[0];
      assert (a + b)[1..] == a[1..] + b;
      ExpectedAppend(a[1..], b);
    }
  }

  /** One element of the pipeline contributes its own result, and nothing else. */
  lemma {:induction false} ProcessNumbersCons(s: string, rest: seq<string>)
    ensures ProcessNumbers([s] + rest) ==
            (if ProcessOne(s).Some? then [ProcessOne(s).value] else []) + ProcessNumbers(rest)
  {
    ProcessNumbersAppend([s], rest);
    assert SeqUtil.Map(ProcessOne, [s]) == [ProcessOne(s)];
    assert ([ProcessOne(s)])[1..] == [];
  }

  /** The elements of the test suite's first list: "10" and "20" pass, "-", "x"
      and "7" are dropped. */
  lemma ProcessOneExamplesKept()
    ensures ProcessOne("10") == Some(100) && ProcessOne("20") == Some(400)
  {
    IntOfExamplesValid();
  }

  lemma ProcessOneExamplesUnparsed()
    ensures ProcessOne("-") == None && ProcessOne("x") == None
  {
    IntOfExamplesInvalid();
  }

  lemma ProcessOneExamplesSmall()
    ensures ProcessOne("7") == None && ProcessOne("-2") == None
  {
    IntOfExamplesSmall();
  }

  /** The elements of the test suite's second list: "50" passes; "3" is odd,
      the square of "-2" and of "0" is below 100, "oops" does not parse. */
  lemma ProcessOneExamplesSecond()
    ensures ProcessOne("50") == Some(2500) && ProcessOne("3") == None
  {
    IntOfShowInt(50);
    IntOfShowInt(3);
    assert ShowInt(50) == "50" && ShowInt(3) == "3";
  }

  lemma ProcessOneExamplesRest()
    ensures ProcessOne("oops") == None && ProcessOne("0") == None
  {
    IntOfExamplesInvalid();
    IntOfShowInt(0);
    assert ShowInt(0) == "0";
  }

  lemma ProcessNumbersOfEmpty()
    ensures ProcessNumbers([]) == []
  {
  }
}
