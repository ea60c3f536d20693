# fp-learning in Dafny

A Dafny model of the exercise solutions of the `fp_learning` package: small
functional-programming building blocks written in Python.

- `assignments_01`: element-wise `map` (cubes, string lengths).
- `assignments_02`: the `Countdown` iterator, and the generators `batched`, `take` and `drop`.
- `assignments_03`: the `Maybe` container (`Just`/`Nothing` with `map`, `flatmap`, `get_or`) and `maybe`.
  Also `lazy_flatmap`, `safe_get_in`, `to_int_or_none`, `keep_if` and `process_numbers_pipeline`.
- `assignments_04`: `compose2` and `pipe_iter`.
- `assignments_05`: the `Result` container (`Ok`/`Err`), `result_apply`, the `Maybe`/`Result` bridges,
  `result_sequence` and `result_traverse`.

How Python is represented:

- A Python callable that may raise returns `PyRuntime.Outcome<T>`: `Returned(value)` or `Raised(error)`.
  A value that may be `None` is a `PyRuntime.Nullable<T>`.
- A finite iterable drained to the end is a `seq<T>`.
- An unbounded source such as `itertools.count` is a `Streams.Stream<T>`, a function from positions to values.
  Properties of generators over unbounded sources are stated on finite prefixes:
  the first `m` outputs are determined by the first `n` inputs, and reading more input never changes them.
  This is what laziness means for a consumer that only ever pulls finitely many values.
- A generator drained to the end is a function from the input sequence to the output sequence.
  Where the loop structure matters (`Countdown`, `batched`, `take`, `drop`, `pipe_iter`,
  `result_sequence`, `result_traverse`), a method with the same loop is proved equal to that function.

The main facts proved about each operation relate it to an independent description:

- `take` and `drop` split the input between them.
- `batched`'s batches concatenate back to the input, and they are the only well-sized grouping that does.
- `lazy_flatmap` equals the flattening of the mapped lists.
- `safe_get_in` is characterised against plain nested lookup.
- `process_numbers_pipeline` equals the comprehension it implements.
- `pipe_iter` equals the nested application `sn(...s1(data))`.
- `result_traverse` equals `result_sequence` of the mapped list.
- The bridges are proved as round trips.

## Model

| member | source | states |
|---|---|---|
| Pointwise.Cube | src/fp_learning/assignments_01.py:9 | `x**3` on an integer, exact; its order is stated by `CubeStrictlyIncreasing` |
| Pointwise.Assignment1 | src/fp_learning/assignments_01.py:4-9 | the output has the input's length and holds the cube of each input element at the same position |
| Pointwise.Assignment1KeepsOrder | src/fp_learning/assignments_01.py:9 | two positions compare (less, equal) in the output exactly as they compare in the input |
| Pointwise.Assignment1Sorted | src/fp_learning/assignments_01.py:9 | a strictly increasing input gives a strictly increasing list of cubes |
| Pointwise.Assignment1Injective | src/fp_learning/assignments_01.py:9 | equal lists of cubes come from equal inputs, so no information is lost |
| Pointwise.CubeStrictlyIncreasing | src/fp_learning/assignments_01.py:9 | cubing preserves strict order on all integers, negative ones included |
| Pointwise.Assignment2 | src/fp_learning/assignments_01.py:11-16 | the output has the input's length and holds the length of each word at the same position |
| Pointwise.Assignment2SumIsJoinedLength | src/fp_learning/assignments_01.py:16 | the word lengths add up to the length of all words joined together |
| Pointwise.PointwiseAppend | src/fp_learning/assignments_01.py:9-16 | both functions distribute over concatenation of their inputs |
| Pointwise.PointwiseExamples | tests/test_assignments_01.py:7-25 | the test suite's expected lists for both functions |
| Countdowns.Yields | src/fp_learning/assignments_02.py:11-34 | a countdown from `n` yields `max(n, 0)` values, the `i`-th being `n - i` |
| Countdowns.Drain | src/fp_learning/assignments_02.py:21-34 | pulling from `Countdown(n)` until StopIteration gives `n, n-1, ..., 1` (nothing for `n <= 0`), and a further pull raises StopIteration again |
| Countdowns.Countdown.constructor | src/fp_learning/assignments_02.py:21-24 | a new countdown's counter is its argument |
| Countdowns.Countdown.Next | src/fp_learning/assignments_02.py:29-34 | a positive counter is returned and decremented; a non-positive one raises StopIteration and stays unchanged |
| Batching.Chunks | src/fp_learning/assignments_02.py:50-59 | the batches for a positive `k`: full batches of `k` values, then the shorter rest; its properties are stated by the lemmas below |
| Batching.ChunksProperties | src/fp_learning/assignments_02.py:49-59 | the batches concatenate to the input, none is empty, all but the last have exactly `k` values, and there are none exactly when the input is empty |
| Batching.Batched | src/fp_learning/assignments_02.py:37-59 | ValueError exactly when `k <= 0`; otherwise well-sized batches that concatenate back to the input |
| Batching.ChunksUnique | src/fp_learning/assignments_02.py:49-59 | any well-sized grouping that concatenates to the input is the one `batched` yields |
| Batching.ChunksCons | src/fp_learning/assignments_02.py:51-59 | a full first batch is yielded first and batching resumes after it |
| Batching.BatchedRun | src/fp_learning/assignments_02.py:47-59 | the outer/inner pull loop, with its partial last batch and its stop at the end of the source, yields what `Batched` specifies |
| Batching.BatchedStream | src/fp_learning/assignments_02.py:47-59 | over an unbounded source: ValueError exactly when `k <= 0`, otherwise every batch has exactly `k` values |
| Batching.BatchShift | src/fp_learning/assignments_02.py:50-59 | after one batch's worth of pulls, the remaining batches are the original ones shifted by one |
| Batching.BatchedStreamPrefix | src/fp_learning/assignments_02.py:47-59 | the first `m` batches of an unbounded source are the batches of its first `m*k` values |
| Batching.BatchedExamples | tests/test_assignments_02.py:56-75 | the test suite's batches, its ValueError cases and the first three batches of `count(1)` |
| TakeDrop.Take | src/fp_learning/assignments_02.py:63-80 | the first `min(max(n, 0), len)` values of the input |
| TakeDrop.Drop | src/fp_learning/assignments_02.py:84-102 | the input without its first `min(max(n, 0), len)` values |
| TakeDrop.TakeRun | src/fp_learning/assignments_02.py:72-80 | on an iterator already advanced by `pos`, the loop of `n` pulls yields the next values and leaves the iterator exactly that many values further on |
| TakeDrop.DropRun | src/fp_learning/assignments_02.py:93-102 | the counting loop that yields once the count reaches `n` yields what `Drop` specifies |
| TakeDrop.TakeDropSplit | src/fp_learning/assignments_02.py:63-102 | `take(n)` followed by `drop(n)` is the whole input |
| TakeDrop.TakeThenTake | src/fp_learning/assignments_02.py:75-80 | a second `take` on the same iterator continues where the first one stopped, for any counts (a non-positive count takes nothing) |
| TakeDrop.TakeOfStream | src/fp_learning/assignments_02.py:63-80 | over an unbounded source `take(n)` yields its first `n` values, whatever finite window is read |
| TakeDrop.DropOfStream | src/fp_learning/assignments_02.py:84-102 | over an unbounded source the `i`-th value of `drop(n)` is the source's value `max(n, 0) + i` |
| TakeDrop.DropOfCount | src/fp_learning/assignments_02.py:84-102 | the `i`-th value of `drop(n, count(0))` is `n + i` |
| TakeDrop.DropCountThenTake | src/fp_learning/assignments_02.py:63-102 | taking `k` after dropping `n` from `count(0)` gives the first `k` values of `count(n)` |
| TakeDrop.TakeDropExamples | tests/test_assignments_02.py:77-82 | the test suite's finite `take`/`drop` cases |
| TakeDrop.TakeDropCountExamples | tests/test_assignments_02.py:84-87 | `take(5)` then `take(3)` on `count(10)` gives 10..14 then 15..17 |
| TakeDrop.DropHundredExample | tests/test_assignments_02.py:89-91 | five values of `drop(100, count(0))` are 100..104 |
| MaybeContainer.Map | src/fp_learning/assignments_03.py:28-32 | `Just(v).map(f)` is `Just(f(v))` when `f` returns and `Nothing` when it raises; `Nothing.map` is `Nothing` |
| MaybeContainer.FlatMap | src/fp_learning/assignments_03.py:33-37 | `Just(v).flatmap(f)` is `f(v)` when `f` returns and `Nothing` when it raises; `Nothing.flatmap` is `Nothing` |
| MaybeContainer.GetOr | src/fp_learning/assignments_03.py:38-49 | `get_or` gives the payload of `Just`, ignoring the default, and the default for `Nothing` |
| MaybeContainer.OfNullable | src/fp_learning/assignments_03.py:53-54 | `maybe(x)` is `Nothing` exactly when `x` is None, otherwise `Just(x)` |
| MaybeContainer.ToNullable | src/fp_learning/assignments_03.py:38-49 | `get_or(None)` is None exactly for `Nothing`, otherwise the payload |
| MaybeContainer.NullableRoundTrip | src/fp_learning/assignments_03.py:53-54 | `maybe` and `get_or(None)` are inverse to each other |
| MaybeContainer.NothingIgnoresFunction | src/fp_learning/assignments_03.py:43-47 | `Nothing.map` and `Nothing.flatmap` give `Nothing` whatever the function, even one that always raises |
| MaybeContainer.MapIdentity | src/fp_learning/assignments_03.py:28-32 | mapping the identity changes nothing |
| MaybeContainer.MapIsFlatMap | src/fp_learning/assignments_03.py:28-37 | `map(f)` is `flatmap` of `f` rewrapped in `Just`, including when `f` raises |
| MaybeContainer.FlatMapAssociative | src/fp_learning/assignments_03.py:33-37 | chaining two `flatmap`s equals one `flatmap` of the chained function |
| LazyFlatMap.FlatMap | src/fp_learning/assignments_03.py:60-71 | the output is the in-order concatenation of `fn(x)` over the input |
| LazyFlatMap.FlatMapAppend | src/fp_learning/assignments_03.py:69-71 | flattening distributes over concatenation of the input |
| LazyFlatMap.FlatMapPrefixMonotone | src/fp_learning/assignments_03.py:69-71 | over an unbounded source, reading more of the source only extends the output |
| LazyFlatMap.FlatMapPrefixStable | src/fp_learning/assignments_03.py:69-71 | once `m` outputs come from `n` source values, no later source value changes them |
| LazyFlatMap.FlatMapExampleIdentity | tests/test_assignments_03.py:64 | `[[1], [2, 3], []]` flattens to `[1, 2, 3]` |
| LazyFlatMap.FlatMapExampleLeadingEmpty | tests/test_assignments_03.py:65 | `[[], [0], [10]]` flattens to `[0, 10]` |
| LazyFlatMap.FlatMapExampleFiltered | tests/test_assignments_03.py:66 | keeping the odd values of `[[1, 2], [3]]` gives `[1, 3]` |
| LazyFlatMap.FlatMapExampleCount | tests/test_assignments_03.py:77-88 | the first five values over `count(0)` are 0..4 |
| SafeGetIn.Truthy | src/fp_learning/assignments_03.py:93 | Python truthiness of the covered values: `0`, `""`, None and `{}` are falsy |
| SafeGetIn.Get | src/fp_learning/assignments_03.py:92 | `dict.get` gives the stored value, or None for a missing key |
| SafeGetIn.GetIn | src/fp_learning/assignments_03.py:91-97 | the only error is AttributeError (a `get` on a non-dictionary), and a `Just(v)` result is what plain nested lookup reaches |
| SafeGetIn.SafeGetIn | src/fp_learning/assignments_03.py:78-97 | an empty path gives `Just(d)`; a missing or falsy first key gives `Nothing` |
| SafeGetIn.GetInJust | src/fp_learning/assignments_03.py:91-97 | the result is `Just(v)` exactly when plain nested lookup reaches `v` and every value along the path is truthy |
| SafeGetIn.GetInAppend | src/fp_learning/assignments_03.py:91-94 | following a path to a dictionary, then more keys, is following the concatenated path |
| SafeGetIn.FalsyStops | src/fp_learning/assignments_03.py:92-96 | a missing key or a falsy value at any position gives `Nothing`, whatever the rest of the path |
| SafeGetIn.NonDictRaises | src/fp_learning/assignments_03.py:91-94 | continuing past a truthy value that is not a dictionary, at any position of the path, raises AttributeError |
| SafeGetIn.SafeGetInExamples | tests/test_assignments_03.py:90-100 | the test suite's present and missing paths, and falsy `0`, `""` and `{}` giving `Nothing` |
| IntParsing.IsSpace | src/fp_learning/assignments_03.py:107 | the characters `int()` strips around a number: space and tab to carriage return, not 28..31 |
| IntParsing.StripLeft | src/fp_learning/assignments_03.py:107 | what is left does not start with space |
| IntParsing.StripRight | src/fp_learning/assignments_03.py:107 | what is left does not end with space |
| IntParsing.StripLeftSpec | src/fp_learning/assignments_03.py:107 | stripping the front leaves a suffix and cuts off only space |
| IntParsing.StripRightSpec | src/fp_learning/assignments_03.py:107 | stripping the back leaves a prefix and cuts off only space |
| IntParsing.Strip | src/fp_learning/assignments_03.py:107 | both ends stripped; its slice property is stated by `StripSlice` |
| IntParsing.StripSlice | src/fp_learning/assignments_03.py:107 | the stripped string is a slice of the input with only space outside it and none at its ends |
| IntParsing.IntOf | src/fp_learning/assignments_03.py:105-109 | `int(s)` either returns or raises ValueError, never any other error |
| IntParsing.ToIntOrNone | src/fp_learning/assignments_03.py:105-109 | `Just` exactly when `int(s)` returns, holding its value; `Nothing` when it raises |
| IntParsing.IntOfShowInt | src/fp_learning/assignments_03.py:105-109 | parsing the decimal text of any integer gives that integer back |
| IntParsing.DecimalValueOfShowNat | src/fp_learning/assignments_03.py:107 | the digits printed for a natural number are read back as that number |
| IntParsing.NoDigitRaises | src/fp_learning/assignments_03.py:105-109 | every string without any digit gives `Nothing`, whatever surrounds it |
| IntParsing.IntOfExampleSeparator | src/fp_learning/assignments_03.py:105-109 | a separator character 28..31 next to a digit is not stripped: `"\x1c7"` and `"7\x1f"` give `Nothing` |
| IntParsing.IntOfExamplesValid | tests/test_assignments_03.py:105 | "10" and "20" parse to 10 and 20 |
| IntParsing.IntOfExamplesSmall | tests/test_assignments_03.py:105-106 | "7" and "-2" parse to 7 and -2 |
| IntParsing.IntOfExamplesInvalid | tests/test_assignments_03.py:105-106 | "-", "x" and "oops" give `Nothing` |
| IntParsing.IntOfExampleUnderscores | src/fp_learning/assignments_03.py:107 | surrounding whitespace and a single underscore between digits are accepted: " 1_000 " is 1000 |
| IntParsing.IntOfExampleDoubleUnderscore | src/fp_learning/assignments_03.py:107 | a doubled underscore is rejected: "1__0" gives `Nothing` |
| NumbersPipeline.KeepIf | src/fp_learning/assignments_03.py:111-112 | `keep_if(pred)(x)` is `Just(x)` exactly when `pred(x)` holds, `Nothing` otherwise |
| NumbersPipeline.KeepIfChain | src/fp_learning/assignments_03.py:111-112 | `flatmap` of a `keep_if` filters a `Just`; two filters chained keep exactly what both predicates accept |
| NumbersPipeline.EvenSquare | src/fp_learning/assignments_03.py:126-127 | the square of an even number is a multiple of 4 |
| NumbersPipeline.ProcessOne | src/fp_learning/assignments_03.py:124-129 | one element gives a value exactly when it parses to an even `n` with `n*n >= 100`, and the value is `n*n`, so at least 100 and a multiple of 4 |
| NumbersPipeline.Somes | src/fp_learning/assignments_03.py:132 | the kept values are no more than the inputs and each comes from a non-None input |
| NumbersPipeline.SomesOfMapKeeps | src/fp_learning/assignments_03.py:130-132 | a property every per-element result has is kept by every value in the final list |
| NumbersPipeline.ProcessNumbers | src/fp_learning/assignments_03.py:114-132 | the output is no longer than the input and every value is at least 100 and a multiple of 4 |
| NumbersPipeline.ProcessNumbersMatchesExpected | src/fp_learning/assignments_03.py:114-132 | the pipeline equals the comprehension `[n*n for s in ss if parse(s) = n, n even, n*n >= 100]` |
| NumbersPipeline.ProcessNumbersAppend | src/fp_learning/assignments_03.py:130-132 | the pipeline distributes over concatenation, so input order is kept |
| NumbersPipeline.ExpectedAppend | src/fp_learning/assignments_03.py:130-132 | the comprehension distributes over concatenation |
| NumbersPipeline.ProcessNumbersCons | src/fp_learning/assignments_03.py:124-132 | the first string contributes its own result, followed by the rest's output |
| NumbersPipeline.ProcessOneExamplesKept | tests/test_assignments_03.py:105 | "10" and "20" give 100 and 400 |
| NumbersPipeline.ProcessOneExamplesUnparsed | tests/test_assignments_03.py:105 | "-" and "x" give nothing |
| NumbersPipeline.ProcessOneExamplesSmall | tests/test_assignments_03.py:105-106 | "7" (odd) and "-2" (square below 100) give nothing |
| NumbersPipeline.ProcessOneExamplesSecond | tests/test_assignments_03.py:106 | "50" gives 2500 and "3" gives nothing |
| NumbersPipeline.ProcessOneExamplesRest | tests/test_assignments_03.py:106 | "oops" and "0" give nothing |
| NumbersPipeline.ProcessNumbersOfEmpty | tests/test_assignments_03.py:107 | the empty input gives the empty output |
| Pipes.Compose2 | src/fp_learning/assignments_04.py:16-28 | `compose2(f, g)(x) == f(g(x))` for every `x` |
| Pipes.Compose2Associative | src/fp_learning/assignments_04.py:28 | composition is associative |
| Pipes.Pipe | src/fp_learning/assignments_04.py:47-49 | the stages applied to the data one after another, left to right; stated against nesting by `PipeIsNested` |
| Pipes.PipeIsNested | src/fp_learning/assignments_04.py:31-49 | the left-to-right loop over the stages computes `sn(...s1(data))` |
| Pipes.NestedCons | src/fp_learning/assignments_04.py:47-48 | applying the first stage and nesting the rest is nesting all stages |
| Pipes.PipeSplit | src/fp_learning/assignments_04.py:47-49 | piping through `ss1 + ss2` is piping through `ss1` and then through `ss2` |
| Pipes.PipeTwoIsCompose | src/fp_learning/assignments_04.py:28-49 | two stages piped are `compose2` of the two |
| Pipes.PipeIter | src/fp_learning/assignments_04.py:47-49 | the generator's loop yields `sn(...s1(data))`; with no stages, `data` unchanged |
| Pipes.PipeMonotone | src/fp_learning/assignments_04.py:47-49 | when every stage maps a prefix of its input to a prefix of its output, so does the pipeline |
| Pipes.PipePrefixStable | src/fp_learning/assignments_04.py:47-49 | over an unbounded source, the first `m` outputs computed from `n` source values are fixed |
| Pipes.EvensTimes3Monotone | tests/test_assignments_04.py:57-64 | the `evens` and `times3` stages map prefixes to prefixes |
| Pipes.EvensOfCount | tests/test_assignments_04.py:57-60 | the even values among the first `2k` values of 1, 2, 3, ... are 2, 4, ..., 2k |
| Pipes.PipeFirstTen | tests/test_assignments_04.py:56-70 | evens then times3 over the first ten values of 1, 2, 3, ... gives 6, 12, 18, 24, 30 |
| Pipes.PipeCountExample | tests/test_assignments_04.py:56-70 | the first five outputs over `count(1)` are 6, 12, 18, 24, 30, however much of the source is read |
| Pipes.PipeExamples | tests/test_assignments_04.py:38-43 | `compose2(b*2, a+3)(4) == 14`, an identity stage keeps `[1, 2, 3]`, and no stages keep the data |
| ResultContainer.ResultApply | src/fp_learning/assignments_05.py:55-68 | `Ok` exactly when both sides are `Ok`, holding `f(v)`; a function-side `Err` wins over a value-side one |
| ResultContainer.ApplyIdentity | src/fp_learning/assignments_05.py:63-68 | applying `Ok(identity)` gives the value back, errors included |
| ResultContainer.ApplyComposition | src/fp_learning/assignments_05.py:63-68 | applying two functions in turn is applying their composition, reporting the same error |
| ResultContainer.MaybeToResult | src/fp_learning/assignments_05.py:74-80 | `Just(v)` becomes `Ok(v)` and `Nothing` becomes `Err(error)` |
| ResultContainer.ResultToMaybe | src/fp_learning/assignments_05.py:82-88 | `Ok(v)` becomes `Just(v)` and `Err` becomes `Nothing` |
| ResultContainer.BridgeRoundTrips | src/fp_learning/assignments_05.py:74-88 | `Maybe` to `Result` and back loses nothing; `Result` to `Maybe` and back keeps `Ok` and replaces the error |
| ResultContainer.FirstErr | src/fp_learning/assignments_05.py:104-110 | the index of the first `Err`: everything before it is `Ok` |
| ResultContainer.FirstErrIs | src/fp_learning/assignments_05.py:104-110 | the first `Err` is at `k` when all before `k` are `Ok` and `k` is an `Err` or the end |
| ResultContainer.Sequence | src/fp_learning/assignments_05.py:94-111 | `Ok` of all payloads in order exactly when every element is `Ok`; otherwise the first `Err` |
| ResultContainer.SequenceRun | src/fp_learning/assignments_05.py:102-111 | the pull loop returning at the first `Err` computes `Sequence` |
| ResultContainer.SequenceCons | src/fp_learning/assignments_05.py:106-111 | an `Err` at the head is the answer; an `Ok` head leads the rest's payloads |
| ResultContainer.Traverse | src/fp_learning/assignments_05.py:113-130 | `Ok` exactly when `f` succeeds on every element, and then it holds each call's payload at that element's position |
| ResultContainer.TraverseIsSequenceOfMap | src/fp_learning/assignments_05.py:113-130 | `result_traverse(xs, f)` equals `result_sequence(map(f, xs))` |
| ResultContainer.TraverseStopsAt | src/fp_learning/assignments_05.py:124-129 | the first failing call's error is the result |
| ResultContainer.TraverseAllOk | src/fp_learning/assignments_05.py:120-130 | when every call succeeds, the payloads are collected in order |
| ResultContainer.TraverseRun | src/fp_learning/assignments_05.py:120-130 | the pull loop computes `Traverse`, and calls `f` on exactly the elements up to and including the first failing one |
| ResultContainer.TraverseCons | src/fp_learning/assignments_05.py:124-130 | `f` is applied to the head first; an `Err` there is the answer |
| ResultContainer.ResultExamples | tests/test_assignments_05.py:33-90 | the test suite's `result_apply`, `maybe_to_result`, `result_to_maybe` and `result_sequence` cases, and its `result_traverse` cases for any parser agreeing with `parse_int` on the four strings used |
| ResultContainer.ParseInt | tests/test_assignments_05.py:74-78 | the test's `parse_int`: `Ok` exactly when `int(s)` returns, holding its value, otherwise `Err` of the quoted input |
| ResultContainer.ParseIntExamples | tests/test_assignments_05.py:74-78 | `parse_int` gives 1, 2 and 3 on "1", "2" and "3" |
| ResultContainer.ParseIntExampleInvalid | tests/test_assignments_05.py:74-78 | `parse_int("x")` is `Err("'x'")` |
| ResultContainer.TraverseParseIntExamples | tests/test_assignments_05.py:86-91 | `result_traverse` with `parse_int` gives `Ok([1, 2, 3])` and `Err("'x'")` |

## Left out

- The style tests of the test suite (no `for`, no `list`, use of `yield`, `dict.get`, type hints) inspect the syntax of the source, not its behaviour.
- `assignment3` and `discounted_total_for_books` compute with floating point and rounding; they are not part of this model.
- Generator timing is not modelled. This covers when a value is computed and when `batched` raises.
  A generator is modelled by what it yields when drained, and by finite prefixes over unbounded sources.
- `batched` with `k <= 0` raises ValueError only on the first pull, because the check sits inside the generator function. The model records the ValueError as the outcome of draining. The docstring says only that `k <= 0` gives ValueError, not when.
- `Countdown`'s TypeError for a non-`int` argument cannot arise with Dafny's typed `int` parameter.
- `IntParsing.IntOf` accepts only Python's ASCII `int()` syntax. That is surrounding space or tab to carriage return (not the separators 28..31, which `str.isspace` accepts but `int()` does not strip), an optional `+` or `-` sign, and ASCII digits with single underscores between digits. Unicode digits and Unicode whitespace, which Python also accepts, are left out.
- `IntParsing.IntOf` has no limit on the number of digits. CPython 3.10.7 and later raise ValueError in `int(s)` for more than 4300 digits by default, and `to_int_or_none` then gives `Nothing`. The limit is an interpreter setting (`sys.set_int_max_str_digits`), so it is not modelled.
- `IntParsing.IntOfShowInt`: holds for every integer only without that digit limit; with the default limit, CPython's `str(n)` and `int(s)` raise above 4300 digits.
- `MaybeContainer.ToNullable`: a payload that is itself None is not modelled. In Python, `Just(None).get_or(None)` is None, indistinguishable from `Nothing().get_or(None)`; the model's `Some` keeps them apart, including for `SafeGetIn.Value.Null`.
- `MaybeContainer.NullableRoundTrip`: for the same reason the round trip from `Maybe` holds only for payloads that are not None; Python's `maybe(Just(None).get_or(None))` is `Nothing()`.
- `MaybeContainer.Maybe` values are compared by value, and `assignments_05`'s own `Just`/`Nothing` classes are the same datatype as `assignments_03`'s. In Python `Nothing` defines no `__eq__`, so two distinct `Nothing()` objects are unequal; the round-trip lemmas state equality by value.
- `LazyFlatMap.FlatMap`: `fn` is total and returns a finite sequence. In Python an exception from `fn` propagates out of the generator, and `fn(x)` may be an unbounded iterable, after which no later `x` is reached.
- `Pipes.Pipe`: every stage is total. In Python an exception raised by a stage propagates out of `pipe_iter`.
- `Pipes.Compose2`: `f` and `g` are total; in Python an exception from either propagates out of the composed function.
- `SafeGetIn.Value` covers integers, strings, None and string-keyed dictionaries. Other Python values (lists, floats, objects with their own `get`) are not modelled; any non-dictionary reached before the path ends raises AttributeError.
- `ResultContainer.ResultApply`, `ResultContainer.Traverse`: the user function is total. In Python a function that raises propagates its exception out of `result_apply` and `result_traverse`.
- `Pipes.Pipe`: all stages map sequences of one element type. Python's stages may change the element type from stage to stage.
- The string normalisation stage of the `pipe_iter` test is not restated; it depends on Python's Unicode-aware `strip`, `lower` and `split`.
- `NumbersPipeline.ProcessNumbers`: the test suite's two five-string lists are stated element by element (the `ProcessOneExamples` lemmas). The list results follow by `ProcessNumbersCons`. A whole-list statement would make the verifier unfold the integer parser on all ten strings in one proof.
- `__repr__`, the `NotImplementedError` stubs of the `Maybe` base class, the `ok`/`err`/`is_ok`/`is_err` helpers (folded into the datatype) and the unused `from re import L` import carry no behaviour worth modelling.
- `compose2(str, hex)` in the test suite relies on Python's `hex` and `str` built-ins; it is not restated.
