/** The element-wise warm-ups: cube every number, measure every word. */
module Pointwise {
  import opened SeqUtil

  function Cube(x: int): int { x * x * x }

  /** `assignment1(nums)`: the list of the cubes of `nums`, in order. */
  function Assignment1(nums: seq<int>): (r: seq<int>)
    ensures |r| == |nums|
    ensures forall i :: 0 <= i < |nums| ==> r[i] == nums[i] * nums[i] * nums[i]
  {
    Map(Cube, nums)
  }

  /** Cubing is strictly increasing on the integers. */
  lemma CubeStrictlyIncreasing(x: int, y: int)
    requires x < y
    ensures Cube(x) < Cube(y)
  {
    // y^3 - x^3 == (y - x) * (x^2 + x*y + y^2), and the second factor is
    // positive unless x == y == 0, which x < y excludes.
    var d := y - x;
    assert Cube(y) - Cube(x) == d * (x * x + x * y + y * y);
    assert 2 * (x * x + x * y + y * y) == x * x + y * y + (x + y) * (x + y);
    assert x * x + y * y > 0 by {
      if x == 0 { assert y != 0; assert y * y > 0; }
      else { assert x * x > 0; }
    }
    assert x * x + x * y + y * y > 0;
    assert d > 0;
  }

  predicate StrictlySorted(xs: seq<int>) {
    forall i, j :: 0 <= i < j < |xs| ==> xs[i] < xs[j]
  }

  /** Cubing keeps the order of the input, so a sorted input gives a sorted output
      and different inputs give different outputs. */
  lemma {:induction false} Assignment1KeepsOrder(nums: seq<int>, i: int, j: int)
    requires 0 <= i < |nums| && 0 <= j < |nums|
    ensures nums[i] < nums[j] <==> Assignment1(nums)[i] < Assignment1(nums)[j]
    ensures nums[i] == nums[j] <==> Assignment1(nums)[i] == Assignment1(nums)[j]
  {
    if nums[i] < nums[j] {
      CubeStrictlyIncreasing(nums[i], nums[j]);
    } else if nums[j] < nums[i] {
      CubeStrictlyIncreasing(nums[j], nums[i]);
    }
  }

  lemma Assignment1Sorted(nums: seq<int>)
    requires StrictlySorted(nums)
    ensures StrictlySorted(Assignment1(nums))
  {
    forall i, j | 0 <= i < j < |nums|
      ensures Assignment1(nums)[i] < Assignment1(nums)[j]
    {
      Assignment1KeepsOrder(nums, i, j);
    }
  }

  /** No two inputs have the same list of cubes: the input can be recovered. */
  lemma Assignment1Injective(xs: seq<int>, ys: seq<int>)
    requires Assignment1(xs) == Assignment1(ys)
    ensures xs == ys
  {
    forall i | 0 <= i < |xs|
      ensures xs[i] == ys[i]
    {
      if xs[i] < ys[i] {
        CubeStrictlyIncreasing(xs[i], ys[i]);
      } else if ys[i] < xs[i] {
        CubeStrictlyIncreasing(ys[i], xs[i]);
      }
    }
  }

  function Length(w: string): nat { |w| }

  /** `assignment2(words)`: the list of the lengths of `words`, in order. */
  function Assignment2(words: seq<string>): (r: seq<nat>)
    ensures |r| == |words|
    ensures forall i :: 0 <= i < |words| ==> r[i] == |words[i]|
  {
    Map(Length, words)
  }

  function Sum(xs: seq<nat>): nat
    decreases |xs|
  {
    if |xs| == 0 then 0 else xs[0] + Sum(xs[1..])
  }

  /** The lengths add up to the length of the words joined together. */
  lemma {:induction false} Assignment2SumIsJoinedLength(words: seq<string>)
    ensures Sum(Assignment2(words)) == |Flatten(words)|
    decreases |words|
  {
    if |words| > 0 {
      assert Assignment2(words)[1..] == Assignment2(words[1..]);
      Assignment2SumIsJoinedLength(words[1..]);
    }
  }

  /** Both functions map over concatenated inputs piecewise. */
  lemma PointwiseAppend(xs: seq<int>, ys: seq<int>, ws: seq<string>, vs: seq<string>)
    ensures Assignment1(xs + ys) == Assignment1(xs) + Assignment1(ys)
    ensures Assignment2(ws + vs) == Assignment2(ws) + Assignment2(vs)
  {
    MapAppend(Cube, xs, ys);
    MapAppend(Length, ws, vs);
  }

  /** The examples of the test suite. */
  lemma PointwiseExamples()
    ensures Assignment1([1, 2, 3, 4, 5]) == [1, 8, 27, 64, 125]
    ensures Assignment1([0, -1, 2]) == [0, -1, 8]
    ensures Assignment2(["Python", "Functional", "Programming"]) == [6, 10, 11]
    ensures Assignment2(["", "ab"]) == [0, 2]
  {
  }
}
