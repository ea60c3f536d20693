/** The `Countdown` iterator: a single mutable counter, pulled one value at a time. */
module Countdowns {
  import opened PyRuntime
  import opened SeqUtil

  /** The values a fresh `Countdown(n)` yields when drained: `n, n-1, ..., 1`. */
  function Yields(n: int): (r: seq<int>)
    ensures |r| == Max(n, 0)
    ensures forall i :: 0 <= i < |r| ==> r[i] == n - i
    decreases Max(n, 0)
  {
    if n <= 0 then [] else [n] + Yields(n - 1)
  }

  class Countdown {
    /** The next value to yield; the iterator is exhausted once it is not positive. */
    var n: int

    constructor (n: int)
      ensures this.n == n
    {
      this.n := n;
    }

    /** `__next__`: yields the counter and decrements it, or raises StopIteration
        (leaving the counter as it is) once the counter is not positive. */
    method Next() returns (r: Outcome<int>)
      modifies this
      ensures old(n) > 0 ==> r == Returned(old(n)) && n == old(n) - 1
      ensures old(n) <= 0 ==> r == Raised(StopIteration) && n == old(n)
    {
      if n <= 0 {
        return Raised(StopIteration);
      }
      var value := n;
      n := n - 1;
      return Returned(value);
    }
  }

  /** `list(Countdown(n))` followed by one more `next`: the values pulled until
      StopIteration, and what a further pull gives once the iterator is exhausted. */
  method Drain(n: int) returns (items: seq<int>, after: Outcome<int>)
    ensures items == Yields(n)
    ensures after == Raised(StopIteration)
  {
    var c := new Countdown(n);
    items := [];
    var r := c.Next();
    while r.Returned?
      invariant r.Returned? ==> r.value == n - |items| && r.value > 0 && c.n == r.value - 1
      invariant r.Raised? ==> r.error == StopIteration && c.n <= 0 && |items| == Max(n, 0)
      invariant items == Yields(n)[..|items|]
      decreases Max(c.n, 0) + (if r.Returned? then 1 else 0)
    {
      items := items + [r.value];
      r := c.Next();
    }
    after := c.Next();
  }
}
