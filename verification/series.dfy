/** Index-aligned numeric series as the indicator code builds them: JavaScript
    arrays whose missing entries read as `undefined`, plus the exceptions the
    array built-ins can throw. Numbers are modelled as exact reals. */
module Series {

  /** A number that may be `undefined`. */
  datatype Option<+T> = None | Some(value: T)

  /** The two exceptions the indicator code can raise. */
  datatype Error =
    | EmptyReduce         // `reduce` without an initial value on an empty array (TypeError)
    | InvalidArrayLength  // `Array(n)` with a negative `n` (RangeError)

  /** The outcome of a computation that may throw; failure-compatible, so `:-`
      propagates the exception like an uncaught `throw`. */
  datatype Result<+T> = Ok(value: T) | Throws(error: Error) {
    predicate IsFailure() {
      Throws?
    }

    function PropagateFailure<U>(): Result<U>
      requires Throws?
    {
      Throws(error)
    }

    function Extract(): T
      requires Ok?
    {
      value
    }
  }

  /** A JavaScript array of numbers with holes, index-aligned to the candles. */
  type Series = seq<Option<real>>

  /** `s[i]` in JavaScript: a hole or an index past the end reads as `undefined`. */
  function At(s: Series, i: int): Option<real> {
    if 0 <= i < |s| then s[i] else None
  }

  /** `a < b` in JavaScript when either side may be `undefined`: a comparison
      with `undefined` is always false. */
  predicate Less(a: Option<real>, b: Option<real>) {
    a.Some? && b.Some? && a.value < b.value
  }

  /** `n` leading holes. */
  function Holes(n: nat): (r: Series)
    ensures |r| == n
    ensures forall i :: 0 <= i < n ==> r[i] == None
  {
    seq(n, _ => None)
  }

  function Min(a: int, b: int): int {
    if a <= b then a else b
  }

  function Max(a: int, b: int): int {
    if a <= b then b else a
  }

  /** Left-to-right sum, the fold `reduce((a, b) => a + b)` performs. */
  function Sum(xs: seq<real>): real {
    if |xs| == 0 then 0.0 else Sum(xs[..|xs| - 1]) + xs[|xs| - 1]
  }

  /** The sum can equally be taken from the front. */
  lemma {:induction false} SumFront(xs: seq<real>)
    requires |xs| > 0
    ensures Sum(xs) == xs[0] + Sum(xs[1..])
  {
    if |xs| > 1 {
      var init := xs[..|xs| - 1];
      SumFront(init);
      assert init[1..] == xs[1..][..|xs[1..]| - 1];
    }
  }

  /** A sum of values that are all at least `lo` is at least `|xs| * lo`. */
  lemma {:induction false} SumAtLeast(xs: seq<real>, lo: real)
    requires forall i :: 0 <= i < |xs| ==> lo <= xs[i]
    ensures |xs| as real * lo <= Sum(xs)
  {
    if |xs| > 0 {
      SumAtLeast(xs[..|xs| - 1], lo);
    }
  }

  /** A sum of values that are all at most `hi` is at most `|xs| * hi`. */
  lemma {:induction false} SumAtMost(xs: seq<real>, hi: real)
    requires forall i :: 0 <= i < |xs| ==> xs[i] <= hi
    ensures Sum(xs) <= |xs| as real * hi
  {
    if |xs| > 0 {
      SumAtMost(xs[..|xs| - 1], hi);
    }
  }
}
