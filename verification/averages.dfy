/** The two moving averages, `calcularSMA` and `calcularEMA`. */
module Averages {
  import opened Series

  /** `soma` after `n` rounds of the inner loop of `calcularSMA` at index `i`:
      array[i] + array[i-1] + ... + array[i-n+1], accumulated backwards. */
  function WindowSum(xs: seq<real>, i: int, n: nat): real
    requires i < |xs| && n <= i + 1
  {
    if n == 0 then 0.0 else WindowSum(xs, i, n - 1) + xs[i - (n - 1)]
  }

  /** The backward accumulation is the sum of the trailing window. */
  lemma {:induction false} WindowSumIsSum(xs: seq<real>, i: int, n: nat)
    requires i < |xs| && n <= i + 1
    ensures WindowSum(xs, i, n) == Sum(xs[i - n + 1 .. i + 1])
  {
    if n > 0 {
      WindowSumIsSum(xs, i, n - 1);
      var w := xs[i - n + 1 .. i + 1];
      SumFront(w);
      assert w[1..] == xs[i - n + 2 .. i + 1];
    }
  }

  /** The simple moving average: index-aligned with `xs`, undefined before
      `period - 1`, then the mean of the trailing `period` values. When
      `period` exceeds the input the loop never runs and the array is empty. */
  function Sma(xs: seq<real>, period: nat): (r: Series)
    requires period >= 1
    ensures |r| == if period <= |xs| then |xs| else 0
    ensures forall i :: 0 <= i < |r| ==> (r[i].Some? <==> i >= period - 1)
    ensures forall i :: period - 1 <= i < |r| ==>
              r[i] == Some(Sum(xs[i - period + 1 .. i + 1]) / period as real)
  {
    if period <= |xs| then
      WindowSumsAreSums(xs, period);
      seq(|xs|, i requires 0 <= i < |xs| =>
        if i < period - 1 then None else Some(WindowSum(xs, i, period) / period as real))
    else []
  }

  lemma WindowSumsAreSums(xs: seq<real>, period: nat)
    requires 1 <= period <= |xs|
    ensures forall i :: period - 1 <= i < |xs| ==>
              WindowSum(xs, i, period) == Sum(xs[i - period + 1 .. i + 1])
  {
    forall i | period - 1 <= i < |xs| {
      WindowSumIsSum(xs, i, period);
    }
  }

  /** On a constant series every defined SMA value is that constant. */
  lemma SmaOfConstant(xs: seq<real>, period: nat, c: real)
    requires period >= 1
    requires forall i :: 0 <= i < |xs| ==> xs[i] == c
    ensures forall i :: 0 <= i < |Sma(xs, period)| && Sma(xs, period)[i].Some? ==>
              Sma(xs, period)[i].value == c
  {
    var r := Sma(xs, period);
    forall i | 0 <= i < |r| && r[i].Some?
      ensures r[i].value == c
    {
      var w := xs[i - period + 1 .. i + 1];
      SumAtLeast(w, c);
      SumAtMost(w, c);
      SeedAtLeast(Sum(w), period, period, c);
      SeedAtMost(Sum(w), period, period, c);
    }
  }

  /** The smoothing factor `k = 2 / (periodo + 1)`; it lies in (0, 1]. */
  function Smoothing(period: nat): (k: real)
    requires period >= 1
    ensures 0.0 < k <= 1.0
  {
    2.0 / (period as real + 1.0)
  }

  /** One step of the exponential average: `x*k + ema*(1-k)`. */
  function Blend(x: real, ema: real, k: real): real {
    x * k + ema * (1.0 - k)
  }

  /** The `for` loop of `calcularEMA` from index `i` on, where `ema` is the value
      stored at `i - 1`: every later entry is defined. */
  function EmaLoop(xs: seq<real>, k: real, i: nat, ema: real): (r: Series)
    ensures |r| == if i < |xs| then |xs| - i else 0
    ensures forall j :: 0 <= j < |r| ==> r[j].Some?
    decreases |xs| - i
  {
    if i >= |xs| then []
    else
      var next := Blend(xs[i], ema, k);
      [Some(next)] + EmaLoop(xs, k, i + 1, next)
  }

  /** Each entry the loop stores blends the input at its index with the entry before it. */
  lemma {:induction false} EmaLoopRecurrence(xs: seq<real>, k: real, i: nat, ema: real, j: nat)
    requires j < |EmaLoop(xs, k, i, ema)|
    decreases j
    ensures EmaLoop(xs, k, i, ema)[j] ==
              Some(Blend(xs[i + j], if j == 0 then ema else EmaLoop(xs, k, i, ema)[j - 1].value, k))
  {
    var next := Blend(xs[i], ema, k);
    var rest := EmaLoop(xs, k, i + 1, next);
    assert EmaLoop(xs, k, i, ema) == [Some(next)] + rest;
    if j > 0 {
      EmaLoopRecurrence(xs, k, i + 1, next, j - 1);
      assert EmaLoop(xs, k, i, ema)[j] == rest[j - 1];
      assert EmaLoop(xs, k, i, ema)[j - 1].value == if j == 1 then next else rest[j - 2].value;
      assert xs[i + 1 + (j - 1)] == xs[i + j];
    }
  }

  /** The exponential moving average of a non-empty input: undefined before
      `period - 1`; seeded there with the sum of the first `period` inputs
      divided by `period`; afterwards `ema[i] = x[i]*k + ema[i-1]*(1-k)`.
      The array is at least `period` long even when the input is shorter. */
  function EmaSeries(xs: seq<real>, period: nat): (r: Series)
    requires period >= 1 && |xs| >= 1
    ensures |r| == Max(period, |xs|)
    ensures forall i :: 0 <= i < |r| ==> (r[i].Some? <==> i >= period - 1)
    ensures r[period - 1] == Some(Sum(xs[..Min(period, |xs|)]) / period as real)
    ensures |r| > period ==> |r| == |xs|
    ensures forall i :: period <= i < |r| ==>
              r[i] == Some(Blend(xs[i], r[i - 1].value, Smoothing(period)))
  {
    var seed := Sum(xs[..Min(period, |xs|)]) / period as real;
    var k := Smoothing(period);
    var r := Holes(period - 1) + [Some(seed)] + EmaLoop(xs, k, period, seed);
    EmaAssembled(xs, k, period, seed, r);
    r
  }

  /** The array `calcularEMA` returns: holes, the seed, then the loop's entries. */
  lemma EmaAssembled(xs: seq<real>, k: real, period: nat, seed: real, r: Series)
    requires period >= 1
    requires r == Holes(period - 1) + [Some(seed)] + EmaLoop(xs, k, period, seed)
    ensures forall i :: period <= i < |r| ==> r[i].Some? && r[i] == Some(Blend(xs[i], r[i - 1].value, k))
  {
    var tail := EmaLoop(xs, k, period, seed);
    forall i | period <= i < |r|
      ensures r[i].Some? && r[i] == Some(Blend(xs[i], r[i - 1].value, k))
    {
      var j := i - period;
      EmaLoopRecurrence(xs, k, period, seed, j);
      assert r[i] == tail[j];
      assert r[i - 1] == if j == 0 then Some(seed) else tail[j - 1];
      assert xs[period + j] == xs[i];
    }
  }

  /** `calcularEMA`: the seed `reduce` throws on an empty input. */
  function Ema(xs: seq<real>, period: nat): (r: Result<Series>)
    requires period >= 1
    ensures r.Throws? <==> |xs| == 0
    ensures r.Throws? ==> r.error == EmptyReduce
    ensures r.Ok? ==> r.value == EmaSeries(xs, period)
  {
    if |xs| == 0 then Throws(EmptyReduce) else Ok(EmaSeries(xs, period))
  }

  lemma SeedAtLeast(s: real, m: nat, period: nat, lo: real)
    requires 1 <= period && m <= period && (m == period || lo <= 0.0)
    requires m as real * lo <= s
    ensures lo <= s / period as real
  {
    var p := period as real;
    assert m as real * lo >= p * lo;
    assert s / p * p == s;
  }

  lemma SeedAtMost(s: real, m: nat, period: nat, hi: real)
    requires 1 <= period && m <= period && (m == period || hi >= 0.0)
    requires s <= m as real * hi
    ensures s / period as real <= hi
  {
    var p := period as real;
    assert m as real * hi <= p * hi;
    assert s / p * p == s;
  }

  lemma ProductNonNegative(a: real, b: real)
    requires a >= 0.0 && b >= 0.0
    ensures a * b >= 0.0
  {
  }

  lemma BlendAtLeast(x: real, e: real, k: real, lo: real)
    requires 0.0 < k <= 1.0 && lo <= x && lo <= e
    ensures lo <= Blend(x, e, k)
  {
    ProductNonNegative(x - lo, k);
    ProductNonNegative(e - lo, 1.0 - k);
    assert x * k + e * (1.0 - k) - lo == (x - lo) * k + (e - lo) * (1.0 - k);
  }

  lemma BlendAtMost(x: real, e: real, k: real, hi: real)
    requires 0.0 < k <= 1.0 && x <= hi && e <= hi
    ensures Blend(x, e, k) <= hi
  {
    ProductNonNegative(hi - x, k);
    ProductNonNegative(hi - e, 1.0 - k);
    assert hi - (x * k + e * (1.0 - k)) == (hi - x) * k + (hi - e) * (1.0 - k);
  }

  /** Every defined EMA value is at least `lo` when every input is. A short
      input divides a short sum by `period`, so there `lo` must not be positive. */
  lemma EmaAtLeast(xs: seq<real>, period: nat, lo: real)
    requires period >= 1 && |xs| >= 1
    requires period <= |xs| || lo <= 0.0
    requires forall i :: 0 <= i < |xs| ==> lo <= xs[i]
    ensures forall i :: 0 <= i < |EmaSeries(xs, period)| && EmaSeries(xs, period)[i].Some? ==>
              lo <= EmaSeries(xs, period)[i].value
  {
    var r := EmaSeries(xs, period);
    forall i | period - 1 <= i < |r|
      ensures lo <= r[i].value
    {
      EmaAtLeastAt(xs, period, lo, i);
    }
  }

  lemma {:induction false} EmaAtLeastAt(xs: seq<real>, period: nat, lo: real, i: nat)
    requires period >= 1 && |xs| >= 1
    requires period <= |xs| || lo <= 0.0
    requires forall i :: 0 <= i < |xs| ==> lo <= xs[i]
    requires period - 1 <= i < |EmaSeries(xs, period)|
    ensures lo <= EmaSeries(xs, period)[i].value
  {
    var r := EmaSeries(xs, period);
    var k := Smoothing(period);
    if i == period - 1 {
      var m := Min(period, |xs|);
      SumAtLeast(xs[..m], lo);
      SeedAtLeast(Sum(xs[..m]), m, period, lo);
    } else {
      EmaAtLeastAt(xs, period, lo, i - 1);
      BlendAtLeast(xs[i], r[i - 1].value, k, lo);
    }
  }

  /** Every defined EMA value is at most `hi` when every input is. A short
      input divides a short sum by `period`, so there `hi` must not be negative. */
  lemma EmaAtMost(xs: seq<real>, period: nat, hi: real)
    requires period >= 1 && |xs| >= 1
    requires period <= |xs| || hi >= 0.0
    requires forall i :: 0 <= i < |xs| ==> xs[i] <= hi
    ensures forall i :: 0 <= i < |EmaSeries(xs, period)| && EmaSeries(xs, period)[i].Some? ==>
              EmaSeries(xs, period)[i].value <= hi
  {
    var r := EmaSeries(xs, period);
    forall i | period - 1 <= i < |r|
      ensures r[i].value <= hi
    {
      EmaAtMostAt(xs, period, hi, i);
    }
  }

  lemma {:induction false} EmaAtMostAt(xs: seq<real>, period: nat, hi: real, i: nat)
    requires period >= 1 && |xs| >= 1
    requires period <= |xs| || hi >= 0.0
    requires forall i :: 0 <= i < |xs| ==> xs[i] <= hi
    requires period - 1 <= i < |EmaSeries(xs, period)|
    ensures EmaSeries(xs, period)[i].value <= hi
  {
    var r := EmaSeries(xs, period);
    var k := Smoothing(period);
    if i == period - 1 {
      var m := Min(period, |xs|);
      SumAtMost(xs[..m], hi);
      SeedAtMost(Sum(xs[..m]), m, period, hi);
    } else {
      EmaAtMostAt(xs, period, hi, i - 1);
      BlendAtMost(xs[i], r[i - 1].value, k, hi);
    }
  }

  /** On a constant series at least `period` long every defined EMA value is
      that constant. */
  lemma EmaOfConstant(xs: seq<real>, period: nat, c: real)
    requires 1 <= period <= |xs|
    requires forall i :: 0 <= i < |xs| ==> xs[i] == c
    ensures forall i :: 0 <= i < |EmaSeries(xs, period)| && EmaSeries(xs, period)[i].Some? ==>
              EmaSeries(xs, period)[i].value == c
  {
    EmaAtLeast(xs, period, c);
    EmaAtMost(xs, period, c);
  }
}
