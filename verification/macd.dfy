/** `calcularMACD`: the MACD line (EMA 12 minus EMA 26) and its signal line. */
module MacdIndicator {
  import opened Series
  import opened Averages

  const FastPeriod: nat := 12
  const SlowPeriod: nat := 26
  const SignalPeriod: nat := 9

  /** The object `{ macd, sinal }`. */
  datatype Lines = Lines(macd: Series, signal: Series)

  /** `closes.map(...)`: the fast minus the slow average wherever both are defined. */
  function Difference(fast: Series, slow: Series, n: nat): (r: Series)
    ensures |r| == n
    ensures forall i :: 0 <= i < n ==> (r[i].Some? <==> At(fast, i).Some? && At(slow, i).Some?)
  {
    seq(n, i => if At(fast, i).Some? && At(slow, i).Some? then Some(At(fast, i).value - At(slow, i).value) else None)
  }

  /** The MACD line of a non-empty series of closing prices. */
  function Line(closes: seq<real>): Series
    requires |closes| >= 1
  {
    Difference(EmaSeries(closes, FastPeriod), EmaSeries(closes, SlowPeriod), |closes|)
  }

  /** `Boolean(v)` for a number that may be `undefined`: false for `undefined` and for 0. */
  predicate Truthy(v: Option<real>) {
    v.Some? && v.value != 0.0
  }

  /** `filter(Boolean)`: the defined, non-zero values, in order. Exact zeros
      are dropped along with the holes. */
  function Compact(s: Series): (r: seq<real>)
    ensures |r| <= |s|
    ensures forall x :: x in r ==> x != 0.0 && Some(x) in s
    ensures forall i :: 0 <= i < |s| && Truthy(s[i]) ==> s[i].value in r
    ensures (forall i :: 0 <= i < |s| ==> Truthy(s[i])) ==>
              r == seq(|s|, i requires 0 <= i < |s| => s[i].value)
  {
    if |s| == 0 then []
    else (if Truthy(s[0]) then [s[0].value] else []) + Compact(s[1..])
  }

  /** `filter` works element by element: compacting two arrays one after the
      other gives the compacted first followed by the compacted second, so
      order and repetitions are kept. */
  lemma {:induction false} CompactAppend(a: Series, b: Series)
    ensures Compact(a + b) == Compact(a) + Compact(b)
  {
    if |a| > 0 {
      assert (a + b)[1..] == a[1..] + b;
      CompactAppend(a[1..], b);
    } else {
      assert a + b == b;
    }
  }

  /** `Array(n - |s|).fill(undefined).concat(s)`: holes are PREPENDED so the
      result is `n` long and `s` occupies its last `|s|` places; a negative
      count throws. */
  function PadStart(s: Series, n: int): (r: Result<Series>)
    ensures r.Throws? <==> |s| > n
    ensures r.Throws? ==> r.error == InvalidArrayLength
    ensures r.Ok? ==> |r.value| == n
    ensures r.Ok? ==> forall i :: 0 <= i < n - |s| ==> r.value[i] == None
    ensures r.Ok? ==> forall j :: 0 <= j < |s| ==> r.value[n - |s| + j] == s[j]
  {
    if n - |s| < 0 then Throws(InvalidArrayLength) else Ok(Holes(n - |s|) + s)
  }

  /** `calcularMACD(closes)`, with the exceptions its three `calcularEMA` calls
      and its `Array(diff)` may raise. Both arrays are one entry per close;
      `MacdShape` states the rest. */
  function Macd(closes: seq<real>): (r: Result<Lines>)
    ensures r.Ok? ==> |r.value.macd| == |closes| && |r.value.signal| == |closes|
  {
    var fast :- Ema(closes, FastPeriod);
    // Once the first call returned, `closes` is non-empty and the second cannot throw.
    var slow := EmaSeries(closes, SlowPeriod);
    var macd := Difference(fast, slow, |closes|);
    var signalLine :- Ema(Compact(macd), SignalPeriod);
    // A non-empty compacted line never makes `Array(diff)` throw.
    LineLongEnough(closes);
    var signal := PadStart(signalLine, |macd|).value;
    Ok(Lines(macd, signal))
  }

  /** `calcularMACD` throws exactly when there are no closes or when the
      compacted line is empty, and then only from an empty `reduce`. Otherwise
      `macd` is the line, and `sinal` is the signal EMA of the compacted line
      preceded by as many holes as make it as long as the closes. */
  lemma MacdShape(closes: seq<real>)
    ensures Macd(closes).Throws? <==> |closes| == 0 || |Compact(Line(closes))| == 0
    ensures Macd(closes).Throws? ==> Macd(closes).error == EmptyReduce
    ensures Macd(closes).Ok? ==> Macd(closes).value.macd == Line(closes)
    ensures Macd(closes).Ok? ==>
              var signal := Macd(closes).value.signal;
              var signalLine := EmaSeries(Compact(Line(closes)), SignalPeriod);
              var pad := |closes| - |signalLine|;
              && 0 <= pad
              && (forall i :: 0 <= i < pad ==> signal[i] == None)
              && (forall j :: 0 <= j < |signalLine| ==> signal[pad + j] == signalLine[j])
  {
    if |closes| >= 1 && |Compact(Line(closes))| >= 1 {
      LineLongEnough(closes);
    }
  }

  /** The MACD line has one entry per close and is defined exactly from the
      first index where the slow average is, i.e. from index 25 on. */
  lemma LineDefinedFromSlowSeed(closes: seq<real>)
    requires |closes| >= 1
    ensures |Line(closes)| == |closes|
    ensures forall i :: 0 <= i < |closes| ==> (Line(closes)[i].Some? <==> i >= SlowPeriod - 1)
    ensures forall i :: 0 <= i < |closes| && Line(closes)[i].Some? ==>
              Line(closes)[i].value == EmaSeries(closes, FastPeriod)[i].value - EmaSeries(closes, SlowPeriod)[i].value
  {
    var fast := EmaSeries(closes, FastPeriod);
    var slow := EmaSeries(closes, SlowPeriod);
    forall i | 0 <= i < |closes|
      ensures At(fast, i) == fast[i] && At(slow, i) == slow[i]
    {
    }
  }

  /** A non-empty compacted line needs at least 26 closes, so the padding
      count `|macd| - |linhaSinal|` is never negative. */
  lemma LineLongEnough(closes: seq<real>)
    requires |closes| >= 1 && |Compact(Line(closes))| >= 1
    ensures |EmaSeries(Compact(Line(closes)), SignalPeriod)| <= |closes|
  {
    var line := Line(closes);
    LineDefinedFromSlowSeed(closes);
    var x := Compact(line)[0];
    assert x in Compact(line);
    var i :| 0 <= i < |line| && line[i] == Some(x);
    assert i >= SlowPeriod - 1;
  }

  /** `calcularMACD` throws exactly when no MACD value is both defined and
      non-zero: fewer than 26 closes, or a line that is identically 0. */
  lemma MacdThrowsIffLineVanishes(closes: seq<real>)
    ensures Macd(closes).Throws? <==>
              forall i :: SlowPeriod - 1 <= i < |closes| ==> Line(closes)[i] == Some(0.0)
  {
    MacdShape(closes);
    if |closes| >= 1 {
      var line := Line(closes);
      LineDefinedFromSlowSeed(closes);
      CompactEmptyIff(line);
      assert forall i :: 0 <= i < |line| ==> (Truthy(line[i]) <==> SlowPeriod - 1 <= i && line[i] != Some(0.0));
    }
  }

  /** `filter(Boolean)` returns an empty array exactly when no entry is truthy. */
  lemma {:induction false} CompactEmptyIff(s: Series)
    ensures |Compact(s)| == 0 <==> forall i :: 0 <= i < |s| ==> !Truthy(s[i])
  {
    if |s| > 0 {
      CompactEmptyIff(s[1..]);
      assert forall i :: 1 <= i < |s| ==> s[i] == s[1..][i - 1];
    }
  }

  /** When the MACD line has no exact zero, the prepended holes line the
      signal up with the bars: with at least 34 closes it is defined exactly
      from index 33 = 25 + 8, the first bar with nine MACD values behind it. */
  lemma SignalAlignedWithoutZeros(closes: seq<real>)
    requires |closes| >= SlowPeriod + SignalPeriod - 1
    requires forall i :: SlowPeriod - 1 <= i < |closes| ==> Line(closes)[i] != Some(0.0)
    ensures Macd(closes).Ok?
    ensures forall i :: 0 <= i < |closes| ==>
              (Macd(closes).value.signal[i].Some? <==> i >= SlowPeriod + SignalPeriod - 2)
  {
    var n := |closes|;
    MacdShape(closes);
    CompactedLineLength(closes);
    assert |Compact(Line(closes))| >= 9;
    assert Macd(closes).Ok?;
    assert Line(closes)[n - 1] != Some(0.0);
    var m := Macd(closes).value;
    var signalLine := EmaSeries(Compact(Line(closes)), SignalPeriod);
    assert |signalLine| == n - (SlowPeriod - 1);
    var pad := n - |signalLine|;
    assert pad == SlowPeriod - 1;
    forall i | 0 <= i < n
      ensures m.signal[i].Some? <==> i >= SlowPeriod + SignalPeriod - 2
    {
      if i < pad {
        assert m.signal[i] == None;
      } else {
        var j := i - pad;
        assert m.signal[pad + j] == signalLine[j];
        assert signalLine[j].Some? <==> j >= SignalPeriod - 1;
      }
    }
  }

  /** Without exact zeros, compacting the line keeps its |closes| - 25 defined values. */
  lemma CompactedLineLength(closes: seq<real>)
    requires |closes| >= SlowPeriod - 1
    requires |closes| >= 1
    requires forall i :: SlowPeriod - 1 <= i < |closes| ==> Line(closes)[i] != Some(0.0)
    ensures |Compact(Line(closes))| == |closes| - (SlowPeriod - 1)
  {
    LineDefinedFromSlowSeed(closes);
    CompactCount(Line(closes), SlowPeriod - 1);
  }

  /** Compacting holes followed by non-zero values keeps exactly those values. */
  lemma {:induction false} CompactCount(s: Series, holes: nat)
    requires holes <= |s|
    requires forall i :: 0 <= i < holes ==> s[i] == None
    requires forall i :: holes <= i < |s| ==> Truthy(s[i])
    ensures |Compact(s)| == |s| - holes
  {
    if |s| > 0 {
      if holes > 0 {
        CompactCount(s[1..], holes - 1);
      } else {
        CompactCount(s[1..], 0);
      }
    }
  }
}
