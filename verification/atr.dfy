/** The average true range, `calcularATR`: a volatility measure used only to
    gate the MACD signals. */
module AverageTrueRange {
  import opened Series
  import opened Averages

  /** The default `periodo = 14` of `calcularATR`, the one every caller uses. */
  const AtrPeriod: nat := 14

  function Abs(x: real): real {
    if x < 0.0 then -x else x
  }

  /** `Math.max(high - low, |high - prevClose|, |low - prevClose|)`: the largest
      of the three ranges, hence never negative. */
  function TrueRange(high: real, low: real, prevClose: real): (r: real)
    ensures r >= high - low && r >= Abs(high - prevClose) && r >= Abs(low - prevClose)
    ensures r == high - low || r == Abs(high - prevClose) || r == Abs(low - prevClose)
    ensures r >= 0.0
  {
    var m := if high - low >= Abs(high - prevClose) then high - low else Abs(high - prevClose);
    if m >= Abs(low - prevClose) then m else Abs(low - prevClose)
  }

  /** The `trs` array: 0 for the first bar, then the true range of each later
      bar against the previous close. It is never empty, even without candles. */
  function TrueRanges(highs: seq<real>, lows: seq<real>, closes: seq<real>): (r: seq<real>)
    requires |highs| >= |closes| && |lows| >= |closes|
    ensures |r| == Max(1, |closes|)
    ensures r[0] == 0.0
    ensures forall i :: 1 <= i < |closes| ==> r[i] == TrueRange(highs[i], lows[i], closes[i - 1])
    ensures forall i :: 0 <= i < |r| ==> r[i] >= 0.0
  {
    if |closes| <= 1 then [0.0]
    else [0.0] + seq(|closes| - 1, j requires 0 <= j < |closes| - 1 =>
                       TrueRange(highs[j + 1], lows[j + 1], closes[j]))
  }

  /** `calcularATR(highs, lows, closes)`: the 14-bar EMA of the true ranges.
      It is defined from index 13 on, at least 14 long, and never negative;
      its seed `reduce` cannot throw because `trs` always holds the leading 0. */
  function Atr(highs: seq<real>, lows: seq<real>, closes: seq<real>): (r: Series)
    requires |highs| >= |closes| && |lows| >= |closes|
    ensures |r| == Max(AtrPeriod, |closes|)
    ensures forall i :: 0 <= i < |r| ==> (r[i].Some? <==> i >= AtrPeriod - 1)
    ensures forall i :: 0 <= i < |r| && r[i].Some? ==> r[i].value >= 0.0
  {
    var trs := TrueRanges(highs, lows, closes);
    EmaAtLeast(trs, AtrPeriod, 0.0);
    EmaSeries(trs, AtrPeriod)
  }
}
