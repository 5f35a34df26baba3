/** The recomputation run after every change of the controls: indicators,
    then signals, then the simulated strategy, over one fetched series. */
module Pipeline {
  import opened Series
  import opened Averages
  import opened AverageTrueRange
  import opened MacdIndicator
  import opened Signals
  import opened Strategy

  /** One daily bar of the exchange response, reduced to the prices the
      indicators read. */
  datatype Candle = Candle(high: real, low: real, close: real)

  /** Everything one recomputation produces. */
  datatype Analysis = Analysis(sma: Series, atr: Series, lines: Lines, signals: seq<Bar>, report: Report)

  function Highs(candles: seq<Candle>): (r: seq<real>)
    ensures |r| == |candles|
  {
    seq(|candles|, i requires 0 <= i < |candles| => candles[i].high)
  }

  function Lows(candles: seq<Candle>): (r: seq<real>)
    ensures |r| == |candles|
  {
    seq(|candles|, i requires 0 <= i < |candles| => candles[i].low)
  }

  function Closes(candles: seq<Candle>): (r: seq<real>)
    ensures |r| == |candles|
    ensures forall i :: 0 <= i < |candles| ==> r[i] == candles[i].close
  {
    seq(|candles|, i requires 0 <= i < |candles| => candles[i].close)
  }

  /** The body of `fetchData` after decoding: SMA over the user's period,
      ATR(14), MACD, the signals and the simulation. MACD is computed in
      every mode, so the whole run throws exactly when `calcularMACD` does,
      whichever mode is selected; otherwise every array is the one its
      stage computes from the closes, the signals never outnumber the
      candles, and the report pairs them as the simulator promises. */
  method Recompute(candles: seq<Candle>, period: nat, settings: Settings) returns (r: Result<Analysis>)
    requires period >= 1
    requires forall i :: 0 <= i < |candles| ==> candles[i].close != 0.0
    ensures r.Throws? <==> Macd(Closes(candles)).Throws?
    ensures r.Ok? ==> Macd(Closes(candles)) == Ok(r.value.lines)
    ensures r.Ok? ==> r.value.sma == Sma(Closes(candles), period)
    ensures r.Ok? ==> r.value.atr == Atr(Highs(candles), Lows(candles), Closes(candles))
    ensures r.Ok? ==>
              var inp := Inputs(Closes(candles), r.value.sma, r.value.lines.macd, r.value.lines.signal, r.value.atr);
              r.value.signals == Generate(settings, inp)
    ensures r.Ok? ==> |r.value.signals| <= |candles|
    ensures r.Ok? ==> |r.value.sma| == (if period <= |candles| then |candles| else 0)
    ensures r.Ok? ==> Traded(r.value.signals, Closes(candles), r.value.report.trades, |r.value.signals|)
    ensures r.Ok? ==> NoRoundTripAfter(r.value.signals, r.value.report.trades)
    ensures r.Ok? ==> r.value.report.total == Total(r.value.report.trades)
  {
    var closes := Closes(candles);
    assert forall i :: 0 <= i < |closes| ==> closes[i] != 0.0;
    var sma := Sma(closes, period);
    var atr := Atr(Highs(candles), Lows(candles), closes);
    var lines := Macd(closes);
    if lines.Throws? {
      return Throws(lines.error);
    }
    var signals, report := Backtest(settings, Inputs(closes, sma, lines.value.macd, lines.value.signal, atr));
    return Ok(Analysis(sma, atr, lines.value, signals, report));
  }

  /** `gerarSinais` followed by `calcularLucro` on the same closes. */
  method Backtest(settings: Settings, inp: Inputs) returns (signals: seq<Bar>, report: Report)
    requires forall i :: 0 <= i < |inp.closes| ==> inp.closes[i] != 0.0
    ensures signals == Generate(settings, inp)
    ensures |signals| <= |inp.closes|
    ensures Traded(signals, inp.closes, report.trades, |signals|)
    ensures NoRoundTripAfter(signals, report.trades)
    ensures report.total == Total(report.trades)
  {
    signals := Generate(settings, inp);
    report := Simulate(signals, inp.closes);
  }
}
