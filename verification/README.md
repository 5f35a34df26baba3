# BTC indicator, signal and back-test pipeline in Dafny

This project models the numeric core of a single-page BTC/USDT chart. The page
takes daily candles and computes four indicators:

- a simple moving average (SMA) over a user-chosen period;
- an exponential moving average (EMA);
- the MACD line (EMA 12 minus EMA 26) and its EMA-9 signal line;
- the 14-bar average true range (ATR).

From these it gives every bar except bar 0 a label: `'buy'`, `'sell'` or
`null`. Bar 0 stays a hole, and fewer than two closes give no labels at all. A
label comes from a strict crossing of MACD over its signal line, gated by the
ATR, or from a crossing of the close over the SMA. An invert switch swaps the
two labels. A long-only strategy then pairs the first buy while flat with the next sell,
ignoring a buy while long and a sell while flat, and sums the simple returns.

All of this lives in `src/app/page.tsx`. The model follows it function by
function:

| module | file | models |
|---|---|---|
| `Series` | `series.dfy` | JavaScript arrays with holes (`seq<Option<real>>`), `undefined` comparisons, the `reduce` sum, thrown exceptions (`Result`) |
| `Averages` | `averages.dfy` | `calcularSMA`, `calcularEMA` |
| `AverageTrueRange` | `atr.dfy` | `calcularATR` and its true-range array |
| `MacdIndicator` | `macd.dfy` | `calcularMACD`: the line, `filter(Boolean)`, the prepended padding |
| `Signals` | `signals.dfy` | `gerarSinais` in both modes, with the invert flag |
| `Strategy` | `strategy.dfy` | `calcularLucro`: the flat/long loop, the trades, the total |
| `Pipeline` | `pipeline.dfy` | the order in which `fetchData` calls them |

Numbers are exact `real`s, an idealisation of JavaScript doubles. Some
properties below do not depend on rounding: the lengths, the ranges where a
value is defined, the exclusivity of the two crossings, the invert symmetry and
the trade pairing. Others hold only for exact reals: the constant-series
equalities, the EMA bounds, and which inputs make the MACD line exactly 0. With
doubles, a constant series of 0.1 has an SMA of `0.10000000000000002` and an
EMA-12 seed of `0.09999999999999999`.

Holes and reads past the end of an array are `None`, and any comparison with
`None` is false, as `undefined < x` is in JavaScript. The two exceptions the
code can raise are modelled as `Result.Throws`:

- `EmptyReduce`: `reduce` on an empty slice, which happens when `calcularEMA`
  gets an empty array;
- `InvalidArrayLength`: `Array(diff)` with a negative `diff`.

`MacdIndicator.MacdShape` proves that the second one never happens.

Some behaviours of the code are kept as they are, on purpose:

- `filter(Boolean)` drops exact zeros of the MACD line as well as its holes.
- The signal line's holes are prepended, not appended.
- An undefined ATR passes the `atr[i] < atrMin` gate.
- In MACD mode only index `i-1` is checked for definedness. An undefined value
  at `i` just makes both crossings false.
- `calcularEMA` on a non-empty input shorter than the period does not fail.
  It returns an array `period` long whose only value is the sum of the input
  divided by `period`.

## Model

| member | source | states |
|---|---|---|
| Averages.Sma | src/app/page.tsx:26-35 | The SMA array is `|xs|` long when `period <= |xs|` and empty otherwise. It is undefined exactly before `period-1`. From there each entry is the sum of the trailing `period` values divided by `period`, stated with a forward sum and not the code's backward loop. |
| Averages.WindowSumIsSum | src/app/page.tsx:29-32 | The inner loop `soma += array[i-j]`, run `n` times, equals the sum of the slice `xs[i-n+1..i]`. |
| Averages.SmaOfConstant | src/app/page.tsx:26-35 | On a constant series every defined SMA value equals the constant. |
| Averages.Smoothing | src/app/page.tsx:15 | The factor `k = 2/(periodo+1)` lies in (0, 1] for every period of at least 1. |
| Averages.EmaLoopRecurrence | src/app/page.tsx:19-22 | Each value the `for` loop stores is `x[i]*k + e*(1-k)`, where `e` is the value stored just before it (or the seed, for the first one). |
| Averages.EmaSeries | src/app/page.tsx:14-24 | The EMA array is `max(period, |xs|)` long and undefined exactly before `period-1`. At `period-1` it holds the sum of the first `min(period, |xs|)` inputs divided by `period`. After that it follows `ema[i] = x[i]*k + ema[i-1]*(1-k)`. |
| Averages.Ema | src/app/page.tsx:14-24 | `calcularEMA` throws (empty `reduce`) exactly when its input is empty. Otherwise it returns the array described for `EmaSeries`. |
| Averages.EmaAtLeast | src/app/page.tsx:14-24 | If every input is at least `lo`, so is every defined EMA value. When the input is shorter than the period, this is promised only for `lo <= 0`. |
| Averages.EmaAtMost | src/app/page.tsx:14-24 | If every input is at most `hi`, so is every defined EMA value. When the input is shorter than the period, this is promised only for `hi >= 0`. |
| Averages.EmaOfConstant | src/app/page.tsx:14-24 | On a constant series at least `period` long, every defined EMA value equals the constant. |
| AverageTrueRange.TrueRange | src/app/page.tsx:41-45 | The true range is at least each of `high-low`, `|high-prevClose|` and `|low-prevClose|`, equals one of them, and is never negative. |
| AverageTrueRange.TrueRanges | src/app/page.tsx:39-47 | `trs` is as long as `closes` (1 when there are no closes) and starts with 0. Entry `i >= 1` is the true range of bar `i` against close `i-1`. Every entry is at least 0. |
| AverageTrueRange.Atr | src/app/page.tsx:38-49 | The ATR array is `max(14, |closes|)` long, defined exactly from index 13, and never negative. |
| MacdIndicator.Difference | src/app/page.tsx:54-56 | The MACD line has one entry per close and is defined at `i` exactly when both EMAs are defined there. |
| MacdIndicator.Compact | src/app/page.tsx:57 | `filter(Boolean)` keeps only defined, non-zero values that occur in its input. Every such value of the input survives. The result is never longer than the input. When every entry is defined and non-zero, it is exactly those values in their original order. |
| MacdIndicator.CompactAppend | src/app/page.tsx:57 | `filter` works element by element: compacting `a + b` gives the compacted `a` followed by the compacted `b`, so order and repetitions are kept. |
| MacdIndicator.CompactCount | src/app/page.tsx:57 | Compacting `h` leading holes followed by non-zero values leaves exactly `|s| - h` values. |
| MacdIndicator.PadStart | src/app/page.tsx:58-59 | `Array(diff).fill(undefined).concat(s)` throws exactly when `diff < 0`. Otherwise the result is `n` long, its first `n-|s|` entries are holes, and `s` fills the last `|s|` places. |
| MacdIndicator.Macd | src/app/page.tsx:51-61 | Whenever `calcularMACD` returns, `macd` and `sinal` both have one entry per close. |
| MacdIndicator.MacdShape | src/app/page.tsx:51-61 | `calcularMACD` throws (empty `reduce`) exactly when there are no closes or the compacted line is empty. Otherwise its `macd` is the line, and its `sinal` starts with `|closes| - |linhaSinal|` holes, a count that is never negative, followed by the EMA-9 of the compacted line. |
| MacdIndicator.CompactEmptyIff | src/app/page.tsx:57 | `filter(Boolean)` returns an empty array exactly when no entry is both defined and non-zero. |
| MacdIndicator.LineDefinedFromSlowSeed | src/app/page.tsx:52-56 | The MACD line is defined exactly from index 25. There it equals `ema12[i] - ema26[i]`. |
| MacdIndicator.LineLongEnough | src/app/page.tsx:57-59 | Whenever the signal EMA does not throw, its array fits inside the line, so the padding count is never negative. |
| MacdIndicator.MacdThrowsIffLineVanishes | src/app/page.tsx:51-61 | `calcularMACD` throws exactly when every line value from index 25 on is 0. This includes the case of fewer than 26 closes. |
| MacdIndicator.CompactedLineLength | src/app/page.tsx:54-57 | A line with no exact zero compacts to its `|closes| - 25` defined values. |
| MacdIndicator.SignalAlignedWithoutZeros | src/app/page.tsx:57-59 | With at least 34 closes and no zero MACD value, the padded signal line is defined exactly from index 33 (25 + 8). |
| Signals.Generate | src/app/page.tsx:63-92 | `sinais` is empty for fewer than two closes. Otherwise it is `|closes|` long with a hole at index 0. Each later bar is `null`, buy or sell. It carries the up label exactly when the bar is open and the watched series (MACD, or the close) crosses strictly above the reference (signal line, or SMA) between `i-1` and `i`. The down label follows the same rule for a strict crossing below. |
| Signals.CrossingsExclusive | src/app/page.tsx:71-75 | An upward and a downward crossing can never hold at the same bar. |
| Signals.HoldWhenUndefined | src/app/page.tsx:66-81 | MACD mode gives `null` when MACD or the signal is undefined at `i-1` or `i`, or when a defined ATR at `i` is below `atrMin`. SMA mode gives `null` when the SMA is undefined at `i-1` or `i`. |
| Signals.InvertSwapsLabels | src/app/page.tsx:71-88 | Toggling `invertido` turns every buy into a sell and every sell into a buy. The hole and the `null` bars stay unchanged. |
| Signals.SingleCrossingFiresOnce | src/app/page.tsx:66-76 | Take MACD arrays shaped as `calcularMACD` returns them: the signal line is a hole before some bar `d < c`, and both lines are defined from `d` on. Suppose the ATR gate is open from bar 1, MACD is below its signal on `[d, c)` and above it from `c` on. Then bar `c` gets the up label and every other bar from 1 on is `null`. |
| Signals.SingleDownCrossingFiresOnce | src/app/page.tsx:66-76 | The mirror case, with the same hole-before-`d` shape: MACD above its signal on `[d, c)` and below it from `c` on gives the down label at `c` and `null` at every other bar from 1 on. |
| Strategy.Simulate | src/app/page.tsx:94-112 | The trades are the greedy buy-then-sell pairing, in order and non-overlapping, with entry < exit. Each trade opens at the first buy after the previous one closed and closes at the first sell after that. Its return is `(close[exit]-close[entry])/close[entry]`. No buy is later followed by a sell after the last trade. The total is the plain sum of the returns, so an open position adds nothing. There are never more trades than buys. |
| Strategy.CloseTrade | src/app/page.tsx:102-107 | Closing the open position on a sell extends the pairing by one well-formed trade, and the strategy is flat from the next bar on. |
| Pipeline.Recompute | src/app/page.tsx:174-180 | One recomputation throws exactly when `calcularMACD` does, in either mode. Otherwise `sma`, `atr` and the MACD lines are the results of `calcularSMA`, `calcularATR` and `calcularMACD` on the candles' closes, highs and lows. The signals are `gerarSinais` of those arrays and never outnumber the candles, and the report pairs them as `Simulate` promises. |
| Pipeline.Backtest | src/app/page.tsx:177-180 | The signals are exactly those `gerarSinais` computes, with at most one per close. The report is the greedy buy-then-sell pairing of those signals on the same closes, and its total is the sum of the trade returns. |

## Left out

- The fetch from the exchange API, `res.json()` and `parseFloat` of each bar (src/app/page.tsx:166-172): I/O. `Pipeline.Recompute` starts from decoded candles instead.
- The candle's open time, which only feeds the date labels (src/app/page.tsx:169): formatting, not logic.
- `desenharGrafico`, i.e. Chart.js rendering and disposing of the previous chart (src/app/page.tsx:114-163): a wrapper over a library outside this model.
- React state, the `useEffect` re-run triggers and the JSX controls (src/app/page.tsx:5-12, 183-202): UI plumbing. The settings become the plain inputs `Settings` and `period`.
- The `toFixed(2)` percentage text of the report (src/app/page.tsx:105, 110): float-to-string formatting. The report is modelled as its data: the list of trades and the total.
- IEEE-754 rounding, `NaN` and `Infinity`: numbers are exact reals.
- MacdIndicator.MacdThrowsIffLineVanishes: a constant series throws in the model, because its exact MACD line is 0 from index 25 on. With doubles the line is a tiny non-zero residue there (about `-4.16e-17` for a constant 0.1), so the page returns normally. Which inputs throw is promised only for exact reals.
- Strategy.Simulate: requires a non-zero close at every buy bar. A zero entry price would give `Infinity`/`NaN` in the source.
- Strategy.Simulate: requires `|signals| <= |closes|`. Reading past `closes` would give `NaN`. Inside the pipeline this always holds.
- Pipeline.Recompute: requires every close to be non-zero, which is stronger than the simulator needs.
- Pipeline.Backtest: requires every close to be non-zero, for the same reason.
- Averages.Sma: requires a whole period of at least 1. The number input also accepts 0, negative, fractional or empty values, whose JavaScript behaviour (writes to index -1, `NaN`) is not modelled.
- AverageTrueRange.Atr: requires `highs` and `lows` at least as long as `closes`. The page always passes arrays of equal length. Only the default period 14 is modelled because no caller passes another one.
- Averages.EmaOfConstant: requires the input to be at least `period` long. On a shorter constant input the code's seed is `|xs|*c/period`, not `c`, and `EmaSeries` states that value.
- next.config.ts: build configuration, with no logic.
