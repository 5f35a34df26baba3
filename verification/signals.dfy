/** `gerarSinais`: one buy/sell/nothing label per bar, from a crossing of MACD
    over its signal line (gated by the ATR) or of the close over the SMA. */
module Signals {
  import opened Series

  /** An entry of `sinais`: index 0 is never written (a hole), the others are
      `null`, `'buy'` or `'sell'`. */
  datatype Bar = Unset | Hold | Buy | Sell

  /** The component state `gerarSinais` reads: `modo`, `atrMin`, `invertido`. */
  datatype Settings = Settings(mode: string, atrMin: real, inverted: bool)

  /** The mode string that selects MACD crossings; every other string selects
      the close/SMA crossing. */
  const MacdMode := "macd"

  /** The index-aligned arrays `gerarSinais` receives. */
  datatype Inputs = Inputs(closes: seq<real>, sma: Series, macd: Series, signal: Series, atr: Series)

  /** The label of an upward crossing, and of a downward one. */
  function UpLabel(inverted: bool): Bar {
    if inverted then Sell else Buy
  }

  function DownLabel(inverted: bool): Bar {
    if inverted then Buy else Sell
  }

  /** `'buy'` and `'sell'` exchanged, every other entry kept. */
  function Swap(b: Bar): Bar {
    match b
    case Buy => Sell
    case Sell => Buy
    case _ => b
  }

  /** `gerarSinais`'s loop body at bar `i >= 1`, branch for branch. */
  function BarSignal(s: Settings, inp: Inputs, i: nat): Bar
    requires 1 <= i < |inp.closes|
  {
    if s.mode == MacdMode then
      if At(inp.macd, i - 1).None? || At(inp.signal, i - 1).None? || Less(At(inp.atr, i), Some(s.atrMin)) then Hold
      else if Less(At(inp.macd, i - 1), At(inp.signal, i - 1)) && Less(At(inp.signal, i), At(inp.macd, i)) then UpLabel(s.inverted)
      else if Less(At(inp.signal, i - 1), At(inp.macd, i - 1)) && Less(At(inp.macd, i), At(inp.signal, i)) then DownLabel(s.inverted)
      else Hold
    else
      if At(inp.sma, i - 1).None? || At(inp.sma, i).None? then Hold
      else if Less(Some(inp.closes[i - 1]), At(inp.sma, i - 1)) && Less(At(inp.sma, i), Some(inp.closes[i])) then UpLabel(s.inverted)
      else if Less(At(inp.sma, i - 1), Some(inp.closes[i - 1])) && Less(Some(inp.closes[i]), At(inp.sma, i)) then DownLabel(s.inverted)
      else Hold
  }

  /** The watched series at bar `i`: MACD in MACD mode, the close otherwise. */
  function Watched(s: Settings, inp: Inputs, i: nat): Option<real> {
    if s.mode == MacdMode then At(inp.macd, i)
    else if i < |inp.closes| then Some(inp.closes[i])
    else None
  }

  /** The reference series at bar `i`: the signal line in MACD mode, the SMA otherwise. */
  function Reference(s: Settings, inp: Inputs, i: nat): Option<real> {
    if s.mode == MacdMode then At(inp.signal, i) else At(inp.sma, i)
  }

  /** The watched series passes strictly from below the reference at `i - 1`
      to strictly above it at `i` (both defined at both bars). */
  predicate CrossesUp(s: Settings, inp: Inputs, i: nat)
    requires i >= 1
  {
    Less(Watched(s, inp, i - 1), Reference(s, inp, i - 1)) && Less(Reference(s, inp, i), Watched(s, inp, i))
  }

  predicate CrossesDown(s: Settings, inp: Inputs, i: nat)
    requires i >= 1
  {
    Less(Reference(s, inp, i - 1), Watched(s, inp, i - 1)) && Less(Watched(s, inp, i), Reference(s, inp, i))
  }

  /** Whether bar `i` may carry a label at all: in MACD mode MACD and signal
      are defined at `i - 1` and the ATR at `i` is not below `atrMin` (an
      undefined ATR passes); otherwise the SMA is defined at `i - 1` and `i`. */
  predicate Open(s: Settings, inp: Inputs, i: nat)
    requires i >= 1
  {
    if s.mode == MacdMode then
      At(inp.macd, i - 1).Some? && At(inp.signal, i - 1).Some? && !Less(At(inp.atr, i), Some(s.atrMin))
    else
      At(inp.sma, i - 1).Some? && At(inp.sma, i).Some?
  }

  /** `gerarSinais(closes, sma, macd, sinal, atr)`. The array is empty for fewer
      than two closes; otherwise index 0 is a hole and every later bar is
      labelled from that bar and the one before it alone: the up label exactly
      on an open bar with an upward strict crossing, the down label exactly on
      an open bar with a downward one, `null` everywhere else. */
  function Generate(s: Settings, inp: Inputs): (r: seq<Bar>)
    ensures |r| == if |inp.closes| >= 2 then |inp.closes| else 0
    ensures |r| > 0 ==> r[0] == Unset
    ensures forall i :: 1 <= i < |r| ==> r[i] in {Hold, Buy, Sell}
    ensures forall i :: 1 <= i < |r| ==>
              (r[i] == UpLabel(s.inverted) <==> Open(s, inp, i) && CrossesUp(s, inp, i))
    ensures forall i :: 1 <= i < |r| ==>
              (r[i] == DownLabel(s.inverted) <==> Open(s, inp, i) && CrossesDown(s, inp, i))
  {
    if |inp.closes| < 2 then []
    else seq(|inp.closes|, i requires 0 <= i < |inp.closes| => if i == 0 then Unset else BarSignal(s, inp, i))
  }

  /** An upward and a downward crossing exclude each other, so a bar never
      qualifies for both labels. */
  lemma CrossingsExclusive(s: Settings, inp: Inputs, i: nat)
    requires i >= 1
    ensures !(CrossesUp(s, inp, i) && CrossesDown(s, inp, i))
  {
  }

  predicate MacdUndecided(s: Settings, inp: Inputs, i: nat)
    requires i >= 1
  {
    || At(inp.macd, i - 1).None? || At(inp.signal, i - 1).None?
    || Less(At(inp.atr, i), Some(s.atrMin))
    || At(inp.macd, i).None? || At(inp.signal, i).None?
  }

  predicate SmaUndecided(inp: Inputs, i: nat)
    requires i >= 1
  {
    At(inp.sma, i - 1).None? || At(inp.sma, i).None?
  }

  /** The `continue` cases: in MACD mode `null` whenever MACD or the signal line
      is undefined at `i - 1` or the ATR at `i` is below `atrMin`; in SMA mode
      whenever the SMA is undefined at `i - 1` or at `i`. An undefined value at
      `i` itself also yields `null`, since every comparison with it is false. */
  lemma HoldWhenUndefined(s: Settings, inp: Inputs)
    ensures var r := Generate(s, inp);
            forall i :: 1 <= i < |r| && s.mode == MacdMode && MacdUndecided(s, inp, i) ==> r[i] == Hold
    ensures var r := Generate(s, inp);
            forall i :: 1 <= i < |r| && s.mode != MacdMode && SmaUndecided(inp, i) ==> r[i] == Hold
  {
  }

  /** Toggling `invertido` exchanges every `'buy'` with `'sell'` and leaves the
      hole and the `null` bars as they are. */
  lemma InvertSwapsLabels(s: Settings, inp: Inputs)
    ensures Generate(s.(inverted := !s.inverted), inp) ==
              seq(|Generate(s, inp)|, i requires 0 <= i < |Generate(s, inp)| => Swap(Generate(s, inp)[i]))
  {
    var r := Generate(s, inp);
    var t := Generate(s.(inverted := !s.inverted), inp);
    forall i | 0 <= i < |r|
      ensures t[i] == Swap(r[i])
    {
      if i > 0 {
        CrossingsExclusive(s, inp, i);
      }
    }
  }

  /** A single clean MACD crossing, in the shape `calcularMACD` produces: the
      signal line is a hole before some bar `d < c` and MACD and the signal
      are both defined from `d` on. With the ATR gate open on every bar from
      1, MACD below its signal line on [d, c) and above it from `c` on,
      exactly bar `c` carries the up label and every other bar from 1 on is
      `null`. */
  lemma SingleCrossingFiresOnce(s: Settings, inp: Inputs, d: nat, c: nat)
    requires s.mode == MacdMode
    requires d < c < |inp.closes|
    requires forall j :: 0 <= j < d ==> At(inp.signal, j).None?
    requires forall j :: d <= j < |inp.closes| ==> At(inp.macd, j).Some? && At(inp.signal, j).Some?
    requires forall j :: 1 <= j < |inp.closes| ==> !Less(At(inp.atr, j), Some(s.atrMin))
    requires forall j :: d <= j < c ==> Less(At(inp.macd, j), At(inp.signal, j))
    requires forall j :: c <= j < |inp.closes| ==> Less(At(inp.signal, j), At(inp.macd, j))
    ensures Generate(s, inp)[c] == UpLabel(s.inverted)
    ensures forall j :: 1 <= j < |inp.closes| && j != c ==> Generate(s, inp)[j] == Hold
  {
    var r := Generate(s, inp);
    forall j | 1 <= j < |inp.closes| && j != c
      ensures r[j] == Hold
    {
      if j - 1 >= d {
        assert !CrossesUp(s, inp, j) && !CrossesDown(s, inp, j);
      }
    }
  }

  /** The mirror case, with the same holes before `d`: MACD above its signal
      line on [d, c) and below it from `c` on gives the down label at `c` and
      `null` on every other bar from 1 on. */
  lemma SingleDownCrossingFiresOnce(s: Settings, inp: Inputs, d: nat, c: nat)
    requires s.mode == MacdMode
    requires d < c < |inp.closes|
    requires forall j :: 0 <= j < d ==> At(inp.signal, j).None?
    requires forall j :: d <= j < |inp.closes| ==> At(inp.macd, j).Some? && At(inp.signal, j).Some?
    requires forall j :: 1 <= j < |inp.closes| ==> !Less(At(inp.atr, j), Some(s.atrMin))
    requires forall j :: d <= j < c ==> Less(At(inp.signal, j), At(inp.macd, j))
    requires forall j :: c <= j < |inp.closes| ==> Less(At(inp.macd, j), At(inp.signal, j))
    ensures Generate(s, inp)[c] == DownLabel(s.inverted)
    ensures forall j :: 1 <= j < |inp.closes| && j != c ==> Generate(s, inp)[j] == Hold
  {
    var r := Generate(s, inp);
    forall j | 1 <= j < |inp.closes| && j != c
      ensures r[j] == Hold
    {
      if j - 1 >= d {
        assert !CrossesUp(s, inp, j) && !CrossesDown(s, inp, j);
      }
    }
  }
}
