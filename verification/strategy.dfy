/** `calcularLucro`: a long-only strategy that buys on `'buy'`, sells on
    `'sell'`, and adds up the simple returns of its closed trades. */
module Strategy {
  import opened Signals

  /** `precoCompra`: `null` while flat; while long, the buy price (and, for the
      record, the bar it was bought on). */
  datatype Position = Flat | Long(entry: nat, price: real)

  /** One closed trade: the bars it was opened and closed on and its return. */
  datatype Trade = Trade(entry: nat, exit: nat, gain: real)

  /** The trade list the report prints, and `lucro`, the total. */
  datatype Report = Report(trades: seq<Trade>, total: real)

  /** `lucroOperacao = (exit - entry) / entry`. */
  function Gain(buyPrice: real, sellPrice: real): real
    requires buyPrice != 0.0
  {
    (sellPrice - buyPrice) / buyPrice
  }

  /** The plain, uncompounded sum of the trade returns, in order. */
  function Total(trades: seq<Trade>): real {
    if |trades| == 0 then 0.0 else Total(trades[..|trades| - 1]) + trades[|trades| - 1].gain
  }

  /** The number of `'buy'` entries. */
  function CountBuys(signals: seq<Bar>): nat {
    if |signals| == 0 then 0
    else CountBuys(signals[..|signals| - 1]) + (if signals[|signals| - 1] == Buy then 1 else 0)
  }

  /** The first bar at which the strategy is flat again before trade `j`. */
  function FlatFrom(trades: seq<Trade>, j: nat): nat
    requires j <= |trades|
  {
    if j == 0 then 0 else trades[j - 1].exit + 1
  }

  /** Every trade closes before bar `n`, opens on a `'buy'` no earlier than the
      bar after the previous trade closed, and closes on a later `'sell'`; its
      return is computed from the closes at those two bars. No `'buy'` lies
      between the previous close and the opening (it would have opened the
      trade earlier), and no `'sell'` lies between the opening and the close
      (it would have closed the trade earlier). */
  ghost predicate Traded(signals: seq<Bar>, closes: seq<real>, trades: seq<Trade>, n: nat) {
    && n <= |signals| <= |closes|
    && forall j :: 0 <= j < |trades| ==> TradeAt(signals, closes, trades, j, n)
  }

  /** Trade `j` as `Traded` describes it. */
  ghost predicate TradeAt(signals: seq<Bar>, closes: seq<real>, trades: seq<Trade>, j: nat, n: nat)
    requires n <= |signals| <= |closes| && j < |trades|
  {
    var trade := trades[j];
    && FlatFrom(trades, j) <= trade.entry < trade.exit < n
    && signals[trade.entry] == Buy
    && signals[trade.exit] == Sell
    && closes[trade.entry] != 0.0
    && trade.gain == Gain(closes[trade.entry], closes[trade.exit])
    && (forall t :: FlatFrom(trades, j) <= t < trade.entry ==> signals[t] != Buy)
    && (forall t :: trade.entry < t < trade.exit ==> signals[t] != Sell)
  }

  /** After the last closed trade no `'buy'` is followed by a `'sell'`: the
      position left open at the end, if any, was never closed. */
  ghost predicate NoRoundTripAfter(signals: seq<Bar>, trades: seq<Trade>) {
    forall b, t :: FlatFrom(trades, |trades|) <= b < t < |signals| && signals[b] == Buy ==> signals[t] != Sell
  }

  /** `calcularLucro(sinais, closes)`: the report is exactly the greedy pairing
      of each first `'buy'` while flat with the next `'sell'`, a `'sell'`
      while flat and a `'buy'` while long being ignored; the total is the plain
      sum of the returns of the closed trades (an open position adds nothing);
      and there are never more trades than `'buy'` entries. */
  method Simulate(signals: seq<Bar>, closes: seq<real>) returns (report: Report)
    requires |signals| <= |closes|
    requires forall i :: 0 <= i < |signals| && signals[i] == Buy ==> closes[i] != 0.0
    ensures Traded(signals, closes, report.trades, |signals|)
    ensures NoRoundTripAfter(signals, report.trades)
    ensures report.total == Total(report.trades)
    ensures |report.trades| <= CountBuys(signals)
  {
    var total := 0.0;
    var position := Flat;
    var trades: seq<Trade> := [];
    var i := 0;
    while i < |signals|
      invariant 0 <= i <= |signals|
      invariant Traded(signals, closes, trades, i)
      invariant FlatFrom(trades, |trades|) <= i
      invariant position.Flat? ==> NoBuySince(signals, FlatFrom(trades, |trades|), i)
      invariant position.Long? ==> Holding(signals, closes, trades, position, i)
      invariant total == Total(trades)
      invariant |trades| + (if position.Long? then 1 else 0) <= CountBuys(signals[..i])
    {
      CountBuysStep(signals, i);
      if signals[i] == Buy && position.Flat? {
        TradedLater(signals, closes, trades, i);
        position := Long(i, closes[i]);
      } else if signals[i] == Sell && position.Long? {
        var trade := Trade(position.entry, i, Gain(position.price, closes[i]));
        CloseTrade(signals, closes, trades, position, i);
        TotalAppend(trades, trade);
        trades := trades + [trade];
        total := total + trade.gain;
        position := Flat;
      } else {
        TradedLater(signals, closes, trades, i);
      }
      i := i + 1;
    }
    assert signals[..|signals|] == signals;
    OpenPositionNeverCloses(signals, trades, position);
    report := Report(trades, total);
  }

  /** Flat since bar `from`: no `'buy'` in [from, i). */
  ghost predicate NoBuySince(signals: seq<Bar>, from: nat, i: nat) {
    forall t :: from <= t < i && t < |signals| ==> signals[t] != Buy
  }

  /** Long at bar `i`: opened on the first `'buy'` after the last close, at that
      bar's price, and no `'sell'` seen since. */
  ghost predicate Holding(signals: seq<Bar>, closes: seq<real>, trades: seq<Trade>, position: Position, i: nat)
    requires position.Long?
  {
    && FlatFrom(trades, |trades|) <= position.entry < i <= |signals| <= |closes|
    && signals[position.entry] == Buy
    && position.price == closes[position.entry]
    && NoBuySince(signals, FlatFrom(trades, |trades|), position.entry)
    && (forall t :: position.entry < t < i ==> signals[t] != Sell)
  }

  lemma TradedLater(signals: seq<Bar>, closes: seq<real>, trades: seq<Trade>, i: nat)
    requires i < |signals|
    requires Traded(signals, closes, trades, i)
    ensures Traded(signals, closes, trades, i + 1)
  {
    var n := i + 1;
    forall j | 0 <= j < |trades|
      ensures TradeAt(signals, closes, trades, j, n)
    {
      assert TradeAt(signals, closes, trades, j, i);
    }
  }

  lemma CloseTrade(signals: seq<Bar>, closes: seq<real>, trades: seq<Trade>, position: Position, i: nat)
    requires i < |signals|
    requires position.Long?
    requires Traded(signals, closes, trades, i)
    requires Holding(signals, closes, trades, position, i)
    requires signals[i] == Sell
    requires closes[position.entry] != 0.0
    ensures var more := trades + [Trade(position.entry, i, Gain(position.price, closes[i]))];
            Traded(signals, closes, more, i + 1) && FlatFrom(more, |more|) == i + 1
  {
    var trade := Trade(position.entry, i, Gain(position.price, closes[i]));
    var more := trades + [trade];
    var n := i + 1;
    forall j | 0 <= j < |more|
      ensures TradeAt(signals, closes, more, j, n)
    {
      if j < |trades| {
        assert more[j] == trades[j];
        assert FlatFrom(more, j) == FlatFrom(trades, j);
        assert TradeAt(signals, closes, trades, j, i);
      } else {
        assert more[j] == trade;
        assert FlatFrom(more, j) == FlatFrom(trades, |trades|);
      }
    }
  }

  lemma TotalAppend(trades: seq<Trade>, trade: Trade)
    ensures Total(trades + [trade]) == Total(trades) + trade.gain
  {
    assert (trades + [trade])[..|trades|] == trades;
  }

  lemma CountBuysStep(signals: seq<Bar>, i: nat)
    requires i < |signals|
    ensures CountBuys(signals[..i + 1]) == CountBuys(signals[..i]) + (if signals[i] == Buy then 1 else 0)
  {
    assert signals[..i + 1][..i] == signals[..i];
  }

  lemma OpenPositionNeverCloses(signals: seq<Bar>, trades: seq<Trade>, position: Position)
    requires position.Flat? ==> NoBuySince(signals, FlatFrom(trades, |trades|), |signals|)
    requires position.Long? ==>
               && FlatFrom(trades, |trades|) <= position.entry < |signals|
               && NoBuySince(signals, FlatFrom(trades, |trades|), position.entry)
               && (forall t :: position.entry < t < |signals| ==> signals[t] != Sell)
    ensures NoRoundTripAfter(signals, trades)
  {
  }
}
