/** The trade-to-candle converter of utility_scripts/convert_trades_to_candles.py. Times are
    integer milliseconds and an interval is a whole divisor of a day, so that intervals start
    at multiples of their width. */
module TradeCandles {
  import opened Options
  import opened PagedHistory
  import opened DedupeSort
  import opened Chunks
  import opened Grouping

  datatype Deal = Deal(price: real, amount: real)
  type Trade = Entry<Deal>

  /** A column of the candle table; None is a missing value. */
  type Column = seq<Option<real>>

  function Times(trades: seq<Trade>): (t: seq<int>)
    ensures |t| == |trades|
  {
    seq(|trades|, i requires 0 <= i < |trades| => trades[i].ts)
  }

  function Prices(trades: seq<Trade>): (p: seq<real>)
    ensures |p| == |trades|
  {
    seq(|trades|, i requires 0 <= i < |trades| => trades[i].payload.price)
  }

  function Amounts(trades: seq<Trade>): (a: seq<real>)
    ensures |a| == |trades|
  {
    seq(|trades|, i requires 0 <= i < |trades| => trades[i].payload.amount)
  }

  function Highest(xs: seq<real>): (m: real)
    requires xs != []
    ensures m in xs && forall i :: 0 <= i < |xs| ==> xs[i] <= m
  {
    if |xs| == 1 then xs[0]
    else
      var m := Highest(xs[..|xs| - 1]);
      if xs[|xs| - 1] > m then xs[|xs| - 1] else m
  }

  function Lowest(xs: seq<real>): (m: real)
    requires xs != []
    ensures m in xs && forall i :: 0 <= i < |xs| ==> m <= xs[i]
  {
    if |xs| == 1 then xs[0]
    else
      var m := Lowest(xs[..|xs| - 1]);
      if xs[|xs| - 1] < m then xs[|xs| - 1] else m
  }

  function Opens(bins: seq<seq<real>>): (c: Column)
    ensures |c| == |bins|
  {
    seq(|bins|, b requires 0 <= b < |bins| => if bins[b] == [] then None else Some(bins[b][0]))
  }

  function Highs(bins: seq<seq<real>>): (c: Column)
    ensures |c| == |bins|
  {
    seq(|bins|, b requires 0 <= b < |bins| => if bins[b] == [] then None else Some(Highest(bins[b])))
  }

  function Lows(bins: seq<seq<real>>): (c: Column)
    ensures |c| == |bins|
  {
    seq(|bins|, b requires 0 <= b < |bins| => if bins[b] == [] then None else Some(Lowest(bins[b])))
  }

  function Closes(bins: seq<seq<real>>): (c: Column)
    ensures |c| == |bins|
  {
    seq(|bins|, b requires 0 <= b < |bins| => if bins[b] == [] then None else Some(bins[b][|bins[b]| - 1]))
  }

  /** The value a forward fill leaves at position `b`: the last present one up to there. */
  function LastPresent(c: Column, b: nat): Option<real>
    requires b < |c|
  {
    if c[b].Some? || b == 0 then c[b] else LastPresent(c, b - 1)
  }

  /** ffill() */
  ghost predicate ForwardFilled(c: Column, filled: Column) {
    |filled| == |c| && forall b :: 0 <= b < |c| ==> filled[b] == LastPresent(c, b)
  }

  /** fillna(other) */
  ghost predicate FilledFrom(c: Column, other: Column, filled: Column)
    requires |other| == |c|
  {
    |filled| == |c| && forall b :: 0 <= b < |c| ==> filled[b] == if c[b].Some? then c[b] else other[b]
  }

  method FillFrom(c: Column, other: Column) returns (filled: Column)
    requires |other| == |c|
    ensures FilledFrom(c, other, filled)
  {
    filled := c;
    for b := 0 to |c|
      invariant |filled| == |c| && filled[b..] == c[b..]
      invariant forall i :: 0 <= i < b ==> filled[i] == if c[i].Some? then c[i] else other[i]
    {
      if c[b].None? {
        filled := filled[b := other[b]];
      }
    }
  }

  method FillForward(c: Column) returns (filled: Column)
    ensures ForwardFilled(c, filled)
  {
    filled := c;
    for b := 0 to |c|
      invariant |filled| == |c| && filled[b..] == c[b..]
      invariant forall i :: 0 <= i < b ==> filled[i] == LastPresent(c, i)
    {
      if b > 0 && filled[b].None? {
        filled := filled[b := filled[b - 1]];
      }
    }
  }

  /** The `candles` table; its columns are overwritten one after another. */
  class CandleTable {
    var open: Column
    var high: Column
    var low: Column
    var close: Column
    var volume: seq<real>

    /** resample().ohlc() and resample().sum(), side by side. */
    constructor (prices: seq<seq<real>>, amounts: seq<seq<real>>)
      ensures open == Opens(prices) && high == Highs(prices) && low == Lows(prices) && close == Closes(prices)
      ensures volume == Totals(amounts)
    {
      open, high, low, close := Opens(prices), Highs(prices), Lows(prices), Closes(prices);
      volume := Totals(amounts);
    }

    method FillGaps()
      requires |open| == |high| == |low| == |close|
      modifies this
      ensures ForwardFilled(old(close), close) && FilledFrom(old(open), close, open)
      ensures FilledFrom(old(high), close, high) && FilledFrom(old(low), close, low)
      ensures volume == old(volume)
    {
      close := FillForward(close);
      open := FillFrom(open, close);
      high := FillFrom(high, close);
      low := FillFrom(low, close);
    }
  }

  /** The trades of every interval from the first to the last one. */
  function Intervals(trades: seq<Trade>, width: int): (bins: seq<seq<real>>)
    requires width >= 1 && Sorted(trades)
  {
    assert NonDecreasing(Times(trades));
    Resampled(Times(trades), Prices(trades), width)
  }

  function IntervalAmounts(trades: seq<Trade>, width: int): (bins: seq<seq<real>>)
    requires width >= 1 && Sorted(trades)
  {
    assert NonDecreasing(Times(trades));
    Resampled(Times(trades), Amounts(trades), width)
  }

  /** The whole conversion: resampling sorts the rows by time, stably. */
  method Convert(rows: seq<Trade>, width: int) returns (t: CandleTable)
    requires width >= 1
    ensures fresh(t) && Sorted(SortByTime(rows))
    ensures var bins := Intervals(SortByTime(rows), width);
            && ForwardFilled(Closes(bins), t.close)
            && FilledFrom(Opens(bins), t.close, t.open)
            && FilledFrom(Highs(bins), t.close, t.high)
            && FilledFrom(Lows(bins), t.close, t.low)
            && t.volume == Totals(IntervalAmounts(SortByTime(rows), width))
  {
    SortSorted(rows);
    var trades := SortByTime(rows);
    t := new CandleTable(Intervals(trades, width), IntervalAmounts(trades, width));
    t.FillGaps();
  }

  // ---------------------------------------------------------------- the sort

  lemma {:induction false} InsertSorted(trades: seq<Trade>, e: Trade)
    requires Sorted(trades)
    ensures var out := Insert(trades, e);
            && Sorted(out) && |out| == |trades| + 1
            && (out[|out| - 1] == e || (trades != [] && out[|out| - 1] == trades[|trades| - 1]))
    ensures Sum(Amounts(Insert(trades, e))) == Sum(Amounts(trades)) + e.payload.amount
  {
    hide Amounts, Sum;
    if trades == [] || trades[|trades| - 1].ts <= e.ts {
      AmountsSnoc(trades, e);
    } else {
      var init, last := trades[..|trades| - 1], trades[|trades| - 1];
      InsertSorted(init, e);
      assert Insert(trades, e) == Insert(init, e) + [last];
      AmountsSnoc(Insert(init, e), last);
      AmountsSnoc(init, last);
      assert trades == init + [last];
    }
  }

  lemma {:induction false} AmountsSnoc(trades: seq<Trade>, e: Trade)
    ensures Sum(Amounts(trades + [e])) == Sum(Amounts(trades)) + e.payload.amount
  {
    assert Amounts(trades + [e]) == Amounts(trades) + [e.payload.amount];
    SumJoin(Amounts(trades), [e.payload.amount]);
    assert Sum([e.payload.amount]) == Sum([]) + e.payload.amount;
  }

  lemma {:induction false} SortSorted(rows: seq<Trade>)
    ensures Sorted(SortByTime(rows)) && |SortByTime(rows)| == |rows|
    ensures Sum(Amounts(SortByTime(rows))) == Sum(Amounts(rows))
  {
    if rows != [] {
      var init, last := rows[..|rows| - 1], rows[|rows| - 1];
      SortSorted(init);
      InsertSorted(SortByTime(init), last);
      AmountsSnoc(init, last);
      assert rows == init + [last];
    }
  }

  // ---------------------------------------------------------------- the finished candles

  /** What Convert returns, column by column. */
  ghost predicate Finished(trades: seq<Trade>, width: int, open: Column, high: Column, low: Column, close: Column)
    requires width >= 1 && Sorted(trades)
  {
    var bins := Intervals(trades, width);
    && ForwardFilled(Closes(bins), close) && FilledFrom(Opens(bins), close, open)
    && FilledFrom(Highs(bins), close, high) && FilledFrom(Lows(bins), close, low)
  }

  /** MAIN: there is one candle for every interval from the first trade to the last, and the
      candles' volumes add up to the amount traded. */
  lemma {:induction false} OneCandlePerInterval(rows: seq<Trade>, width: int)
    requires width >= 1
    ensures var trades := SortByTime(rows);
            && Sorted(trades) && |trades| == |rows|
            && |Intervals(trades, width)| ==
                 (if trades == [] then 0 else trades[|trades| - 1].ts / width - trades[0].ts / width + 1)
            && Sum(Totals(IntervalAmounts(trades, width))) == Sum(Amounts(rows))
  {
    SortSorted(rows);
    var trades := SortByTime(rows);
    BinsCover(Times(trades), width);
    ColumnConserved(Times(trades), Amounts(trades), width);
  }

  /** The number of trades before the end of interval `b`. */
  function Through(trades: seq<Trade>, width: int, b: nat): (n: nat)
    requires width >= 1
    ensures n <= |trades|
  {
    EndOfBin(Times(trades), width, b)
  }

  /** Interval `b` holds the trades from the end of the interval before it to its own end. */
  lemma {:induction false} IntervalIsSlice(trades: seq<Trade>, width: int, b: nat)
    requires width >= 1 && Sorted(trades) && b < |Intervals(trades, width)|
    ensures var from := if b == 0 then 0 else Through(trades, width, b - 1);
            var to := Through(trades, width, b);
            from <= to && to >= 1 && Intervals(trades, width)[b] == Prices(trades)[from..to]
  {
    hide EndOfBin, Resampled;
    BinIsSlice(Times(trades), Prices(trades), width, b);
  }

  /** The volume of an interval is the amount traded in the very same trades, 0 when there
      are none. */
  lemma {:induction false} IntervalVolume(trades: seq<Trade>, width: int, b: nat)
    requires width >= 1 && Sorted(trades) && b < |IntervalAmounts(trades, width)|
    ensures var from := if b == 0 then 0 else Through(trades, width, b - 1);
            var to := Through(trades, width, b);
            && from <= to && Totals(IntervalAmounts(trades, width))[b] == Sum(Amounts(trades)[from..to])
            && (from == to ==> Totals(IntervalAmounts(trades, width))[b] == 0.0)
  {
    hide EndOfBin, Resampled;
    BinIsSlice(Times(trades), Amounts(trades), width, b);
  }

  /** The price of the last of the first `n` trades. */
  function LatestPrice(trades: seq<Trade>, n: nat): Option<real>
    requires n <= |trades|
  {
    if n == 0 then None else Some(trades[n - 1].payload.price)
  }

  lemma {:induction false} LastPresentStep(bins: seq<seq<real>>, b: nat)
    requires b < |bins|
    ensures bins[b] != [] ==> LastPresent(Closes(bins), b) == Some(bins[b][|bins[b]| - 1])
    ensures bins[b] == [] && b > 0 ==> LastPresent(Closes(bins), b) == LastPresent(Closes(bins), b - 1)
  {
  }

  lemma {:induction false} LastOfSlice(trades: seq<Trade>, a: nat, b: nat)
    requires a <= b <= |trades| && Prices(trades)[a..b] != []
    ensures var xs := Prices(trades)[a..b]; Some(xs[|xs| - 1]) == LatestPrice(trades, b)
  {
  }

  /** MAIN: every close, of an empty interval too, is the price of the last trade up to the
      end of the interval. */
  lemma {:induction false} CloseIsLatest(trades: seq<Trade>, width: int, b: nat)
    requires width >= 1 && Sorted(trades) && b < |Intervals(trades, width)|
    ensures Through(trades, width, b) >= 1
    ensures LastPresent(Closes(Intervals(trades, width)), b) == LatestPrice(trades, Through(trades, width, b))
  {
    IntervalIsSlice(trades, width, b);
    hide Intervals, Through, Closes, LastPresent, Prices, LatestPrice;
    var bins := Intervals(trades, width);
    LastPresentStep(bins, b);
    if bins[b] == [] {
      CloseIsLatest(trades, width, b - 1);
    } else {
      var from := if b == 0 then 0 else Through(trades, width, b - 1);
      LastOfSlice(trades, from, Through(trades, width, b));
    }
  }

  /** MAIN: the finished candles have no gaps; a candle with trades opens at the first and
      closes at the last, between the lowest and the highest price traded; an empty one is
      flat at the price of the last earlier trade. */
  lemma {:induction false} CandleShape(trades: seq<Trade>, width: int, open: Column, high: Column, low: Column,
                                       close: Column, b: nat)
    requires width >= 1 && Sorted(trades) && b < |Intervals(trades, width)|
    requires Finished(trades, width, open, high, low, close)
    ensures open[b].Some? && high[b].Some? && low[b].Some? && close[b].Some?
    ensures low[b].value <= open[b].value <= high[b].value && low[b].value <= close[b].value <= high[b].value
    ensures close[b] == LatestPrice(trades, Through(trades, width, b))
    ensures var own := Intervals(trades, width)[b];
            if own == [] then
              b >= 1 && open[b] == high[b] == low[b] == close[b] &&
              close[b] == LatestPrice(trades, Through(trades, width, b - 1))
            else
              && open[b].value == own[0] && close[b].value == own[|own| - 1]
              && high[b].value in own && low[b].value in own
              && forall i :: 0 <= i < |own| ==> low[b].value <= own[i] <= high[b].value
  {
    IntervalIsSlice(trades, width, b);
    CloseIsLatest(trades, width, b);
    hide Intervals, Through, Times;
    assert LastPresent(Closes(Intervals(trades, width)), b) == close[b];
  }
}
