/** The two-task collector of backend/scripts/hybrid_collector.py: a trade task and an order
    book task that share the `latest_trade` accumulator under one lock.

    Every method of `Collector` is one atomic step of one task (the code between two awaits),
    so the interleavings of the tasks are exactly the sequences of events below. */
module HybridCollector {
  import opened Options
  import opened Chunks

  datatype Trade = Trade(price: real, qty: real, buyerIsMaker: bool)
  type Level = (real, real)
  datatype Book = Book(bids: seq<Level>, asks: seq<Level>)

  const DEPTH_LEVELS: nat := 20

  /** The numbered price and volume columns of one side of the book. */
  function Columns(side: seq<Level>): (c: seq<Option<Level>>)
    ensures |c| == DEPTH_LEVELS
  {
    seq(DEPTH_LEVELS, i => if 0 <= i < |side| then Some(side[i]) else None)
  }

  datatype Row = Row(tradePrice: Option<real>, tradeVolume: real, tradeCount: nat, buyVolume: real, sellVolume: real,
                     bids: seq<Option<Level>>, asks: seq<Option<Level>>)

  /** The shared `latest_trade` dict. */
  datatype Latest = Latest(price: Option<real>, volume: real, count: nat, buy: real, sell: real)

  const NOTHING := Latest(None, 0.0, 0, 0.0, 0.0)

  /** Where the order book task is: at the loop guard, waiting for a frame, between appending
      a row and the chunk check (it may sleep there), or out of the loop. */
  datatype Phase = AtGuard | Receiving | Appended | Completed | Stopped

  /** `trigger` is Some when the price trigger is enabled with a non-zero percentage. */
  datatype Config = Config(target: int, size: nat, hasJob: bool, trigger: Option<real>)

  datatype State = State(latest: Latest, phase: Phase, chunks: seq<seq<Row>>, buffer: seq<Row>,
                         totalCollected: nat, totalTrades: nat, initialPrice: Option<real>)

  const INITIAL := State(NOTHING, AtGuard, [], [], 0, 0, None)

  /** `Tick` evaluates the loop guard and the periodic cancellation check; `TimedOut` is a wait
      without a frame; `Frame` takes the lock, drains the accumulator and appends a row;
      `Garbled` is a frame whose book does not parse, which shows only after the drain;
      `Resume` is the chunk check, where writing the file may raise; `Abort` is a cancellation
      or an exception at an await. */
  datatype Event =
    | Took(trade: Trade)
    | Tick(cancelled: bool) | TimedOut | Frame(book: Book) | Garbled | Resume(stored: bool) | Abort

  function Add(l: Latest, t: Trade): Latest {
    Latest(Some(t.price), l.volume + t.qty, l.count + 1,
           if t.buyerIsMaker then l.buy else l.buy + t.qty,
           if t.buyerIsMaker then l.sell + t.qty else l.sell)
  }

  /** The accumulator after a drain: the price stays. */
  function Drain(l: Latest): Latest {
    Latest(l.price, 0.0, 0, 0.0, 0.0)
  }

  function RowOf(l: Latest, b: Book): Row {
    Row(l.price, l.volume, l.count, l.buy, l.sell, Columns(b.bids), Columns(b.asks))
  }

  function Abs(x: real): real {
    if x < 0.0 then -x else x
  }

  /** The percentage by which `price` has moved from the first price. */
  function Moved(initial: real, price: real): real
    requires initial != 0.0
  {
    Abs(price - initial) / initial * 100.0
  }

  /** A missing price and a price of 0 leave the trigger alone. */
  function FirstPrice(c: Config, initial: Option<real>, price: Option<real>): Option<real> {
    if c.trigger.Some? && initial.None? && price.Some? && price.value != 0.0 then price else initial
  }

  predicate Fires(c: Config, initial: Option<real>, price: Option<real>) {
    && c.trigger.Some? && initial.Some? && initial.value != 0.0
    && price.Some? && price.value != 0.0
    && Moved(initial.value, price.value) >= c.trigger.value
  }

  /** The events that can happen in a state; the trade task may always run. */
  predicate Enabled(c: Config, s: State, e: Event) {
    match e
    case Took(_) => true
    case Tick(_) => s.phase == AtGuard
    case TimedOut => s.phase == Receiving
    case Frame(_) => s.phase == Receiving
    case Garbled => s.phase == Receiving
    case Resume(_) => s.phase == Appended
    case Abort => s.phase == Receiving || s.phase == Appended || (s.phase == AtGuard && s.totalCollected < c.target)
  }

  /** One atomic step; an event that cannot happen changes nothing. */
  function Step(c: Config, s: State, e: Event): State {
    if !Enabled(c, s, e) then s else
    match e
    case Took(t) => s.(latest := Add(s.latest, t))
    case Tick(cancelled) =>
      if s.totalCollected >= c.target then s.(phase := Completed)
      else if s.totalCollected % 100 == 0 && c.hasJob && cancelled then s.(phase := Stopped)
      else s.(phase := Receiving)
    case TimedOut => s.(phase := AtGuard)
    case Frame(book) =>
      var row := RowOf(s.latest, book);
      State(Drain(s.latest),
            if Fires(c, s.initialPrice, row.tradePrice) then Stopped else Appended,
            s.chunks, s.buffer + [row], s.totalCollected + 1, s.totalTrades + s.latest.count,
            FirstPrice(c, s.initialPrice, row.tradePrice))
    case Garbled =>
      s.(latest := Drain(s.latest), totalTrades := s.totalTrades + s.latest.count, phase := Stopped)
    case Resume(stored) =>
      if |s.buffer| >= c.size || s.totalCollected >= c.target then
        if stored then s.(chunks := s.chunks + [s.buffer], buffer := [], phase := AtGuard)
        else s.(phase := Stopped)
      else s.(phase := AtGuard)
    case Abort => s.(phase := Stopped)
  }

  function Run(c: Config, events: seq<Event>): State {
    if events == [] then INITIAL else Step(c, Run(c, events[..|events| - 1]), events[|events| - 1])
  }

  /** The code itself: the fields it updates and one method per atomic step. */
  class Collector {
    const config: Config
    var tradePrice: Option<real>
    var tradeVolume: real
    var tradeCount: nat
    var buyVolume: real
    var sellVolume: real
    var phase: Phase
    var chunkFiles: seq<seq<Row>>
    var buffer: seq<Row>
    var totalCollected: nat
    var totalTradesCollected: nat
    var initialPrice: Option<real>

    function Now(): State
      reads this
    {
      State(Latest(tradePrice, tradeVolume, tradeCount, buyVolume, sellVolume), phase, chunkFiles, buffer,
            totalCollected, totalTradesCollected, initialPrice)
    }

    constructor (config: Config)
      ensures this.config == config && Now() == INITIAL
    {
      this.config := config;
      tradePrice, tradeVolume, tradeCount, buyVolume, sellVolume := None, 0.0, 0, 0.0, 0.0;
      phase, chunkFiles, buffer, totalCollected, totalTradesCollected, initialPrice := AtGuard, [], [], 0, 0, None;
    }

    method OnTrade(t: Trade)
      modifies this
      ensures Now() == Step(config, old(Now()), Took(t))
    {
      tradePrice := Some(t.price);
      tradeVolume := tradeVolume + t.qty;
      tradeCount := tradeCount + 1;
      if t.buyerIsMaker {
        sellVolume := sellVolume + t.qty;
      } else {
        buyVolume := buyVolume + t.qty;
      }
    }

    method OnGuard(cancelled: bool)
      requires phase == AtGuard
      modifies this
      ensures Now() == Step(config, old(Now()), Tick(cancelled))
    {
      if totalCollected < config.target {
        if totalCollected % 100 == 0 && config.hasJob && cancelled {
          phase := Stopped;
        } else {
          phase := Receiving;
        }
      } else {
        phase := Completed;
      }
    }

    /** No frame for five seconds: back to the loop guard. */
    method OnTimeout()
      requires phase == Receiving
      modifies this
      ensures Now() == Step(config, old(Now()), TimedOut)
    {
      phase := AtGuard;
    }

    method OnFrame(book: Book)
      requires phase == Receiving && (initialPrice.Some? ==> initialPrice.value != 0.0)
      modifies this
      ensures initialPrice.Some? ==> initialPrice.value != 0.0
      ensures Now() == Step(config, old(Now()), Frame(book))
    {
      hide Columns, Fires;
      var taken := TakeTrades();
      var row := Row(taken.price, taken.volume, taken.count, taken.buy, taken.sell,
                     Columns(book.bids), Columns(book.asks));
      buffer := buffer + [row];
      totalCollected := totalCollected + 1;
      phase := Appended;
      CheckTrigger(row.tradePrice);
    }

    /** The part of a frame under the lock. */
    method TakeTrades() returns (taken: Latest)
      modifies `tradeVolume, `tradeCount, `buyVolume, `sellVolume, `totalTradesCollected
      ensures taken == old(Now()).latest && Now().latest == Drain(taken)
      ensures totalTradesCollected == old(totalTradesCollected) + taken.count
    {
      taken := Latest(tradePrice, tradeVolume, tradeCount, buyVolume, sellVolume);
      totalTradesCollected := totalTradesCollected + tradeCount;
      tradeVolume := 0.0;
      tradeCount := 0;
      buyVolume := 0.0;
      sellVolume := 0.0;
    }

    /** A frame whose prices are no numbers: the exception comes after the drain. */
    method OnGarbled()
      requires phase == Receiving
      modifies this
      ensures Now() == Step(config, old(Now()), Garbled)
    {
      var _ := TakeTrades();
      phase := Stopped;
    }

    /** The price trigger at the end of a frame. */
    method CheckTrigger(price: Option<real>)
      requires phase == Appended && (initialPrice.Some? ==> initialPrice.value != 0.0)
      modifies `initialPrice, `phase
      ensures initialPrice.Some? ==> initialPrice.value != 0.0
      ensures initialPrice == FirstPrice(config, old(initialPrice), price)
      ensures phase == if Fires(config, old(initialPrice), price) then Stopped else Appended
    {
      if config.trigger.Some? && price.Some? && price.value != 0.0 {
        if initialPrice.None? {
          initialPrice := price;
        } else {
          var percent := Abs(price.value - initialPrice.value) / initialPrice.value * 100.0;
          if percent >= config.trigger.value {
            phase := Stopped;
          }
        }
      }
    }

    method OnResume(stored: bool)
      requires phase == Appended
      modifies this
      ensures Now() == Step(config, old(Now()), Resume(stored))
    {
      if |buffer| >= config.size || totalCollected >= config.target {
        if stored {
          chunkFiles := chunkFiles + [buffer];
          buffer := [];
          phase := AtGuard;
        } else {
          phase := Stopped;
        }
      } else {
        phase := AtGuard;
      }
    }

    method OnAbort()
      requires Enabled(config, Now(), Abort)
      modifies this
      ensures Now() == Step(config, old(Now()), Abort)
    {
      phase := Stopped;
    }
  }
}
