/** What the hybrid collector saves, what a stop loses, and when the price trigger stops it. */
module CollectorStops {
  import opened Options
  import opened Chunks
  import opened HybridCollector
  import opened CollectorHistory

  // ---------------------------------------------------------------- chunks and early stops

  ghost predicate Chunked(c: Config, s: State) {
    && s.totalCollected == |Rows(s)|
    && Layout(s.chunks, s.buffer, Rows(s), c.size, c.target)
    && (c.target >= 0 ==> s.totalCollected <= c.target)
    && (match s.phase
        case AtGuard => |s.buffer| < c.size && (s.totalCollected < c.target ==> Full(s.chunks, c.size))
                        && (s.totalCollected >= c.target ==> s.buffer == [])
        case Receiving => |s.buffer| < c.size && s.totalCollected < c.target && Full(s.chunks, c.size)
        case Appended => 0 < |s.buffer| <= c.size && s.totalCollected <= c.target && Full(s.chunks, c.size)
        case Completed => s.buffer == [] && (c.target >= 0 ==> s.totalCollected == c.target)
        case Stopped => |s.buffer| <= c.size && s.totalCollected <= c.target && Full(s.chunks, c.size))
  }

  lemma {:induction false} StepChunked(c: Config, s: State, e: Event)
    requires c.size >= 1 && Chunked(c, s)
    ensures Chunked(c, Step(c, s, e))
  {
    if e.Resume? && Enabled(c, s, e) {
      ConcatSnoc(s.chunks, s.buffer);
      assert (s.chunks + [s.buffer])[..|s.chunks|] == s.chunks;
    }
  }

  lemma {:induction false} RunChunked(c: Config, events: seq<Event>)
    requires c.size >= 1
    ensures Chunked(c, Run(c, events))
  {
    if events != [] {
      RunChunked(c, events[..|events| - 1]);
      StepChunked(c, Run(c, events[..|events| - 1]), events[|events| - 1]);
    }
  }

  /** MAIN: a run that reaches its target saves exactly `target` rows; any other end saves a
      prefix of the rows collected that is at most one chunk short. */
  lemma {:induction false} SavedRows(c: Config, events: seq<Event>)
    requires c.size >= 1 && c.target >= 0
    ensures var s := Run(c, events);
            && Concat(s.chunks) <= Rows(s)
            && |Rows(s)| - |Concat(s.chunks)| <= c.size
            && (s.phase == Completed ==>
                  Concat(s.chunks) == Rows(s) && |Concat(s.chunks)| == c.target
                  && |s.chunks| == (c.target + c.size - 1) / c.size)
            && (s.phase == Stopped ==> |Concat(s.chunks)| == |s.chunks| * c.size)
  {
    RunChunked(c, events);
    var s := Run(c, events);
    PrefixLoss(s.chunks, s.buffer, Rows(s), c.size, c.target);
    if s.phase == Completed {
      ChunkCount(s.chunks, Rows(s), c.size, c.target);
    }
    if s.phase == Stopped {
      ConcatFull(s.chunks, c.size);
    }
  }

  /** The stop comes between a row that fills the buffer and the chunk check: while the task
      sleeps there, when the file cannot be written, or when that very row fires the trigger. */
  predicate FullAtStop(c: Config, s: State, e: Event) {
    (s.phase == Appended && |s.buffer| == c.size) || (e.Frame? && |s.buffer| + 1 == c.size)
  }

  /** MAIN: a stop loses the rows since the last chunk file, `totalCollected % size` of them,
      and a whole chunk exactly when it finds the buffer full. */
  lemma {:induction false} StopLoss(c: Config, events: seq<Event>, e: Event)
    requires c.size >= 1
    requires Run(c, events).phase != Stopped && Step(c, Run(c, events), e).phase == Stopped
    ensures var s' := Step(c, Run(c, events), e);
            |Rows(s')| - |Concat(s'.chunks)| ==
              (if FullAtStop(c, Run(c, events), e) then c.size else s'.totalCollected % c.size)
  {
    var s := Run(c, events);
    var s' := Step(c, s, e);
    RunChunked(c, events);
    StepChunked(c, s, e);
    ConcatFull(s'.chunks, c.size);
    if |s'.buffer| < c.size {
      Remainder(|s'.chunks|, c.size, |s'.buffer|);
    }
  }

  lemma {:induction false} Remainder(n: nat, d: nat, r: nat)
    requires r < d
    ensures (n * d + r) % d == r
  {
    DivUnique(n * d + r, n, d);
  }

  /** `n` frames without a trade, each up to the loop guard. */
  function Quiet(b: Book, n: nat): seq<Event> {
    if n == 0 then [] else Quiet(b, n - 1) + [Tick(false)] + [Frame(b)] + [Resume(true)]
  }

  lemma {:induction false} RunSnoc(c: Config, events: seq<Event>, e: Event)
    ensures Run(c, events + [e]) == Step(c, Run(c, events), e)
  {
    assert (events + [e])[..|events|] == events;
  }

  /** One more frame without a trade, up to the chunk check. */
  lemma {:induction false} QuietFrame(c: Config, b: Book, n: nat)
    requires n < c.size && n < c.target
    requires var s := Run(c, Quiet(b, n));
             s.phase == AtGuard && s.chunks == [] && |s.buffer| == s.totalCollected == n && s.latest.price.None?
    ensures var s := Run(c, Quiet(b, n) + [Tick(false)] + [Frame(b)]);
            s.phase == Appended && s.chunks == [] && |s.buffer| == s.totalCollected == n + 1 && s.latest.price.None?
  {
    hide Columns;
    RunSnoc(c, Quiet(b, n), Tick(false));
    RunSnoc(c, Quiet(b, n) + [Tick(false)], Frame(b));
  }

  lemma {:induction false} QuietResume(c: Config, s: State)
    requires s.phase == Appended && |s.buffer| < c.size && s.totalCollected < c.target
    ensures Step(c, s, Resume(true)) == s.(phase := AtGuard)
  {
  }

  lemma {:induction false} QuietRun(c: Config, b: Book, n: nat)
    requires n < c.size && n < c.target
    ensures var s := Run(c, Quiet(b, n));
            s.phase == AtGuard && s.chunks == [] && |s.buffer| == s.totalCollected == n && s.latest.price.None?
  {
    hide RowOf, Fires, FirstPrice, Add, Drain;
    if n > 0 {
      QuietRun(c, b, n - 1);
      QuietFrame(c, b, n - 1);
      var events := Quiet(b, n - 1) + [Tick(false)] + [Frame(b)];
      RunSnoc(c, events, Resume(true));
      assert Quiet(b, n) == events + [Resume(true)];
      hide Run, Quiet, Enabled;
      QuietResume(c, Run(c, events));
    }
  }

  /** For every chunk size and every target of at least one chunk some run loses a whole one:
      the task is cancelled while it sleeps behind the row that fills the first chunk. */
  lemma {:induction false} WholeChunkLost(c: Config, b: Book)
    requires 1 <= c.size <= c.target
    ensures var events := Quiet(b, c.size - 1) + [Tick(false)] + [Frame(b)] + [Abort];
            var s := Run(c, events);
            s.phase == Stopped && s.chunks == [] && |Rows(s)| == s.totalCollected == c.size
  {
    var n := c.size - 1;
    QuietRun(c, b, n);
    QuietFrame(c, b, n);
    RunSnoc(c, Quiet(b, n) + [Tick(false)] + [Frame(b)], Abort);
  }

  // ---------------------------------------------------------------- the price trigger

  /** The first non-zero price among the rows. */
  function FirstSeen(rows: seq<Row>): Option<real> {
    if rows == [] then None
    else
      var first := FirstSeen(rows[..|rows| - 1]);
      var last := rows[|rows| - 1].tradePrice;
      if first.None? && last.Some? && last.value != 0.0 then last else first
  }

  /** Row `i` moved at least the trigger percentage from the first price of the rows before it. */
  ghost predicate Breached(c: Config, rows: seq<Row>, i: nat)
    requires i < |rows|
  {
    Fires(c, FirstSeen(rows[..i]), rows[i].tradePrice)
  }

  lemma {:induction false} BreachedSnoc(c: Config, rows: seq<Row>, row: Row)
    requires c.trigger.Some?
    ensures FirstSeen(rows + [row]) == FirstPrice(c, FirstSeen(rows), row.tradePrice)
    ensures Breached(c, rows + [row], |rows|) == Fires(c, FirstSeen(rows), row.tradePrice)
    ensures forall i :: 0 <= i < |rows| ==> Breached(c, rows + [row], i) == Breached(c, rows, i)
  {
    var more := rows + [row];
    assert more[..|rows|] == rows;
    forall i | 0 <= i < |rows|
      ensures Breached(c, more, i) == Breached(c, rows, i)
    {
      assert more[..i] == rows[..i];
    }
  }

  /** MAIN: while the collector runs or when it completes, no collected row has breached the
      price trigger; so a breach stops it at that very row. */
  lemma {:induction false} TriggerIsPrompt(c: Config, events: seq<Event>)
    requires c.trigger.Some?
    ensures var s := Run(c, events);
            && s.initialPrice == FirstSeen(Rows(s))
            && (forall i :: 0 <= i < |Rows(s)| - 1 ==> !Breached(c, Rows(s), i))
            && (s.phase != Stopped ==> forall i :: 0 <= i < |Rows(s)| ==> !Breached(c, Rows(s), i))
  {
    hide Rows, FirstSeen, Breached, Fires, FirstPrice, Columns;
    if events == [] {
      NothingSeen();
    } else {
      var before, e := events[..|events| - 1], events[|events| - 1];
      TriggerIsPrompt(c, before);
      var s := Run(c, before);
      if e.Frame? && s.phase == Receiving {
        FrameEffect(c, s, e.book);
        BreachedSnoc(c, Rows(s), RowOf(s.latest, e.book));
      } else {
        RowsKept(c, s, e);
      }
    }
  }

  lemma {:induction false} NothingSeen()
    ensures Rows(INITIAL) == [] && FirstSeen([]) == None
  {
  }

  /** Row `i` has the price `p`, and no row before it has a price other than 0. */
  predicate FirstAt(rows: seq<Row>, p: real, i: int) {
    0 <= i < |rows| && rows[i].tradePrice == Some(p) && p != 0.0 && NoneBefore(rows, i)
  }

  predicate NoneBefore(rows: seq<Row>, i: nat)
    requires i <= |rows|
  {
    forall j :: 0 <= j < i ==> rows[j].tradePrice == None || rows[j].tradePrice == Some(0.0)
  }

  /** `p` is the first price of the rows that is neither missing nor 0. */
  ghost predicate FirstPriceIs(rows: seq<Row>, p: real) {
    exists i :: FirstAt(rows, p, i)
  }

  lemma {:induction false} FirstAtSnoc(rows: seq<Row>, row: Row, p: real, i: int)
    ensures FirstAt(rows + [row], p, i) <==>
              FirstAt(rows, p, i)
              || (i == |rows| && NoneBefore(rows, |rows|) && row.tradePrice == Some(p) && p != 0.0)
    ensures NoneBefore(rows + [row], |rows| + 1) <==>
              NoneBefore(rows, |rows|) && (row.tradePrice == None || row.tradePrice == Some(0.0))
  {
    var more := rows + [row];
    assert more[|rows|] == row && forall j :: 0 <= j < |rows| ==> more[j] == rows[j];
    if 0 <= i <= |rows| {
      assert NoneBefore(more, i) <==> NoneBefore(rows, i);
    }
    assert NoneBefore(more, |rows|) <==> NoneBefore(rows, |rows|);
  }

  lemma {:induction false} FirstSeenIff(rows: seq<Row>, p: real)
    ensures FirstSeen(rows) == Some(p) <==> FirstPriceIs(rows, p)
    ensures FirstSeen(rows) == None <==> NoneBefore(rows, |rows|)
  {
    if rows != [] {
      var n := |rows| - 1;
      FirstSeenIff(rows[..n], p);
      assert rows == rows[..n] + [rows[n]];
      hide FirstAt, NoneBefore;
      forall i: int
        ensures FirstAt(rows, p, i) <==>
                  FirstAt(rows[..n], p, i)
                  || (i == n && NoneBefore(rows[..n], n) && rows[n].tradePrice == Some(p) && p != 0.0)
      {
        FirstAtSnoc(rows[..n], rows[n], p, i);
      }
      FirstAtSnoc(rows[..n], rows[n], p, n);
      if FirstPriceIs(rows[..n], p) {
        var i :| FirstAt(rows[..n], p, i);
        SeenNotNone(rows[..n], p, i);
      }
    }
  }

  lemma {:induction false} SeenNotNone(rows: seq<Row>, p: real, i: int)
    requires FirstAt(rows, p, i)
    ensures !NoneBefore(rows, |rows|)
  {
    assert rows[i].tradePrice == Some(p);
  }

  /** `price` lies `percent` percent of `first` above or below it, or farther. */
  predicate Outside(first: real, percent: real, price: real) {
    price <= first * (1.0 - percent / 100.0) || price >= first * (1.0 + percent / 100.0)
  }

  lemma {:induction false} MovedIff(first: real, percent: real, price: real)
    requires first > 0.0
    ensures Moved(first, price) >= percent <==> Outside(first, percent, price)
  {
    var step := Abs(price - first);
    assert Moved(first, price) == step / first * 100.0;
    ScaledIff(step, first, percent);
    assert first * (1.0 + percent / 100.0) == first + first * percent / 100.0;
    assert first * (1.0 - percent / 100.0) == first - first * percent / 100.0;
  }

  lemma {:induction false} ScaledIff(step: real, first: real, percent: real)
    requires first > 0.0
    ensures step / first * 100.0 >= percent <==> step >= first * percent / 100.0
  {
    var q := step / first;
    assert q * first == step;
    if q * 100.0 >= percent {
      Times(q, percent / 100.0, first);
    } else {
      Less(q, percent / 100.0, first);
    }
  }

  lemma {:induction false} Less(a: real, b: real, c: real)
    requires a < b && c > 0.0
    ensures a * c < b * c
  {
  }

  lemma {:induction false} Times(a: real, b: real, c: real)
    requires a >= b && c > 0.0
    ensures a * c >= b * c
  {
  }

  /** MAIN: with the trigger on, a frame stops the collector exactly when its price, if it has one
      that is not 0, lies at least the trigger percentage above or below the first price. */
  lemma {:induction false} FrameStopsIff(c: Config, events: seq<Event>, b: Book, first: real, percent: real)
    requires c.trigger == Some(percent) && Run(c, events).phase == Receiving
    requires FirstPriceIs(Rows(Run(c, events)), first) && first > 0.0
    ensures var price := Run(c, events).latest.price;
            Run(c, events + [Frame(b)]).phase == Stopped
            <==> price.Some? && price.value != 0.0 && Outside(first, percent, price.value)
  {
    hide Rows, FirstPriceIs, Columns, Moved, Run;
    TriggerIsPrompt(c, events);
    FirstSeenIff(Rows(Run(c, events)), first);
    RunSnoc(c, events, Frame(b));
    var price := Run(c, events).latest.price;
    if price.Some? {
      MovedIff(first, percent, price.value);
    }
  }

  /** Without the trigger, or before a price has been seen, a frame does not stop it. */
  lemma {:induction false} FrameGoesOn(c: Config, events: seq<Event>, b: Book)
    requires Run(c, events).phase == Receiving
    requires c.trigger == None || NoneBefore(Rows(Run(c, events)), |Rows(Run(c, events))|)
    ensures Run(c, events + [Frame(b)]).phase == Appended
  {
    hide Rows, Columns, Run, NoneBefore;
    RunSnoc(c, events, Frame(b));
    if c.trigger.Some? {
      TriggerIsPrompt(c, events);
      FirstSeenIff(Rows(Run(c, events)), 0.0);
    }
  }

  /** MAIN: as long as the collector has not stopped, every price it has collected lies strictly
      inside the band around the first one. */
  lemma {:induction false} InsideBand(c: Config, events: seq<Event>, first: real, percent: real, i: nat)
    requires c.trigger == Some(percent) && percent > 0.0 && Run(c, events).phase != Stopped
    requires FirstPriceIs(Rows(Run(c, events)), first) && first > 0.0
    requires i < |Rows(Run(c, events))| && Rows(Run(c, events))[i].tradePrice.Some?
    ensures var price := Rows(Run(c, events))[i].tradePrice.value;
            price != 0.0 ==> first * (1.0 - percent / 100.0) < price < first * (1.0 + percent / 100.0)
  {
    hide Rows, Columns, Run, Moved;
    var rows := Rows(Run(c, events));
    var price := rows[i].tradePrice.value;
    TriggerIsPrompt(c, events);
    assert !Breached(c, rows, i);
    var at :| FirstAt(rows, first, at);
    if price != 0.0 {
      MovedIff(first, percent, price);
      if at < i {
        assert rows[..i][at] == rows[at] && NoneBefore(rows[..i], at);
        assert FirstAt(rows[..i], first, at);
        FirstSeenIff(rows[..i], first);
      } else {
        assert at == i;
        assert first * (1.0 + percent / 100.0) == first + first * (percent / 100.0);
        assert first * (1.0 - percent / 100.0) == first - first * (percent / 100.0);
        Positive(first, percent / 100.0);
      }
    }
  }

  lemma {:induction false} Positive(a: real, b: real)
    requires a > 0.0 && b > 0.0
    ensures a * b > 0.0
  {
  }

  // ---------------------------------------------------------------- why a run ends

  /** The next frame's price has left the band around the first price. */
  ghost predicate Leaves(c: Config, s: State) {
    c.trigger.Some? && s.latest.price.Some? && s.latest.price.value != 0.0 &&
    exists first :: FirstPriceIs(Rows(s), first) && Outside(first, c.trigger.value, s.latest.price.value)
  }

  lemma {:induction false} FrameStopsWhen(c: Config, events: seq<Event>, b: Book)
    requires Run(c, events).phase == Receiving
    requires forall first :: FirstPriceIs(Rows(Run(c, events)), first) ==> first > 0.0
    ensures Run(c, events + [Frame(b)]).phase == Stopped <==> Leaves(c, Run(c, events))
  {
    hide Run, Rows, FirstPriceIs, Outside;
    var s := Run(c, events);
    var seen := FirstSeen(Rows(s));
    if c.trigger.None? || seen.None? {
      FirstSeenIff(Rows(s), 0.0);
      FrameGoesOn(c, events, b);
      forall first
        ensures seen.None? ==> !FirstPriceIs(Rows(s), first)
      {
        FirstSeenIff(Rows(s), first);
      }
    } else {
      FirstSeenIff(Rows(s), seen.value);
      FrameStopsIff(c, events, b, seen.value, c.trigger.value);
      forall first | FirstPriceIs(Rows(s), first)
        ensures first == seen.value
      {
        FirstSeenIff(Rows(s), first);
      }
    }
  }

  /** MAIN: the reasons for a stop: the cancellation check, which only every hundredth row makes,
      a frame that does not parse, the price trigger, a chunk that cannot be written, and an
      exception or cancellation at an await. */
  lemma {:induction false} StopsIff(c: Config, events: seq<Event>, e: Event)
    requires Run(c, events).phase != Stopped
    requires forall first :: FirstPriceIs(Rows(Run(c, events)), first) ==> first > 0.0
    ensures var s := Run(c, events);
            Run(c, events + [e]).phase == Stopped <==>
              || (s.phase == AtGuard && e == Tick(true) && c.hasJob && s.totalCollected < c.target
                  && exists k: nat :: s.totalCollected == 100 * k)
              || (s.phase == Receiving && e == Garbled)
              || (s.phase == Receiving && e.Frame? && Leaves(c, s))
              || (s.phase == Appended && e == Resume(false)
                  && (s.totalCollected >= c.target || |s.buffer| >= c.size))
              || (e == Abort && (s.phase == Receiving || s.phase == Appended
                                 || (s.phase == AtGuard && s.totalCollected < c.target)))
  {
    hide Run, Columns, Fires, Leaves, FirstPriceIs, Rows;
    RunSnoc(c, events, e);
    if e.Frame? && Run(c, events).phase == Receiving {
      FrameStopsWhen(c, events, e.book);
    }
    var n := Run(c, events).totalCollected;
    assert n % 100 == 0 ==> n == 100 * (n / 100);
    assert forall k: nat :: n == 100 * k ==> n % 100 == 0;
  }

  /** It completes only at the loop guard, and exactly when the target is reached there. */
  lemma {:induction false} CompletesIff(c: Config, events: seq<Event>, e: Event)
    requires Run(c, events).phase != Completed
    ensures Run(c, events + [e]).phase == Completed
            <==> Run(c, events).phase == AtGuard && e.Tick? && Run(c, events).totalCollected >= c.target
  {
    hide Run, Columns, Fires;
    RunSnoc(c, events, e);
  }

  /** The last thing the order book task did. */
  function LastOwn(c: Config, events: seq<Event>): Option<Event> {
    if events == [] then None
    else
      var before, e := events[..|events| - 1], events[|events| - 1];
      if !e.Took? && Enabled(c, Run(c, before), e) then Some(e) else LastOwn(c, before)
  }

  /** MAIN: it never waits for a frame without having just passed the loop guard, and it checks
      for a full buffer after every row. */
  lemma {:induction false} GuardBeforeEveryWait(c: Config, events: seq<Event>)
    ensures var s, last := Run(c, events), LastOwn(c, events);
            && (s.phase == Receiving <==> last.Some? && last.value.Tick? && s.phase != Stopped && s.phase != Completed)
            && (s.phase == Appended ==> last.Some? && last.value.Frame?)
            && (s.phase == AtGuard ==> last == None || last.value.TimedOut? || last.value.Resume?)
  {
    if events != [] {
      var before, e := events[..|events| - 1], events[|events| - 1];
      GuardBeforeEveryWait(c, before);
      hide Run, Columns, Fires;
      RunSnoc(c, before, e);
      assert before + [e] == events;
    }
  }
}
