/** What the rows of the hybrid collector hold, over every interleaving of its two tasks. */
module CollectorHistory {
  import opened Options
  import opened Chunks
  import opened HybridCollector

  // ---------------------------------------------------------------- the lock's history

  /** What happened inside the lock, in order. */
  datatype Section = Added(trade: Trade) | Drained(book: Book) | Dropped

  function History(c: Config, events: seq<Event>): seq<Section> {
    if events == [] then []
    else
      var before, e := events[..|events| - 1], events[|events| - 1];
      History(c, before) +
      (if e.Took? then [Added(e.trade)]
       else if !Enabled(c, Run(c, before), e) then []
       else if e.Frame? then [Drained(e.book)]
       else if e.Garbled? then [Dropped] else [])
  }

  /** The trades before the first drain, between each drain and the next, and after the last. */
  function Segments(h: seq<Section>): (g: seq<seq<Trade>>)
    ensures |g| >= 1
  {
    if h == [] then [[]]
    else
      var g := Segments(h[..|h| - 1]);
      match h[|h| - 1]
      case Added(t) => g[..|g| - 1] + [g[|g| - 1] + [t]]
      case _ => g + [[]]
  }

  function Books(h: seq<Section>): seq<Book> {
    if h == [] then []
    else Books(h[..|h| - 1]) + (match h[|h| - 1] case Drained(b) => [b] case _ => [])
  }

  function Trades(h: seq<Section>): seq<Trade> {
    if h == [] then []
    else Trades(h[..|h| - 1]) + (match h[|h| - 1] case Added(t) => [t] case _ => [])
  }

  /** The trades that a frame drained without leaving a row. */
  function Lost(h: seq<Section>): seq<Trade> {
    if h == [] then []
    else
      var init := h[..|h| - 1];
      Lost(init) + (if h[|h| - 1].Dropped? then Segments(init)[|Segments(init)| - 1] else [])
  }

  function Volume(ts: seq<Trade>): real {
    if ts == [] then 0.0 else Volume(ts[..|ts| - 1]) + ts[|ts| - 1].qty
  }

  /** The volume of the trades whose buyer is (or is not) the maker. */
  function Side(ts: seq<Trade>, maker: bool): real {
    if ts == [] then 0.0
    else Side(ts[..|ts| - 1], maker) + (if ts[|ts| - 1].buyerIsMaker == maker then ts[|ts| - 1].qty else 0.0)
  }

  function LastPrice(ts: seq<Trade>): Option<real> {
    if ts == [] then None else Some(ts[|ts| - 1].price)
  }

  /** The row the i-th frame should carry, computed from the history alone. */
  function ReferenceRow(h: seq<Section>, i: nat): Row
    requires i < |Books(h)| < |Segments(h)|
  {
    var own := Segments(h)[i];
    Row(LastPrice(Concat(Segments(h)[..i + 1])), Volume(own), |own|, Side(own, false), Side(own, true),
        Columns(Books(h)[i].bids), Columns(Books(h)[i].asks))
  }

  function Rows(s: State): seq<Row> {
    Concat(s.chunks) + s.buffer
  }

  /** The accumulator holds the totals of the trades since the last drain. */
  ghost predicate Holds(l: Latest, h: seq<Section>) {
    Totals(l, Segments(h)[|Segments(h)| - 1], Concat(Segments(h)))
  }

  /** `l` holds the totals of the trades `open` and the last price of the trades `all`. */
  ghost predicate Totals(l: Latest, open: seq<Trade>, all: seq<Trade>) {
    l == Latest(LastPrice(all), Volume(open), |open|, Side(open, false), Side(open, true))
  }

  ghost predicate Tracks(s: State, h: seq<Section>) {
    && |Books(h)| < |Segments(h)|
    && (s.phase != Stopped ==> |Segments(h)| == |Books(h)| + 1)
    && |Rows(s)| == |Books(h)| == s.totalCollected
    && (forall i :: 0 <= i < |Rows(s)| ==> Rows(s)[i] == ReferenceRow(h, i))
    && Holds(s.latest, h)
  }

  lemma {:induction false} ConcatSnoc<T>(gs: seq<seq<T>>, g: seq<T>)
    ensures Concat(gs + [g]) == Concat(gs) + g
  {
    assert (gs + [g])[..|gs|] == gs;
  }

  lemma {:induction false} AddedSection(h: seq<Section>, t: Trade)
    ensures var g, g' := Segments(h), Segments(h + [Added(t)]);
            && |g'| == |g| && g'[..|g| - 1] == g[..|g| - 1]
            && g'[|g| - 1] == g[|g| - 1] + [t]
            && Concat(g') == Concat(g) + [t]
            && Books(h + [Added(t)]) == Books(h)
            && Trades(h + [Added(t)]) == Trades(h) + [t]
            && Lost(h + [Added(t)]) == Lost(h)
  {
    assert (h + [Added(t)])[..|h|] == h;
    var g := Segments(h);
    var init, open := g[..|g| - 1], g[|g| - 1];
    assert g == init + [open];
    ConcatSnoc(init, open);
    ConcatSnoc(init, open + [t]);
  }

  lemma {:induction false} DrainedSection(h: seq<Section>, b: Book)
    ensures Segments(h + [Drained(b)]) == Segments(h) + [[]]
    ensures Books(h + [Drained(b)]) == Books(h) + [b]
    ensures Trades(h + [Drained(b)]) == Trades(h) && Lost(h + [Drained(b)]) == Lost(h)
    ensures Concat(Segments(h + [Drained(b)])) == Concat(Segments(h))
  {
    assert (h + [Drained(b)])[..|h|] == h;
    ConcatSnoc(Segments(h), []);
  }

  lemma {:induction false} TotalsSnoc(ts: seq<Trade>, t: Trade)
    ensures Volume(ts + [t]) == Volume(ts) + t.qty
    ensures Side(ts + [t], false) == Side(ts, false) + (if t.buyerIsMaker then 0.0 else t.qty)
    ensures Side(ts + [t], true) == Side(ts, true) + (if t.buyerIsMaker then t.qty else 0.0)
    ensures LastPrice(ts + [t]) == Some(t.price)
  {
    assert (ts + [t])[..|ts|] == ts;
  }

  lemma {:induction false} AddedKeepsRow(h: seq<Section>, t: Trade, i: nat)
    requires i < |Books(h)| < |Segments(h)|
    ensures |Segments(h + [Added(t)])| == |Segments(h)| && Books(h + [Added(t)]) == Books(h)
    ensures ReferenceRow(h + [Added(t)], i) == ReferenceRow(h, i)
  {
    AddedSection(h, t);
    var g, g' := Segments(h), Segments(h + [Added(t)]);
    var n := |g| - 1;
    assert g'[i] == g'[..n][i] == g[..n][i] == g[i];
    assert g'[..i + 1] == g'[..n][..i + 1] == g[..n][..i + 1] == g[..i + 1];
  }

  lemma {:induction false} DrainedKeepsRow(h: seq<Section>, b: Book, i: nat)
    requires |Segments(h)| == |Books(h)| + 1 && i < |Books(h)|
    ensures |Segments(h + [Drained(b)])| == |Segments(h)| + 1 && Books(h + [Drained(b)]) == Books(h) + [b]
    ensures ReferenceRow(h + [Drained(b)], i) == ReferenceRow(h, i)
  {
    DrainedSection(h, b);
    assert (Segments(h) + [[]])[..i + 1] == Segments(h)[..i + 1];
  }

  /** The new row is the one the history asks for, and the accumulator is empty again. */
  lemma {:induction false} DrainedRow(l: Latest, h: seq<Section>, b: Book)
    requires |Segments(h)| == |Books(h)| + 1 && Holds(l, h)
    ensures |Segments(h + [Drained(b)])| == |Segments(h)| + 1 && Books(h + [Drained(b)]) == Books(h) + [b]
    ensures ReferenceRow(h + [Drained(b)], |Books(h)|) == RowOf(l, b)
    ensures Holds(Drain(l), h + [Drained(b)])
  {
    DrainedSection(h, b);
    var g := Segments(h);
    assert (g + [[]])[..|g|] == g;
  }

  lemma {:induction false} AddTotals(l: Latest, open: seq<Trade>, all: seq<Trade>, t: Trade)
    requires Totals(l, open, all)
    ensures Totals(Add(l, t), open + [t], all + [t])
  {
    TotalsSnoc(open, t);
    TotalsSnoc(all, t);
  }

  lemma {:induction false} AddedHolds(l: Latest, h: seq<Section>, t: Trade)
    requires Holds(l, h)
    ensures Holds(Add(l, t), h + [Added(t)])
  {
    AddedSection(h, t);
    var g := Segments(h);
    AddTotals(l, g[|g| - 1], Concat(g), t);
  }

  lemma {:induction false} TookTracks(c: Config, s: State, h: seq<Section>, t: Trade)
    requires Tracks(s, h)
    ensures Tracks(Step(c, s, Took(t)), h + [Added(t)])
  {
    AddedSection(h, t);
    AddedHolds(s.latest, h, t);
    var s' := Step(c, s, Took(t));
    assert Rows(s') == Rows(s);
    forall i | 0 <= i < |Rows(s)|
      ensures ReferenceRow(h + [Added(t)], i) == Rows(s)[i]
    {
      AddedKeepsRow(h, t, i);
    }
  }

  lemma {:induction false} FrameEffect(c: Config, s: State, b: Book)
    requires s.phase == Receiving
    ensures var s' := Step(c, s, Frame(b));
            && Rows(s') == Rows(s) + [RowOf(s.latest, b)]
            && s'.totalCollected == s.totalCollected + 1
            && s'.latest == Drain(s.latest)
  {
  }

  lemma {:induction false} FrameTracks(c: Config, s: State, h: seq<Section>, b: Book)
    requires Tracks(s, h) && s.phase == Receiving
    ensures Tracks(Step(c, s, Frame(b)), h + [Drained(b)])
  {
    hide Step, RowOf, Rows, ReferenceRow, Holds, Segments, Books;
    var h' := h + [Drained(b)];
    FrameEffect(c, s, b);
    DrainedRow(s.latest, h, b);
    forall i | 0 <= i < |Rows(s)|
      ensures ReferenceRow(h', i) == Rows(s)[i]
    {
      DrainedKeepsRow(h, b, i);
    }
  }

  lemma {:induction false} DroppedSection(h: seq<Section>)
    ensures var g := Segments(h);
            && Segments(h + [Dropped]) == g + [[]]
            && Books(h + [Dropped]) == Books(h) && Trades(h + [Dropped]) == Trades(h)
            && Lost(h + [Dropped]) == Lost(h) + g[|g| - 1]
            && Concat(Segments(h + [Dropped])) == Concat(g)
  {
    assert (h + [Dropped])[..|h|] == h;
    ConcatSnoc(Segments(h), []);
  }

  lemma {:induction false} GarbledTracks(c: Config, s: State, h: seq<Section>)
    requires Tracks(s, h) && s.phase == Receiving
    ensures Tracks(Step(c, s, Garbled), h + [Dropped])
  {
    hide RowOf, Rows, ReferenceRow, Segments, Books;
    DroppedSection(h);
    RowsKept(c, s, Garbled);
    forall i | 0 <= i < |Rows(s)|
      ensures ReferenceRow(h + [Dropped], i) == ReferenceRow(h, i)
    {
      DroppedKeepsRow(h, i);
    }
  }

  lemma {:induction false} DroppedKeepsRow(h: seq<Section>, i: nat)
    requires i < |Books(h)| < |Segments(h)|
    ensures |Segments(h + [Dropped])| == |Segments(h)| + 1 && Books(h + [Dropped]) == Books(h)
    ensures ReferenceRow(h + [Dropped], i) == ReferenceRow(h, i)
  {
    DroppedSection(h);
    assert (Segments(h) + [[]])[..i + 1] == Segments(h)[..i + 1];
  }

  /** The events that touch neither the accumulator nor the rows. */
  lemma {:induction false} OtherTracks(c: Config, s: State, h: seq<Section>, e: Event)
    requires Tracks(s, h) && !e.Took? && !((e.Frame? || e.Garbled?) && s.phase == Receiving)
    ensures Tracks(Step(c, s, e), h)
  {
    hide Rows, ReferenceRow, Segments, Books, Holds;
    RowsKept(c, s, e);
  }

  /** Only a frame changes the rows collected so far. */
  lemma {:induction false} RowsKept(c: Config, s: State, e: Event)
    requires !(e.Frame? && s.phase == Receiving)
    ensures Rows(Step(c, s, e)) == Rows(s)
  {
    if e.Resume? && Enabled(c, s, e) {
      ConcatSnoc(s.chunks, s.buffer);
    }
  }

  /** MAIN: whatever the interleaving, row i carries exactly the totals of the trades between
      frames i-1 and i, the last price seen so far and its own frame's book; and the
      accumulator holds exactly the trades since the last frame. */
  lemma {:induction false} RowsMatchHistory(c: Config, events: seq<Event>)
    ensures Tracks(Run(c, events), History(c, events))
  {
    if events != [] {
      var before, e := events[..|events| - 1], events[|events| - 1];
      RowsMatchHistory(c, before);
      hide Tracks, Segments, Books, Rows;
      var s := Run(c, before);
      if e.Took? {
        TookTracks(c, s, History(c, before), e.trade);
      } else if e.Frame? && s.phase == Receiving {
        FrameTracks(c, s, History(c, before), e.book);
      } else if e.Garbled? && s.phase == Receiving {
        GarbledTracks(c, s, History(c, before));
      } else {
        OtherTracks(c, s, History(c, before), e);
        assert History(c, events) == History(c, before);
      }
    }
  }

  /** Every row has twenty levels of each side of its own frame's book, the missing ones empty. */
  lemma {:induction false} BookColumns(c: Config, events: seq<Event>, i: nat, k: nat)
    requires i < |Rows(Run(c, events))| && k < 20
    ensures var row, books := Rows(Run(c, events))[i], Books(History(c, events));
            && i < |books| && |row.bids| == |row.asks| == 20
            && row.bids[k] == (if k < |books[i].bids| then Some(books[i].bids[k]) else None)
            && row.asks[k] == (if k < |books[i].asks| then Some(books[i].asks[k]) else None)
  {
    hide Rows, Run, History, Books, Segments;
    RowsMatchHistory(c, events);
    assert Rows(Run(c, events))[i] == ReferenceRow(History(c, events), i);
  }

  // ---------------------------------------------------------------- conservation

  function SumVolume(rows: seq<Row>): real {
    if rows == [] then 0.0 else SumVolume(rows[..|rows| - 1]) + rows[|rows| - 1].tradeVolume
  }

  function SumCount(rows: seq<Row>): nat {
    if rows == [] then 0 else SumCount(rows[..|rows| - 1]) + rows[|rows| - 1].tradeCount
  }

  predicate Balanced(l: Latest, rows: seq<Row>) {
    && l.volume == l.buy + l.sell
    && forall i :: 0 <= i < |rows| ==> rows[i].tradeVolume == rows[i].buyVolume + rows[i].sellVolume
  }

  ghost predicate Conserved(s: State, ts: seq<Trade>, lost: seq<Trade>) {
    && Volume(ts) == SumVolume(Rows(s)) + s.latest.volume + Volume(lost)
    && |ts| == SumCount(Rows(s)) + s.latest.count + |lost|
    && s.totalTrades == SumCount(Rows(s)) + |lost|
    && Balanced(s.latest, Rows(s))
  }

  lemma {:induction false} TookConserves(c: Config, s: State, ts: seq<Trade>, lost: seq<Trade>, t: Trade)
    requires Conserved(s, ts, lost)
    ensures Conserved(Step(c, s, Took(t)), ts + [t], lost)
  {
    TotalsSnoc(ts, t);
    RowsKept(c, s, Took(t));
  }

  lemma {:induction false} FrameConserves(c: Config, s: State, ts: seq<Trade>, lost: seq<Trade>, b: Book)
    requires Conserved(s, ts, lost) && s.phase == Receiving
    ensures Conserved(Step(c, s, Frame(b)), ts, lost)
  {
    var row := RowOf(s.latest, b);
    FrameEffect(c, s, b);
    assert (Rows(s) + [row])[..|Rows(s)|] == Rows(s);
  }

  lemma {:induction false} VolumeJoin(a: seq<Trade>, b: seq<Trade>)
    ensures Volume(a + b) == Volume(a) + Volume(b)
  {
    if b == [] {
      assert a + b == a;
    } else {
      VolumeJoin(a, b[..|b| - 1]);
      assert (a + b)[..|a + b| - 1] == a + b[..|b| - 1];
    }
  }

  lemma {:induction false} GarbledConserves(c: Config, s: State, ts: seq<Trade>, lost: seq<Trade>, open: seq<Trade>)
    requires Conserved(s, ts, lost) && s.phase == Receiving
    requires s.latest.volume == Volume(open) && s.latest.count == |open|
    ensures Conserved(Step(c, s, Garbled), ts, lost + open)
  {
    VolumeJoin(lost, open);
    RowsKept(c, s, Garbled);
  }

  /** MAIN: trades received = sum over the rows + what is still in the accumulator + what a
      frame that did not parse had drained, by volume and by count; volume is always buy plus
      sell. */
  lemma {:induction false} Conservation(c: Config, events: seq<Event>)
    ensures Conserved(Run(c, events), Trades(History(c, events)), Lost(History(c, events)))
  {
    if events != [] {
      var before, e := events[..|events| - 1], events[|events| - 1];
      hide Conserved, Trades, Rows, Lost, Segments, Books;
      Conservation(c, before);
      var s, h := Run(c, before), History(c, before);
      assert Run(c, events) == Step(c, s, e);
      hide Run, Tracks, Step, Holds;
      if e.Took? {
        AddedSection(h, e.trade);
        TookConserves(c, s, Trades(h), Lost(h), e.trade);
      } else if e.Frame? && s.phase == Receiving {
        DrainedSection(h, e.book);
        FrameConserves(c, s, Trades(h), Lost(h), e.book);
      } else if e.Garbled? && s.phase == Receiving {
        RowsMatchHistory(c, before);
        DroppedSection(h);
        GarbledConserves(c, s, Trades(h), Lost(h), Segments(h)[|Segments(h)| - 1]);
        assert History(c, events) == h + [Dropped];
      } else {
        RowsKept(c, s, e);
        TotalsKept(c, s, e);
        SameTotals(s, Step(c, s, e), Trades(h), Lost(h));
        assert History(c, events) == h;
      }
    } else {
      assert Trades([]) == [] && Lost([]) == [];
    }
  }

  /** The run waits for a frame and gets one that does not parse while trades are waiting in
      the accumulator. */
  predicate Spills(c: Config, events: seq<Event>, i: nat)
    requires i < |events|
  {
    events[i].Garbled? && Run(c, events[..i]).phase == Receiving && Run(c, events[..i]).latest.count > 0
  }

  predicate NoneSpills(c: Config, events: seq<Event>) {
    forall i :: 0 <= i < |events| ==> !Spills(c, events, i)
  }

  lemma {:induction false} NoneSpillsSnoc(c: Config, before: seq<Event>, e: Event)
    ensures NoneSpills(c, before + [e])
            <==> NoneSpills(c, before)
                 && !(e.Garbled? && Run(c, before).phase == Receiving && Run(c, before).latest.count > 0)
  {
    hide Run;
    var events := before + [e];
    assert events[..|before|] == before;
    forall i | 0 <= i < |before|
      ensures Spills(c, before, i) == Spills(c, events, i)
    {
      assert before[..i] == events[..i];
    }
    assert Spills(c, events, |before|)
           <==> e.Garbled? && Run(c, before).phase == Receiving && Run(c, before).latest.count > 0;
  }

  /** MAIN: trades are lost if and only if a frame that does not parse arrives while trades are
      waiting in the accumulator. */
  lemma {:induction false} NothingLostIff(c: Config, events: seq<Event>)
    ensures Lost(History(c, events)) == [] <==> NoneSpills(c, events)
  {
    if events != [] {
      var before, e := events[..|events| - 1], events[|events| - 1];
      NothingLostIff(c, before);
      assert before + [e] == events;
      hide Run, History, Lost, NoneSpills;
      LastLost(c, before, e);
      NoneSpillsSnoc(c, before, e);
    }
  }

  lemma {:induction false} LastLost(c: Config, before: seq<Event>, e: Event)
    ensures var h, s := History(c, before), Run(c, before);
            Lost(History(c, before + [e])) == []
            <==> Lost(h) == [] && !(e.Garbled? && s.phase == Receiving && s.latest.count > 0)
  {
    hide Run, Lost, Segments, Books, Trades;
    var h := History(c, before);
    assert (before + [e])[..|before|] == before;
    if e.Took? {
      AddedSection(h, e.trade);
    } else if e.Frame? && Run(c, before).phase == Receiving {
      DrainedSection(h, e.book);
    } else if e.Garbled? && Run(c, before).phase == Receiving {
      DroppedSection(h);
      RowsMatchHistory(c, before);
    } else {
      assert History(c, before + [e]) == h;
    }
  }

  lemma {:induction false} TotalsKept(c: Config, s: State, e: Event)
    requires !e.Took? && !((e.Frame? || e.Garbled?) && s.phase == Receiving)
    ensures Step(c, s, e).latest == s.latest && Step(c, s, e).totalTrades == s.totalTrades
  {
  }

  lemma {:induction false} SameTotals(s: State, s': State, ts: seq<Trade>, lost: seq<Trade>)
    requires Conserved(s, ts, lost)
    requires Rows(s') == Rows(s) && s'.latest == s.latest && s'.totalTrades == s.totalTrades
    ensures Conserved(s', ts, lost)
  {
    hide Rows;
  }
}
