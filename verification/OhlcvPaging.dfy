/** The paged candle request of backend/verification_scripts/verify_ohlcv_pagination.py, and
    the mock exchange it is exercised with. */
module OhlcvPaging {
  import opened Options
  import Chunks
  import opened PagedHistory
  import opened DedupeSort

  /** The payload is open, high, low, close and volume. */
  type Candle = Entry<seq<real>>

  /** The exchange: request number, cursor and limit in, candles out. */
  type Exchange = (nat, int, nat) -> seq<Candle>

  const BATCH_SIZE: nat := 1000
  const MAX_LIMIT: nat := 2000

  /** What the paged loop receives and how many requests it sends. */
  datatype Traffic = Traffic(raw: seq<Candle>, sent: nat)

  /** The paged loop from request `k` on. */
  function Collect(ask: Exchange, k: nat, since: int, remaining: int, batch: nat, tf: int): Traffic
    requires batch >= 1
    decreases if remaining > 0 then remaining else 0
  {
    if remaining <= 0 then Traffic([], 0)
    else
      var size := Min(remaining, batch);
      var chunk := ask(k, since, size);
      if chunk == [] || |chunk| < size then Traffic(chunk, 1)
      else After(chunk, 1, Collect(ask, k + 1, chunk[|chunk| - 1].ts + tf, remaining - |chunk|, batch, tf))
  }

  /** Traffic with earlier candles and requests in front of it. */
  function After(raw: seq<Candle>, sent: nat, t: Traffic): Traffic {
    Traffic(raw + t.raw, sent + t.sent)
  }

  /** Python's `seen` dict and `sorted` over everything received. */
  method DedupeAndSort(raw: seq<Candle>) returns (out: seq<Candle>)
    ensures out == SortByTime(KeepLast(raw))
  {
    var seen: seq<Candle> := [];
    for i := 0 to |raw|
      invariant seen == KeepLast(raw[..i])
    {
      assert raw[..i + 1][..i] == raw[..i];
      seen := Put(seen, raw[i]);
    }
    assert raw[..|raw|] == raw;
    out := SortByTime(seen);
  }

  /** int(ms / 1000): truncation toward zero. */
  function Seconds(ms: int): int {
    if ms >= 0 then ms / 1000 else -(-ms / 1000)
  }

  function InSeconds(candles: seq<Candle>): (out: seq<Candle>)
    ensures |out| == |candles|
  {
    seq(|candles|, i requires 0 <= i < |candles| => candles[i].(ts := Seconds(candles[i].ts)))
  }

  /** A returned row is its candle with the time cut to whole seconds, toward zero. */
  lemma {:induction false} RowInSeconds(candles: seq<Candle>, i: nat)
    requires i < |candles|
    ensures var ms, row := candles[i].ts, InSeconds(candles)[i];
            && row.payload == candles[i].payload
            && -1000 < ms - row.ts * 1000 < 1000
            && (ms >= 0 ==> row.ts * 1000 <= ms) && (ms <= 0 ==> row.ts * 1000 >= ms)
  {
  }

  lemma {:induction false} SecondsMonotone(a: int, b: int)
    requires a <= b
    ensures Seconds(a) <= Seconds(b)
  {
  }

  /** The returned times are in order; they are strictly ascending if and only if no two
      neighbours share a second. */
  lemma {:induction false} SecondsAscendIff(candles: seq<Candle>)
    requires Ascending(candles)
    ensures Sorted(InSeconds(candles))
    ensures Ascending(InSeconds(candles)) <==>
              forall i, j :: 0 <= i && j == i + 1 && j < |candles| ==> Seconds(candles[i].ts) != Seconds(candles[j].ts)
  {
    var out := InSeconds(candles);
    forall i, j | 0 <= i < j < |candles|
      ensures out[i].ts <= out[j].ts
    {
      SecondsMonotone(candles[i].ts, candles[j].ts);
    }
    if Ascending(out) {
      forall i, j | 0 <= i && j == i + 1 && j < |candles|
        ensures Seconds(candles[i].ts) != Seconds(candles[j].ts)
      {
        assert out[i].ts < out[j].ts;
      }
    }
    if forall i, j :: 0 <= i && j == i + 1 && j < |candles| ==> Seconds(candles[i].ts) != Seconds(candles[j].ts) {
      forall i, j | 0 <= i < j < |candles|
        ensures out[i].ts < out[j].ts
      {
        var m := i + 1;
        assert Seconds(candles[i].ts) != Seconds(candles[m].ts);
        assert out[i].ts <= out[m].ts && (m < j ==> out[m].ts <= out[j].ts);
      }
    }
  }

  /** The list that is returned, with the times in seconds. */
  method ToSeconds(candles: seq<Candle>) returns (out: seq<Candle>)
    ensures out == InSeconds(candles)
  {
    out := [];
    for i := 0 to |candles|
      invariant out == InSeconds(candles)[..i]
    {
      out := out + [candles[i].(ts := Seconds(candles[i].ts))];
    }
  }

  /** fetch_ohlcv. `newest` answers the single request without a cursor. */
  method FetchOhlcv(ask: Exchange, newest: nat -> seq<Candle>, requested: nat, tf: int, now: int)
    returns (out: seq<Candle>, sent: nat)
    ensures Sorted(out)
    ensures var limit := Min(requested, 2000);
            var t := if limit <= 1000 then Traffic(newest(limit), 1)
                     else Collect(ask, 0, now - limit * tf, limit, 1000, tf);
            sent == t.sent && out == InSeconds(SortByTime(KeepLast(t.raw)))
  {
    var limit := Min(requested, MAX_LIMIT);
    var all: seq<Candle> := [];
    sent := 0;
    if limit <= BATCH_SIZE {
      all := newest(limit);
      sent := 1;
    } else {
      all, sent := FetchPages(ask, now - limit * tf, limit, BATCH_SIZE, tf);
    }
    var sorted := DedupeAndSort(all);
    LastKept(all);
    SecondsAscendIff(sorted);
    out := ToSeconds(sorted);
  }

  /** Its paged branch. */
  method FetchPages(ask: Exchange, first: int, limit: nat, batch: nat, tf: int) returns (all: seq<Candle>, sent: nat)
    requires batch >= 1
    ensures Traffic(all, sent) == Collect(ask, 0, first, limit, batch, tf)
  {
    var since, remaining := first, limit as int;
    all, sent := [], 0;
    while remaining > 0
      invariant After(all, sent, Collect(ask, sent, since, remaining, batch, tf))
             == Collect(ask, 0, first, limit, batch, tf)
      decreases remaining
    {
      var size := Min(remaining, batch);
      var chunk := ask(sent, since, size);
      sent := sent + 1;
      if chunk == [] {
        return;
      }
      all := all + chunk;
      remaining := remaining - |chunk|;
      since := chunk[|chunk| - 1].ts + tf;
      if |chunk| < size {
        return;
      }
    }
  }

  // ---------------------------------------------------------------- an honest exchange

  /** Candles are at least one timeframe apart. */
  predicate Spaced(h: seq<Candle>, tf: int) {
    tf >= 1 && forall i, j :: 0 <= i < j < |h| ==> h[i].ts + tf <= h[j].ts
  }

  /** The cursors the loop can use: the first one, or one timeframe after candle i - 1. */
  function CursorAt(h: seq<Candle>, first: int, tf: int, i: nat): int
    requires i <= |h|
  {
    if i == 0 then first else h[i - 1].ts + tf
  }

  /** At those cursors the exchange answers with pages of the history. */
  ghost predicate Honest(ask: Exchange, h: seq<Candle>, first: int, batch: nat, tf: int) {
    forall k: nat, i: nat, n: nat {:trigger ask(k, CursorAt(h, first, tf, i), n)} ::
      i <= |h| && n <= batch ==> ask(k, CursorAt(h, first, tf, i), n) == Page(h, CursorAt(h, first, tf, i), n)
  }

  lemma {:induction false} NextCursor(h: seq<Candle>, i: nat, tf: int)
    requires Spaced(h, tf) && i < |h|
    ensures Before(h, h[i].ts + tf) == i + 1
  {
    BeforeSplits(h, h[i].ts + tf);
    if i + 1 < |h| {
      assert h[i].ts + tf <= h[i + 1].ts;
    }
  }

  lemma {:induction false} PageLength(h: seq<Candle>, since: int, size: nat)
    ensures |Page(h, since, size)| <= size
  {
  }

  /** A full page followed by the page at the next cursor. */
  lemma {:induction false} PageJoin(h: seq<Candle>, since: int, size: nat, next: int, rest: nat)
    requires |Page(h, since, size)| == size && Before(h, next) == Before(h, since) + size
    ensures Page(h, since, size) + Page(h, next, rest) == Page(h, since, size + rest)
  {
  }

  lemma {:induction false} ShortPage(h: seq<Candle>, since: int, size: nat, more: nat)
    requires |Page(h, since, size)| != size && size <= more
    ensures |Page(h, since, size)| < size && Page(h, since, size) == Page(h, since, more)
  {
  }

  /** After a full page the cursor stands right behind the page's last candle. */
  lemma {:induction false} FullPage(h: seq<Candle>, first: int, since: int, size: nat, tf: int)
    requires Spaced(h, tf) && size >= 1 && |Page(h, since, size)| == size
    ensures Before(h, since) + size <= |h|
    ensures var next := CursorAt(h, first, tf, Before(h, since) + size);
            Page(h, since, size)[size - 1].ts + tf == next && Before(h, next) == Before(h, since) + size
  {
    var last := Before(h, since) + size - 1;
    assert Page(h, since, size)[size - 1] == h[last];
    NextCursor(h, last, tf);
  }

  /** MAIN: the paged loop receives exactly the first `remaining` candles at or after its
      cursor, as one uncapped request would. */
  lemma {:induction false} CollectIsOnePage(ask: Exchange, h: seq<Candle>, first: int, k: nat, i: nat, remaining: nat,
                                            batch: nat, tf: int)
    requires batch >= 1 && Spaced(h, tf) && Honest(ask, h, first, batch, tf) && i <= |h|
    ensures Collect(ask, k, CursorAt(h, first, tf, i), remaining, batch, tf).raw
         == Page(h, CursorAt(h, first, tf, i), remaining)
    decreases remaining
  {
    hide Page, CursorAt;
    var since := CursorAt(h, first, tf, i);
    PageLength(h, since, remaining);
    if remaining > 0 {
      var size: nat := Min(remaining, batch);
      var chunk := ask(k, CursorAt(h, first, tf, i), size);
      assert chunk == Page(h, since, size);
      PageLength(h, since, size);
      if |chunk| == size {
        FullPage(h, first, since, size, tf);
        var i' := Before(h, since) + size;
        var next := CursorAt(h, first, tf, i');
        assert Collect(ask, k, since, remaining, batch, tf)
            == After(chunk, 1, Collect(ask, k + 1, next, remaining - size, batch, tf));
        CollectIsOnePage(ask, h, first, k + 1, i', remaining - size, batch, tf);
        PageJoin(h, since, size, next, remaining - size);
      } else {
        assert Collect(ask, k, since, remaining, batch, tf) == Traffic(chunk, 1);
        ShortPage(h, since, size, remaining);
      }
    }
  }

  lemma {:induction false} OneMore(n: nat, batch: nat)
    ensures (1 + n) * batch == batch + n * batch
  {
  }

  lemma {:induction false} SentTimesBatch(ask: Exchange, k: nat, since: int, remaining: nat, batch: nat, tf: int)
    requires batch >= 1
    requires forall j, s, n :: |ask(j, s, n)| <= n
    ensures Collect(ask, k, since, remaining, batch, tf).sent * batch <= remaining + batch - 1
    decreases remaining
  {
    if remaining > 0 {
      var size: nat := Min(remaining, batch);
      var chunk := ask(k, since, size);
      if |chunk| == size {
        var next := chunk[size - 1].ts + tf;
        var rest := Collect(ask, k + 1, next, remaining - size, batch, tf).sent;
        SentTimesBatch(ask, k + 1, next, remaining - size, batch, tf);
        assert Collect(ask, k, since, remaining, batch, tf).sent == 1 + rest;
        assert size < batch ==> rest == 0;
        OneMore(rest, batch);
      }
    }
  }

  /** ... in at most ceil(remaining / batch) requests. */
  lemma {:induction false} RequestBound(ask: Exchange, k: nat, since: int, remaining: nat, batch: nat, tf: int)
    requires batch >= 1
    requires forall j, s, n :: |ask(j, s, n)| <= n
    ensures Collect(ask, k, since, remaining, batch, tf).sent <= (remaining + batch - 1) / batch
  {
    SentTimesBatch(ask, k, since, remaining, batch, tf);
    QuotientBound(Collect(ask, k, since, remaining, batch, tf).sent, remaining + batch - 1, batch);
  }

  lemma {:induction false} QuotientBound(q: nat, x: nat, d: nat)
    requires d >= 1 && q * d <= x
    ensures q <= x / d
  {
    Chunks.MultiplesApart(x / d, q, d);
  }

  /** MAIN: against an honest exchange the result is that page itself: nothing to deduplicate,
      nothing to reorder. */
  lemma {:induction false} PagedFetchIsOnePage(ask: Exchange, h: seq<Candle>, since: int, limit: nat, batch: nat,
                                               tf: int)
    requires batch >= 1 && Spaced(h, tf) && Honest(ask, h, since, batch, tf)
    ensures SortByTime(KeepLast(Collect(ask, 0, since, limit, batch, tf).raw)) == Page(h, since, limit)
  {
    CollectIsOnePage(ask, h, since, 0, 0, limit, batch, tf);
    PagesMerge(Page(h, since, limit), Page(h, since, limit));
  }

  // ---------------------------------------------------------------- candles closer than a timeframe

  /** The exchange that serves pages of the history itself. */
  function Direct(h: seq<Candle>): Exchange {
    (k: nat, since: int, n: nat) => Page(h, since, n)
  }

  /** Candle `i` lies strictly between the candle before it and one timeframe later. */
  predicate SkipsAt(h: seq<Candle>, tf: int, i: int) {
    0 < i < |h| && h[i].ts < h[i - 1].ts + tf
  }

  /** No candle lies strictly between the last one of a full page and one timeframe later, for
      every page that another request follows; the pages begin at position `at`. */
  predicate NoSkips(h: seq<Candle>, tf: int, at: nat, batch: nat, limit: nat) {
    forall k :: 1 <= k <= limit && k * batch < limit ==> !SkipsAt(h, tf, at + k * batch)
  }

  lemma {:induction false} NoSkipsStep(h: seq<Candle>, tf: int, at: nat, batch: nat, limit: nat)
    requires 1 <= batch < limit
    ensures NoSkips(h, tf, at, batch, limit)
            <==> !SkipsAt(h, tf, at + batch) && NoSkips(h, tf, at + batch, batch, limit - batch)
  {
    hide SkipsAt;
    if NoSkips(h, tf, at, batch, limit) {
      assert 1 * batch == batch;
      assert !SkipsAt(h, tf, at + 1 * batch);
      forall k | 1 <= k <= limit - batch && k * batch < limit - batch
        ensures !SkipsAt(h, tf, at + batch + k * batch)
      {
        OneMore(k, batch);
        assert !SkipsAt(h, tf, at + (k + 1) * batch);
      }
    }
    if !SkipsAt(h, tf, at + batch) && NoSkips(h, tf, at + batch, batch, limit - batch) {
      forall k | 1 <= k <= limit && k * batch < limit
        ensures !SkipsAt(h, tf, at + k * batch)
      {
        OneMore(k - 1, batch);
        TimesBatch(k - 1, batch);
        assert k > 1 ==> !SkipsAt(h, tf, at + batch + (k - 1) * batch);
      }
    }
  }

  lemma {:induction false} TimesBatch(n: nat, batch: nat)
    requires batch >= 1
    ensures n <= n * batch
  {
  }

  lemma {:induction false} AfterFullPage(h: seq<Candle>, tf: int, i: nat)
    requires Ascending(h) && tf >= 1 && 0 < i <= |h|
    ensures i <= Before(h, h[i - 1].ts + tf) <= |h|
    ensures Before(h, h[i - 1].ts + tf) == i <==> !SkipsAt(h, tf, i)
  {
    var t := h[i - 1].ts + tf;
    BeforeSplits(h, t);
    var b := Before(h, t);
    assert b < |h| ==> h[b].ts >= t;
  }

  lemma {:induction false} PageSlice(h: seq<Candle>, since: int, n: nat)
    requires Ascending(h)
    ensures var at := Before(h, since);
            && at <= |h| && Page(h, since, n) == h[at..Min(at + n, |h|)]
            && (at < |h| ==> h[at].ts >= since)
  {
    BeforeSplits(h, since);
  }

  lemma {:induction false} CollectsFrom(h: seq<Candle>, k: nat, since: int, limit: nat, batch: nat, tf: int)
    requires batch >= 1 && Ascending(h)
    ensures var raw := Collect(Direct(h), k, since, limit, batch, tf).raw;
            && |raw| <= limit && (raw != [] ==> raw[0].ts >= since)
    decreases limit
  {
    hide Page, Before;
    if limit > 0 {
      var size: nat := Min(limit, batch);
      PageSlice(h, since, size);
      var chunk := Page(h, since, size);
      assert Direct(h)(k, since, size) == chunk;
      if |chunk| == size {
        var next := chunk[size - 1].ts + tf;
        CollectsFrom(h, k + 1, next, limit - size, batch, tf);
        assert Collect(Direct(h), k, since, limit, batch, tf)
            == After(chunk, 1, Collect(Direct(h), k + 1, next, limit - size, batch, tf));
      } else {
        assert Collect(Direct(h), k, since, limit, batch, tf) == Traffic(chunk, 1);
      }
    }
  }

  /** MAIN: for candles at any distance the paged loop receives the one uncapped page if and
      only if no candle lies strictly between the last one of a full page and one timeframe
      later, where the next request begins. */
  lemma {:induction false} OnePageIff(h: seq<Candle>, k: nat, since: int, limit: nat, batch: nat, tf: int)
    requires batch >= 1 && tf >= 1 && Ascending(h)
    ensures Collect(Direct(h), k, since, limit, batch, tf).raw == Page(h, since, limit)
            <==> NoSkips(h, tf, Before(h, since), batch, limit)
    decreases limit
  {
    hide Page, Before, SkipsAt, Collect, NoSkips;
    var at := Before(h, since);
    PageSlice(h, since, limit);
    CollectStep(h, k, since, limit, batch, tf);
    var size: nat := Min(limit, batch);
    PageSlice(h, since, size);
    var chunk := Page(h, since, size);
    if limit == 0 || |chunk| < size {
      PastTheEnd(h, tf, at, batch, limit);
    } else {
      var i := at + size;
      var next := h[i - 1].ts + tf;
      assert chunk[size - 1] == h[i - 1];
      if limit > batch {
        var rest := Collect(Direct(h), k + 1, next, limit - size, batch, tf).raw;
        OnePageIff(h, k + 1, next, limit - size, batch, tf);
        AfterFullPage(h, tf, i);
        PageSlice(h, next, limit - size);
        CollectsFrom(h, k + 1, next, limit - size, batch, tf);
        NoSkipsStep(h, tf, at, batch, limit);
        if Before(h, next) == i {
          SplitPage(h, at, i, Min(at + limit, |h|), rest);
        } else {
          SkippedCandle(h, at, i, Min(at + limit, |h|), tf, rest);
        }
      } else {
        LastPage(h, tf, at, batch, limit);
      }
    }
  }

  lemma {:induction false} CollectStep(h: seq<Candle>, k: nat, since: int, limit: nat, batch: nat, tf: int)
    requires batch >= 1 && Ascending(h)
    ensures var size: nat := Min(limit, batch);
            var chunk := Page(h, since, size);
            var raw := Collect(Direct(h), k, since, limit, batch, tf).raw;
            && (limit == 0 ==> raw == [])
            && (|chunk| < size || limit == size ==> raw == chunk)
            && (|chunk| == size && limit > batch ==>
                  raw == chunk + Collect(Direct(h), k + 1, chunk[size - 1].ts + tf, limit - size, batch, tf).raw)
  {
    hide Page, Before;
    var size: nat := Min(limit, batch);
    PageSlice(h, since, size);
    var chunk := Page(h, since, size);
    assert Direct(h)(k, since, size) == chunk;
    if limit == size && limit > 0 && |chunk| == size {
      var next := chunk[size - 1].ts + tf;
      assert Collect(Direct(h), k + 1, next, 0, batch, tf) == Traffic([], 0);
      assert chunk + [] == chunk;
    }
  }

  lemma {:induction false} LastPage(h: seq<Candle>, tf: int, at: nat, batch: nat, limit: nat)
    requires limit <= batch
    ensures NoSkips(h, tf, at, batch, limit)
  {
    forall k | 1 <= k <= limit
      ensures k * batch >= limit
    {
      assert k * batch >= batch;
    }
  }

  lemma {:induction false} PastTheEnd(h: seq<Candle>, tf: int, at: nat, batch: nat, limit: nat)
    requires limit == 0 || at <= |h| < at + batch || |h| < at + limit <= at + batch
    ensures NoSkips(h, tf, at, batch, limit)
  {
    forall k | 1 <= k <= limit && k * batch < limit
      ensures !SkipsAt(h, tf, at + k * batch)
    {
      assert k * batch >= batch;
    }
  }

  lemma {:induction false} SplitPage(h: seq<Candle>, at: nat, i: nat, b: nat, rest: seq<Candle>)
    requires at <= i <= b <= |h|
    ensures h[at..i] + rest == h[at..b] <==> rest == h[i..b]
  {
    assert h[at..b] == h[at..i] + h[i..b];
    if h[at..i] + rest == h[at..b] {
      assert (h[at..i] + rest)[i - at..] == (h[at..i] + h[i..b])[i - at..];
    }
  }

  lemma {:induction false} SkippedCandle(h: seq<Candle>, at: nat, i: nat, b: nat, tf: int, rest: seq<Candle>)
    requires at <= i < b <= |h| && SkipsAt(h, tf, i)
    requires rest != [] ==> rest[0].ts >= h[i - 1].ts + tf
    ensures h[at..i] + rest != h[at..b]
  {
    assert h[at..b][i - at] == h[i];
    if rest != [] {
      assert (h[at..i] + rest)[i - at] == rest[0];
    }
  }

  lemma {:induction false} LastCandleLost(h: seq<Candle>, since: int, batch: nat, tf: int)
    requires Ascending(h) && batch >= 1 && |h| == batch + 1 && since <= h[0].ts && SkipsAt(h, tf, batch)
    ensures Page(h, since, batch + 1) == h
    ensures Collect(Direct(h), 0, since, batch + 1, batch, tf).raw == h[..batch]
  {
    hide Collect, Page, Before;
    var next := h[batch - 1].ts + tf;
    BeforeNone(h, since);
    BeforeSplits(h, next);
    assert Before(h, next) == batch + 1;
    PageSlice(h, since, batch + 1);
    PageSlice(h, since, batch);
    PageSlice(h, next, 1);
    assert h[0..batch + 1] == h && h[0..batch] == h[..batch];
    CollectStep(h, 0, since, batch + 1, batch, tf);
    CollectStep(h, 1, next, 1, batch, tf);
    assert h[..batch] + [] == h[..batch];
  }

  /** Candles one millisecond apart. */
  function Dense(n: nat): (h: seq<Candle>)
    ensures |h| == n && Ascending(h) && forall i :: 0 <= i < n ==> h[i].ts == i
  {
    seq(n, i => Entry(i, []))
  }

  /** For every batch size some request loses a candle: the one behind the first page. */
  lemma {:induction false} CloseCandleLost(batch: nat, tf: int)
    requires batch >= 1 && tf >= 2
    ensures exists h ::
              && Ascending(h) && Page(h, 0, batch + 1) == h && |h| == batch + 1
              && Collect(Direct(h), 0, 0, batch + 1, batch, tf).raw == h[..batch]
  {
    hide Collect, Page, Dense;
    LastCandleLost(Dense(batch + 1), 0, batch, tf);
  }

  // ---------------------------------------------------------------- the mock exchange

  /** The mock's candle at a time; its price is a function of the time alone. */
  function MockCandle(ts: int): Candle {
    var price := 60000.0 + (ts % 10000) as real / 100.0;
    Entry(ts, [price, price + 10.0, price - 10.0, price + 5.0, 1.23])
  }

  /** The mock's candle closes 5 above its open, between 10 above and 10 below it, and its open
      moves through 100 in ten seconds. */
  lemma {:induction false} MockShape(ts: int)
    ensures var c := MockCandle(ts);
            && c.ts == ts && |c.payload| == 5
            && 60000.0 <= c.payload[0] < 60100.0
            && MockCandle(ts + 10000) == c.(ts := ts + 10000)
            && (ts % 10000 < 9999 ==> MockCandle(ts + 1).payload[0] == c.payload[0] + 0.01)
            && (ts % 10000 == 0 ==> c.payload[0] == 60000.0)
            && c.payload[1] == c.payload[0] + 10.0 && c.payload[2] == c.payload[0] - 10.0
            && c.payload[3] == c.payload[0] + 5.0 && c.payload[4] == 1.23
  {
    assert (ts + 10000) % 10000 == ts % 10000;
    assert ts % 10000 < 9999 ==> (ts + 1) % 10000 == ts % 10000 + 1;
  }

  /** All candles from `start` on, one timeframe apart, before `now`. */
  function Grid(start: int, tf: int, now: int): seq<Candle>
    requires tf >= 1
    decreases if start < now then now - start else 0
  {
    if start >= now then [] else [MockCandle(start)] + Grid(start + tf, tf, now)
  }

  function Max(a: int, b: int): int {
    if a < b then b else a
  }

  /** Where the mock begins: without a cursor, `limit` timeframes ago. */
  function MockStart(since: Option<int>, requested: nat, tf: int, now: int): int {
    if since.Some? then since.value else now - Min(requested, BATCH_SIZE) * tf
  }

  /** MockExchange.fetch_ohlcv: the page built candle by candle. */
  method MockFetch(since: Option<int>, requested: nat, oldest: int, tf: int, now: int) returns (candles: seq<Candle>)
    requires tf >= 1
    ensures candles == MockPage(MockStart(since, requested, tf, now), requested, oldest, tf, now)
  {
    var limit := Min(requested, BATCH_SIZE);
    var start := now - limit * tf;
    if since.Some? {
      start := since.value;
    }
    start := Max(start, oldest);
    candles := [];
    var ts := start;
    var i := 0;
    assert Grid(start, tf, now)[..0] == [];
    while i < limit && ts < now
      invariant 0 <= i <= limit && |candles| == i
      invariant candles + Grid(ts, tf, now) == Grid(start, tf, now)
      decreases limit - i
    {
      candles := candles + [MockCandle(ts)];
      ts := ts + tf;
      i := i + 1;
    }
    assert candles == Grid(start, tf, now)[..i];
  }

  function MockPage(since: int, requested: nat, oldest: int, tf: int, now: int): seq<Candle>
    requires tf >= 1
  {
    var all := Grid(Max(since, oldest), tf, now);
    all[..Min(Min(requested, BATCH_SIZE), |all|)]
  }

  lemma {:induction false} GridFrom(n: nat, tf: int, now: int)
    requires tf >= 1
    ensures var g := Grid(now - n * tf, tf, now);
            |g| == n && forall i :: 0 <= i < n ==> g[i] == MockCandle(now - (n - i) * tf)
    decreases n
  {
    if n > 0 {
      GridFrom(n - 1, tf, now);
      OneMoreFrame(n, tf);
      var tail := Grid(now - (n - 1) * tf, tf, now);
      assert Grid(now - n * tf, tf, now) == [MockCandle(now - n * tf)] + tail;
    }
  }

  lemma {:induction false} OneMoreFrame(n: nat, tf: int)
    requires n >= 1 && tf >= 1
    ensures n * tf - tf == (n - 1) * tf && n * tf >= 1
  {
  }

  /** Without a cursor the mock returns its newest `requested` candles, the last one timeframe
      before now, if it goes back far enough. */
  lemma {:induction false} MockNewest(requested: nat, oldest: int, tf: int, now: int)
    requires tf >= 1 && requested <= BATCH_SIZE && oldest <= now - requested * tf
    ensures var page := MockPage(MockStart(None, requested, tf, now), requested, oldest, tf, now);
            |page| == requested && forall i :: 0 <= i < requested ==> page[i] == MockCandle(now - (requested - i) * tf)
  {
    GridFrom(requested, tf, now);
  }

  lemma {:induction false} GridSpaced(start: int, tf: int, now: int)
    requires tf >= 1
    ensures Spaced(Grid(start, tf, now), tf)
    ensures forall i :: 0 <= i < |Grid(start, tf, now)| ==> Grid(start, tf, now)[i].ts >= start
    decreases if start < now then now - start else 0
  {
    if start < now {
      GridSpaced(start + tf, tf, now);
      SpacedPrepend(MockCandle(start), Grid(start + tf, tf, now), tf);
    }
  }

  lemma {:induction false} SpacedPrepend(c: Candle, tail: seq<Candle>, tf: int)
    requires Spaced(tail, tf) && forall i :: 0 <= i < |tail| ==> c.ts + tf <= tail[i].ts
    ensures Spaced([c] + tail, tf)
    ensures forall i :: 0 <= i < |[c] + tail| ==> ([c] + tail)[i].ts >= c.ts
  {
  }

  /** Dropping candles from the front of the grid gives the grid from a later start. */
  lemma {:induction false} GridTail(start: int, tf: int, now: int, i: nat)
    requires tf >= 1 && i < |Grid(start, tf, now)|
    ensures Grid(start, tf, now)[i + 1..] == Grid(Grid(start, tf, now)[i].ts + tf, tf, now)
    decreases i
  {
    if i > 0 {
      GridTail(start + tf, tf, now, i - 1);
      assert Grid(start, tf, now)[i + 1..] == Grid(start + tf, tf, now)[i..];
    }
  }

  lemma {:induction false} MockAtFirst(since: int, oldest: int, tf: int, now: int, n: nat)
    requires tf >= 1 && n <= BATCH_SIZE
    ensures MockPage(since, n, oldest, tf, now) == Page(Grid(Max(since, oldest), tf, now), since, n)
  {
    var start := Max(since, oldest);
    GridSpaced(start, tf, now);
    BeforeSplits(Grid(start, tf, now), since);
  }

  lemma {:induction false} MockAtNext(since: int, oldest: int, tf: int, now: int, i: nat, n: nat)
    requires tf >= 1 && n <= BATCH_SIZE && i < |Grid(Max(since, oldest), tf, now)|
    ensures var h := Grid(Max(since, oldest), tf, now);
            MockPage(h[i].ts + tf, n, oldest, tf, now) == Page(h, h[i].ts + tf, n)
  {
    var h := Grid(Max(since, oldest), tf, now);
    GridSpaced(Max(since, oldest), tf, now);
    NextCursor(h, i, tf);
    GridTail(Max(since, oldest), tf, now, i);
    assert Max(h[i].ts + tf, oldest) == h[i].ts + tf;
  }

  /** MAIN: on the cursors the paged fetch uses, the mock is an honest exchange for one fixed
      grid of candles, although it anchors every page at the cursor it is given. */
  lemma {:induction false} MockIsHonest(since: int, oldest: int, tf: int, now: int, i: nat, n: nat)
    requires tf >= 1 && n <= BATCH_SIZE && i <= |Grid(Max(since, oldest), tf, now)|
    ensures var h := Grid(Max(since, oldest), tf, now);
            var s := CursorAt(h, since, tf, i);
            MockPage(s, n, oldest, tf, now) == Page(h, s, n)
  {
    if i == 0 {
      MockAtFirst(since, oldest, tf, now, n);
    } else {
      MockAtNext(since, oldest, tf, now, i - 1, n);
    }
  }

  /** The paged fetch on the mock: the first `limit` candles of the grid, however many there are. */
  lemma {:induction false} PagedFetchOnMock(since: int, oldest: int, tf: int, now: int, limit: nat)
    requires tf >= 1
    ensures var ask: Exchange := (k: nat, s: int, n: nat) => MockPage(s, n, oldest, tf, now);
            var grid := Grid(Max(since, oldest), tf, now);
            SortByTime(KeepLast(Collect(ask, 0, since, limit, BATCH_SIZE, tf).raw)) == grid[..Min(limit, |grid|)]
  {
    var ask: Exchange := (k: nat, s: int, n: nat) => MockPage(s, n, oldest, tf, now);
    var grid := Grid(Max(since, oldest), tf, now);
    forall k: nat, i: nat, n: nat | i <= |grid| && n <= BATCH_SIZE
      ensures ask(k, CursorAt(grid, since, tf, i), n) == Page(grid, CursorAt(grid, since, tf, i), n)
    {
      MockIsHonest(since, oldest, tf, now, i, n);
    }
    GridSpaced(Max(since, oldest), tf, now);
    BeforeSplits(grid, since);
    PagedFetchIsOnePage(ask, grid, since, limit, BATCH_SIZE, tf);
  }
}
