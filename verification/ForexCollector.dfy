/** The OANDA candle collector of backend/scripts/forex_collector.py: a forward loop whose
    cursor re-reads the last candle, and a backward loop from the newest candle. Candle times
    are compared as strings there; here they are integers in the same order. */
module ForexCollector {
  import opened Options
  import opened PagedHistory
  import opened DedupeSort

  datatype Mid = Mid(complete: bool, prices: seq<real>, volume: int)
  type Candle = Entry<Mid>

  function CompleteOnly(s: seq<Candle>): seq<Candle> {
    if s == [] then []
    else CompleteOnly(s[..|s| - 1]) + (if s[|s| - 1].payload.complete then [s[|s| - 1]] else [])
  }

  lemma {:induction false} CompleteJoin(a: seq<Candle>, b: seq<Candle>)
    ensures CompleteOnly(a + b) == CompleteOnly(a) + CompleteOnly(b)
  {
    if b == [] {
      assert a + b == a;
    } else {
      CompleteJoin(a, b[..|b| - 1]);
      assert (a + b)[..|a + b| - 1] == a + b[..|b| - 1];
    }
  }

  lemma {:induction false} CompleteMembers(s: seq<Candle>, e: Candle)
    ensures e in CompleteOnly(s) <==> e in s && e.payload.complete
  {
    if s != [] {
      CompleteMembers(s[..|s| - 1], e);
      assert s == s[..|s| - 1] + [s[|s| - 1]];
    }
  }

  lemma {:induction false} CompleteAscending(s: seq<Candle>)
    requires Ascending(s)
    ensures Ascending(CompleteOnly(s))
  {
    if s != [] {
      CompleteAscending(s[..|s| - 1]);
      var kept := CompleteOnly(s[..|s| - 1]);
      forall i | 0 <= i < |kept|
        ensures kept[i].ts < s[|s| - 1].ts
      {
        CompleteMembers(s[..|s| - 1], kept[i]);
      }
    }
  }

  /** The finishing touches: drop_duplicates on the time, then sort_values. */
  function Finish(records: seq<Candle>): seq<Candle> {
    SortByTime(KeepFirst(records))
  }

  /** The records come from the window, and every complete candle up to `covered` is there. */
  ghost predicate Covers(records: seq<Candle>, h: seq<Candle>, start: int, covered: int, end: int) {
    && (forall i :: 0 <= i < |records| ==>
          records[i] in h && records[i].payload.complete && start <= records[i].ts <= Min(covered, end))
    && (forall j :: 0 <= j < |h| && h[j].payload.complete && start <= h[j].ts <= Min(covered, end) ==> h[j] in records)
  }

  /** What one page adds: complete candles not after the end. */
  function Kept(page: seq<Candle>, end: int): seq<Candle> {
    if page == [] then []
    else
      var last := page[|page| - 1];
      Kept(page[..|page| - 1], end) + (if !last.payload.complete || last.ts > end then [] else [last])
  }

  lemma {:induction false} KeptMembers(page: seq<Candle>, end: int, e: Candle)
    ensures e in Kept(page, end) <==> e in page && e.payload.complete && e.ts <= end
  {
    if page != [] {
      KeptMembers(page[..|page| - 1], end, e);
      assert page == page[..|page| - 1] + [page[|page| - 1]];
    }
  }

  method AppendPage(records: seq<Candle>, page: seq<Candle>, end: int) returns (out: seq<Candle>)
    ensures out == records + Kept(page, end)
  {
    out := records;
    for k := 0 to |page|
      invariant out == records + Kept(page[..k], end)
    {
      assert page[..k + 1][..k] == page[..k];
      if !page[k].payload.complete || page[k].ts > end {
        continue;
      }
      out := out + [page[k]];
    }
    assert page[..|page|] == page;
  }

  /** The candles up to the last one of a page were covered before or are on the page. */
  lemma {:induction false} PageReaches(h: seq<Candle>, from: int, count: nat, j: nat)
    requires Ascending(h) && j < |h|
    ensures var page := Page(h, from, count);
            && (h[j].ts >= from && page != [] && h[j].ts <= page[|page| - 1].ts ==> h[j] in page)
            && (h[j].ts >= from && count >= 1 ==> page != [])
            && (page != [] ==> from <= page[|page| - 1].ts <= h[|h| - 1].ts)
            && (h[j].ts > from && count >= 2 ==> page[|page| - 1].ts > from)
  {
    var page := Page(h, from, count);
    var a := Before(h, from);
    BeforeSplits(h, from);
    if h[j].ts >= from && page != [] && h[j].ts <= page[|page| - 1].ts {
      assert page[|page| - 1] == h[a + |page| - 1];
      assert page[j - a] == h[j];
    }
    if h[j].ts > from && count >= 2 {
      assert page[|page| - 1] == h[a + |page| - 1];
      assert |page| == 1 ==> j == a;
      assert |page| >= 2 ==> h[a].ts < h[a + |page| - 1].ts;
    }
  }

  lemma {:induction false} PageIsFromHistory(h: seq<Candle>, from: int, count: nat, e: Candle)
    requires Sorted(h) && e in Page(h, from, count)
    ensures e in h && from <= e.ts <= Page(h, from, count)[|Page(h, from, count)| - 1].ts
  {
    BeforeSplits(h, from);
    var i :| 0 <= i < |Page(h, from, count)| && Page(h, from, count)[i] == e;
    assert h[Before(h, from) + i] == e;
  }

  /** A page at the cursor extends what is covered to the page's last candle. */
  lemma {:induction false} PageCovers(h: seq<Candle>, records: seq<Candle>, start: int, from: int, end: int,
                                      covered: int, count: nat)
    requires Ascending(h) && start <= from && from - 1 <= covered <= from
    requires Covers(records, h, start, covered, end) && Page(h, from, count) != []
    ensures var page := Page(h, from, count);
            Covers(records + Kept(page, end), h, start, page[|page| - 1].ts, end)
  {
    var page := Page(h, from, count);
    var last := page[|page| - 1].ts;
    var out := records + Kept(page, end);
    PageIsFromHistory(h, from, count, page[|page| - 1]);
    forall i | 0 <= i < |out|
      ensures out[i] in h && out[i].payload.complete && start <= out[i].ts <= Min(last, end)
    {
      if i >= |records| {
        KeptMembers(page, end, out[i]);
        PageIsFromHistory(h, from, count, out[i]);
      }
    }
    forall j | 0 <= j < |h| && h[j].payload.complete && start <= h[j].ts <= Min(last, end)
      ensures h[j] in out
    {
      if h[j].ts >= from {
        PageReaches(h, from, count, j);
        KeptMembers(page, end, h[j]);
      }
    }
  }

  /** An empty page, or one that stays at the cursor, means the history is exhausted. */
  lemma {:induction false} Exhausted(h: seq<Candle>, records: seq<Candle>, start: int, from: int, end: int,
                                     covered: int, count: nat)
    requires Ascending(h) && count >= 2 && from - 1 <= covered <= from
    requires Covers(records, h, start, covered, end)
    requires var page := Page(h, from, count); page == [] || (covered == from && page[|page| - 1].ts == from)
    ensures covered <= end ==> Covers(records, h, start, end, end)
  {
    forall j | 0 <= j < |h| && covered <= end && h[j].payload.complete && start <= h[j].ts <= end
      ensures h[j] in records
    {
      PageReaches(h, from, count, j);
    }
  }

  /** A covered window, deduplicated and sorted, is the plain range query. */
  lemma {:induction false} CoveredIsRange(records: seq<Candle>, h: seq<Candle>, start: int, covered: int, end: int)
    requires Ascending(h) && Covers(records, h, start, covered, end)
    ensures Finish(records) == CompleteOnly(Range(h, start, Min(covered, end)))
  {
    var range := Range(h, start, Min(covered, end));
    var list := CompleteOnly(range);
    RangeAscending(h, start, Min(covered, end));
    CompleteAscending(range);
    forall i | 0 <= i < |records|
      ensures records[i] in list
    {
      InRange(h, start, Min(covered, end), records[i]);
      CompleteMembers(range, records[i]);
    }
    forall j | 0 <= j < |list|
      ensures list[j] in records
    {
      CompleteMembers(range, list[j]);
      InRange(h, start, Min(covered, end), list[j]);
      var k :| 0 <= k < |h| && h[k] == list[j];
    }
    PagesMerge(records, list);
  }

  /** One answered request of the forward loop: the page, and whether and where to go on. */
  method ForwardTurn(h: seq<Candle>, records: seq<Candle>, start: int, from: int, end: int, count: nat,
                     ghost covered: int)
    returns (out: seq<Candle>, next: int, more: bool, ghost reached: int)
    requires Ascending(h) && count >= 2 && start <= from && from - 1 <= covered <= from
    requires Covers(records, h, start, covered, end) && (covered <= end || covered == from - 1)
    ensures Covers(out, h, start, reached, end)
    ensures !more ==> reached >= end
    ensures more ==> from < next < end && next == reached && h != [] && next <= h[|h| - 1].ts
  {
    var page := Page(h, from, count);
    if page == [] {
      Exhausted(h, records, start, from, end, covered, count);
      return records, from, false, if covered <= end then end else covered;
    }
    PageCovers(h, records, start, from, end, covered, count);
    PageIsFromHistory(h, from, count, page[|page| - 1]);
    PageReaches(h, from, count, 0);
    out := AppendPage(records, page, end);
    next := page[|page| - 1].ts;
    reached := next;
    more := false;
    if next >= end {
      return;
    }
    if next == from {
      Exhausted(h, out, start, from, end, reached, count);
      reached := end;
      return;
    }
    more := true;
  }

  /** MAIN: the forward loop terminates and, after deduplication and sorting, yields exactly
      the complete candles of the window, for every page size of at least 2; an API error
      leaves exactly those up to some point. `answers` requests succeed before an error. */
  method CollectRange(h: seq<Candle>, start: int, end: int, count: nat, answers: nat)
    returns (out: seq<Candle>, failed: bool, ghost reached: int)
    requires Ascending(h) && count >= 2
    ensures out == CompleteOnly(Range(h, start, Min(reached, end)))
    ensures !failed ==> out == CompleteOnly(Range(h, start, end))
  {
    var records: seq<Candle> := [];
    var from, sent, more := start, 0, true;
    failed, reached := false, start - 1;
    while more && sent < answers
      invariant Covers(records, h, start, reached, end)
      invariant more ==> start <= from && from - 1 <= reached <= from && (reached <= end || reached == from - 1)
      invariant !more ==> reached >= end
      decreases more, if h == [] then 0 else h[|h| - 1].ts - from
    {
      sent := sent + 1;
      records, from, more, reached := ForwardTurn(h, records, start, from, end, count, reached);
    }
    failed := more;
    CoveredIsRange(records, h, start, reached, end);
    out := Finish(records);
  }

  // ---------------------------------------------------------------- the newest candles

  /** The newest `count` candles, or the newest ones before a time. */
  function NewestBefore(h: seq<Candle>, to: Option<int>, count: nat): seq<Candle> {
    var b := if to.Some? then Before(h, to.value) else |h|;
    h[if b < count then 0 else b - count..b]
  }

  lemma {:induction false} BeforeAt(h: seq<Candle>, i: nat)
    requires Ascending(h) && i < |h|
    ensures Before(h, h[i].ts) == i
  {
    BeforeSplits(h, h[i].ts);
    var b := Before(h, h[i].ts);
    assert b < |h| ==> h[b].ts >= h[i].ts;
  }

  method CompletePage(page: seq<Candle>) returns (batch: seq<Candle>)
    ensures batch == CompleteOnly(page)
  {
    batch := [];
    for i := 0 to |page|
      invariant batch == CompleteOnly(page[..i])
    {
      assert page[..i + 1][..i] == page[..i];
      if !page[i].payload.complete {
        continue;
      }
      batch := batch + [page[i]];
    }
    assert page[..|page|] == page;
  }

  /** The upper bound of the next request once candles `rest` and later are collected. */
  function Bound(h: seq<Candle>, rest: nat): Option<int>
    requires rest <= |h|
  {
    if rest == |h| then None else Some(h[rest].ts)
  }

  lemma {:induction false} NewestAt(h: seq<Candle>, rest: nat, size: nat)
    requires Ascending(h) && rest <= |h|
    ensures var page := NewestBefore(h, Bound(h, rest), size);
            |page| == Min(size, rest) && page == h[rest - |page|..rest]
  {
    if rest < |h| {
      BeforeAt(h, rest);
    }
  }

  lemma {:induction false} CompletePrepend(h: seq<Candle>, a: nat, b: nat)
    requires a <= b <= |h|
    ensures CompleteOnly(h[a..b]) + CompleteOnly(h[b..]) == CompleteOnly(h[a..])
  {
    CompleteJoin(h[a..b], h[b..]);
    assert h[a..b] + h[b..] == h[a..];
  }

  /** One answered request of the backward loop: `got` candles older than what is collected. */
  method BackwardTurn(h: seq<Candle>, records: seq<Candle>, to: Option<int>, size: nat, ghost rest: nat)
    returns (out: seq<Candle>, got: nat, next: Option<int>)
    requires Ascending(h) && rest <= |h| && size >= 1
    requires records == CompleteOnly(h[rest..]) && to == Bound(h, rest)
    ensures got == Min(size, rest) && out == CompleteOnly(h[rest - got..])
    ensures next == Bound(h, rest - got)
  {
    var page := NewestBefore(h, to, size);
    NewestAt(h, rest, size);
    var batch := CompletePage(page);
    out, got := batch + records, |page|;
    CompletePrepend(h, rest - got, rest);
    next := if page != [] then Some(page[0].ts) else to;
  }

  lemma {:induction false} FinishSuffix(h: seq<Candle>, m: nat)
    requires Ascending(h) && m <= |h|
    ensures Finish(CompleteOnly(h[m..])) == CompleteOnly(h[m..])
  {
    CompleteAscending(h[m..]);
    PagesMerge(CompleteOnly(h[m..]), CompleteOnly(h[m..]));
  }

  /** MAIN: the backward loop yields exactly the complete ones among the newest `target`
      candles, in order; an API error leaves the complete ones of a newest part. */
  method CollectNewest(h: seq<Candle>, target: nat, count: nat, answers: nat)
    returns (out: seq<Candle>, failed: bool, taken: nat)
    requires Ascending(h) && count >= 1
    ensures taken <= |h| && taken <= target && out == CompleteOnly(h[|h| - taken..])
    ensures !failed ==> taken == Min(target, |h|)
    ensures failed ==> taken < target
  {
    var records: seq<Candle> := [];
    var remaining, sent, more := target as int, 0, true;
    var to: Option<int> := None;
    ghost var rest: nat := |h|;
    while remaining > 0 && more && sent < answers
      invariant rest <= |h| && |h| - rest == target - remaining && remaining >= 0
      invariant records == CompleteOnly(h[rest..]) && to == Bound(h, rest)
      invariant !more ==> rest == 0
      decreases more, remaining
    {
      sent := sent + 1;
      var size := Min(remaining, count);
      var got;
      records, got, to := BackwardTurn(h, records, to, size, rest);
      remaining := remaining - got;
      rest := rest - got;
      more := got >= size;
    }
    failed, taken := remaining > 0 && more, target - remaining;
    FinishSuffix(h, rest);
    out := Finish(records);
  }
}
