/** The resumable download loop of utility_scripts/download_trades.py (download_tick_data). The
    cursor of a run is read back from the text of the file it finds. */
module TickDownload {
  import opened Options
  import opened PagedHistory
  import opened TradeText
  import Decimal

  /** The text of the file and how many pages were written. */
  datatype Outcome = Outcome(text: string, pages: nat)

  /** The loop from a cursor. `clocks` holds what the clock shows after each answered request;
      a script that runs out is an interruption. */
  function Fetching(h: seq<Trade>, limit: nat, since: int, text: string, clocks: seq<int>): Outcome
    requires AllPlain(h)
    decreases |clocks|
  {
    var page := Page(h, since, limit);
    if clocks == [] || page == [] then Outcome(text, 0)
    else
      var last := page[|page| - 1].ts;
      if last > clocks[0] then Outcome(text + Text(page), 1)
      else
        var rest := Fetching(h, limit, last + 1, text + Text(page), clocks[1..]);
        Outcome(rest.text, rest.pages + 1)
  }

  /** Where a run starts. */
  function CursorOf(text: string, start: int): int {
    var last := LastTimestamp(text);
    if last.Some? && last.value != 0 then last.value + 1 else start
  }

  /** One run of the script on the file it finds. */
  function Session(h: seq<Trade>, start: int, limit: nat, text: string, clocks: seq<int>): Outcome
    requires AllPlain(h)
  {
    Fetching(h, limit, CursorOf(text, start), if text == [] then Header() else text, clocks)
  }

  /** One run after another, from a missing file. */
  function Sessions(h: seq<Trade>, start: int, limit: nat, runs: seq<seq<int>>): Outcome
    requires AllPlain(h)
  {
    if runs == [] then Outcome([], 0)
    else
      var before := Sessions(h, start, limit, runs[..|runs| - 1]);
      var o := Session(h, start, limit, before.text, runs[|runs| - 1]);
      Outcome(o.text, before.pages + o.pages)
  }

  class TradeFile {
    var text: string

    constructor ()
      ensures text == []
    {
      text := [];
    }

    /** download_tick_data: resume, write a header if there is nothing yet, append page by page,
        stop once a page reaches the present. */
    method Download(h: seq<Trade>, start: int, limit: nat, clocks: seq<int>) returns (pages: nat)
      requires AllPlain(h)
      modifies this
      ensures Outcome(text, pages) == Session(h, start, limit, old(text), clocks)
      ensures Brings(h, start, limit, old(text), text, pages)
    {
      hide LastTimestamp, Header, Brings, Fetching;
      SessionReadBack(h, start, limit, text, clocks);
      var last := GetLastTimestamp(text);
      var since := start;
      if last.Some? && last.value != 0 {
        since := last.value + 1;
      }
      if text == [] {
        text := Header();
      }
      pages := AppendPages(h, limit, since, clocks);
    }

    /** The loop: page by page, until none is left or one reaches the present. */
    method AppendPages(h: seq<Trade>, limit: nat, from: int, clocks: seq<int>) returns (pages: nat)
      requires AllPlain(h)
      modifies this
      ensures Outcome(text, pages) == Fetching(h, limit, from, old(text), clocks)
    {
      hide Text, Before;
      var since := from;
      pages := 0;
      while pages < |clocks|
        invariant pages <= |clocks|
        invariant var rest := Fetching(h, limit, since, text, clocks[pages..]);
                  Outcome(rest.text, pages + rest.pages) == Fetching(h, limit, from, old(text), clocks)
      {
        var page := Page(h, since, limit);
        if page == [] {
          return;
        }
        var current := page[|page| - 1].ts;
        var clock := clocks[pages];
        assert clocks[pages..][1..] == clocks[pages + 1..];
        text := text + Text(page);
        pages := pages + 1;
        since := current + 1;
        if current > clock {
          return;
        }
      }
    }
  }

  // ---------------------------------------------------------------- what runs bring

  /** The trades on the first `n` pages from a cursor. */
  function Fetched(h: seq<Trade>, limit: nat, since: int, n: nat): seq<Trade>
    decreases n
  {
    var page := Page(h, since, limit);
    if n == 0 || page == [] then [] else page + Fetched(h, limit, page[|page| - 1].ts + 1, n - 1)
  }

  /** The cursor behind some rows. */
  function Behind(rows: seq<Trade>, since: int): int {
    if rows == [] then since else rows[|rows| - 1].ts + 1
  }

  lemma {:induction false} FetchedPlain(h: seq<Trade>, limit: nat, since: int, n: nat)
    requires AllPlain(h)
    ensures AllPlain(Fetched(h, limit, since, n))
    decreases n
  {
    var page := Page(h, since, limit);
    if n > 0 && page != [] {
      FetchedPlain(h, limit, page[|page| - 1].ts + 1, n - 1);
    }
  }

  lemma {:induction false} TextJoin(a: seq<Trade>, b: seq<Trade>)
    requires AllPlain(a) && AllPlain(b)
    ensures AllPlain(a + b) && Text(a + b) == Text(a) + Text(b)
    ensures FileText(a + b) == FileText(a) + Text(b)
  {
    hide Row, Header;
    if b == [] {
      assert a + b == a;
    } else {
      TextJoin(a, b[..|b| - 1]);
      assert (a + b)[..|a + b| - 1] == a + b[..|b| - 1];
    }
  }

  /** A loop appends the trades of its pages. */
  lemma {:induction false} FetchingAppends(h: seq<Trade>, limit: nat, since: int, rows: seq<Trade>, clocks: seq<int>)
    requires AllPlain(h) && AllPlain(rows)
    ensures var o := Fetching(h, limit, since, FileText(rows), clocks);
            var more := Fetched(h, limit, since, o.pages);
            AllPlain(rows + more) && o.text == FileText(rows + more) && o.pages <= |clocks|
            && ReadTrades(o.text) == rows + more
    decreases |clocks|
  {
    hide FileText, Text, Page, ReadTrades;
    var page := Page(h, since, limit);
    var o := Fetching(h, limit, since, FileText(rows), clocks);
    FetchedPlain(h, limit, since, o.pages);
    TradesReadBack(rows + Fetched(h, limit, since, o.pages));
    if clocks == [] || page == [] {
      assert rows + [] == rows;
    } else {
      assert AllPlain(page) by {
        PageOf(h, since, limit);
      }
      TextJoin(rows, page);
      var next := page[|page| - 1].ts + 1;
      if next - 1 > clocks[0] {
        assert Fetched(h, limit, next, 0) == [];
        assert page + [] == page;
      } else {
        FetchingAppends(h, limit, next, rows + page, clocks[1..]);
        var rest := Fetching(h, limit, next, FileText(rows + page), clocks[1..]);
        assert rows + page + Fetched(h, limit, next, rest.pages) == rows + (page + Fetched(h, limit, next, rest.pages));
      }
    }
  }

  lemma {:induction false} PageOf(h: seq<Trade>, since: int, limit: nat)
    requires AllPlain(h)
    ensures AllPlain(Page(h, since, limit))
  {
  }

  /** Pages fetched in two goes are the pages fetched in one. */
  lemma {:induction false} FetchedSplit(h: seq<Trade>, limit: nat, since: int, m: nat, n: nat)
    ensures Fetched(h, limit, since, m + n)
         == Fetched(h, limit, since, m) + Fetched(h, limit, Behind(Fetched(h, limit, since, m), since), n)
    decreases m
  {
    var page := Page(h, since, limit);
    hide Page;
    if m > 0 && page != [] {
      var next := page[|page| - 1].ts + 1;
      FetchedSplit(h, limit, next, m - 1, n);
      var rest := Fetched(h, limit, next, m - 1);
      assert Behind(page + rest, since) == Behind(rest, next);
      var more := Fetched(h, limit, Behind(rest, next), n);
      assert page + rest + more == page + (rest + more);
    }
  }

  lemma {:induction false} CursorReadBack(rows: seq<Trade>, start: int)
    requires AllPlain(rows)
    ensures CursorOf(FileText(rows), start) == Behind(rows, start)
    ensures CursorOf([], start) == start && FileText([]) == Header() && FileText(rows) != []
  {
    hide LastTimestamp, FileText, Header;
    FileReadBack(rows);
    FileEnds(rows);
    FileEnds([]);
    EmptyReadBack();
  }

  /** MAIN: however a download is cut into runs, and whatever the trades' times, the file is
      the header and the trades of the pages answered in all, as one run would have left it:
      the text alone carries the cursor from run to run. */
  lemma {:induction false} InterruptionsDoNotMatter(h: seq<Trade>, start: int, limit: nat, runs: seq<seq<int>>)
    requires AllPlain(h) && runs != []
    ensures var o := Sessions(h, start, limit, runs);
            var rows := Fetched(h, limit, start, o.pages);
            AllPlain(rows) && o.text == FileText(rows) && ReadTrades(o.text) == rows
  {
    hide Fetching, FileText, Header, CursorOf, LastTimestamp, Fetched, ReadTrades;
    var n := |runs| - 1;
    var before := Sessions(h, start, limit, runs[..n]);
    var rows := Fetched(h, limit, start, before.pages);
    if n == 0 {
      assert rows == [] by {
        NoPages(h, limit, start);
      }
    } else {
      InterruptionsDoNotMatter(h, start, limit, runs[..n]);
    }
    CursorReadBack(rows, start);
    FetchingAppends(h, limit, Behind(rows, start), rows, runs[n]);
    FetchedSplit(h, limit, start, before.pages, Session(h, start, limit, before.text, runs[n]).pages);
  }

  /** The file's text is a header and whole rows. */
  predicate WholeFile(text: string) {
    AllPlain(ReadTrades(text)) && text == FileText(ReadTrades(text))
  }

  /** A run on a missing file or on whole rows leaves whole rows: read back, those that were
      there and the trades of the pages it was answered. */
  predicate Brings(h: seq<Trade>, start: int, limit: nat, before: string, after: string, pages: nat) {
    before == [] || WholeFile(before) ==>
      var rows := ReadTrades(before);
      WholeFile(after) && ReadTrades(after) == rows + Fetched(h, limit, Behind(rows, start), pages)
  }

  lemma {:induction false} SessionReadBack(h: seq<Trade>, start: int, limit: nat, text: string, clocks: seq<int>)
    requires AllPlain(h)
    ensures var o := Session(h, start, limit, text, clocks); Brings(h, start, limit, text, o.text, o.pages)
  {
    hide Fetching, FileText, Header, CursorOf, LastTimestamp, Fetched, Text;
    if text == [] || WholeFile(text) {
      var rows := ReadTrades(text);
      CursorReadBack(rows, start);
      FetchingAppends(h, limit, Behind(rows, start), rows, clocks);
    }
  }

  lemma {:induction false} NoPages(h: seq<Trade>, limit: nat, since: int)
    ensures Fetched(h, limit, since, 0) == []
  {
  }

  function Total(runs: seq<seq<int>>): nat {
    if runs == [] then 0 else Total(runs[..|runs| - 1]) + |runs[|runs| - 1]|
  }

  /** No page is ahead of a clock. */
  predicate NeverAhead(h: seq<Trade>, clocks: seq<int>) {
    forall i, k :: 0 <= i < |h| && 0 <= k < |clocks| ==> h[i].ts <= clocks[k]
  }

  lemma {:induction false} NoEarlyStop(h: seq<Trade>, limit: nat, since: int, text: string, clocks: seq<int>)
    requires AllPlain(h) && NeverAhead(h, clocks)
    ensures Fetched(h, limit, since, Fetching(h, limit, since, text, clocks).pages)
         == Fetched(h, limit, since, |clocks|)
    decreases |clocks|
  {
    hide Text;
    var page := Page(h, since, limit);
    if clocks != [] && page != [] {
      assert page[|page| - 1] in h;
      NoEarlyStop(h, limit, page[|page| - 1].ts + 1, text + Text(page), clocks[1..]);
    }
  }

  /** As long as no trade lies in the future, the runs together leave what one run with all
      their requests leaves. */
  lemma {:induction false} RunsAreOne(h: seq<Trade>, start: int, limit: nat, runs: seq<seq<int>>, whole: seq<int>)
    requires AllPlain(h) && runs != [] && |whole| == Total(runs)
    requires NeverAhead(h, whole) && forall r :: 0 <= r < |runs| ==> NeverAhead(h, runs[r])
    ensures Sessions(h, start, limit, runs).text == Session(h, start, limit, [], whole).text
  {
    hide FileText, Header, Fetching, LastTimestamp, CursorOf, NeverAhead;
    InterruptionsDoNotMatter(h, start, limit, runs);
    PagesInAll(h, start, limit, runs);
    CursorReadBack([], start);
    FetchingAppends(h, limit, start, [], whole);
    NoEarlyStop(h, limit, start, Header(), whole);
    assert [] + Fetched(h, limit, start, |whole|) == Fetched(h, limit, start, |whole|);
  }

  lemma {:induction false} PagesInAll(h: seq<Trade>, start: int, limit: nat, runs: seq<seq<int>>)
    requires AllPlain(h) && forall r :: 0 <= r < |runs| ==> NeverAhead(h, runs[r])
    ensures Fetched(h, limit, start, Sessions(h, start, limit, runs).pages) == Fetched(h, limit, start, Total(runs))
  {
    hide FileText, Header, Fetching, LastTimestamp, CursorOf, NeverAhead, Fetched;
    if runs != [] {
      var n := |runs| - 1;
      var before := Sessions(h, start, limit, runs[..n]);
      PagesInAll(h, start, limit, runs[..n]);
      var rows := Fetched(h, limit, start, before.pages);
      if n == 0 {
        NoPages(h, limit, start);
      } else {
        InterruptionsDoNotMatter(h, start, limit, runs[..n]);
      }
      CursorReadBack(rows, start);
      var text := if before.text == [] then Header() else before.text;
      NoEarlyStop(h, limit, Behind(rows, start), text, runs[n]);
      FetchedSplit(h, limit, start, before.pages, Session(h, start, limit, before.text, runs[n]).pages);
      FetchedSplit(h, limit, start, Total(runs[..n]), |runs[n]|);
    }
  }

  // ---------------------------------------------------------------- when nothing is lost

  /** Trades `i - 1` and `i` share a millisecond. */
  predicate BreaksAt(h: seq<Trade>, i: int) {
    0 < i < |h| && h[i - 1].ts == h[i].ts
  }

  /** No page break of the first `n` pages splits a millisecond; pages hold `limit` trades. */
  predicate CleanBreaks(h: seq<Trade>, limit: nat, at: nat, n: nat) {
    forall k :: 1 <= k <= n ==> !BreaksAt(h, at + k * limit)
  }

  lemma {:induction false} CleanBreaksStep(h: seq<Trade>, limit: nat, at: nat, n: nat)
    requires n >= 1
    ensures CleanBreaks(h, limit, at, n) <==> !BreaksAt(h, at + limit) && CleanBreaks(h, limit, at + limit, n - 1)
  {
    hide BreaksAt;
    assert at + 1 * limit == at + limit;
    forall k | 1 <= k <= n - 1
      ensures at + limit + k * limit == at + (k + 1) * limit
    {
    }
    if !BreaksAt(h, at + limit) && CleanBreaks(h, limit, at + limit, n - 1) {
      forall k | 1 <= k <= n
        ensures !BreaksAt(h, at + k * limit)
      {
        if k > 1 {
          assert !BreaksAt(h, at + limit + (k - 1) * limit);
        }
      }
    }
    if CleanBreaks(h, limit, at, n) {
      assert !BreaksAt(h, at + 1 * limit);
      forall k | 1 <= k <= n - 1
        ensures !BreaksAt(h, at + limit + k * limit)
      {
        assert !BreaksAt(h, at + (k + 1) * limit);
      }
    }
  }

  lemma {:induction false} PageSlice(h: seq<Trade>, limit: nat, since: int, at: nat)
    requires Before(h, since) == at && limit >= 1
    ensures at <= |h| && Page(h, since, limit) == h[at..Min(at + limit, |h|)]
    ensures Page(h, since, limit) == [] <==> at == |h|
    ensures var page := Page(h, since, limit); page != [] ==> page[|page| - 1] == h[at + |page| - 1]
  {
  }

  /** The cursor behind position `i - 1` of a sorted history. */
  lemma {:induction false} BehindPosition(h: seq<Trade>, i: nat)
    requires Sorted(h) && 0 < i <= |h|
    ensures i <= Before(h, h[i - 1].ts + 1) <= |h|
    ensures Before(h, h[i - 1].ts + 1) == i <==> !BreaksAt(h, i)
  {
    var t := h[i - 1].ts + 1;
    BeforeSplits(h, t);
    var b := Before(h, t);
    assert b < |h| ==> h[b].ts >= t;
  }

  lemma {:induction false} PageFrom(h: seq<Trade>, limit: nat, since: int)
    requires Sorted(h)
    ensures forall t :: t in Page(h, since, limit) ==> t.ts >= since
  {
    BeforeSplits(h, since);
  }

  lemma {:induction false} FetchedFrom(h: seq<Trade>, limit: nat, since: int, n: nat)
    requires Sorted(h)
    ensures var rows := Fetched(h, limit, since, n);
            && (rows != [] ==> rows[0].ts >= since)
            && Behind(rows, since) >= since
    decreases n
  {
    hide Before, Page;
    var page := Page(h, since, limit);
    if n > 0 && page != [] {
      PageFrom(h, limit, since);
      FetchedFrom(h, limit, page[|page| - 1].ts + 1, n - 1);
    }
  }

  lemma {:induction false} BeforeNoMore(h: seq<Trade>, lo: int, hi: int)
    requires lo <= hi
    ensures Before(h, lo) <= Before(h, hi) <= |h|
  {
    BeforeMonotone(h, lo, hi);
  }

  /** MAIN: for a history in time order, the file holds every trade from the start up to the
      cursor of the next run if and only if no page break splits a millisecond; what lies
      behind such a break in its millisecond is never fetched again. */
  lemma {:induction false} NothingLostIff(h: seq<Trade>, limit: nat, since: int, n: nat)
    requires Sorted(h) && limit >= 1
    ensures Before(h, since) <= Before(h, Behind(Fetched(h, limit, since, n), since)) <= |h|
    ensures Fetched(h, limit, since, n) == h[Before(h, since)..Before(h, Behind(Fetched(h, limit, since, n), since))]
            <==> CleanBreaks(h, limit, Before(h, since), n)
    decreases n
  {
    hide Before, Page, BreaksAt;
    var at := Before(h, since);
    var rows := Fetched(h, limit, since, n);
    FetchedFrom(h, limit, since, n);
    BeforeNoMore(h, since, Behind(rows, since));
    PageSlice(h, limit, since, at);
    var page := Page(h, since, limit);
    if n == 0 {
    } else if page == [] {
      PastTheEnd(h, limit, at, n);
    } else {
      var i := at + |page|;
      var next := h[i - 1].ts + 1;
      BehindPosition(h, i);
      NothingLostIff(h, limit, next, n - 1);
      FetchedFrom(h, limit, next, n - 1);
      var rest := Fetched(h, limit, next, n - 1);
      assert rows == page + rest && Behind(rows, since) == Behind(rest, next);
      var b := Before(h, Behind(rest, next));
      if i == |h| {
        assert b == i && rest == [] by {
          PageSlice(h, limit, next, i);
        }
        PastTheEnd(h, limit, at, n);
      } else {
        CleanBreaksStep(h, limit, at, n);
        if BreaksAt(h, i) {
          MissesNext(h, at, i, b, page, rest, next);
        } else {
          SliceJoins(h, at, i, b, rest);
        }
      }
    }
  }

  /** There is no break at or past the end of the history. */
  lemma {:induction false} PastTheEnd(h: seq<Trade>, limit: nat, at: nat, n: nat)
    requires limit >= 1 && at <= |h| <= at + limit
    ensures CleanBreaks(h, limit, at, n)
  {
    forall k | 1 <= k <= n
      ensures !BreaksAt(h, at + k * limit)
    {
      assert k * limit >= limit;
    }
  }

  lemma {:induction false} SliceJoins(h: seq<Trade>, at: nat, i: nat, b: nat, rest: seq<Trade>)
    requires at <= i <= b <= |h|
    ensures h[at..i] + rest == h[at..b] <==> rest == h[i..b]
  {
    assert h[at..b] == h[at..i] + h[i..b];
    if h[at..i] + rest == h[at..b] {
      assert (h[at..i] + rest)[i - at..] == (h[at..i] + h[i..b])[i - at..];
    }
  }

  lemma {:induction false} MissesNext(h: seq<Trade>, at: nat, i: nat, b: nat, page: seq<Trade>, rest: seq<Trade>,
                                      next: int)
    requires at <= i < |h| && i < b <= |h| && page == h[at..i]
    requires BreaksAt(h, i) && next == h[i - 1].ts + 1 && (rest != [] ==> rest[0].ts >= next)
    ensures page + rest != h[at..b]
  {
    if rest != [] {
      assert (page + rest)[i - at] == rest[0];
    }
    assert h[at..b][i - at] == h[i];
  }

  /** With clean breaks the pages are the next `n * limit` trades. */
  lemma {:induction false} CleanBreaksBring(h: seq<Trade>, limit: nat, since: int, n: nat)
    requires Sorted(h) && limit >= 1 && CleanBreaks(h, limit, Before(h, since), n)
    ensures Before(h, since) <= |h|
    ensures Fetched(h, limit, since, n) == h[Before(h, since)..Min(Before(h, since) + n * limit, |h|)]
    decreases n
  {
    hide Before, Page, BreaksAt, CleanBreaks;
    var at := Before(h, since);
    PageSlice(h, limit, since, at);
    var page := Page(h, since, limit);
    if n == 0 {
    } else if page == [] {
      assert n * limit >= 0;
    } else {
      var i := at + |page|;
      var next := h[i - 1].ts + 1;
      BehindPosition(h, i);
      CleanBreaksStep(h, limit, at, n);
      OneMorePage(n, limit);
      var rest := Fetched(h, limit, next, n - 1);
      assert Fetched(h, limit, since, n) == page + rest;
      if i == |h| {
        PageSlice(h, limit, next, i);
        assert page + [] == page;
      } else {
        CleanBreaksBring(h, limit, next, n - 1);
        SliceJoins(h, at, i, Min(at + n * limit, |h|), rest);
      }
    }
  }

  lemma {:induction false} OneMorePage(n: nat, limit: nat)
    requires n >= 1
    ensures n * limit == limit + (n - 1) * limit && (n - 1) * limit >= 0
  {
  }

  /** With distinct times no break splits a millisecond: the pages are the next trades. */
  lemma {:induction false} DistinctTimesBring(h: seq<Trade>, limit: nat, since: int, n: nat)
    requires Ascending(h) && limit >= 1
    ensures Before(h, since) <= |h|
    ensures Fetched(h, limit, since, n) == h[Before(h, since)..Min(Before(h, since) + n * limit, |h|)]
  {
    assert CleanBreaks(h, limit, Before(h, since), n);
    CleanBreaksBring(h, limit, since, n);
  }

  // ---------------------------------------------------------------- when a run ends

  /** A page moves the cursor behind at least one more trade. */
  lemma {:induction false} PageAdvances(h: seq<Trade>, limit: nat, since: int)
    requires Sorted(h) && limit >= 1 && Page(h, since, limit) != []
    ensures var page := Page(h, since, limit); Before(h, since) < Before(h, page[|page| - 1].ts + 1) <= |h|
  {
    hide Before, Page;
    var at := Before(h, since);
    PageSlice(h, limit, since, at);
    BehindPosition(h, at + |Page(h, since, limit)|);
  }

  /** MAIN: a run never gets more pages than there are trades behind its cursor, and when it has
      requests left it ended by itself: nothing lies behind its cursor, or its last trade is in
      the future. So with more requests than trades every run ends by itself. */
  lemma {:induction false} RunEnds(h: seq<Trade>, limit: nat, since: int, text: string, clocks: seq<int>)
    requires AllPlain(h) && Sorted(h) && limit >= 1
    ensures var o := Fetching(h, limit, since, text, clocks);
            var rows := Fetched(h, limit, since, o.pages);
            && Before(h, since) + o.pages <= |h|
            && (o.pages < |clocks| ==>
                  || Page(h, Behind(rows, since), limit) == []
                  || (0 < o.pages && rows != [] && rows[|rows| - 1].ts > clocks[o.pages - 1]))
    decreases |clocks|
  {
    hide Before, Page, Text;
    var page := Page(h, since, limit);
    PageSlice(h, limit, since, Before(h, since));
    if clocks != [] && page != [] {
      PageAdvances(h, limit, since);
      var next := page[|page| - 1].ts + 1;
      assert Fetched(h, limit, next, 0) == [] && page + [] == page;
      RunEnds(h, limit, next, text + Text(page), clocks[1..]);
      var rest := Fetching(h, limit, next, text + Text(page), clocks[1..]);
      var others := Fetched(h, limit, next, rest.pages);
      assert Behind(page + others, since) == Behind(others, next);
    }
  }

  /** A run with enough requests and no trade in the future brings every trade from its cursor
      on if and only if no page break splits a millisecond. */
  lemma {:induction false} CompleteIff(h: seq<Trade>, limit: nat, since: int, text: string, clocks: seq<int>)
    requires AllPlain(h) && Sorted(h) && limit >= 1 && |clocks| > |h| && NeverAhead(h, clocks)
    ensures var n := Fetching(h, limit, since, text, clocks).pages;
            && Before(h, since) <= |h|
            && (Fetched(h, limit, since, n) == h[Before(h, since)..] <==> CleanBreaks(h, limit, Before(h, since), n))
  {
    hide Before, Page, CleanBreaks, Fetching;
    RunEnds(h, limit, since, text, clocks);
    var n := Fetching(h, limit, since, text, clocks).pages;
    var rows := Fetched(h, limit, since, n);
    NothingLostIff(h, limit, since, n);
    assert rows != [] ==> rows[|rows| - 1] in h by {
      FetchedIn(h, limit, since, n);
    }
    var cursor := Behind(rows, since);
    PageSlice(h, limit, cursor, Before(h, cursor));
    assert h[..|h|] == h;
  }

  lemma {:induction false} FetchedIn(h: seq<Trade>, limit: nat, since: int, n: nat)
    ensures forall t :: t in Fetched(h, limit, since, n) ==> t in h
    decreases n
  {
    var page := Page(h, since, limit);
    if n > 0 && page != [] {
      FetchedIn(h, limit, page[|page| - 1].ts + 1, n - 1);
    }
  }

  // ---------------------------------------------------------------- after a crash

  /** MAIN: the run after a crash that tore the last row: torn before its digits, it starts all
      over; torn inside them, it starts at an earlier time and fetches rows again; otherwise it
      goes on behind the row. The first row it writes is glued to the torn one. */
  lemma {:induction false} RunAfterTear(before: string, t: Trade, p: nat, h: seq<Trade>, start: int, limit: nat,
                                        clocks: seq<int>)
    requires before == [] || before[|before| - 1] == '\n'
    requires AllPlain(h) && Plain(t) && 0 < p < |Row(t)|
    ensures var digits := |t.payload.id| + 1;
            var end := digits + |Decimal.Write(t.ts)|;
            var torn := before + Row(t)[..p];
            var cursor := CursorOf(torn, start);
            && (if p <= digits then cursor == start else if p < end then 1 < cursor <= t.ts else cursor == t.ts + 1)
            && (var page := Page(h, cursor, limit);
                clocks != [] && page != [] ==>
                  AllPlain(page[..1]) && torn + Row(page[0]) <= Session(h, start, limit, torn, clocks).text)
  {
    hide LastTimestamp, Row, Page;
    TornRow(before, t, p);
    var torn := before + Row(t)[..p];
    var cursor := CursorOf(torn, start);
    var page := Page(h, cursor, limit);
    assert torn != [];
    if clocks != [] && page != [] {
      PageOf(h, cursor, limit);
      FirstRow(page);
      FetchingKeeps(h, limit, page[|page| - 1].ts + 1, torn + Text(page), clocks[1..]);
    }
  }

  lemma {:induction false} FirstRow(page: seq<Trade>)
    requires AllPlain(page) && page != []
    ensures Row(page[0]) <= Text(page)
  {
    hide Row;
    if |page| == 1 {
      assert page[..0] == [] && Text(page) == [] + Row(page[0]);
    } else {
      FirstRow(page[..|page| - 1]);
    }
  }

  lemma {:induction false} FetchingKeeps(h: seq<Trade>, limit: nat, since: int, text: string, clocks: seq<int>)
    requires AllPlain(h)
    ensures text <= Fetching(h, limit, since, text, clocks).text
    decreases |clocks|
  {
    hide Text, Page;
    var page := Page(h, since, limit);
    if clocks != [] && page != [] {
      PageOf(h, since, limit);
      FetchingKeeps(h, limit, page[|page| - 1].ts + 1, text + Text(page), clocks[1..]);
    }
  }
}
