/** The resumable candle download of backend/app/tasks.py (download_candles_task). */
module CandleDownload {
  import opened PagedHistory

  /** The payload is open, high, low, close and volume. */
  type Candle = Entry<seq<real>>

  /** How one turn of the loop goes: the stop signal seen before or after the fetch, an
      exception from the fetch, a fetch, or a fetch followed by an exception in the progress
      report. A script that runs out is the process being killed between two turns. */
  datatype Turn = AbortBefore | Faulted | AbortAfter | Fetched | ReportFaulted

  datatype Status = UpToDate | Completed | Interrupted

  datatype Outcome = Outcome(rows: seq<Candle>, status: Status)

  /** A timestamp as the file keeps it: the date format has whole seconds only. */
  function Stored(c: Candle): Candle {
    c.(ts := c.ts / 1000 * 1000)
  }

  /** The rows written for a page: candles after the end are skipped. */
  function Kept(page: seq<Candle>, end: int): seq<Candle> {
    if page == [] then []
    else Kept(page[..|page| - 1], end) + (if page[|page| - 1].ts > end then [] else [Stored(page[|page| - 1])])
  }

  /** Where a session starts: after the last row of the file, unless its timestamp is 0. */
  function Cursor(rows: seq<Candle>, start: int): int {
    if rows != [] && rows[|rows| - 1].ts != 0 then rows[|rows| - 1].ts + 1 else start
  }

  function Loop(h: seq<Candle>, end: int, limit: nat, since: int, rows: seq<Candle>, turns: seq<Turn>): Outcome
    decreases |turns|
  {
    if turns == [] || turns[0].AbortBefore? then Outcome(rows, Interrupted)
    else if since >= end then Outcome(rows, Completed)
    else if turns[0].Faulted? then Loop(h, end, limit, since, rows, turns[1..])
    else if turns[0].AbortAfter? then Outcome(rows, Interrupted)
    else
      var page := Page(h, since, limit);
      if page == [] then Outcome(rows, Completed)
      else
        var last := page[|page| - 1].ts;
        if turns[0].Fetched? && last >= end then Outcome(rows + Kept(page, end), Completed)
        else Loop(h, end, limit, last + 1, rows + Kept(page, end), turns[1..])
  }

  /** One call of the task on a file that already holds `rows`. */
  function Session(h: seq<Candle>, start: int, end: int, limit: nat, rows: seq<Candle>, turns: seq<Turn>): Outcome {
    var since := Cursor(rows, start);
    if end - since <= 0 then Outcome(rows, UpToDate) else Loop(h, end, limit, since, rows, turns)
  }

  /** The csv file of one symbol and timeframe, header aside. */
  class CandleFile {
    var rows: seq<Candle>

    constructor ()
      ensures rows == []
    {
      rows := [];
    }

    method WritePage(page: seq<Candle>, end: int)
      modifies this
      ensures rows == old(rows) + Kept(page, end)
    {
      for i := 0 to |page|
        invariant rows == old(rows) + Kept(page[..i], end)
      {
        assert page[..i + 1][..i] == page[..i];
        if page[i].ts > end {
          continue;
        }
        rows := rows + [Stored(page[i])];
      }
      assert page[..|page|] == page;
    }

    method Download(h: seq<Candle>, start: int, end: int, limit: nat, turns: seq<Turn>) returns (status: Status)
      modifies this
      ensures Outcome(rows, status) == Session(h, start, end, limit, old(rows), turns)
    {
      var since := start;
      if rows != [] && rows[|rows| - 1].ts != 0 {
        since := rows[|rows| - 1].ts + 1;
      }
      if end - since <= 0 {
        return UpToDate;
      }
      var used := 0;
      while used < |turns|
        invariant used <= |turns|
        invariant Loop(h, end, limit, since, rows, turns[used..]) == Session(h, start, end, limit, old(rows), turns)
      {
        var turn := turns[used];
        used := used + 1;
        if turn.AbortBefore? {
          return Interrupted;
        }
        if since >= end {
          return Completed;
        }
        if turn.Faulted? {
          continue;
        }
        if turn.AbortAfter? {
          return Interrupted;
        }
        var page := Page(h, since, limit);
        if page == [] {
          return Completed;
        }
        WritePage(page, end);
        var last := page[|page| - 1].ts;
        since := last + 1;
        if turn.ReportFaulted? {
          continue;
        }
        if last >= end {
          return Completed;
        }
      }
      return Interrupted;
    }
  }

  // ---------------------------------------------------------------- what every turn keeps

  /** Candle times are whole seconds, and none is the epoch itself. */
  predicate WholeSeconds(h: seq<Candle>) {
    forall i :: 0 <= i < |h| ==> h[i].ts % 1000 == 0 && h[i].ts != 0
  }

  /** The file holds the range query from the start to its own last row. */
  ghost predicate Resumable(h: seq<Candle>, start: int, end: int, rows: seq<Candle>) {
    && rows == Range(h, start, Cursor(rows, start) - 1)
    && (rows != [] ==>
          start <= rows[|rows| - 1].ts <= end && rows[|rows| - 1].ts % 1000 == 0 && rows[|rows| - 1].ts != 0)
  }

  lemma {:induction false} KeptIsRange(page: seq<Candle>, end: int)
    requires WholeSeconds(page)
    ensures forall lo :: (forall i :: 0 <= i < |page| ==> lo <= page[i].ts) ==> Kept(page, end) == Range(page, lo, end)
  {
    if page != [] {
      var init, last := page[..|page| - 1], page[|page| - 1];
      KeptIsRange(init, end);
      assert page == init + [last];
      forall lo | forall i :: 0 <= i < |page| ==> lo <= page[i].ts
        ensures Kept(page, end) == Range(page, lo, end)
      {
        RangeConcat(init, [last], lo, end);
        assert forall i :: 0 <= i < |init| ==> init[i] == page[i];
        assert lo <= page[|page| - 1].ts;
      }
    }
  }

  lemma {:induction false} PageFrom(h: seq<Candle>, since: int, limit: nat)
    requires Ascending(h) && WholeSeconds(h)
    ensures var page := Page(h, since, limit);
            WholeSeconds(page) && forall i :: 0 <= i < |page| ==> since <= page[i].ts
  {
    BeforeSplits(h, since);
  }

  /** Writing one fetched page extends the range query to the page's last candle. */
  lemma {:induction false} PageExtends(h: seq<Candle>, start: int, end: int, limit: nat, since: int)
    requires Ascending(h) && WholeSeconds(h) && limit >= 1 && start <= since <= end + 1
    requires Page(h, since, limit) != []
    ensures var page := Page(h, since, limit);
            var last := page[|page| - 1].ts;
            last >= since && Range(h, start, since - 1) + Kept(page, end) == Range(h, start, Min(last, end))
    ensures var page := Page(h, since, limit); page[|page| - 1].ts < end ==> Kept(page, end) == page
  {
    hide Page, Range, Kept;
    var page := Page(h, since, limit);
    var last := page[|page| - 1].ts;
    KeptOfPage(h, end, limit, since);
    RangeSplit(h, start, since, Min(last, end));
  }

  /** What is written for a page is the range up to its last candle or the end. */
  lemma {:induction false} KeptOfPage(h: seq<Candle>, end: int, limit: nat, since: int)
    requires Ascending(h) && WholeSeconds(h) && limit >= 1 && Page(h, since, limit) != []
    ensures var page := Page(h, since, limit);
            var last := page[|page| - 1].ts;
            && last >= since && Kept(page, end) == Range(h, since, Min(last, end))
            && (last < end ==> Kept(page, end) == page)
  {
    var page := Page(h, since, limit);
    var last := page[|page| - 1].ts;
    PageIsRange(h, since, limit);
    PageFrom(h, since, limit);
    hide Page, Range, Kept;
    KeptIsRange(page, end);
    RangeOfRange(h, since, last, end);
  }

  /** Nothing is missed when the loop leaves because the cursor has reached the end. */
  lemma {:induction false} NothingAtEnd(h: seq<Candle>, start: int, end: int, rows: seq<Candle>)
    requires Ascending(h) && WholeSeconds(h) && Resumable(h, start, end, rows) && start < end
    requires Cursor(rows, start) >= end
    ensures rows == Range(h, start, end)
  {
    var since := Cursor(rows, start);
    if since == end {
      RangeSplit(h, start, end, end);
      RangeEmptyIff(h, end, end);
      if rows != [] {
        assert end % 1000 == 1;
      }
    }
  }

  /** A fetch that finds nothing, or reaches the end, leaves the whole range query. */
  lemma {:induction false} FetchFinishes(h: seq<Candle>, start: int, end: int, limit: nat, rows: seq<Candle>)
    requires Ascending(h) && WholeSeconds(h) && limit >= 1
    requires Resumable(h, start, end, rows) && Cursor(rows, start) < end
    ensures var page := Page(h, Cursor(rows, start), limit);
            if page == [] then rows == Range(h, start, end)
            else page[|page| - 1].ts >= end ==> rows + Kept(page, end) == Range(h, start, end)
  {
    var since := Cursor(rows, start);
    if Page(h, since, limit) == [] {
      PageIsRange(h, since, limit);
      RangeSplit(h, start, since, end);
    } else {
      PageExtends(h, start, end, limit, since);
    }
  }

  /** A fetch that stays before the end makes progress and keeps the file resumable. */
  lemma {:induction false} FetchAdvances(h: seq<Candle>, start: int, end: int, limit: nat, rows: seq<Candle>)
    requires Ascending(h) && WholeSeconds(h) && limit >= 1
    requires Resumable(h, start, end, rows) && Cursor(rows, start) < end
    requires var page := Page(h, Cursor(rows, start), limit); page != [] && page[|page| - 1].ts < end
    ensures var page := Page(h, Cursor(rows, start), limit);
            var rows' := rows + Kept(page, end);
            && |rows'| > |rows| && Cursor(rows', start) == page[|page| - 1].ts + 1
            && Resumable(h, start, end, rows')
  {
    var since := Cursor(rows, start);
    var page := Page(h, since, limit);
    PageExtends(h, start, end, limit, since);
    PageFrom(h, since, limit);
    var last := page[|page| - 1];
    hide Page, Before, Range, Kept;
    assert (rows + page)[|rows + page| - 1] == last;
  }

  predicate NoAbort(turns: seq<Turn>) {
    forall i :: 0 <= i < |turns| ==> !turns[i].AbortBefore? && !turns[i].AbortAfter?
  }

  function Fetches(turns: seq<Turn>): nat {
    if turns == [] then 0
    else (if turns[0].Fetched? || turns[0].ReportFaulted? then 1 else 0) + Fetches(turns[1..])
  }

  /** What any loop leaves behind, including its progress: a script that runs out has added a
      row with every fetch but at most one that went past the end. */
  ghost predicate LoopFacts(h: seq<Candle>, start: int, end: int, rows: seq<Candle>, turns: seq<Turn>, o: Outcome) {
    && rows <= o.rows
    && Resumable(h, start, end, o.rows)
    && (o.status != Interrupted ==> o.rows == Range(h, start, end))
    && (o.status == Interrupted ==> !NoAbort(turns) || Fetches(turns) <= |o.rows| - |rows| + 1)
  }

  lemma {:induction false} RangeResumable(h: seq<Candle>, start: int, end: int)
    requires Ascending(h) && WholeSeconds(h) && start <= end
    ensures Resumable(h, start, end, Range(h, start, end))
  {
    var rows := Range(h, start, end);
    if rows == [] {
      EmptyRange(h, start, start - 1);
    } else {
      var last := rows[|rows| - 1];
      InRange(h, start, end, last);
      RangeAscending(h, start, end);
      RangeSplit(h, start, last.ts + 1, end);
      forall i | 0 <= i < |h|
        ensures !(last.ts + 1 <= h[i].ts <= end)
      {
        InRange(h, start, end, h[i]);
        assert h[i] in rows ==> h[i].ts <= last.ts;
      }
      RangeEmptyIff(h, last.ts + 1, end);
    }
  }

  /** The facts about the rest of a script give the facts about the script. */
  lemma {:induction false} FactsFromTail(h: seq<Candle>, start: int, end: int, rows: seq<Candle>, added: seq<Candle>,
                                         turns: seq<Turn>, o: Outcome)
    requires turns != [] && LoopFacts(h, start, end, rows + added, turns[1..], o)
    requires added != [] || turns[0].Faulted?
    ensures LoopFacts(h, start, end, rows, turns, o)
  {
    NoAbortTail(turns);
    assert o.rows[..|rows|] == (rows + added)[..|rows|] == rows;
  }

  /** The loop's outcome from a turn whose fetch finds nothing or reaches the end. */
  lemma {:induction false} LoopEnds(h: seq<Candle>, end: int, limit: nat, since: int, rows: seq<Candle>,
                                    turns: seq<Turn>)
    requires since < end && turns != [] && (turns[0].Fetched? || turns[0].ReportFaulted?)
    requires var page := Page(h, since, limit); page == [] || page[|page| - 1].ts >= end
    ensures var page, o := Page(h, since, limit), Loop(h, end, limit, since, rows, turns);
            && o.rows == (if page == [] then rows else rows + Kept(page, end))
            && (o.status == Interrupted ==> Fetches(turns) <= 1 || !NoAbort(turns))
  {
    hide Page;
    var page := Page(h, since, limit);
    if page != [] && turns[0].ReportFaulted? {
      NoAbortTail(turns);
      PastEnd(h, end, limit, page[|page| - 1].ts + 1, rows + Kept(page, end), turns[1..]);
    }
  }

  lemma {:induction false} LastFetch(h: seq<Candle>, start: int, end: int, limit: nat, rows: seq<Candle>,
                                     turns: seq<Turn>)
    requires Ascending(h) && WholeSeconds(h) && limit >= 1 && start < end
    requires Resumable(h, start, end, rows) && Cursor(rows, start) < end
    requires turns != [] && (turns[0].Fetched? || turns[0].ReportFaulted?)
    requires var page := Page(h, Cursor(rows, start), limit); page == [] || page[|page| - 1].ts >= end
    ensures LoopFacts(h, start, end, rows, turns, Loop(h, end, limit, Cursor(rows, start), rows, turns))
  {
    hide Loop, Page, Range;
    LoopEnds(h, end, limit, Cursor(rows, start), rows, turns);
    FetchFinishes(h, start, end, limit, rows);
    RangeResumable(h, start, end);
  }

  lemma {:induction false} LoopKeeps(h: seq<Candle>, start: int, end: int, limit: nat, rows: seq<Candle>,
                                     turns: seq<Turn>)
    requires Ascending(h) && WholeSeconds(h) && limit >= 1 && start < end
    requires Resumable(h, start, end, rows)
    ensures LoopFacts(h, start, end, rows, turns, Loop(h, end, limit, Cursor(rows, start), rows, turns))
    decreases |turns|
  {
    hide Page, Range, Kept, Cursor;
    var since := Cursor(rows, start);
    if turns == [] || turns[0].AbortBefore? {
    } else if since >= end {
      NothingAtEnd(h, start, end, rows);
    } else if turns[0].Faulted? {
      var o := Loop(h, end, limit, since, rows, turns[1..]);
      assert Loop(h, end, limit, since, rows, turns) == o;
      LoopKeeps(h, start, end, limit, rows, turns[1..]);
      assert rows + [] == rows;
      FactsFromTail(h, start, end, rows, [], turns, o);
    } else if turns[0].AbortAfter? {
    } else {
      var page := Page(h, since, limit);
      if page == [] || page[|page| - 1].ts >= end {
        LastFetch(h, start, end, limit, rows, turns);
      } else {
        FetchAdvances(h, start, end, limit, rows);
        var rows', last := rows + Kept(page, end), page[|page| - 1].ts;
        var o := Loop(h, end, limit, last + 1, rows', turns[1..]);
        assert Loop(h, end, limit, since, rows, turns) == o;
        LoopKeeps(h, start, end, limit, rows', turns[1..]);
        FactsFromTail(h, start, end, rows, Kept(page, end), turns, o);
      }
    }
  }

  lemma {:induction false} NoAbortTail(turns: seq<Turn>)
    requires turns != []
    ensures NoAbort(turns) ==> NoAbort(turns[1..])
  {
  }

  /** Once the cursor is past the end the loop writes nothing more. */
  lemma {:induction false} PastEnd(h: seq<Candle>, end: int, limit: nat, since: int, rows: seq<Candle>,
                                   turns: seq<Turn>)
    requires since >= end
    ensures Loop(h, end, limit, since, rows, turns).rows == rows
    ensures Loop(h, end, limit, since, rows, turns).status == Interrupted ==> turns == [] || !NoAbort(turns)
  {
  }

  /** One session from any resumable file. */
  lemma {:induction false} SessionKeeps(h: seq<Candle>, start: int, end: int, limit: nat, rows: seq<Candle>,
                                        turns: seq<Turn>)
    requires Ascending(h) && WholeSeconds(h) && limit >= 1 && start < end
    requires Resumable(h, start, end, rows)
    ensures LoopFacts(h, start, end, rows, turns, Session(h, start, end, limit, rows, turns))
  {
    if Cursor(rows, start) >= end {
      NothingAtEnd(h, start, end, rows);
    } else {
      LoopKeeps(h, start, end, limit, rows, turns);
    }
  }

  // ---------------------------------------------------------------- any number of sessions

  /** One start of the task: what the exchange has by then, the end, which is the clock where
      none is given, and how the run goes. */
  datatype Call = Call(history: seq<Candle>, end: int, turns: seq<Turn>)

  /** A later call has a later end, and what the exchange has gained lies behind the earlier end. */
  predicate Follows(a: Call, b: Call) {
    && a.end <= b.end && a.history <= b.history
    && forall i :: |a.history| <= i < |b.history| ==> a.end < b.history[i].ts
  }

  predicate Calls(calls: seq<Call>, start: int) {
    && (forall k :: 0 <= k < |calls| ==>
          start < calls[k].end && Ascending(calls[k].history) && WholeSeconds(calls[k].history))
    && forall k :: 0 < k < |calls| ==> Follows(calls[k - 1], calls[k])
  }

  /** The same download started again and again. */
  function Sessions(start: int, limit: nat, calls: seq<Call>): Outcome {
    if calls == [] then Outcome([], Interrupted)
    else
      var before, call := Sessions(start, limit, calls[..|calls| - 1]), calls[|calls| - 1];
      Session(call.history, start, call.end, limit, before.rows, call.turns)
  }

  /** A resumable file stays one when time goes by. */
  lemma {:induction false} ResumableLater(a: Call, b: Call, start: int, rows: seq<Candle>)
    requires Follows(a, b) && Resumable(a.history, start, a.end, rows)
    ensures Resumable(b.history, start, b.end, rows)
  {
    var more := b.history[|a.history|..];
    assert b.history == a.history + more;
    var hi := Cursor(rows, start) - 1;
    if rows == [] {
      EmptyRange(b.history, start, start - 1);
    } else {
      RangeConcat(a.history, more, start, hi);
      RangeEmptyIff(more, start, hi);
    }
  }

  lemma {:induction false} SessionsKeep(start: int, limit: nat, calls: seq<Call>)
    requires Calls(calls, start) && limit >= 1 && calls != []
    ensures var o, call := Sessions(start, limit, calls), calls[|calls| - 1];
            && Resumable(call.history, start, call.end, o.rows)
            && (o.status != Interrupted ==> o.rows == Range(call.history, start, call.end))
  {
    hide Session, Range, Resumable, WholeSeconds, Ascending, Follows;
    var n := |calls| - 1;
    var before, call := Sessions(start, limit, calls[..n]), calls[n];
    assert Resumable(call.history, start, call.end, before.rows) by {
      if n == 0 {
        NothingYet(call.history, start, call.end);
      } else {
        SessionsKeep(start, limit, calls[..n]);
        assert Follows(calls[n - 1], calls[n]);
        ResumableLater(calls[n - 1], call, start, before.rows);
      }
    }
    SessionKeeps(call.history, start, call.end, limit, before.rows, call.turns);
  }

  lemma {:induction false} NothingYet(h: seq<Candle>, start: int, end: int)
    ensures Resumable(h, start, end, [])
  {
    EmptyRange(h, start, start - 1);
  }

  /** MAIN: however often the download is interrupted and resumed, and however late, once a
      session ends by itself the file is the plain range query up to that session's end: each
      candle with start <= t <= end once, in order, the same rows as one uninterrupted run. */
  lemma {:induction false} ResumedEqualsUninterrupted(start: int, limit: nat, calls: seq<Call>, whole: seq<Turn>)
    requires Calls(calls, start) && limit >= 1 && calls != []
    requires Sessions(start, limit, calls).status != Interrupted
    requires var c := calls[|calls| - 1]; Session(c.history, start, c.end, limit, [], whole).status != Interrupted
    ensures var c := calls[|calls| - 1];
            && Sessions(start, limit, calls).rows == Range(c.history, start, c.end)
            && Sessions(start, limit, calls).rows == Session(c.history, start, c.end, limit, [], whole).rows
  {
    hide Session, Sessions, Range, Resumable;
    var c := calls[|calls| - 1];
    SessionsKeep(start, limit, calls);
    NothingYet(c.history, start, c.end);
    SessionKeeps(c.history, start, c.end, limit, [], whole);
  }

  /** MAIN: the loop terminates: without a stop signal, one more fetch than missing candles
      (and one to see the end) always finishes, however many fetches fail in between. */
  lemma {:induction false} EnoughFetchesFinish(h: seq<Candle>, start: int, end: int, limit: nat, rows: seq<Candle>,
                                               turns: seq<Turn>)
    requires Ascending(h) && WholeSeconds(h) && limit >= 1 && start < end
    requires Resumable(h, start, end, rows)
    requires NoAbort(turns) && Fetches(turns) > |Range(h, start, end)| - |rows| + 1
    ensures Session(h, start, end, limit, rows, turns).status != Interrupted
  {
    SessionKeeps(h, start, end, limit, rows, turns);
    var o := Session(h, start, end, limit, rows, turns);
    if o.rows != [] {
      RangeSplit(h, start, Cursor(o.rows, start), end);
    }
  }

  // ---------------------------------------------------------------- what single turns do

  /** MAIN: a stop signal, seen before or after a fetch, leaves what the turns before it left,
      whatever would have come behind it. */
  lemma {:induction false} AbortEnds(h: seq<Candle>, end: int, limit: nat, since: int, rows: seq<Candle>,
                                     before: seq<Turn>, stop: Turn, rest: seq<Turn>)
    requires stop.AbortBefore? || stop.AbortAfter?
    ensures Loop(h, end, limit, since, rows, before + [stop] + rest).rows
         == Loop(h, end, limit, since, rows, before).rows
    decreases |before|
  {
    hide Page, Kept;
    var turns := before + [stop] + rest;
    if before != [] {
      assert turns[0] == before[0] && turns[1..] == before[1..] + [stop] + rest;
      var page := Page(h, since, limit);
      if before[0].Faulted? {
        AbortEnds(h, end, limit, since, rows, before[1..], stop, rest);
      } else if !before[0].AbortBefore? && !before[0].AbortAfter? && since < end && page != [] {
        AbortEnds(h, end, limit, page[|page| - 1].ts + 1, rows + Kept(page, end), before[1..], stop, rest);
      }
    } else {
      assert turns[0] == stop;
    }
  }

  /** A failed fetch changes nothing, and neither does an exception in the report on a page. */
  lemma {:induction false} FaultsDoNotMatter(h: seq<Candle>, end: int, limit: nat, since: int, rows: seq<Candle>,
                                             before: seq<Turn>, rest: seq<Turn>)
    ensures Loop(h, end, limit, since, rows, before + [Faulted] + rest).rows
         == Loop(h, end, limit, since, rows, before + rest).rows
    ensures Loop(h, end, limit, since, rows, before + [ReportFaulted] + rest).rows
         == Loop(h, end, limit, since, rows, before + [Fetched] + rest).rows
    decreases |before|
  {
    hide Page, Kept;
    var page := Page(h, since, limit);
    var faulted, failed, fine := before + [Faulted] + rest, before + [ReportFaulted] + rest, before + [Fetched] + rest;
    if before != [] {
      assert faulted[0] == failed[0] == fine[0] == (before + rest)[0] == before[0];
      assert faulted[1..] == before[1..] + [Faulted] + rest && failed[1..] == before[1..] + [ReportFaulted] + rest;
      assert fine[1..] == before[1..] + [Fetched] + rest && (before + rest)[1..] == before[1..] + rest;
      if before[0].Faulted? {
        FaultsDoNotMatter(h, end, limit, since, rows, before[1..], rest);
      } else if !before[0].AbortBefore? && !before[0].AbortAfter? && since < end && page != [] {
        FaultsDoNotMatter(h, end, limit, page[|page| - 1].ts + 1, rows + Kept(page, end), before[1..], rest);
      }
    } else {
      assert faulted[0] == Faulted && failed[0] == ReportFaulted && fine[0] == Fetched;
      assert faulted[1..] == failed[1..] == fine[1..] == rest && before + rest == rest;
      if page != [] && page[|page| - 1].ts >= end {
        PastEnd(h, end, limit, page[|page| - 1].ts + 1, rows + Kept(page, end), rest);
      }
      if since >= end {
        PastEnd(h, end, limit, since, rows, rest);
      }
    }
  }

  function Clean(n: nat): seq<Turn> {
    seq(n, _ => Fetched)
  }

  /** The candle at position `i` is there and lies at or past `t`. */
  predicate Reaches(h: seq<Candle>, i: int, t: int) {
    0 <= i < |h| && h[i].ts >= t
  }

  /** The `n`-th fetch without faults finds nothing left, brings a candle at or past the end,
      or is not needed any more because the fetch before it came within a millisecond. */
  predicate DoneBy(h: seq<Candle>, end: int, limit: nat, at: nat, n: nat) {
    || at + (n - 1) * limit >= |h|
    || Reaches(h, Min(at + n * limit, |h|) - 1, end)
    || (n >= 2 && Reaches(h, at + (n - 1) * limit - 1, end - 1))
  }

  lemma {:induction false} PageAt(h: seq<Candle>, limit: nat, since: int)
    requires Ascending(h) && limit >= 1
    ensures var page, at := Page(h, since, limit), Before(h, since);
            && at <= |h| && (page == [] <==> at == |h|)
            && (page != [] ==>
                  var next := Min(at + limit, |h|);
                  page[|page| - 1] == h[next - 1] && Before(h, page[|page| - 1].ts + 1) == next)
  {
    var page, at := Page(h, since, limit), Before(h, since);
    if page != [] {
      var next := Min(at + limit, |h|);
      assert page[|page| - 1] == h[next - 1];
      BeforeSplits(h, h[next - 1].ts + 1);
      var b := Before(h, h[next - 1].ts + 1);
      assert next - 1 < b;
      assert next < |h| ==> h[next].ts >= h[next - 1].ts + 1;
    }
  }

  lemma {:induction false} OneMoreFetch(n: nat, limit: nat)
    requires n >= 1
    ensures n * limit == limit + (n - 1) * limit && (n - 1) * limit >= 0
  {
  }

  /** MAIN: the exact number of fetches: without faults the loop ends with its `n`-th turn at
      the latest if and only if the first `n` pages exhaust the history or reach the end. */
  lemma {:induction false} FetchesNeededIff(h: seq<Candle>, end: int, limit: nat, since: int, rows: seq<Candle>,
                                            n: nat)
    requires Ascending(h) && limit >= 1 && n >= 1
    ensures Loop(h, end, limit, since, rows, Clean(n)).status == Completed
            <==> since >= end || DoneBy(h, end, limit, Before(h, since), n)
    decreases n
  {
    hide Page, Before, Kept;
    var page, at := Page(h, since, limit), Before(h, since);
    PageAt(h, limit, since);
    assert Clean(n)[0] == Fetched && Clean(n)[1..] == Clean(n - 1);
    OneMoreFetch(n, limit);
    if since < end && page != [] && page[|page| - 1].ts < end {
      var last := page[|page| - 1].ts;
      if n == 1 {
        NothingLeft(h, end, limit, last + 1, rows + Kept(page, end));
      } else {
        OneMoreFetch(n - 1, limit);
        FetchesNeededIff(h, end, limit, last + 1, rows + Kept(page, end), n - 1);
        if at + limit >= |h| {
          ShortPage(h, end, limit, at, n);
        } else {
          FullPage(h, end, limit, at, n, last);
        }
      }
    } else if page != [] && page[|page| - 1].ts >= end {
      LastReaches(h, end, limit, at, n);
    }
  }

  lemma {:induction false} NothingLeft(h: seq<Candle>, end: int, limit: nat, since: int, rows: seq<Candle>)
    ensures Loop(h, end, limit, since, rows, Clean(0)).status == Interrupted
  {
  }

  lemma {:induction false} LastReaches(h: seq<Candle>, end: int, limit: nat, at: nat, n: nat)
    requires Ascending(h) && n >= 1 && limit >= 1 && Reaches(h, Min(at + limit, |h|) - 1, end)
    ensures DoneBy(h, end, limit, at, n)
  {
    OneMoreFetch(n, limit);
  }

  lemma {:induction false} ShortPage(h: seq<Candle>, end: int, limit: nat, at: nat, n: nat)
    requires n >= 2 && at <= |h| <= at + limit
    ensures DoneBy(h, end, limit, at, n) && DoneBy(h, end, limit, |h|, n - 1)
  {
    OneMoreFetch(n - 1, limit);
  }

  /** The condition moves on by one full page. */
  lemma {:induction false} FullPage(h: seq<Candle>, end: int, limit: nat, at: nat, n: nat, last: int)
    requires Ascending(h) && limit >= 1 && n >= 2 && at + limit < |h| && last == h[at + limit - 1].ts < end
    ensures DoneBy(h, end, limit, at, n) <==> last + 1 >= end || DoneBy(h, end, limit, at + limit, n - 1)
  {
    OneMoreFetch(n, limit);
    OneMoreFetch(n - 1, limit);
    if n > 2 {
      assert (n - 2) * limit >= limit by {
        OneMoreFetch(n - 2, limit);
      }
    }
  }

  /** The file keeps a candle's values and its time down to the whole second. */
  lemma {:induction false} StoredTime(c: Candle)
    ensures Stored(c).payload == c.payload && 0 <= c.ts - Stored(c).ts < 1000 && exists s :: Stored(c).ts == s * 1000
  {
    var s := c.ts / 1000;
    assert Stored(c).ts == s * 1000;
  }

  /** A session does not start at all exactly when its cursor has reached the end. */
  lemma {:induction false} UpToDateIff(h: seq<Candle>, start: int, end: int, limit: nat, rows: seq<Candle>,
                                       turns: seq<Turn>)
    ensures Session(h, start, end, limit, rows, turns).status == UpToDate <==> Cursor(rows, start) >= end
  {
    LoopNotUpToDate(h, end, limit, Cursor(rows, start), rows, turns);
  }

  lemma {:induction false} LoopNotUpToDate(h: seq<Candle>, end: int, limit: nat, since: int, rows: seq<Candle>,
                                           turns: seq<Turn>)
    ensures Loop(h, end, limit, since, rows, turns).status != UpToDate
    decreases |turns|
  {
    hide Page, Kept;
    var page := Page(h, since, limit);
    if turns != [] && since < end {
      LoopNotUpToDate(h, end, limit, since, rows, turns[1..]);
      if page != [] {
        LoopNotUpToDate(h, end, limit, page[|page| - 1].ts + 1, rows + Kept(page, end), turns[1..]);
      }
    }
  }

  // ---------------------------------------------------------------- where the promise ends

  /** A fresh download that ends by itself is the range query unless start equals end and a
      candle sits exactly there: an empty window is reported as up to date without a fetch. */
  lemma {:induction false} FreshIffWindow(h: seq<Candle>, start: int, end: int, limit: nat, turns: seq<Turn>)
    requires Ascending(h) && WholeSeconds(h) && limit >= 1
    requires Session(h, start, end, limit, [], turns).status != Interrupted
    ensures Session(h, start, end, limit, [], turns).rows == Range(h, start, end)
            <==> !(start == end && exists i :: 0 <= i < |h| && h[i].ts == start)
  {
    if start < end {
      EmptyRange(h, start, start - 1);
      SessionKeeps(h, start, end, limit, [], turns);
    } else if start > end {
      EmptyRange(h, start, end);
    } else {
      RangeEmptyIff(h, start, end);
    }
  }

  /** A resumed download starts after its last candle exactly when that candle's time is a
      whole second and not the epoch; otherwise it fetches the candle again. */
  lemma {:induction false} ResumesPastLast(rows: seq<Candle>, c: Candle, start: int)
    requires start <= c.ts
    ensures Cursor(rows + [Stored(c)], start) > c.ts <==> c.ts % 1000 == 0 && c.ts != 0
  {
  }
}
