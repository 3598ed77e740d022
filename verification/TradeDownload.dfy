/** The trade download loop of backend/app/tasks.py (download_trades_task). Several trades may
    share a millisecond, and an empty page skips the cursor ahead by one hour. */
module TradeDownload {
  import opened Options
  import opened PagedHistory
  import opened TradeText

  const HOUR := 3600 * 1000

  /** One turn of the loop. The exchange picks how many trades at or after the cursor a reply
      holds; `reported` is false when the progress report after it raises. */
  datatype Turn = AbortBefore | Faulted | AbortAfter | Reply(count: nat, reported: bool)

  datatype Status = UpToDate | Completed | Interrupted

  /** The rows written, and their positions in the history. */
  datatype Outcome = Outcome(rows: seq<Trade>, written: seq<nat>, status: Status)

  /** The reply at a cursor: a run of the history that starts at the first trade at or after it. */
  function ReplyPage(h: seq<Trade>, since: int, count: nat): seq<Trade> {
    h[Before(h, since)..Min(Before(h, since) + count, |h|)]
  }

  /** The positions of a page's trades that are not after the end. */
  function Kept(h: seq<Trade>, lo: nat, hi: nat, end: int): seq<nat>
    requires lo <= hi <= |h|
    decreases hi - lo
  {
    if lo == hi then [] else Kept(h, lo, hi - 1, end) + (if h[hi - 1].ts > end then [] else [hi - 1])
  }

  /** The rows written for a page: trades after the end are skipped. */
  function KeptRows(page: seq<Trade>, end: int): seq<Trade> {
    if page == [] then []
    else KeptRows(page[..|page| - 1], end) + (if page[|page| - 1].ts > end then [] else [page[|page| - 1]])
  }

  /** The rows are the history at these positions. */
  predicate RowsAt(h: seq<Trade>, rows: seq<Trade>, positions: seq<nat>) {
    |rows| == |positions| && forall k :: 0 <= k < |rows| ==> positions[k] < |h| && rows[k] == h[positions[k]]
  }

  /** The cursor after a reply. */
  function Next(h: seq<Trade>, since: int, count: nat): int {
    var page := ReplyPage(h, since, count);
    if page == [] then since + HOUR else page[|page| - 1].ts + 1
  }

  function KeptOf(h: seq<Trade>, since: int, count: nat, end: int): seq<nat> {
    Kept(h, Before(h, since), Min(Before(h, since) + count, |h|), end)
  }

  /** The reply ends the loop by itself: its last trade is at or past the end. */
  predicate Closes(h: seq<Trade>, since: int, turn: Turn, end: int)
    requires turn.Reply?
  {
    var page := ReplyPage(h, since, turn.count);
    turn.reported && page != [] && page[|page| - 1].ts >= end
  }

  function Loop(h: seq<Trade>, end: int, since: int, turns: seq<Turn>): Outcome
    decreases |turns|
  {
    if turns == [] || turns[0].AbortBefore? then Outcome([], [], Interrupted)
    else if since >= end then Outcome([], [], Completed)
    else if turns[0].Faulted? then Loop(h, end, since, turns[1..])
    else if turns[0].AbortAfter? then Outcome([], [], Interrupted)
    else
      var rows, now := KeptRows(ReplyPage(h, since, turns[0].count), end), KeptOf(h, since, turns[0].count, end);
      if Closes(h, since, turns[0], end) then Outcome(rows, now, Completed)
      else
        var rest := Loop(h, end, Next(h, since, turns[0].count), turns[1..]);
        Outcome(rows + rest.rows, now + rest.written, rest.status)
  }

  /** One call of the task; `last` is what the tail reader made of an existing file, where 0
      counts as nothing. */
  function Session(h: seq<Trade>, start: int, end: int, last: int, turns: seq<Turn>): Outcome {
    var since := if last != 0 then last + 1 else start;
    if end - since <= 0 then Outcome([], [], UpToDate) else Loop(h, end, since, turns)
  }

  lemma {:induction false} KeptFacts(h: seq<Trade>, lo: nat, hi: nat, end: int)
    requires lo <= hi <= |h|
    ensures var p := Kept(h, lo, hi, end);
            && (forall k :: 0 <= k < |p| ==> lo <= p[k] < hi && h[p[k]].ts <= end)
            && (forall j, k :: 0 <= j < k < |p| ==> p[j] < p[k])
            && (forall i :: lo <= i < hi && h[i].ts <= end ==> i in p)
    decreases hi - lo
  {
    if lo < hi {
      KeptFacts(h, lo, hi - 1, end);
      var init, p := Kept(h, lo, hi - 1, end), Kept(h, lo, hi, end);
      forall i | lo <= i < hi && h[i].ts <= end
        ensures i in p
      {
        assert i < hi - 1 ==> i in init;
        assert i == hi - 1 ==> p[|p| - 1] == i;
      }
    }
  }

  lemma {:induction false} KeptRowsAt(h: seq<Trade>, lo: nat, hi: nat, end: int)
    requires lo <= hi <= |h|
    ensures RowsAt(h, KeptRows(h[lo..hi], end), Kept(h, lo, hi, end))
    decreases hi - lo
  {
    if lo < hi {
      KeptRowsAt(h, lo, hi - 1, end);
      var rows, now := KeptRows(h[lo..hi - 1], end), Kept(h, lo, hi - 1, end);
      assert h[lo..hi][..hi - lo - 1] == h[lo..hi - 1];
      assert Kept(h, lo, hi, end) == now + (if h[hi - 1].ts <= end then [hi - 1] else []);
      assert KeptRows(h[lo..hi], end) == rows + (if h[hi - 1].ts <= end then [h[hi - 1]] else []);
    }
  }

  /** The rows a session writes are the trades at the positions it reports. */
  lemma {:induction false} LoopRowsAt(h: seq<Trade>, end: int, since: int, turns: seq<Turn>)
    ensures RowsAt(h, Loop(h, end, since, turns).rows, Loop(h, end, since, turns).written)
    decreases |turns|
  {
    if turns == [] || turns[0].AbortBefore? || since >= end {
    } else if turns[0].Faulted? {
      LoopRowsAt(h, end, since, turns[1..]);
    } else if turns[0].Reply? {
      var count := turns[0].count;
      KeptRowsAt(h, Before(h, since), Min(Before(h, since) + count, |h|), end);
      LoopRowsAt(h, end, Next(h, since, count), turns[1..]);
    }
  }

  /** Nothing the loop writes lies before its cursor or after the end, and no position repeats. */
  ghost predicate InOrder(h: seq<Trade>, since: int, end: int, written: seq<nat>) {
    && (forall k :: 0 <= k < |written| ==> written[k] < |h| && since <= h[written[k]].ts <= end)
    && (forall j, k :: 0 <= j < k < |written| ==> written[j] < written[k])
  }

  lemma {:induction false} CursorAdvances(h: seq<Trade>, since: int, count: nat)
    requires Sorted(h)
    ensures Next(h, since, count) > since
  {
    BeforeSplits(h, since);
  }

  /** What one reply writes lies between the old cursor and the new one. */
  lemma {:induction false} KeptOfFacts(h: seq<Trade>, since: int, count: nat, end: int)
    requires Sorted(h)
    ensures var p := KeptOf(h, since, count, end);
            && InOrder(h, since, end, p)
            && (forall k :: 0 <= k < |p| ==> h[p[k]].ts < Next(h, since, count))
  {
    var a, b := Before(h, since), Min(Before(h, since) + count, |h|);
    BeforeSplits(h, since);
    KeptFacts(h, a, b, end);
    if a < b {
      assert ReplyPage(h, since, count)[b - a - 1] == h[b - 1];
    }
  }

  /** MAIN: a session writes trades in time order, none twice, none after the end. */
  lemma {:induction false} WritesInOrder(h: seq<Trade>, end: int, since: int, turns: seq<Turn>)
    requires Sorted(h)
    ensures InOrder(h, since, end, Loop(h, end, since, turns).written)
    decreases |turns|
  {
    if turns == [] || turns[0].AbortBefore? || since >= end || turns[0].AbortAfter? {
    } else if turns[0].Faulted? {
      WritesInOrder(h, end, since, turns[1..]);
    } else {
      var count := turns[0].count;
      KeptOfFacts(h, since, count, end);
      if !Closes(h, since, turns[0], end) {
        CursorAdvances(h, since, count);
        WritesInOrder(h, end, Next(h, since, count), turns[1..]);
        InOrderJoin(h, since, Next(h, since, count), end, KeptOf(h, since, count, end),
                    Loop(h, end, Next(h, since, count), turns[1..]).written);
      }
    }
  }

  lemma {:induction false} InOrderJoin(h: seq<Trade>, since: int, mid: int, end: int, p: seq<nat>, q: seq<nat>)
    requires Sorted(h) && since <= mid
    requires InOrder(h, since, end, p) && InOrder(h, mid, end, q)
    requires forall k :: 0 <= k < |p| ==> h[p[k]].ts < mid
    ensures InOrder(h, since, end, p + q)
  {
    forall j, k | 0 <= j < |p| && 0 <= k < |q|
      ensures p[j] < q[k]
    {
      assert h[p[j]].ts < h[q[k]].ts;
    }
  }

  // ---------------------------------------------------------------- termination

  predicate NoAbort(turns: seq<Turn>) {
    forall i :: 0 <= i < |turns| ==> !turns[i].AbortBefore? && !turns[i].AbortAfter?
  }

  function Replies(turns: seq<Turn>): nat {
    if turns == [] then 0 else (if turns[0].Reply? then 1 else 0) + Replies(turns[1..])
  }

  /** MAIN: end - cursor falls on every reply, empty or not, so without a stop signal more
      than end - since replies always finish, however many fetches fail in between. */
  lemma {:induction false} Terminates(h: seq<Trade>, end: int, since: int, turns: seq<Turn>)
    requires Sorted(h) && since < end
    requires NoAbort(turns) && Replies(turns) > end - since
    ensures Loop(h, end, since, turns).status == Completed
    decreases |turns|
  {
    assert NoAbort(turns[1..]) by {
      forall i | 0 <= i < |turns[1..]|
        ensures !turns[1..][i].AbortBefore? && !turns[1..][i].AbortAfter?
      {
        assert turns[1..][i] == turns[i + 1];
      }
    }
    if turns[0].Faulted? {
      Terminates(h, end, since, turns[1..]);
    } else if !Closes(h, since, turns[0], end) {
      var next := Next(h, since, turns[0].count);
      CursorAdvances(h, since, turns[0].count);
      if next < end {
        Terminates(h, end, next, turns[1..]);
      }
    }
  }

  // ---------------------------------------------------------------- when nothing is missed

  /** The page ends inside a group of trades with one timestamp, not after the end. */
  predicate Splits(h: seq<Trade>, since: int, count: nat, end: int) {
    var b := Min(Before(h, since) + count, |h|);
    Before(h, since) < b < |h| && h[b].ts == h[b - 1].ts <= end
  }

  /** The reply is empty although the skipped hour holds a trade not after the end. */
  predicate Hides(h: seq<Trade>, since: int, count: nat, end: int) {
    ReplyPage(h, since, count) == [] && exists i :: 0 <= i < |h| && since <= h[i].ts < since + 3600000 && h[i].ts <= end
  }

  predicate TradeAt(h: seq<Trade>, t: int) {
    exists i :: 0 <= i < |h| && h[i].ts == t
  }

  /** No reply of the run splits a group or hides a trade, and the cursor never comes to rest
      exactly on the end while a trade sits there. */
  predicate Lossless(h: seq<Trade>, end: int, since: int, turns: seq<Turn>)
    decreases |turns|
  {
    if turns == [] || turns[0].AbortBefore? then true
    else if since >= end then !(since == end && TradeAt(h, end))
    else if turns[0].Faulted? then Lossless(h, end, since, turns[1..])
    else if turns[0].AbortAfter? then true
    else
      var count := turns[0].count;
      && !Splits(h, since, count, end) && !Hides(h, since, count, end)
      && (Closes(h, since, turns[0], end) || Lossless(h, end, Next(h, since, count), turns[1..]))
  }

  /** Every trade with lo <= t <= end has been written. */
  ghost predicate Complete(h: seq<Trade>, lo: int, end: int, written: seq<nat>) {
    forall i :: 0 <= i < |h| && lo <= h[i].ts <= end ==> i in written
  }

  /** Positions `a` up to `b` cover the time range up to their last trade, unless its
      millisecond goes on behind them. */
  lemma {:induction false} SliceCovers(h: seq<Trade>, a: nat, b: nat, since: int, end: int)
    requires Sorted(h) && a < b <= |h| && (forall i :: 0 <= i < |h| ==> (i < a <==> h[i].ts < since))
    ensures Complete(h, since, Min(h[b - 1].ts, end), Kept(h, a, b, end))
            <==> !(b < |h| && h[b].ts == h[b - 1].ts <= end)
  {
    KeptFacts(h, a, b, end);
    hide Kept;
    if b < |h| {
      assert b !in Kept(h, a, b, end) && since <= h[b].ts;
      assert forall i :: b <= i < |h| ==> h[b].ts <= h[i].ts;
    }
  }

  lemma {:induction false} PageCovers(h: seq<Trade>, since: int, count: nat, end: int)
    requires Sorted(h) && since < end && ReplyPage(h, since, count) != []
    ensures Complete(h, since, Min(Next(h, since, count) - 1, end), KeptOf(h, since, count, end))
            <==> !Splits(h, since, count, end)
  {
    hide Complete, Kept, Before;
    var a, b := Before(h, since), Min(Before(h, since) + count, |h|);
    BeforeSplits(h, since);
    assert Next(h, since, count) == h[b - 1].ts + 1;
    SliceCovers(h, a, b, since, end);
  }

  /** A reply covers everything up to the next cursor exactly when it neither splits nor hides. */
  lemma {:induction false} ReplyCovers(h: seq<Trade>, since: int, count: nat, end: int)
    requires Sorted(h) && since < end
    ensures Complete(h, since, Min(Next(h, since, count) - 1, end), KeptOf(h, since, count, end))
            <==> !Splits(h, since, count, end) && !Hides(h, since, count, end)
  {
    if ReplyPage(h, since, count) != [] {
      PageCovers(h, since, count, end);
    } else {
      var p := KeptOf(h, since, count, end);
      assert p == [];
      if Hides(h, since, count, end) {
        var i :| 0 <= i < |h| && since <= h[i].ts < since + 3600000 && h[i].ts <= end;
        assert i !in p;
      }
    }
  }

  /** MAIN: a run that ends by itself has written every trade of the range if and only if no
      reply split a same-millisecond group or hid a trade, and the cursor did not stop exactly
      on an end where a trade sits. */
  lemma {:induction false} MissesNothingIff(h: seq<Trade>, end: int, since: int, turns: seq<Turn>)
    requires Sorted(h) && since <= end
    requires Loop(h, end, since, turns).status == Completed
    ensures Complete(h, since, end, Loop(h, end, since, turns).written) <==> Lossless(h, end, since, turns)
    decreases |turns|
  {
    if since >= end {
      if i :| 0 <= i < |h| && h[i].ts == end {
        assert i !in Loop(h, end, since, turns).written;
      }
    } else if turns[0].Faulted? {
      MissesNothingIff(h, end, since, turns[1..]);
    } else {
      var count := turns[0].count;
      ReplyCovers(h, since, count, end);
      KeptOfFacts(h, since, count, end);
      CursorAdvances(h, since, count);
      if !Closes(h, since, turns[0], end) {
        CompleteJoins(h, end, since, turns);
      } else {
        assert Next(h, since, count) - 1 >= end;
      }
    }
  }

  lemma {:induction false} CompleteJoins(h: seq<Trade>, end: int, since: int, turns: seq<Turn>)
    requires Sorted(h) && since < end && turns != [] && turns[0].Reply? && !Closes(h, since, turns[0], end)
    requires Loop(h, end, since, turns).status == Completed
    ensures var next := Next(h, since, turns[0].count);
            var now, rest := KeptOf(h, since, turns[0].count, end), Loop(h, end, next, turns[1..]).written;
            && next > since
            && (Complete(h, since, end, now + rest) <==>
                  Complete(h, since, Min(next - 1, end), now) && Lossless(h, end, next, turns[1..]))
    decreases |turns|, 0
  {
    var next := Next(h, since, turns[0].count);
    var now, rest := KeptOf(h, since, turns[0].count, end), Loop(h, end, next, turns[1..]).written;
    CursorAdvances(h, since, turns[0].count);
    KeptOfFacts(h, since, turns[0].count, end);
    WritesInOrder(h, end, next, turns[1..]);
    if next <= end {
      MissesNothingIff(h, end, next, turns[1..]);
      JoinIff(h, since, next, end, now, rest);
    } else {
      PastEnd(h, end, next, turns[1..]);
      assert now + rest == now;
    }
  }

  lemma {:induction false} PastEnd(h: seq<Trade>, end: int, since: int, turns: seq<Turn>)
    requires since > end
    ensures Loop(h, end, since, turns).written == [] && Lossless(h, end, since, turns)
  {
  }

  lemma {:induction false} JoinIff(h: seq<Trade>, since: int, mid: int, end: int, now: seq<nat>, rest: seq<nat>)
    requires since <= mid <= end
    requires InOrder(h, since, end, now) && InOrder(h, mid, end, rest)
    requires forall k :: 0 <= k < |now| ==> h[now[k]].ts < mid
    ensures Complete(h, since, end, now + rest) <==> Complete(h, since, mid - 1, now) && Complete(h, mid, end, rest)
  {
    forall i | 0 <= i < |h|
      ensures i in now + rest <==> i in now || i in rest
      ensures i in now ==> h[i].ts < mid
      ensures i in rest ==> h[i].ts >= mid
    {
    }
  }

  /** The exchange's side of the bargain along a run: an empty reply means an empty hour. */
  predicate EmptyMeansEmptyHour(h: seq<Trade>, end: int, since: int, turns: seq<Turn>)
    decreases |turns|
  {
    turns == [] ||
    if turns[0].Reply? then
      !Hides(h, since, turns[0].count, end) && EmptyMeansEmptyHour(h, end, Next(h, since, turns[0].count), turns[1..])
    else EmptyMeansEmptyHour(h, end, since, turns[1..])
  }

  /** What a caller can check beforehand: with distinct timestamps, none exactly on the end,
      a run against such an exchange misses nothing. */
  lemma {:induction false} DistinctTimesSuffice(h: seq<Trade>, end: int, since: int, turns: seq<Turn>)
    requires Ascending(h) && !TradeAt(h, end)
    requires EmptyMeansEmptyHour(h, end, since, turns)
    ensures Lossless(h, end, since, turns)
    decreases |turns|
  {
    if turns != [] && since < end {
      if turns[0].Faulted? {
        DistinctTimesSuffice(h, end, since, turns[1..]);
      } else if turns[0].Reply? {
        DistinctTimesSuffice(h, end, Next(h, since, turns[0].count), turns[1..]);
      }
    }
  }

  /** A trade exactly on the end is lost when a page stops one millisecond before it. */
  lemma {:induction false} EndTradeLost(end: int, a: Deal, b: Deal)
    ensures var h := [Entry(end - 1, a), Entry(end, b)];
            var o := Session(h, end - 1, end, 0, [Reply(1, true), Reply(1, true)]);
            Ascending(h) && o == Outcome([h[0]], [0], Completed)
  {
    var h := [Entry(end - 1, a), Entry(end, b)];
    var turns := [Reply(1, true), Reply(1, true)];
    assert h[1..] == [Entry(end, b)];
    assert Before(h, end - 1) == 0;
    assert ReplyPage(h, end - 1, 1) == [Entry(end - 1, a)];
    assert Kept(h, 0, 1, end) == [0];
    assert KeptRows([h[0]], end) == [h[0]];
    assert turns[1..] == [Reply(1, true)];
    assert Loop(h, end, end, turns[1..]) == Outcome([], [], Completed);
  }

  // ---------------------------------------------------------------- what single turns do

  /** MAIN: one turn ends the loop exactly when the cursor has reached the end already, or when
      it is a reported reply with a trade at or past the end. */
  lemma {:induction false} TurnEndsIff(h: seq<Trade>, end: int, since: int, turn: Turn)
    requires Sorted(h)
    ensures Loop(h, end, since, [turn]).status == Completed <==>
              if since >= end then !turn.AbortBefore?
              else turn.Reply? && turn.reported && exists e :: e in ReplyPage(h, since, turn.count) && e.ts >= end
  {
    hide Before, Kept, KeptRows;
    assert [turn][1..] == [];
    if turn.Reply? {
      var page := ReplyPage(h, since, turn.count);
      assert forall i :: 0 <= i < |page| ==> page[i].ts <= page[|page| - 1].ts;
      if page != [] {
        assert page[|page| - 1] in page;
      }
    }
  }

  /** A loop that has completed does not look at later turns. */
  lemma {:induction false} CompletedStays(h: seq<Trade>, end: int, since: int, before: seq<Turn>, rest: seq<Turn>)
    requires Loop(h, end, since, before).status == Completed
    ensures Loop(h, end, since, before + rest) == Loop(h, end, since, before)
    decreases |before|
  {
    hide Next, KeptOf, KeptRows, ReplyPage;
    var turns := before + rest;
    assert turns[0] == before[0] && turns[1..] == before[1..] + rest;
    if since < end {
      if before[0].Faulted? {
        CompletedStays(h, end, since, before[1..], rest);
      } else if !Closes(h, since, before[0], end) {
        CompletedStays(h, end, Next(h, since, before[0].count), before[1..], rest);
      }
    }
  }

  /** MAIN: a stop signal, seen before or after a fetch, leaves what the turns before it wrote,
      whatever would have come behind it. */
  lemma {:induction false} AbortEnds(h: seq<Trade>, end: int, since: int, before: seq<Turn>, stop: Turn,
                                     rest: seq<Turn>)
    requires stop.AbortBefore? || stop.AbortAfter?
    ensures Loop(h, end, since, before + [stop] + rest).rows == Loop(h, end, since, before).rows
    decreases |before|
  {
    hide Next, KeptOf, KeptRows, ReplyPage, Closes;
    var turns := before + [stop] + rest;
    if before != [] {
      assert turns[0] == before[0] && turns[1..] == before[1..] + [stop] + rest;
      if before[0].Faulted? {
        AbortEnds(h, end, since, before[1..], stop, rest);
      } else if before[0].Reply? && since < end && !Closes(h, since, before[0], end) {
        AbortEnds(h, end, Next(h, since, before[0].count), before[1..], stop, rest);
      }
    } else {
      assert turns[0] == stop;
    }
  }

  /** A failed fetch changes nothing that is written. */
  lemma {:induction false} FaultsDoNotMatter(h: seq<Trade>, end: int, since: int, before: seq<Turn>, rest: seq<Turn>)
    ensures Loop(h, end, since, before + [Faulted] + rest).rows == Loop(h, end, since, before + rest).rows
    decreases |before|
  {
    hide Next, KeptOf, KeptRows, ReplyPage, Closes;
    var turns := before + [Faulted] + rest;
    if before != [] {
      assert turns[0] == before[0] && turns[1..] == before[1..] + [Faulted] + rest;
      assert (before + rest)[0] == before[0] && (before + rest)[1..] == before[1..] + rest;
      if before[0].Faulted? {
        FaultsDoNotMatter(h, end, since, before[1..], rest);
      } else if before[0].Reply? && since < end && !Closes(h, since, before[0], end) {
        FaultsDoNotMatter(h, end, Next(h, since, before[0].count), before[1..], rest);
      }
    } else {
      assert turns[0] == Faulted && turns[1..] == rest && before + rest == rest;
    }
  }

  // ---------------------------------------------------------------- the file

  class TradeFile {
    var rows: seq<Trade>

    constructor ()
      ensures rows == []
    {
      rows := [];
    }

    method WritePage(page: seq<Trade>, end: int)
      modifies this
      ensures rows == old(rows) + KeptRows(page, end)
    {
      for i := 0 to |page|
        invariant rows == old(rows) + KeptRows(page[..i], end)
      {
        assert page[..i + 1][..i] == page[..i];
        if page[i].ts > end {
          continue;
        }
        rows := rows + [page[i]];
      }
      assert page[..|page|] == page;
    }

    /** The task on this file. `last` is the tail reader's answer. */
    method Download(h: seq<Trade>, start: int, end: int, last: int, turns: seq<Turn>) returns (status: Status)
      modifies this
      ensures var o := Session(h, start, end, last, turns);
              status == o.status && rows == old(rows) + o.rows
    {
      var since := start;
      if last != 0 {
        since := last + 1;
      }
      if end - since <= 0 {
        return UpToDate;
      }
      ghost var o := Loop(h, end, since, turns);
      var used := 0;
      while used < |turns|
        invariant used <= |turns|
        invariant o.status == Loop(h, end, since, turns[used..]).status
        invariant rows + Loop(h, end, since, turns[used..]).rows == old(rows) + o.rows
      {
        var turn := turns[used];
        used := used + 1;
        if turn.AbortBefore? {
          return Interrupted;
        }
        if since >= end {
          return Completed;
        }
        if turn.Faulted? {
          continue;
        }
        if turn.AbortAfter? {
          return Interrupted;
        }
        var page := ReplyPage(h, since, turn.count);
        WritePage(page, end);
        if page == [] {
          since := since + HOUR;
          continue;
        }
        var current := page[|page| - 1].ts;
        since := current + 1;
        if turn.reported && current >= end {
          return Completed;
        }
      }
      return Interrupted;
    }
  }

  // ---------------------------------------------------------------- a second download

  /** `if last_ts`: no date and a date of 0 count as nothing. */
  function Answer(date: Option<int>): int {
    if date.Some? then date.value else 0
  }

  /** Positions in order that fill an interval are the interval. */
  lemma {:induction false} FillsInterval(p: seq<nat>, a: nat, b: nat)
    requires a <= b
    requires forall j :: 0 <= j < |p| ==> a <= p[j] < b
    requires forall i, j :: 0 <= i < j < |p| ==> p[i] < p[j]
    requires forall i :: a <= i < b ==> i in p
    ensures |p| == b - a && forall j :: 0 <= j < |p| ==> p[j] == a + j
  {
    if p == [] {
      assert a < b ==> a in p;
    } else {
      var init, last := p[..|p| - 1], p[|p| - 1];
      assert p == init + [last];
      assert b - 1 in p;
      assert last == b - 1;
      forall i | a <= i < b - 1
        ensures i in init
      {
        assert i in p;
      }
      FillsInterval(init, a, b - 1);
    }
  }

  /** A run in order that misses nothing writes the range query. */
  lemma {:induction false} WritesRange(h: seq<Trade>, end: int, since: int, turns: seq<Turn>)
    requires Sorted(h) && since <= end
    requires Loop(h, end, since, turns).status == Completed && Lossless(h, end, since, turns)
    ensures Loop(h, end, since, turns).rows == Range(h, since, end)
  {
    var o := Loop(h, end, since, turns);
    hide Loop, Lossless, Before, Range;
    WritesInOrder(h, end, since, turns);
    LoopRowsAt(h, end, since, turns);
    MissesNothingIff(h, end, since, turns);
    RangeIsSlice(h, since, end);
    BeforeSplits(h, since);
    BeforeSplits(h, end + 1);
    var a, b := Before(h, since), Before(h, end + 1);
    FillsInterval(o.written, a, b);
    assert forall j :: 0 <= j < b - a ==> o.rows[j] == h[a..b][j];
  }

  /** The cursor of a second download on the file a first one left. */
  function SecondCursor(rows: seq<Trade>, start: int, parseDate: string -> Option<int>): int
    requires AllPlain(rows)
  {
    var last := Answer(LastDate(FileText(rows), parseDate));
    if last != 0 then last + 1 else start
  }

  /** MAIN: the second download resumes behind the file if and only if the id of the last trade
      reads as a date that is not 0 and not before that trade. */
  lemma {:induction false} ResumesIff(rows: seq<Trade>, start: int, parseDate: string -> Option<int>)
    requires AllPlain(rows) && rows != [] && start <= rows[|rows| - 1].ts
    ensures var last := rows[|rows| - 1];
            var date := parseDate(StripLeft(last.payload.id));
            SecondCursor(rows, start, parseDate) > last.ts <==> date.Some? && date.value != 0 && date.value >= last.ts
  {
    hide FileText, LastDate;
    DateIsId(rows, parseDate);
  }

  /** MAIN: what two complete downloads with the same bounds leave: the range, and then the part
      of it from the second cursor on once more. */
  lemma {:induction false} SecondDownload(h: seq<Trade>, start: int, end: int, first: seq<Turn>, again: seq<Turn>,
                                          parseDate: string -> Option<int>, rows: seq<Trade>, since: int)
    requires Sorted(h) && start < end
    requires Loop(h, end, start, first).status == Completed && Lossless(h, end, start, first)
    requires rows == Session(h, start, end, 0, first).rows && AllPlain(rows)
    requires since == SecondCursor(rows, start, parseDate)
    requires since < end ==> Loop(h, end, since, again).status == Completed && Lossless(h, end, since, again)
    ensures rows == Range(h, start, end)
    ensures Session(h, start, end, Answer(LastDate(FileText(rows), parseDate)), again).rows
         == if since < end then Range(h, since, end) else []
  {
    hide FileText, LastDate, Loop, Lossless, Range;
    WritesRange(h, end, start, first);
    if since < end {
      WritesRange(h, end, since, again);
    }
  }

  /** So an id without a dash, which no date parser takes, has the whole range written twice. */
  lemma {:induction false} RestartRepeats(h: seq<Trade>, start: int, end: int, first: seq<Turn>, again: seq<Turn>,
                                          parseDate: string -> Option<int>, rows: seq<Trade>)
    requires Sorted(h) && start < end
    requires Loop(h, end, start, first).status == Completed && Lossless(h, end, start, first)
    requires Loop(h, end, start, again).status == Completed && Lossless(h, end, start, again)
    requires rows == Session(h, start, end, 0, first).rows && AllPlain(rows)
    requires rows != [] ==> Free(rows[|rows| - 1].payload.id, '-')
    requires forall s :: Free(s, '-') ==> parseDate(s) == None
    ensures rows + Session(h, start, end, Answer(LastDate(FileText(rows), parseDate)), again).rows
         == Range(h, start, end) + Range(h, start, end)
  {
    hide FileText, LastDate, Loop, Lossless, Range;
    DateIsId(rows, parseDate);
    if rows != [] {
      StripLeftFree(rows[|rows| - 1].payload.id, '-');
    }
    assert Free("id", '-');
    SecondDownload(h, start, end, first, again, parseDate, rows, start);
  }
}
