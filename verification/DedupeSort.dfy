/** Dropping rows with a repeated timestamp and sorting by time, as the downloaders finish. */
module DedupeSort {
  import opened Options
  import opened PagedHistory

  /** The first row with a timestamp. */
  function FirstWith<P>(rows: seq<Entry<P>>, t: int): Option<Entry<P>> {
    if rows == [] then None else if rows[0].ts == t then Some(rows[0]) else FirstWith(rows[1..], t)
  }

  /** The last row with a timestamp. */
  function LastWith<P>(rows: seq<Entry<P>>, t: int): Option<Entry<P>> {
    if rows == [] then None
    else if rows[|rows| - 1].ts == t then Some(rows[|rows| - 1])
    else LastWith(rows[..|rows| - 1], t)
  }

  function IndexOf<P>(rows: seq<Entry<P>>, t: int): (i: nat)
    ensures i <= |rows|
    ensures i < |rows| ==> rows[i].ts == t
    ensures forall j :: 0 <= j < i ==> rows[j].ts != t
  {
    if rows == [] || rows[0].ts == t then 0 else 1 + IndexOf(rows[1..], t)
  }

  /** `seen[c.ts] = c` on a dict that keeps its insertion order. */
  function Put<P>(seen: seq<Entry<P>>, c: Entry<P>): seq<Entry<P>> {
    var i := IndexOf(seen, c.ts);
    if i < |seen| then seen[i := c] else seen + [c]
  }

  /** The values of the dict after all rows went in: the last duplicate stays. */
  function KeepLast<P>(rows: seq<Entry<P>>): seq<Entry<P>> {
    if rows == [] then [] else Put(KeepLast(rows[..|rows| - 1]), rows[|rows| - 1])
  }

  /** drop_duplicates: the first duplicate stays. */
  function KeepFirst<P>(rows: seq<Entry<P>>): seq<Entry<P>> {
    if rows == [] then []
    else
      var kept, last := KeepFirst(rows[..|rows| - 1]), rows[|rows| - 1];
      if IndexOf(kept, last.ts) < |kept| then kept else kept + [last]
  }

  function Insert<P>(sorted: seq<Entry<P>>, e: Entry<P>): seq<Entry<P>> {
    if sorted == [] || sorted[|sorted| - 1].ts <= e.ts then sorted + [e]
    else Insert(sorted[..|sorted| - 1], e) + [sorted[|sorted| - 1]]
  }

  /** A stable sort by timestamp. */
  function SortByTime<P>(rows: seq<Entry<P>>): seq<Entry<P>> {
    if rows == [] then [] else Insert(SortByTime(rows[..|rows| - 1]), rows[|rows| - 1])
  }

  predicate Distinct<P>(rows: seq<Entry<P>>) {
    forall i, j :: 0 <= i < j < |rows| ==> rows[i].ts != rows[j].ts
  }

  lemma {:induction false} FirstAt<P>(rows: seq<Entry<P>>, t: int)
    ensures var i := IndexOf(rows, t); FirstWith(rows, t) == (if i < |rows| then Some(rows[i]) else None)
  {
    if rows != [] && rows[0].ts != t {
      FirstAt(rows[1..], t);
    }
  }

  lemma {:induction false} DistinctFirst<P>(rows: seq<Entry<P>>, i: nat)
    requires Distinct(rows) && i < |rows|
    ensures FirstWith(rows, rows[i].ts) == Some(rows[i])
  {
    FirstAt(rows, rows[i].ts);
  }

  lemma {:induction false} PutFacts<P>(seen: seq<Entry<P>>, c: Entry<P>, t: int)
    requires Distinct(seen)
    ensures Distinct(Put(seen, c))
    ensures FirstWith(Put(seen, c), t) == (if t == c.ts then Some(c) else FirstWith(seen, t))
  {
    var seen' := Put(seen, c);
    FirstAt(seen, t);
    FirstAt(seen', t);
    var i, i' := IndexOf(seen, t), IndexOf(seen', t);
    if t == c.ts {
      DistinctFirst(seen', IndexOf(seen, c.ts));
    } else if i < |seen| {
      assert seen'[i] == seen[i];
      DistinctFirst(seen', i);
    } else {
      assert forall j :: 0 <= j < |seen'| ==> seen'[j].ts != t;
    }
  }

  lemma {:induction false} KeepLastFacts<P>(rows: seq<Entry<P>>, t: int)
    ensures Distinct(KeepLast(rows)) && FirstWith(KeepLast(rows), t) == LastWith(rows, t)
  {
    if rows != [] {
      KeepLastFacts(rows[..|rows| - 1], t);
      PutFacts(KeepLast(rows[..|rows| - 1]), rows[|rows| - 1], t);
    }
  }

  lemma {:induction false} FirstSnoc<P>(rows: seq<Entry<P>>, e: Entry<P>, t: int)
    ensures FirstWith(rows + [e], t) ==
            (if FirstWith(rows, t).Some? then FirstWith(rows, t) else if e.ts == t then Some(e) else None)
  {
    if rows != [] {
      FirstSnoc(rows[1..], e, t);
      assert (rows + [e])[1..] == rows[1..] + [e];
    }
  }

  lemma {:induction false} KeepFirstFacts<P>(rows: seq<Entry<P>>, t: int)
    ensures Distinct(KeepFirst(rows)) && FirstWith(KeepFirst(rows), t) == FirstWith(rows, t)
  {
    if rows != [] {
      var init, last := rows[..|rows| - 1], rows[|rows| - 1];
      KeepFirstFacts(init, t);
      assert rows == init + [last];
      FirstSnoc(init, last, t);
      FirstAt(KeepFirst(init), last.ts);
      FirstSnoc(KeepFirst(init), last, t);
    }
  }

  ghost predicate SameMembers<P(!new)>(a: seq<Entry<P>>, b: seq<Entry<P>>) {
    forall e :: e in a <==> e in b
  }

  lemma {:induction false} InsertFacts<P(!new)>(sorted: seq<Entry<P>>, e: Entry<P>)
    requires Ascending(sorted) && forall i :: 0 <= i < |sorted| ==> sorted[i].ts != e.ts
    ensures Ascending(Insert(sorted, e)) && SameMembers(Insert(sorted, e), sorted + [e])
  {
    if sorted != [] && sorted[|sorted| - 1].ts > e.ts {
      var init, last := sorted[..|sorted| - 1], sorted[|sorted| - 1];
      InsertFacts(init, e);
      var out := Insert(init, e);
      forall i | 0 <= i < |out|
        ensures out[i].ts < last.ts
      {
        assert out[i] in out;
        assert out[i] in init + [e];
      }
      assert sorted == init + [last];
    }
  }

  lemma {:induction false} SortFacts<P(!new)>(rows: seq<Entry<P>>)
    requires Distinct(rows)
    ensures Ascending(SortByTime(rows)) && SameMembers(SortByTime(rows), rows)
  {
    if rows != [] {
      var init, last := rows[..|rows| - 1], rows[|rows| - 1];
      SortFacts(init);
      var sorted := SortByTime(init);
      forall i | 0 <= i < |sorted|
        ensures sorted[i].ts != last.ts
      {
        assert sorted[i] in sorted;
        assert sorted[i] in init;
      }
      InsertFacts(sorted, last);
      assert rows == init + [last];
    }
  }

  lemma {:induction false} SameFirst<P(!new)>(a: seq<Entry<P>>, b: seq<Entry<P>>, t: int)
    requires Distinct(a) && Distinct(b) && SameMembers(a, b)
    ensures FirstWith(a, t) == FirstWith(b, t)
  {
    FirstAt(a, t);
    FirstAt(b, t);
    var i := IndexOf(a, t);
    if i < |a| {
      assert a[i] in b;
      var k :| 0 <= k < |b| && b[k] == a[i];
      DistinctFirst(b, k);
    } else {
      forall j | 0 <= j < |b|
        ensures b[j].ts != t
      {
        assert b[j] in a;
      }
    }
  }

  lemma {:induction false} SortDistinct<P(!new)>(rows: seq<Entry<P>>, t: int)
    requires Distinct(rows)
    ensures Ascending(SortByTime(rows)) && FirstWith(SortByTime(rows), t) == FirstWith(rows, t)
  {
    SortFacts(rows);
    SameFirst(SortByTime(rows), rows, t);
  }

  /** MAIN: whatever rows arrive, keeping the last duplicate and sorting gives strictly
      ascending timestamps, and for each timestamp the last row that had it. */
  lemma {:induction false} LastKept<P(!new)>(rows: seq<Entry<P>>)
    ensures Ascending(SortByTime(KeepLast(rows)))
    ensures forall t :: FirstWith(SortByTime(KeepLast(rows)), t) == LastWith(rows, t)
  {
    KeepLastFacts(rows, 0);
    SortDistinct(KeepLast(rows), 0);
    forall t
      ensures FirstWith(SortByTime(KeepLast(rows)), t) == LastWith(rows, t)
    {
      KeepLastFacts(rows, t);
      SortDistinct(KeepLast(rows), t);
    }
  }

  /** The same for dropping all but the first duplicate. */
  lemma {:induction false} FirstKept<P(!new)>(rows: seq<Entry<P>>)
    ensures Ascending(SortByTime(KeepFirst(rows)))
    ensures forall t :: FirstWith(SortByTime(KeepFirst(rows)), t) == FirstWith(rows, t)
  {
    KeepFirstFacts(rows, 0);
    SortDistinct(KeepFirst(rows), 0);
    forall t
      ensures FirstWith(SortByTime(KeepFirst(rows)), t) == FirstWith(rows, t)
    {
      KeepFirstFacts(rows, t);
      SortDistinct(KeepFirst(rows), t);
    }
  }

  lemma {:induction false} FirstInside<P>(a: seq<Entry<P>>, t: int)
    requires Ascending(a)
    ensures FirstWith(a, t).Some? ==> a != [] && a[0].ts <= t && FirstWith(a, t).value.ts == t
  {
    FirstAt(a, t);
  }

  /** Ascending lists are determined by what they hold at each timestamp. */
  lemma {:induction false} AscendingUnique<P>(a: seq<Entry<P>>, b: seq<Entry<P>>)
    requires Ascending(a) && Ascending(b)
    requires forall t :: FirstWith(a, t) == FirstWith(b, t)
    ensures a == b
  {
    if a != [] {
      FirstInside(b, a[0].ts);
    }
    if b != [] {
      FirstInside(a, b[0].ts);
    }
    if a != [] && b != [] {
      forall t
        ensures FirstWith(a[1..], t) == FirstWith(b[1..], t)
      {
        if t == a[0].ts {
          FirstAt(a[1..], t);
          FirstAt(b[1..], t);
        } else {
          assert FirstWith(a, t) == FirstWith(a[1..], t) && FirstWith(b, t) == FirstWith(b[1..], t);
        }
      }
      AscendingUnique(a[1..], b[1..]);
      assert a == [a[0]] + a[1..] && b == [b[0]] + b[1..];
    }
  }

  /** The rows and the list hold the same entries. */
  ghost predicate SameEntries<P>(rows: seq<Entry<P>>, list: seq<Entry<P>>) {
    && (forall i :: 0 <= i < |rows| ==> rows[i] in list)
    && (forall j :: 0 <= j < |list| ==> list[j] in rows)
  }

  lemma {:induction false} LastAmong<P>(rows: seq<Entry<P>>, t: int)
    ensures LastWith(rows, t).Some? ==> LastWith(rows, t).value in rows && LastWith(rows, t).value.ts == t
    ensures LastWith(rows, t).None? ==> forall i :: 0 <= i < |rows| ==> rows[i].ts != t
  {
    if rows != [] && rows[|rows| - 1].ts != t {
      LastAmong(rows[..|rows| - 1], t);
    }
  }

  /** Overlapping pages of one ascending list, deduplicated either way and sorted, are the list. */
  lemma {:induction false} PagesMerge<P(!new)>(rows: seq<Entry<P>>, list: seq<Entry<P>>)
    requires Ascending(list) && SameEntries(rows, list)
    ensures SortByTime(KeepFirst(rows)) == list && SortByTime(KeepLast(rows)) == list
  {
    FirstKept(rows);
    LastKept(rows);
    forall t
      ensures FirstWith(list, t) == FirstWith(rows, t) == LastWith(rows, t)
    {
      FirstAt(list, t);
      FirstAt(rows, t);
      LastAmong(rows, t);
      var i, k := IndexOf(list, t), IndexOf(rows, t);
      if i < |list| {
        assert list[i] in rows;
        assert rows[k] in list;
      } else {
        assert forall j :: 0 <= j < |rows| ==> rows[j] in list && rows[j].ts != t;
      }
    }
    AscendingUnique(SortByTime(KeepFirst(rows)), list);
    AscendingUnique(SortByTime(KeepLast(rows)), list);
  }
}
