/** The contract of a paged exchange: a history in time order, plain range queries on it, and
    pages of at most `limit` entries at or after a cursor. */
module PagedHistory {

  datatype Entry<P> = Entry(ts: int, payload: P)

  predicate Sorted<P>(h: seq<Entry<P>>) {
    forall i, j :: 0 <= i < j < |h| ==> h[i].ts <= h[j].ts
  }

  predicate Ascending<P>(h: seq<Entry<P>>) {
    forall i, j :: 0 <= i < j < |h| ==> h[i].ts < h[j].ts
  }

  /** The range query: every entry with lo <= ts <= hi, in the order of the history. */
  function Range<P>(h: seq<Entry<P>>, lo: int, hi: int): seq<Entry<P>> {
    if h == [] then []
    else (if lo <= h[0].ts <= hi then [h[0]] else []) + Range(h[1..], lo, hi)
  }

  /** The number of entries before the cursor. */
  function Before<P>(h: seq<Entry<P>>, cursor: int): (n: nat)
    ensures n <= |h|
  {
    if h == [] then 0 else (if h[0].ts < cursor then 1 else 0) + Before(h[1..], cursor)
  }

  function Min(a: int, b: int): int {
    if a < b then a else b
  }

  /** One page: the first `limit` entries at or after the cursor. */
  function Page<P>(h: seq<Entry<P>>, cursor: int, limit: nat): seq<Entry<P>> {
    h[Before(h, cursor)..Min(Before(h, cursor) + limit, |h|)]
  }

  lemma {:induction false} BeforeNone<P>(h: seq<Entry<P>>, cursor: int)
    requires forall i :: 0 <= i < |h| ==> cursor <= h[i].ts
    ensures Before(h, cursor) == 0
  {
    if h != [] {
      BeforeNone(h[1..], cursor);
    }
  }

  lemma {:induction false} BeforeSplits<P>(h: seq<Entry<P>>, cursor: int)
    requires Sorted(h)
    ensures forall i :: 0 <= i < |h| ==> (i < Before(h, cursor) <==> h[i].ts < cursor)
  {
    if h != [] {
      BeforeSplits(h[1..], cursor);
      if h[0].ts < cursor {
        assert forall i :: 0 < i < |h| ==> h[i] == h[1..][i - 1];
      } else {
        BeforeNone(h, cursor);
      }
    }
  }

  lemma {:induction false} BeforeMonotone<P>(h: seq<Entry<P>>, lo: int, hi: int)
    requires lo <= hi
    ensures Before(h, lo) <= Before(h, hi)
  {
    if h != [] {
      BeforeMonotone(h[1..], lo, hi);
    }
  }

  lemma {:induction false} SliceOfTail<T>(h: seq<T>, a: nat, b: nat)
    requires h != [] && a <= b <= |h| - 1
    ensures h[1..][a..b] == h[a + 1..b + 1]
    ensures a == 0 ==> [h[0]] + h[1..][a..b] == h[0..b + 1]
  {
  }

  lemma {:induction false} RangeIsSlice<P>(h: seq<Entry<P>>, lo: int, hi: int)
    requires Sorted(h) && lo <= hi + 1
    ensures Before(h, lo) <= Before(h, hi + 1)
    ensures Range(h, lo, hi) == h[Before(h, lo)..Before(h, hi + 1)]
  {
    BeforeMonotone(h, lo, hi + 1);
    if h != [] {
      var a, b := Before(h[1..], lo), Before(h[1..], hi + 1);
      RangeIsSlice(h[1..], lo, hi);
      SliceOfTail(h, a, b);
      if lo <= h[0].ts {
        BeforeNone(h[1..], lo);
      }
      if hi < h[0].ts {
        BeforeNone(h[1..], hi + 1);
      }
    }
  }

  /** Splitting a range at a cursor inside it. */
  lemma {:induction false} RangeSplit<P>(h: seq<Entry<P>>, lo: int, mid: int, hi: int)
    requires Sorted(h) && lo <= mid <= hi + 1
    ensures Range(h, lo, hi) == Range(h, lo, mid - 1) + Range(h, mid, hi)
  {
    RangeIsSlice(h, lo, hi);
    RangeIsSlice(h, lo, mid - 1);
    RangeIsSlice(h, mid, hi);
  }

  /** A non-empty page of a strictly ascending history is the range up to its last entry. */
  lemma {:induction false} PageIsRange<P>(h: seq<Entry<P>>, cursor: int, limit: nat)
    requires Ascending(h) && limit >= 1
    ensures var page := Page(h, cursor, limit);
            if page == [] then forall hi :: Range(h, cursor, hi) == []
            else page == Range(h, cursor, page[|page| - 1].ts) && page[|page| - 1].ts >= cursor
  {
    var page := Page(h, cursor, limit);
    var a := Before(h, cursor);
    BeforeSplits(h, cursor);
    if page == [] {
      forall hi
        ensures Range(h, cursor, hi) == []
      {
        if cursor <= hi {
          RangeIsSlice(h, cursor, hi);
        } else {
          EmptyRange(h, cursor, hi);
        }
      }
    } else {
      var last := page[|page| - 1].ts;
      var b := a + |page|;
      assert h[b - 1].ts == last;
      BeforeSplits(h, last + 1);
      assert Before(h, last + 1) == b by {
        assert b - 1 < Before(h, last + 1);
        if b < |h| {
          assert h[b].ts > last;
        }
      }
      RangeIsSlice(h, cursor, last);
    }
  }

  lemma {:induction false} EmptyRange<P>(h: seq<Entry<P>>, lo: int, hi: int)
    requires lo > hi
    ensures Range(h, lo, hi) == []
  {
    if h != [] {
      EmptyRange(h[1..], lo, hi);
    }
  }

  /** Every entry of a range is an entry of the history inside the bounds, and the reverse. */
  lemma {:induction false} RangeMembers<P>(h: seq<Entry<P>>, lo: int, hi: int)
    ensures forall e :: e in Range(h, lo, hi) <==> e in h && lo <= e.ts <= hi
  {
    if h != [] {
      RangeMembers(h[1..], lo, hi);
      assert h == [h[0]] + h[1..];
    }
  }

  lemma {:induction false} InRange<P>(h: seq<Entry<P>>, lo: int, hi: int, e: Entry<P>)
    ensures e in Range(h, lo, hi) <==> e in h && lo <= e.ts <= hi
  {
    RangeMembers(h, lo, hi);
  }

  /** A range query is empty exactly when no entry lies inside its bounds. */
  lemma {:induction false} RangeEmptyIff<P>(h: seq<Entry<P>>, lo: int, hi: int)
    ensures Range(h, lo, hi) == [] <==> forall i :: 0 <= i < |h| ==> !(lo <= h[i].ts <= hi)
  {
    if Range(h, lo, hi) == [] {
      forall i | 0 <= i < |h|
        ensures !(lo <= h[i].ts <= hi)
      {
        InRange(h, lo, hi, h[i]);
      }
    } else {
      InRange(h, lo, hi, Range(h, lo, hi)[0]);
    }
  }

  lemma {:induction false} RangeAscending<P>(h: seq<Entry<P>>, lo: int, hi: int)
    requires Ascending(h)
    ensures Ascending(Range(h, lo, hi))
  {
    if lo <= hi {
      RangeIsSlice(h, lo, hi);
    } else {
      EmptyRange(h, lo, hi);
    }
  }

  /** A second range query on a range is the range of the intersection. */
  lemma {:induction false} RangeOfRange<P>(h: seq<Entry<P>>, lo: int, mid: int, hi: int)
    ensures Range(Range(h, lo, mid), lo, hi) == Range(h, lo, Min(mid, hi))
  {
    if h != [] {
      RangeOfRange(h[1..], lo, mid, hi);
      RangeConcat(if lo <= h[0].ts <= mid then [h[0]] else [], Range(h[1..], lo, mid), lo, hi);
    }
  }

  lemma {:induction false} RangeStep<P>(e: Entry<P>, tail: seq<Entry<P>>, lo: int, hi: int)
    ensures Range([e] + tail, lo, hi) == (if lo <= e.ts <= hi then [e] else []) + Range(tail, lo, hi)
  {
    assert ([e] + tail)[1..] == tail;
  }

  lemma {:induction false} RangeConcat<P>(a: seq<Entry<P>>, b: seq<Entry<P>>, lo: int, hi: int)
    ensures Range(a + b, lo, hi) == Range(a, lo, hi) + Range(b, lo, hi)
  {
    if a == [] {
      assert a + b == b;
    } else {
      hide Range;
      RangeConcat(a[1..], b, lo, hi);
      assert a == [a[0]] + a[1..] && a + b == [a[0]] + (a[1..] + b);
      RangeStep(a[0], a[1..], lo, hi);
      RangeStep(a[0], a[1..] + b, lo, hi);
    }
  }
}
