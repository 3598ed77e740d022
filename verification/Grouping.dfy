/** Grouping a series by a key per element: what resample and groupby do with the ticks. */
module Grouping {
  import opened Chunks

  /** The elements with key `k`, in order. */
  function Select<T>(xs: seq<T>, keys: seq<int>, k: int): seq<T>
    requires |xs| == |keys|
  {
    if xs == [] then []
    else Select(xs[..|xs| - 1], keys[..|xs| - 1], k) + (if keys[|xs| - 1] == k then [xs[|xs| - 1]] else [])
  }

  predicate NonDecreasing(keys: seq<int>) {
    forall i, j :: 0 <= i < j < |keys| ==> keys[i] <= keys[j]
  }

  predicate Within(keys: seq<int>, lo: int, hi: int) {
    forall i :: 0 <= i < |keys| ==> lo <= keys[i] < hi
  }

  /** The number of keys below `k`; for sorted keys, where key `k` starts. */
  function Below(keys: seq<int>, k: int): (n: nat)
    ensures n <= |keys|
  {
    if keys == [] then 0
    else Below(keys[..|keys| - 1], k) + (if keys[|keys| - 1] < k then 1 else 0)
  }

  lemma {:induction false} BelowFull(keys: seq<int>, k: int)
    requires forall i :: 0 <= i < |keys| ==> keys[i] < k
    ensures Below(keys, k) == |keys|
  {
    if keys != [] {
      BelowFull(keys[..|keys| - 1], k);
    }
  }

  lemma {:induction false} BelowSplits(keys: seq<int>, k: int)
    requires NonDecreasing(keys)
    ensures forall i :: 0 <= i < |keys| ==> (i < Below(keys, k) <==> keys[i] < k)
  {
    if keys != [] {
      var init, last := keys[..|keys| - 1], keys[|keys| - 1];
      BelowSplits(init, k);
      if last < k {
        BelowFull(init, k);
      }
    }
  }

  lemma {:induction false} BelowMonotone(keys: seq<int>, k: int)
    ensures Below(keys, k) <= Below(keys, k + 1)
  {
    if keys != [] {
      BelowMonotone(keys[..|keys| - 1], k);
    }
  }

  lemma {:induction false} SliceOfPrefix<T>(xs: seq<T>, n: nat, a: nat, b: nat)
    requires a <= b <= n <= |xs|
    ensures xs[..n][a..b] == xs[a..b]
  {
    assert forall i :: 0 <= i < b - a ==> xs[..n][a..b][i] == xs[a..b][i];
  }

  lemma {:induction false} SelectLast<T>(xs: seq<T>, keys: seq<int>, k: int, a: nat, b: nat)
    requires |xs| == |keys| && xs != [] && a <= b < |xs| && (keys[|keys| - 1] == k ==> b == |xs| - 1)
    requires Select(xs[..|xs| - 1], keys[..|xs| - 1], k) == xs[a..b]
    ensures Select(xs, keys, k) == if keys[|keys| - 1] == k then xs[a..b + 1] else xs[a..b]
  {
  }

  /** In a sorted series every group is a contiguous slice. */
  lemma {:induction false} SelectIsSlice<T>(xs: seq<T>, keys: seq<int>, k: int)
    requires |xs| == |keys| && NonDecreasing(keys)
    ensures Below(keys, k) <= Below(keys, k + 1)
    ensures Select(xs, keys, k) == xs[Below(keys, k)..Below(keys, k + 1)]
  {
    BelowMonotone(keys, k);
    if xs != [] {
      var n := |xs| - 1;
      var init, last := keys[..n], keys[n];
      SelectIsSlice(xs[..n], init, k);
      var a, b := Below(init, k), Below(init, k + 1);
      SliceOfPrefix(xs, n, a, b);
      if last <= k {
        BelowFull(init, k + 1);
      }
      if last < k {
        BelowFull(init, k);
      }
      SelectLast(xs, keys, k, a, b);
    }
  }

  lemma {:induction false} BelowAll(keys: seq<int>, lo: int, hi: int)
    requires Within(keys, lo, hi)
    ensures Below(keys, lo) == 0 && Below(keys, hi) == |keys|
  {
    if keys != [] {
      BelowAll(keys[..|keys| - 1], lo, hi);
    }
  }

  /** One group per key from `lo` up to but not including `hi`, empty ones too. */
  function Bins<T>(xs: seq<T>, keys: seq<int>, lo: int, hi: int): (bins: seq<seq<T>>)
    requires |xs| == |keys| && lo <= hi
    ensures |bins| == hi - lo && forall b :: 0 <= b < |bins| ==> bins[b] == Select(xs, keys, lo + b)
    decreases hi - lo
  {
    if lo == hi then [] else Bins(xs, keys, lo, hi - 1) + [Select(xs, keys, hi - 1)]
  }

  lemma {:induction false} SlicesJoin<T>(xs: seq<T>, a: nat, b: nat, c: nat)
    requires a <= b <= c <= |xs|
    ensures xs[a..b] + xs[b..c] == xs[a..c]
  {
  }

  /** The bins from `lo` to `hi` are the slice of the series with those keys. */
  lemma {:induction false} BinsConcat<T>(xs: seq<T>, keys: seq<int>, lo: int, hi: int)
    requires |xs| == |keys| && NonDecreasing(keys) && lo <= hi
    ensures Below(keys, lo) <= Below(keys, hi)
    ensures Concat(Bins(xs, keys, lo, hi)) == xs[Below(keys, lo)..Below(keys, hi)]
    decreases hi - lo
  {
    if lo < hi {
      hide Select, Below;
      BinsConcat(xs, keys, lo, hi - 1);
      SelectIsSlice(xs, keys, hi - 1);
      var bins := Bins(xs, keys, lo, hi);
      assert bins[..|bins| - 1] == Bins(xs, keys, lo, hi - 1);
      SlicesJoin(xs, Below(keys, lo), Below(keys, hi - 1), Below(keys, hi));
    }
  }

  /** The bins partition the series. */
  lemma {:induction false} BinsPartition<T>(xs: seq<T>, keys: seq<int>, lo: int, hi: int)
    requires |xs| == |keys| && NonDecreasing(keys) && lo <= hi && Within(keys, lo, hi)
    ensures Concat(Bins(xs, keys, lo, hi)) == xs
  {
    BinsConcat(xs, keys, lo, hi);
    BelowAll(keys, lo, hi);
  }

  function Sum(xs: seq<real>): real {
    if xs == [] then 0.0 else Sum(xs[..|xs| - 1]) + xs[|xs| - 1]
  }

  lemma {:induction false} SumJoin(a: seq<real>, b: seq<real>)
    ensures Sum(a + b) == Sum(a) + Sum(b)
  {
    if b == [] {
      assert a + b == a;
    } else {
      SumJoin(a, b[..|b| - 1]);
      assert (a + b)[..|a + b| - 1] == a + b[..|b| - 1];
    }
  }

  /** The per-bin totals of a column. */
  function Totals(bins: seq<seq<real>>): (t: seq<real>)
    ensures |t| == |bins| && forall b :: 0 <= b < |bins| ==> t[b] == Sum(bins[b])
  {
    if bins == [] then [] else Totals(bins[..|bins| - 1]) + [Sum(bins[|bins| - 1])]
  }

  lemma {:induction false} TotalOfTotals(bins: seq<seq<real>>)
    ensures Sum(Totals(bins)) == Sum(Concat(bins))
  {
    if bins != [] {
      var n := |bins| - 1;
      TotalOfTotals(bins[..n]);
      SumJoin(Concat(bins[..n]), bins[n]);
      assert Totals(bins)[..n] == Totals(bins[..n]);
    }
  }

  /** Conservation: the bin totals of any column add up to the column's total. */
  lemma {:induction false} BinTotals(column: seq<real>, keys: seq<int>, lo: int, hi: int)
    requires |column| == |keys| && NonDecreasing(keys) && lo <= hi && Within(keys, lo, hi)
    ensures Sum(Totals(Bins(column, keys, lo, hi))) == Sum(column)
  {
    BinsPartition(column, keys, lo, hi);
    TotalOfTotals(Bins(column, keys, lo, hi));
  }

  function SumNat(xs: seq<nat>): nat {
    if xs == [] then 0 else SumNat(xs[..|xs| - 1]) + xs[|xs| - 1]
  }

  function Counts<T>(bins: seq<seq<T>>): (t: seq<nat>)
    ensures |t| == |bins| && forall b :: 0 <= b < |bins| ==> t[b] == |bins[b]|
  {
    if bins == [] then [] else Counts(bins[..|bins| - 1]) + [|bins[|bins| - 1]|]
  }

  lemma {:induction false} CountOfCounts<T>(bins: seq<seq<T>>)
    ensures SumNat(Counts(bins)) == |Concat(bins)|
  {
    if bins != [] {
      var n := |bins| - 1;
      CountOfCounts(bins[..n]);
      assert Counts(bins)[..n] == Counts(bins[..n]);
    }
  }

  /** The keys of a time series cut into windows of `width`. */
  function WindowKeys(times: seq<int>, width: int): (keys: seq<int>)
    requires width >= 1
    ensures |keys| == |times| && forall i :: 0 <= i < |times| ==> keys[i] == times[i] / width
  {
    if times == [] then [] else WindowKeys(times[..|times| - 1], width) + [times[|times| - 1] / width]
  }

  lemma {:induction false} DivMonotone(a: int, b: int, d: int)
    requires a <= b && d >= 1
    ensures a / d <= b / d
  {
    MultiplesApart(b / d, a / d, d);
  }

  lemma {:induction false} WindowKeysSorted(times: seq<int>, width: int)
    requires width >= 1 && NonDecreasing(times)
    ensures NonDecreasing(WindowKeys(times, width))
  {
    var keys := WindowKeys(times, width);
    forall i, j | 0 <= i < j < |keys|
      ensures keys[i] <= keys[j]
    {
      DivMonotone(times[i], times[j], width);
    }
  }

  function FirstBin(times: seq<int>, width: int): int
    requires width >= 1
  {
    if times == [] then 0 else times[0] / width
  }

  function EndBin(times: seq<int>, width: int): int
    requires width >= 1
  {
    if times == [] then 0 else times[|times| - 1] / width + 1
  }

  lemma {:induction false} BinsCover(times: seq<int>, width: int)
    requires width >= 1 && NonDecreasing(times)
    ensures FirstBin(times, width) <= EndBin(times, width)
    ensures NonDecreasing(WindowKeys(times, width))
    ensures Within(WindowKeys(times, width), FirstBin(times, width), EndBin(times, width))
  {
    WindowKeysSorted(times, width);
  }

  /** resample(width): one bin for every window from the first tick to the last. */
  function Resampled<T>(times: seq<int>, column: seq<T>, width: int): (bins: seq<seq<T>>)
    requires width >= 1 && |times| == |column| && NonDecreasing(times)
  {
    BinsCover(times, width);
    Bins(column, WindowKeys(times, width), FirstBin(times, width), EndBin(times, width))
  }

  /** MAIN: binning conserves the total of every summed column (net volume and trade sign
      among them). */
  lemma {:induction false} ColumnConserved(times: seq<int>, column: seq<real>, width: int)
    requires width >= 1 && |times| == |column| && NonDecreasing(times)
    ensures Sum(Totals(Resampled(times, column, width))) == Sum(column)
  {
    BinsCover(times, width);
    BinTotals(column, WindowKeys(times, width), FirstBin(times, width), EndBin(times, width));
  }

  /** The number of elements before the end of bin `b`. */
  function EndOfBin(times: seq<int>, width: int, b: nat): (n: nat)
    requires width >= 1
    ensures n <= |times|
  {
    Below(WindowKeys(times, width), FirstBin(times, width) + b + 1)
  }

  /** Bin `b` is the slice from the end of the bin before it to its own end. */
  lemma {:induction false} BinIsSlice<T>(times: seq<int>, column: seq<T>, width: int, b: nat)
    requires width >= 1 && |times| == |column| && NonDecreasing(times) && b < |Resampled(times, column, width)|
    ensures var from := if b == 0 then 0 else EndOfBin(times, width, b - 1);
            var to := EndOfBin(times, width, b);
            from <= to && to >= 1 && Resampled(times, column, width)[b] == column[from..to]
  {
    var keys, first := WindowKeys(times, width), FirstBin(times, width);
    BinsCover(times, width);
    SelectIsSlice(column, keys, first + b);
    BelowAll(keys, first, EndBin(times, width));
    BelowSplits(keys, first + b + 1);
    assert keys[0] == first;
  }
}
