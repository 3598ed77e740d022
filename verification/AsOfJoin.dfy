/** pd.merge_asof(left, right, on='time', direction='backward') over the two time columns. */
module AsOfJoin {
  import opened Grouping

  datatype Match = Unmatched | Row(index: nat)

  datatype Outcome = Joined(matches: seq<Match>) | Unsorted

  /** The row a backward join picks: the last one at or before `t`. */
  predicate LatestAtOrBefore(right: seq<int>, t: int, m: Match) {
    match m
    case Unmatched => forall j :: 0 <= j < |right| ==> right[j] > t
    case Row(i) => i < |right| && right[i] <= t && forall j :: i < j < |right| ==> right[j] > t
  }

  lemma {:induction false} LatestIsUnique(right: seq<int>, t: int, m: Match, n: Match)
    requires LatestAtOrBefore(right, t, m) && LatestAtOrBefore(right, t, n)
    ensures m == n
  {
    if m.Row? && n.Row? {
      assert !(m.index < n.index);
      assert !(n.index < m.index);
    }
  }

  /** By counting: with sorted right times it is the row before the first one after `t`, so a
      row at `t` itself is picked. */
  lemma {:induction false} LatestByCount(right: seq<int>, t: int, m: Match)
    requires NonDecreasing(right)
    ensures LatestAtOrBefore(right, t, m)
            <==> m == if Below(right, t + 1) == 0 then Unmatched else Row(Below(right, t + 1) - 1)
  {
    BelowSplits(right, t + 1);
    var n := Below(right, t + 1);
    var counted := if n == 0 then Unmatched else Row(n - 1);
    assert LatestAtOrBefore(right, t, counted);
    if LatestAtOrBefore(right, t, m) {
      LatestIsUnique(right, t, m, counted);
    }
  }

  method CheckSorted(times: seq<int>) returns (sorted: bool)
    ensures sorted <==> NonDecreasing(times)
  {
    var i := 1;
    while i < |times|
      invariant 1 <= i && (i <= |times| || times == [])
      invariant NonDecreasing(times[..if times == [] then 0 else i])
    {
      if times[i - 1] > times[i] {
        return false;
      }
      assert forall j :: 0 <= j < i ==> times[..i][j] <= times[..i][i - 1];
      i := i + 1;
    }
    assert times == [] || times[..i] == times;
    return true;
  }

  /** The two-pointer join: every left row is kept once, in order, and paired with the latest
      right row at or before it; unsorted times on either side are an error. */
  method MergeAsOf(left: seq<int>, right: seq<int>) returns (r: Outcome)
    ensures r.Joined? <==> NonDecreasing(left) && NonDecreasing(right)
    ensures r.Joined? ==> |r.matches| == |left|
    ensures r.Joined? ==> forall i :: 0 <= i < |left| ==> LatestAtOrBefore(right, left[i], r.matches[i])
  {
    var leftSorted := CheckSorted(left);
    var rightSorted := CheckSorted(right);
    if !leftSorted || !rightSorted {
      return Unsorted;
    }
    var matches: seq<Match> := [];
    var p, q := 0, 0;
    while p < |left|
      invariant 0 <= p <= |left| && 0 <= q <= |right| && |matches| == p
      invariant forall i :: 0 <= i < p ==> LatestAtOrBefore(right, left[i], matches[i])
      invariant forall j :: 0 <= j < q ==> p < |left| ==> right[j] <= left[p]
    {
      while q < |right| && right[q] <= left[p]
        invariant 0 <= q <= |right|
        invariant forall j :: 0 <= j < q ==> right[j] <= left[p]
      {
        q := q + 1;
      }
      var m := if q == 0 then Unmatched else Row(q - 1);
      assert LatestAtOrBefore(right, left[p], m);
      matches := matches + [m];
      p := p + 1;
    }
    return Joined(matches);
  }
}
