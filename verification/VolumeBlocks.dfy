/** The volume blocks of backend/scripts/merge_hybrid.py: ticks grouped by cumulative volume,
    and the backward as-of join of the candles with the blocks. */
module VolumeBlocks {
  import opened Chunks
  import opened Grouping
  import opened AsOfJoin

  datatype Tick = Tick(time: int, mid: real, spread: real)

  /** N_VOL. */
  const BLOCK_VOLUME := 1000.0

  /** cumsum() */
  function Cumulative(volumes: seq<real>): (c: seq<real>)
    ensures |c| == |volumes|
  {
    seq(|volumes|, i requires 0 <= i < |volumes| => Sum(volumes[..i + 1]))
  }

  /** (cum_vol // block).astype(int) */
  function BlockKeys(volumes: seq<real>, block: real): (keys: seq<int>)
    requires block > 0.0
    ensures |keys| == |volumes|
  {
    var c := Cumulative(volumes);
    seq(|volumes|, i requires 0 <= i < |volumes| => (c[i] / block).Floor)
  }

  function NonEmpty<T>(groups: seq<seq<T>>): (g: seq<seq<T>>)
    ensures forall i :: 0 <= i < |g| ==> g[i] != []
  {
    if groups == [] then []
    else NonEmpty(groups[..|groups| - 1]) + (if groups[|groups| - 1] == [] then [] else [groups[|groups| - 1]])
  }

  function Least(keys: seq<int>): (k: int)
    requires keys != []
    ensures forall i :: 0 <= i < |keys| ==> k <= keys[i]
  {
    if |keys| == 1 then keys[0]
    else
      var k := Least(keys[..|keys| - 1]);
      if keys[|keys| - 1] < k then keys[|keys| - 1] else k
  }

  function Greatest(keys: seq<int>): (k: int)
    requires keys != []
    ensures forall i :: 0 <= i < |keys| ==> keys[i] <= k
  {
    if |keys| == 1 then keys[0]
    else
      var k := Greatest(keys[..|keys| - 1]);
      if keys[|keys| - 1] > k then keys[|keys| - 1] else k
  }

  /** groupby: the groups that occur, by ascending key. */
  function GroupBy<T>(xs: seq<T>, keys: seq<int>): (groups: seq<seq<T>>)
    requires |xs| == |keys|
    ensures forall i :: 0 <= i < |groups| ==> groups[i] != []
  {
    if keys == [] then []
    else
      assert Least(keys) <= keys[0] <= Greatest(keys);
      NonEmpty(Bins(xs, keys, Least(keys), Greatest(keys) + 1))
  }

  /** The `time` column of the block table: grp['time'].last(). */
  function EndTimes(blocks: seq<seq<Tick>>): (ends: seq<int>)
    requires forall i :: 0 <= i < |blocks| ==> blocks[i] != []
    ensures |ends| == |blocks|
    ensures forall i :: 0 <= i < |blocks| ==> ends[i] == blocks[i][|blocks[i]| - 1].time
  {
    seq(|blocks|, i requires 0 <= i < |blocks| => blocks[i][|blocks[i]| - 1].time)
  }

  predicate TimeSorted(ticks: seq<Tick>) {
    forall i, j :: 0 <= i < j < |ticks| ==> ticks[i].time <= ticks[j].time
  }

  predicate NonNegative(volumes: seq<real>) {
    forall i :: 0 <= i < |volumes| ==> volumes[i] >= 0.0
  }

  function Blocks(ticks: seq<Tick>, volumes: seq<real>, block: real): (b: seq<seq<Tick>>)
    requires |ticks| == |volumes| && block > 0.0
    ensures forall i :: 0 <= i < |b| ==> b[i] != []
  {
    GroupBy(ticks, BlockKeys(volumes, block))
  }

  // ---------------------------------------------------------------- blocks are slices

  lemma {:induction false} SumGrows(volumes: seq<real>, i: nat, j: nat)
    requires NonNegative(volumes) && i <= j <= |volumes|
    ensures Sum(volumes[..i]) <= Sum(volumes[..j])
    decreases j - i
  {
    if i < j {
      SumGrows(volumes, i, j - 1);
      assert volumes[..j][..j - 1] == volumes[..j - 1];
    }
  }

  lemma {:induction false} FloorMonotone(x: real, y: real)
    requires x <= y
    ensures x.Floor <= y.Floor
  {
  }

  lemma {:induction false} DivideMonotone(x: real, y: real, d: real)
    requires x <= y && d > 0.0
    ensures x / d <= y / d
  {
  }

  lemma {:induction false} KeysSorted(volumes: seq<real>, block: real)
    requires NonNegative(volumes) && block > 0.0
    ensures NonDecreasing(BlockKeys(volumes, block))
  {
    var c, keys := Cumulative(volumes), BlockKeys(volumes, block);
    forall i, j | 0 <= i < j < |keys|
      ensures keys[i] <= keys[j]
    {
      SumGrows(volumes, i + 1, j + 1);
      DivideMonotone(c[i], c[j], block);
      FloorMonotone(c[i] / block, c[j] / block);
    }
  }

  lemma {:induction false} NonEmptyConcat<T>(groups: seq<seq<T>>)
    ensures Concat(NonEmpty(groups)) == Concat(groups)
  {
    if groups != [] {
      var init, last := groups[..|groups| - 1], groups[|groups| - 1];
      NonEmptyConcat(init);
      assert Concat(groups) == Concat(init) + last;
      if last != [] {
        assert (NonEmpty(init) + [last])[..|NonEmpty(init)|] == NonEmpty(init);
      } else {
        assert NonEmpty(groups) == NonEmpty(init);
      }
    }
  }

  /** MAIN: with no negative volume the blocks cut the tick series into consecutive slices. */
  lemma {:induction false} BlocksPartition(ticks: seq<Tick>, volumes: seq<real>, block: real)
    requires |ticks| == |volumes| && block > 0.0 && NonNegative(volumes)
    ensures Concat(Blocks(ticks, volumes, block)) == ticks
  {
    var keys := BlockKeys(volumes, block);
    KeysSorted(volumes, block);
    if keys != [] {
      var lo, hi := Least(keys), Greatest(keys) + 1;
      BinsPartition(ticks, keys, lo, hi);
      NonEmptyConcat(Bins(ticks, keys, lo, hi));
    }
  }

  /** Consecutive slices of a sorted series end in time order, each at its latest tick. */
  lemma {:induction false} SliceEnds(blocks: seq<seq<Tick>>)
    requires forall i :: 0 <= i < |blocks| ==> blocks[i] != []
    requires TimeSorted(Concat(blocks))
    ensures NonDecreasing(EndTimes(blocks))
    ensures forall i, k :: 0 <= i < |blocks| && 0 <= k < |blocks[i]| ==> blocks[i][k].time <= EndTimes(blocks)[i]
    ensures blocks != [] ==>
              Concat(blocks) != [] && EndTimes(blocks)[|blocks| - 1] == Concat(blocks)[|Concat(blocks)| - 1].time
  {
    if blocks != [] {
      var init, last := blocks[..|blocks| - 1], blocks[|blocks| - 1];
      var all := Concat(blocks);
      var front := Concat(init);
      assert all == front + last;
      assert forall i :: 0 <= i < |front| ==> front[i] == all[i];
      SliceEnds(init);
      forall k | 0 <= k < |last|
        ensures last[k].time <= last[|last| - 1].time
      {
        assert last[k] == all[|front| + k] && last[|last| - 1] == all[|all| - 1];
      }
      if init != [] {
        assert front[|front| - 1] == all[|front| - 1] && last[|last| - 1] == all[|all| - 1];
      }
    }
  }

  /** The volume branch of merge_hybrid_dataset: group, take the end times, join. */
  method JoinBlocks(candles: seq<int>, ticks: seq<Tick>, volumes: seq<real>, block: real)
    returns (r: Outcome, blocks: seq<seq<Tick>>)
    requires |ticks| == |volumes| && block > 0.0
    requires NonDecreasing(candles) && TimeSorted(ticks)
    ensures blocks == Blocks(ticks, volumes, block)
    ensures r.Joined? <==> NonDecreasing(EndTimes(blocks))
    ensures r.Joined? ==> |r.matches| == |candles|
    ensures r.Joined? ==>
              forall i :: 0 <= i < |candles| ==> LatestAtOrBefore(EndTimes(blocks), candles[i], r.matches[i])
  {
    blocks := Blocks(ticks, volumes, block);
    r := MergeAsOf(candles, EndTimes(blocks));
  }

  /** MAIN: with no negative volume the end times are sorted, so the join succeeds; and no tick
      of the block joined to a candle at time `t` is later than the candle. */
  lemma {:induction false} NoLookAhead(ticks: seq<Tick>, volumes: seq<real>, block: real, t: int, m: Match)
    requires |ticks| == |volumes| && block > 0.0 && NonNegative(volumes) && TimeSorted(ticks)
    ensures var blocks := Blocks(ticks, volumes, block);
            && NonDecreasing(EndTimes(blocks))
            && (LatestAtOrBefore(EndTimes(blocks), t, m) ==>
                  && (m.Row? ==> forall k :: 0 <= k < |blocks[m.index]| ==> blocks[m.index][k].time <= t)
                  && (forall b :: 0 <= b < |blocks| ==> (EndTimes(blocks)[b] <= t <==> m.Row? && b <= m.index)))
  {
    hide Blocks, Concat;
    BlocksPartition(ticks, volumes, block);
    SliceEnds(Blocks(ticks, volumes, block));
  }

  // ---------------------------------------------------------------- when the join is possible

  /** Tick `i` is the last one of its block. */
  predicate EndsBlock(keys: seq<int>, i: int) {
    0 <= i < |keys| && forall m :: i < m < |keys| ==> keys[m] != keys[i]
  }

  /** The last tick of a group. */
  lemma {:induction false} GroupEnd(ticks: seq<Tick>, keys: seq<int>, k: int) returns (i: nat)
    requires |ticks| == |keys|
    ensures var group := Select(ticks, keys, k);
            if group == [] then forall j :: 0 <= j < |keys| ==> keys[j] != k
            else EndsBlock(keys, i) && keys[i] == k && group[|group| - 1] == ticks[i]
  {
    i := 0;
    if keys != [] {
      var n := |keys| - 1;
      if keys[n] == k {
        i := n;
      } else {
        i := GroupEnd(ticks[..n], keys[..n], k);
      }
    }
  }

  lemma {:induction false} EndTimesSnoc(blocks: seq<seq<Tick>>, b: seq<Tick>)
    requires b != [] && forall i :: 0 <= i < |blocks| ==> blocks[i] != []
    ensures EndTimes(blocks + [b]) == EndTimes(blocks) + [b[|b| - 1].time]
    ensures NonDecreasing(EndTimes(blocks + [b])) <==>
              NonDecreasing(EndTimes(blocks)) && forall e :: e in EndTimes(blocks) ==> e <= b[|b| - 1].time
  {
    var ends, t := EndTimes(blocks), b[|b| - 1].time;
    assert EndTimes(blocks + [b]) == ends + [t];
    if NonDecreasing(ends + [t]) {
      forall i | 0 <= i < |ends|
        ensures ends[i] <= t
      {
        assert (ends + [t])[i] <= (ends + [t])[|ends|];
      }
      assert forall i :: 0 <= i < |ends| ==> (ends + [t])[i] == ends[i];
    }
    assert forall i :: 0 <= i < |ends| ==> ends[i] in ends;
  }

  /** The end times of the blocks with keys from `lo` up to but not including `hi`. */
  function EndsOf(ticks: seq<Tick>, keys: seq<int>, lo: int, hi: int): seq<int>
    requires |ticks| == |keys| && lo <= hi
  {
    EndTimes(NonEmpty(Bins(ticks, keys, lo, hi)))
  }

  /** A block's end joins the earlier ends; a key without ticks adds none. */
  lemma {:induction false} EndsStep(ticks: seq<Tick>, keys: seq<int>, lo: int, hi: int) returns (i: nat)
    requires |ticks| == |keys| && lo < hi
    ensures var before, ends := EndsOf(ticks, keys, lo, hi - 1), EndsOf(ticks, keys, lo, hi);
            if EndsBlock(keys, i) && keys[i] == hi - 1 then
              && ends == before + [ticks[i].time]
              && (NonDecreasing(ends) <==> NonDecreasing(before) && forall e :: e in before ==> e <= ticks[i].time)
            else ends == before && forall j :: 0 <= j < |keys| ==> keys[j] != hi - 1
  {
    i := GroupEnd(ticks, keys, hi - 1);
    var bins, group := Bins(ticks, keys, lo, hi - 1), Select(ticks, keys, hi - 1);
    assert (bins + [group])[..|bins|] == bins;
    if group != [] {
      EndTimesSnoc(NonEmpty(bins), group);
    }
  }

  /** The blocks with keys from `lo` up to `hi` have all ended by `t`. */
  ghost predicate EndedBy(ticks: seq<Tick>, keys: seq<int>, lo: int, hi: int, t: int)
    requires |ticks| == |keys|
  {
    forall i :: EndsBlock(keys, i) && lo <= keys[i] < hi ==> ticks[i].time <= t
  }

  /** Of any two of these blocks the one with the smaller key ends no later. */
  ghost predicate EndInOrder(ticks: seq<Tick>, keys: seq<int>, lo: int, hi: int)
    requires |ticks| == |keys|
  {
    forall j :: EndsBlock(keys, j) && lo <= keys[j] < hi ==> EndedBy(ticks, keys, lo, keys[j], ticks[j].time)
  }

  lemma {:induction false} OneEnd(keys: seq<int>, i: int, j: int)
    requires EndsBlock(keys, i) && EndsBlock(keys, j) && keys[i] == keys[j]
    ensures i == j
  {
  }

  lemma {:induction false} EndsBelow(ticks: seq<Tick>, keys: seq<int>, lo: int, hi: int, t: int)
    requires |ticks| == |keys| && lo <= hi
    ensures (forall e :: e in EndsOf(ticks, keys, lo, hi) ==> e <= t) <==> EndedBy(ticks, keys, lo, hi, t)
    decreases hi - lo
  {
    hide EndsOf;
    if lo == hi {
      NoEnds(ticks, keys, lo);
    } else {
      var n := EndsStep(ticks, keys, lo, hi);
      EndsBelow(ticks, keys, lo, hi - 1, t);
      var before := EndsOf(ticks, keys, lo, hi - 1);
      if EndsBlock(keys, n) && keys[n] == hi - 1 {
        AllUpTo(before, ticks[n].time, t);
        EndedStep(ticks, keys, lo, hi, t, n);
      }
    }
  }

  lemma {:induction false} AllUpTo(xs: seq<int>, x: int, t: int)
    ensures (forall e :: e in xs + [x] ==> e <= t) <==> (forall e :: e in xs ==> e <= t) && x <= t
  {
    assert x in xs + [x] && forall e :: e in xs ==> e in xs + [x];
  }

  lemma {:induction false} EndedStep(ticks: seq<Tick>, keys: seq<int>, lo: int, hi: int, t: int, n: int)
    requires |ticks| == |keys| && EndsBlock(keys, n) && lo <= keys[n] == hi - 1
    ensures EndedBy(ticks, keys, lo, hi, t) <==> EndedBy(ticks, keys, lo, hi - 1, t) && ticks[n].time <= t
  {
    forall i | EndsBlock(keys, i) && keys[i] == hi - 1
      ensures i == n
    {
      OneEnd(keys, i, n);
    }
  }

  lemma {:induction false} NoEnds(ticks: seq<Tick>, keys: seq<int>, lo: int)
    requires |ticks| == |keys|
    ensures EndsOf(ticks, keys, lo, lo) == []
  {
  }

  lemma {:induction false} EndsSortedIff(ticks: seq<Tick>, keys: seq<int>, lo: int, hi: int)
    requires |ticks| == |keys| && lo <= hi
    ensures NonDecreasing(EndsOf(ticks, keys, lo, hi)) <==> EndInOrder(ticks, keys, lo, hi)
    decreases hi - lo
  {
    hide EndsOf, EndedBy;
    if lo == hi {
      NoEnds(ticks, keys, lo);
    } else {
      var n := EndsStep(ticks, keys, lo, hi);
      EndsSortedIff(ticks, keys, lo, hi - 1);
      if EndsBlock(keys, n) && keys[n] == hi - 1 {
        EndsBelow(ticks, keys, lo, hi - 1, ticks[n].time);
        forall i | EndsBlock(keys, i) && keys[i] == hi - 1
          ensures i == n
        {
          OneEnd(keys, i, n);
        }
      }
    }
  }

  /** MAIN: for volumes of any sign the join succeeds if and only if, of any two blocks, the one
      with less cumulative volume ends no later. */
  lemma {:induction false} JoinPossibleIff(ticks: seq<Tick>, volumes: seq<real>, block: real, keys: seq<int>)
    requires |ticks| == |volumes| && block > 0.0 && keys == BlockKeys(volumes, block)
    ensures NonDecreasing(EndTimes(Blocks(ticks, volumes, block))) <==>
              forall i, j :: EndsBlock(keys, i) && EndsBlock(keys, j) && keys[i] < keys[j] ==>
                ticks[i].time <= ticks[j].time
  {
    hide BlockKeys;
    if keys != [] {
      var lo, hi := Least(keys), Greatest(keys) + 1;
      assert lo <= keys[0] < hi;
      assert EndTimes(Blocks(ticks, volumes, block)) == EndsOf(ticks, keys, lo, hi);
      EndsSortedIff(ticks, keys, lo, hi);
      assert forall i :: EndsBlock(keys, i) ==> lo <= keys[i] < hi;
    }
  }

  /** A negative volume can put a later block before an earlier one, and the join refuses. */
  lemma {:induction false} NegativeVolumeRefused(a: Tick, b: Tick)
    requires a.time < b.time
    ensures !NonDecreasing(EndTimes(Blocks([a, b], [2000.0, -1000.0], BLOCK_VOLUME)))
  {
    var v := [2000.0, -1000.0];
    assert v[..1] == [2000.0] && v[..2] == v;
    assert Sum([2000.0]) == 2000.0 && Sum(v) == 1000.0;
    assert BlockKeys(v, BLOCK_VOLUME) == [2, 1];
    TwoGroups(a, b);
    assert EndTimes([[b], [a]])[0] > EndTimes([[b], [a]])[1];
  }

  lemma {:induction false} TwoGroups(a: Tick, b: Tick)
    ensures GroupBy([a, b], [2, 1]) == [[b], [a]]
  {
    var ticks, keys := [a, b], [2, 1];
    assert ticks[..1] == [a] && keys[..1] == [2] && [a][..0] == [] && [2][..0] == [];
    assert Least([2]) == 2 && Greatest([2]) == 2;
    assert Least(keys) == 1 && Greatest(keys) == 2;
    assert Select<Tick>([], [], 1) == [] && Select<Tick>([], [], 2) == [];
    assert Select([a], [2], 1) == [] && Select([a], [2], 2) == [a];
    assert Select(ticks, keys, 1) == [b] && Select(ticks, keys, 2) == [a];
    hide Select;
    assert Bins(ticks, keys, 1, 3) == [[b], [a]];
    NonEmptyAll([[b], [a]]);
  }

  lemma {:induction false} NonEmptyAll<T>(groups: seq<seq<T>>)
    requires forall i :: 0 <= i < |groups| ==> groups[i] != []
    ensures NonEmpty(groups) == groups
  {
    if groups != [] {
      NonEmptyAll(groups[..|groups| - 1]);
    }
  }

  // ---------------------------------------------------------------- how much a block holds

  lemma {:induction false} SumOfSlice(volumes: seq<real>, i: nat, j: nat)
    requires i <= j <= |volumes|
    ensures Sum(volumes[i..j]) == Sum(volumes[..j]) - Sum(volumes[..i])
  {
    assert volumes[..j] == volumes[..i] + volumes[i..j];
    SumJoin(volumes[..i], volumes[i..j]);
  }

  lemma {:induction false} SameFloor(x: real, y: real, d: real)
    requires d > 0.0 && (x / d).Floor == (y / d).Floor
    ensures y - x < d
  {
    var p, q := x / d, y / d;
    assert p.Floor as real <= p && q < q.Floor as real + 1.0;
    assert x == p * d && y == q * d;
    Scale(1.0 - (q - p), d);
  }

  lemma {:induction false} Scale(a: real, d: real)
    requires a > 0.0 && d > 0.0
    ensures a * d > 0.0
  {
  }

  /** Two ticks of one block: the volume after the first, up to the second, is below a block. */
  lemma {:induction false} BlockVolume(volumes: seq<real>, block: real, i: nat, j: nat)
    requires block > 0.0 && i <= j < |volumes| && BlockKeys(volumes, block)[i] == BlockKeys(volumes, block)[j]
    ensures Sum(volumes[i + 1..j + 1]) < block
  {
    SumOfSlice(volumes, i + 1, j + 1);
    SameFloor(Sum(volumes[..i + 1]), Sum(volumes[..j + 1]), block);
  }

  lemma {:induction false} SumOfOnes(volumes: seq<real>)
    requires forall i :: 0 <= i < |volumes| ==> volumes[i] == 1.0
    ensures Sum(volumes) == |volumes| as real
  {
    if volumes != [] {
      SumOfOnes(volumes[..|volumes| - 1]);
    }
  }

  lemma {:induction false} FloorOfQuotient(a: nat, n: nat)
    requires n >= 1
    ensures (a as real / n as real).Floor == a / n
  {
    var q, r := a / n, a % n;
    assert a == q * n + r;
    var fraction := r as real / n as real;
    assert a as real == q as real * n as real + r as real;
    assert a as real / n as real == q as real + fraction;
    assert 0.0 <= fraction < 1.0;
  }

  /** Counting ticks instead of volume: tick i lands in block (i+1)/n, so the first block has
      n-1 ticks and every later full block n. */
  lemma {:induction false} UnitVolumeKey(volumes: seq<real>, n: nat, i: nat)
    requires n >= 1 && i < |volumes| && forall j :: 0 <= j < |volumes| ==> volumes[j] == 1.0
    ensures BlockKeys(volumes, n as real)[i] == (i + 1) / n
  {
    SumOfOnes(volumes[..i + 1]);
    FloorOfQuotient(i + 1, n);
  }
}
