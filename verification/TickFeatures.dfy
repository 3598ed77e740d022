/** The tick columns of backend/scripts/hybrid_tick_calculator.py and their 5 second bins in
    backend/scripts/merge_hybrid.py. Times are integer milliseconds, prices and volumes reals. */
module TickFeatures {
  import opened Options
  import opened Chunks
  import opened Grouping
  import opened AsOfJoin

  const RSI_WINDOW: nat := 14
  const EPSILON := 0.00000001

  function Abs(x: real): (r: real)
    ensures r >= 0.0
  {
    if x < 0.0 then -x else x
  }

  function Sign(x: real): real {
    if x < 0.0 then -1.0 else if x > 0.0 then 1.0 else 0.0
  }

  /** The nested path_variation of merge_hybrid: np.sum(np.abs(np.diff(x))), 0 for a short x. */
  function Variation(x: seq<real>): real {
    if |x| <= 1 then 0.0 else Variation(x[..|x| - 1]) + Abs(x[|x| - 1] - x[|x| - 2])
  }

  /** x.diff().fillna(0) */
  function Diff(x: seq<real>): (d: seq<real>)
    ensures |d| == |x|
  {
    seq(|x|, i requires 0 <= i < |x| => if i == 0 then 0.0 else x[i] - x[i - 1])
  }

  function PathColumn(mid: seq<real>): (c: seq<real>)
    ensures |c| == |mid|
  {
    var d := Diff(mid);
    seq(|mid|, i requires 0 <= i < |mid| => Abs(d[i]))
  }

  function SignColumn(mid: seq<real>): (c: seq<real>)
    ensures |c| == |mid|
  {
    var d := Diff(mid);
    seq(|mid|, i requires 0 <= i < |mid| => Sign(d[i]))
  }

  /** The rises, and the falls as positive numbers. */
  function Gain(mid: seq<real>): (c: seq<real>)
    ensures |c| == |mid|
  {
    var d := Diff(mid);
    seq(|mid|, i requires 0 <= i < |mid| => if d[i] > 0.0 then d[i] else 0.0)
  }

  function Loss(mid: seq<real>): (c: seq<real>)
    ensures |c| == |mid|
  {
    var d := Diff(mid);
    seq(|mid|, i requires 0 <= i < |mid| => if d[i] < 0.0 then -d[i] else 0.0)
  }

  /** The last `size` values up to and including position `i`; fewer at the start. */
  function Window(x: seq<real>, size: nat, i: nat): (w: seq<real>)
    requires i < |x| && size >= 1
    ensures |w| >= 1
  {
    x[if i + 1 < size then 0 else i + 1 - size..i + 1]
  }

  /** rolling(size, min_periods=1).mean() */
  function RollingMean(x: seq<real>, size: nat, i: nat): real
    requires i < |x| && size >= 1
  {
    Sum(Window(x, size, i)) / |Window(x, size, i)| as real
  }

  function RsiOf(gain: real, loss: real): real
    requires gain >= 0.0 && loss >= 0.0
  {
    100.0 - 100.0 / (1.0 + gain / (loss + EPSILON))
  }

  lemma {:induction false} SumNonNegative(x: seq<real>)
    requires forall i :: 0 <= i < |x| ==> x[i] >= 0.0
    ensures Sum(x) >= 0.0
    ensures Sum(x) == 0.0 <==> forall i :: 0 <= i < |x| ==> x[i] == 0.0
  {
    if x != [] {
      SumNonNegative(x[..|x| - 1]);
    }
  }

  lemma {:induction false} Quotient(a: real, n: nat)
    requires a >= 0.0 && n >= 1
    ensures a / n as real >= 0.0 && (a / n as real == 0.0 <==> a == 0.0)
  {
  }

  lemma {:induction false} MeanNonNegative(x: seq<real>, size: nat, i: nat)
    requires i < |x| && size >= 1 && forall j :: 0 <= j < |x| ==> x[j] >= 0.0
    ensures RollingMean(x, size, i) >= 0.0
    ensures RollingMean(x, size, i) == 0.0 <==> forall j :: i - size < j <= i && 0 <= j ==> x[j] == 0.0
  {
    var w := Window(x, size, i);
    SumNonNegative(w);
    Quotient(Sum(w), |w|);
    var from := if i + 1 < size then 0 else i + 1 - size;
    if Sum(w) == 0.0 {
      forall j | from <= j <= i
        ensures x[j] == 0.0
      {
        assert x[j] == w[j - from];
      }
    }
  }

  function RsiColumn(mid: seq<real>): (c: seq<real>)
    ensures |c| == |mid|
  {
    seq(|mid|, i requires 0 <= i < |mid| =>
      MeanNonNegative(Gain(mid), RSI_WINDOW, i);
      MeanNonNegative(Loss(mid), RSI_WINDOW, i);
      RsiOf(RollingMean(Gain(mid), RSI_WINDOW, i), RollingMean(Loss(mid), RSI_WINDOW, i)))
  }

  /** What the price columns mean: the path column adds up to the path variation of every prefix,
      a sign and its path give back the price step, and the RSI is in [0, 100). */
  ghost predicate Describes(mid: seq<real>, sign: seq<real>, path: seq<real>, rsi: seq<real>) {
    && |sign| == |path| == |rsi| == |mid|
    && (forall n :: 0 <= n <= |mid| ==> Sum(path[..n]) == Variation(mid[..n]))
    && (forall i, j :: 0 <= i && j == i + 1 && j < |mid| ==> path[j] >= 0.0 && sign[j] * path[j] == mid[j] - mid[i])
    && (mid != [] ==> sign[0] == path[0] == 0.0)
    && (forall i :: 0 <= i < |mid| ==> 0.0 <= rsi[i] < 100.0)
  }

  /** The tick table: `volumes` is Some when both volume columns are there. */
  class TickTable {
    const times: seq<int>
    const mid: seq<real>
    const volumes: Option<(seq<real>, seq<real>)>
    var netTickVolume: seq<real>
    var tradeSign: seq<real>
    var pathVariation: seq<real>
    var microRsi: seq<real>

    constructor (times: seq<int>, mid: seq<real>, volumes: Option<(seq<real>, seq<real>)>)
      ensures this.times == times && this.mid == mid && this.volumes == volumes
    {
      this.times, this.mid, this.volumes := times, mid, volumes;
      netTickVolume, tradeSign, pathVariation, microRsi := [], [], [], [];
    }

    /** calculate_tick_micro_features: one column after another. */
    method AddFeatures()
      requires volumes.Some? ==> |volumes.value.0| == |mid| && |volumes.value.1| == |mid|
      modifies this
      ensures Describes(mid, tradeSign, pathVariation, microRsi)
      ensures pathVariation == PathColumn(mid) && microRsi == RsiColumn(mid)
      ensures |netTickVolume| == |mid|
      ensures forall i :: 0 <= i < |mid| ==>
                if volumes.Some? then netTickVolume[i] + volumes.value.1[i] == volumes.value.0[i]
                else netTickVolume[i] == 0.0
    {
      netTickVolume := [];
      for i := 0 to |mid|
        invariant |netTickVolume| == i
        invariant forall j :: 0 <= j < i ==>
                    if volumes.Some? then netTickVolume[j] + volumes.value.1[j] == volumes.value.0[j]
                    else netTickVolume[j] == 0.0
      {
        netTickVolume := netTickVolume + [if volumes.Some? then volumes.value.0[i] - volumes.value.1[i] else 0.0];
      }
      tradeSign, pathVariation := PriceSteps(mid);
      microRsi := MicroRsi(mid);
      ColumnsDescribe(mid);
    }
  }

  method PriceSteps(mid: seq<real>) returns (sign: seq<real>, path: seq<real>)
    ensures sign == SignColumn(mid) && path == PathColumn(mid)
  {
    sign, path := [], [];
    for i := 0 to |mid|
      invariant sign == SignColumn(mid)[..i] && path == PathColumn(mid)[..i]
    {
      var step := if i == 0 then 0.0 else mid[i] - mid[i - 1];
      sign := sign + [Sign(step)];
      path := path + [Abs(step)];
    }
  }

  method MicroRsi(mid: seq<real>) returns (rsi: seq<real>)
    ensures rsi == RsiColumn(mid)
  {
    var gain, loss: seq<real> := [], [];
    for i := 0 to |mid|
      invariant gain == Gain(mid)[..i] && loss == Loss(mid)[..i]
    {
      var step := if i == 0 then 0.0 else mid[i] - mid[i - 1];
      gain := gain + [if step > 0.0 then step else 0.0];
      loss := loss + [if step < 0.0 then -step else 0.0];
    }
    assert gain == Gain(mid) && loss == Loss(mid);
    hide RollingMean, RsiOf, Gain, Loss;
    rsi := [];
    for i := 0 to |mid|
      invariant rsi == RsiColumn(mid)[..i]
    {
      RsiInputs(mid, i);
      rsi := rsi + [RsiOf(RollingMean(gain, RSI_WINDOW, i), RollingMean(loss, RSI_WINDOW, i))];
    }
  }

  lemma {:induction false} RsiInputs(mid: seq<real>, i: nat)
    requires i < |mid|
    ensures RollingMean(Gain(mid), RSI_WINDOW, i) >= 0.0 && RollingMean(Loss(mid), RSI_WINDOW, i) >= 0.0
  {
    MeanNonNegative(Gain(mid), RSI_WINDOW, i);
    MeanNonNegative(Loss(mid), RSI_WINDOW, i);
  }

  lemma {:induction false} ColumnsDescribe(mid: seq<real>)
    ensures Describes(mid, SignColumn(mid), PathColumn(mid), RsiColumn(mid))
  {
    forall n | 0 <= n <= |mid|
      ensures Sum(PathColumn(mid)[..n]) == Variation(mid[..n])
    {
      SumOfPath(mid, n);
    }
    forall i | 0 <= i < |mid|
      ensures 0.0 <= RsiColumn(mid)[i] < 100.0
    {
      RsiZeroIff(mid, i);
    }
  }

  // ---------------------------------------------------------------- path variation

  lemma {:induction false} SumOfPath(mid: seq<real>, n: nat)
    requires n <= |mid|
    ensures Sum(PathColumn(mid)[..n]) == Variation(mid[..n])
  {
    if n > 0 {
      SumOfPath(mid, n - 1);
      SumLast(PathColumn(mid), 0, n);
      if n > 1 {
        VariationLast(mid, 0, n);
      }
    }
  }

  lemma {:induction false} SumLast(x: seq<real>, a: nat, b: nat)
    requires a < b <= |x|
    ensures Sum(x[a..b]) == Sum(x[a..b - 1]) + x[b - 1]
  {
    assert x[a..b][..b - a - 1] == x[a..b - 1];
  }

  lemma {:induction false} VariationLast(x: seq<real>, a: nat, b: nat)
    requires a + 1 < b <= |x|
    ensures Variation(x[a..b]) == Variation(x[a..b - 1]) + Abs(x[b - 1] - x[b - 2])
  {
    assert x[a..b][..b - a - 1] == x[a..b - 1];
  }

  /** The step into position `at` from the tick before it. */
  function Jump(mid: seq<real>, at: nat): real
    requires at < |mid|
  {
    if at == 0 then 0.0 else Abs(mid[at] - mid[at - 1])
  }

  /** Over a slice the column adds up to the slice's own variation plus the jump into it. */
  lemma {:induction false} SlicePath(mid: seq<real>, a: nat, b: nat)
    requires a < b <= |mid|
    ensures Sum(PathColumn(mid)[a..b]) == Variation(mid[a..b]) + Jump(mid, a)
    decreases b
  {
    SumLast(PathColumn(mid), a, b);
    if a + 1 < b {
      SlicePath(mid, a, b - 1);
      VariationLast(mid, a, b);
    } else {
      assert PathColumn(mid)[a..b - 1] == [];
    }
  }

  // ---------------------------------------------------------------- the bins

  /** MAIN: added over all bins, the universal path variation is the path variation of the
      whole tick series. */
  lemma {:induction false} PathConserved(times: seq<int>, mid: seq<real>, width: int)
    requires width >= 1 && |times| == |mid| && NonDecreasing(times)
    ensures Sum(Totals(Resampled(times, PathColumn(mid), width))) == Variation(mid)
  {
    ColumnConserved(times, PathColumn(mid), width);
    SumOfPath(mid, |mid|);
    assert mid[..|mid|] == mid && PathColumn(mid)[..|mid|] == PathColumn(mid);
  }

  /** Every tick is counted in exactly one bin. */
  lemma {:induction false} CountConserved(times: seq<int>, mid: seq<real>, width: int)
    requires width >= 1 && |times| == |mid| && NonDecreasing(times)
    ensures Concat(Resampled(times, mid, width)) == mid
    ensures SumNat(Counts(Resampled(times, mid, width))) == |mid|
  {
    BinsCover(times, width);
    BinsPartition(mid, WindowKeys(times, width), FirstBin(times, width), EndBin(times, width));
    CountOfCounts(Resampled(times, mid, width));
  }

  lemma {:induction false} GroupPath(keys: seq<int>, mid: seq<real>, k: int, own: seq<real>)
    requires |keys| == |mid| && NonDecreasing(keys) && own == Select(mid, keys, k)
    ensures var at := Below(keys, k);
            && (own != [] ==> at < |mid| && own[0] == mid[at])
            && Sum(Select(PathColumn(mid), keys, k)) == Variation(own) + (if own == [] then 0.0 else Jump(mid, at))
  {
    hide PathColumn, Jump, Select;
    SelectIsSlice(mid, keys, k);
    SelectIsSlice(PathColumn(mid), keys, k);
    if Below(keys, k) < Below(keys, k + 1) {
      hide Sum, Variation;
      SlicePath(mid, Below(keys, k), Below(keys, k + 1));
    }
  }

  /** MAIN: in every bin the universal value is the within-bin path variation plus the jump
      from the previous tick into the bin; an empty bin has neither. */
  lemma {:induction false} BinPath(times: seq<int>, mid: seq<real>, width: int, b: nat)
    requires width >= 1 && |times| == |mid| && NonDecreasing(times)
    requires b < |Resampled(times, mid, width)|
    ensures var at := Below(WindowKeys(times, width), FirstBin(times, width) + b);
            var own := Resampled(times, mid, width)[b];
            && (own != [] ==> at < |mid| && own[0] == mid[at])
            && b < |Resampled(times, PathColumn(mid), width)|
            && Sum(Resampled(times, PathColumn(mid), width)[b]) ==
                 Variation(own) + (if own == [] then 0.0 else Jump(mid, at))
  {
    hide Sum, Variation, Jump, PathColumn, Select, Below;
    BinsCover(times, width);
    GroupPath(WindowKeys(times, width), mid, FirstBin(times, width) + b, Resampled(times, mid, width)[b]);
  }

  // ---------------------------------------------------------------- the as-of join with the bins

  /** The `time` column of the resampled table: the left edges of the bins. */
  function Labels(times: seq<int>, width: int): (l: seq<int>)
    requires width >= 1 && NonDecreasing(times)
    ensures |l| == EndBin(times, width) - FirstBin(times, width)
  {
    BinsCover(times, width);
    seq(EndBin(times, width) - FirstBin(times, width), b => (FirstBin(times, width) + b) * width)
  }

  lemma {:induction false} WindowOf(t: int, k: int, width: int)
    requires width >= 1
    ensures k * width <= t <==> k <= t / width
  {
    MultiplesApart(t / width, k, width);
    MultiplesApart(k, t / width, width);
  }

  /** A bar inside the tick range is joined with the bin of its own window. */
  lemma {:induction false} JoinedBin(times: seq<int>, width: int, t: int, m: Match)
    requires width >= 1 && NonDecreasing(times) && times != []
    requires LatestAtOrBefore(Labels(times, width), t, m)
    ensures m == if t / width < FirstBin(times, width) then Unmatched
                 else if t / width < EndBin(times, width) then Row(t / width - FirstBin(times, width))
                 else Row(|Labels(times, width)| - 1)
  {
    BinsCover(times, width);
    var l, first := Labels(times, width), FirstBin(times, width);
    forall b | 0 <= b < |l|
      ensures l[b] <= t <==> first + b <= t / width
    {
      WindowOf(t, first + b, width);
    }
    var own := if t / width < first then Unmatched
               else if t / width < EndBin(times, width) then Row(t / width - first)
               else Row(|l| - 1);
    assert LatestAtOrBefore(l, t, own);
    LatestIsUnique(l, t, m, own);
  }

  lemma {:induction false} WindowEdges(t: int, width: int)
    requires width >= 1
    ensures t / width * width <= t < t / width * width + width
    ensures t % width == 0 ==> t == t / width * width
  {
  }

  lemma {:induction false} SelectedKey(times: seq<int>, width: int, k: int)
    requires width >= 1
    ensures forall i :: 0 <= i < |Select(times, WindowKeys(times, width), k)|
              ==> Select(times, WindowKeys(times, width), k)[i] / width == k
  {
    if times != [] {
      SelectedKey(times[..|times| - 1], width, k);
      assert WindowKeys(times, width)[..|times| - 1] == WindowKeys(times[..|times| - 1], width);
    }
  }

  lemma {:induction false} OwnWindow(t: int, k: int, width: int)
    requires width >= 1
    ensures t / width == k <==> k * width <= t < k * width + width
  {
    WindowOf(t, k, width);
    WindowOf(t, k + 1, width);
    assert (k + 1) * width == k * width + width;
  }

  /** The ticks of a window are those between its edges. */
  lemma {:induction false} WindowMembers(times: seq<int>, width: int, k: int, edge: int, e: int)
    requires width >= 1 && edge == k * width
    ensures e in Select(times, WindowKeys(times, width), k) <==> e in times && edge <= e < edge + width
  {
    if times != [] {
      var n := |times| - 1;
      WindowMembers(times[..n], width, k, edge, e);
      assert WindowKeys(times, width)[..n] == WindowKeys(times[..n], width);
      assert times == times[..n] + [times[n]];
      OwnWindow(times[n], k, width);
    }
  }

  /** MAIN: the join labels a bin by its left edge, so a bar at `t` is given its own window. It
      sees no later tick if and only if none comes strictly between the bar and the end of that
      window. */
  lemma {:induction false} SeesNothingLaterIff(times: seq<int>, width: int, t: int, b: nat)
    requires width >= 1 && NonDecreasing(times) && times != [] && t / width < EndBin(times, width)
    requires LatestAtOrBefore(Labels(times, width), t, Row(b))
    ensures b < |Resampled(times, times, width)|
    ensures (forall i :: 0 <= i < |Resampled(times, times, width)[b]| ==> Resampled(times, times, width)[b][i] <= t)
            <==> forall j :: 0 <= j < |times| ==> !(t < times[j] < (t / width + 1) * width)
  {
    JoinedBin(times, width, t, Row(b));
    hide Labels, Select, Below, WindowKeys, EndBin, NonDecreasing, LatestAtOrBefore;
    var edge := t / width * width;
    WindowSeesIff(times, width, t, edge, Resampled(times, times, width)[b]);
    NextEdge(t, width);
  }

  lemma {:induction false} NextEdge(t: int, width: int)
    requires width >= 1
    ensures (t / width + 1) * width == t / width * width + width
  {
  }

  lemma {:induction false} WindowSeesIff(times: seq<int>, width: int, t: int, edge: int, own: seq<int>)
    requires width >= 1 && edge == t / width * width && own == Select(times, WindowKeys(times, width), t / width)
    ensures (forall i :: 0 <= i < |own| ==> own[i] <= t)
            <==> forall j :: 0 <= j < |times| ==> !(t < times[j] < edge + width)
  {
    hide Select, WindowKeys;
    var k := t / width;
    WindowEdges(t, width);
    if forall j :: 0 <= j < |times| ==> !(t < times[j] < edge + width) {
      forall i | 0 <= i < |own|
        ensures own[i] <= t
      {
        WindowMembers(times, width, k, edge, own[i]);
      }
    }
    if forall i :: 0 <= i < |own| ==> own[i] <= t {
      forall j | 0 <= j < |times|
        ensures !(t < times[j] < edge + width)
      {
        WindowMembers(times, width, k, edge, times[j]);
      }
    }
  }

  /** A bar on a bin edge is given only ticks from that edge on. */
  lemma {:induction false} BarSeesWhatFollows(times: seq<int>, width: int, t: int, b: nat)
    requires width >= 1 && NonDecreasing(times) && times != [] && t % width == 0
    requires LatestAtOrBefore(Labels(times, width), t, Row(b)) && t / width < EndBin(times, width)
    ensures b < |Resampled(times, times, width)|
    ensures forall i :: 0 <= i < |Resampled(times, times, width)[b]|
              ==> t <= Resampled(times, times, width)[b][i] < t + width
  {
    JoinedBin(times, width, t, Row(b));
    hide Labels, Select, WindowKeys, Below;
    var k := t / width;
    SelectedKey(times, width, k);
    var own := Resampled(times, times, width)[b];
    forall i | 0 <= i < |own|
      ensures t <= own[i] < t + width
    {
      assert own[i] / width == k;
      WindowEdges(own[i], width);
      WindowEdges(t, width);
    }
  }

  // ---------------------------------------------------------------- the RSI column

  /** Rises and falls split the path, and their difference is the net move. */
  lemma {:induction false} GainLoss(mid: seq<real>, a: nat, b: nat)
    requires 0 < a <= b <= |mid|
    ensures Sum(Gain(mid)[a..b]) + Sum(Loss(mid)[a..b]) == Sum(PathColumn(mid)[a..b])
    ensures Sum(Gain(mid)[a..b]) - Sum(Loss(mid)[a..b]) == mid[b - 1] - mid[a - 1]
    decreases b
  {
    if a < b {
      GainLoss(mid, a, b - 1);
      SumLast(Gain(mid), a, b);
      SumLast(Loss(mid), a, b);
      SumLast(PathColumn(mid), a, b);
    }
  }

  lemma {:induction false} RsiBounds(gain: real, loss: real)
    requires gain >= 0.0 && loss >= 0.0
    ensures 0.0 <= RsiOf(gain, loss) < 100.0
    ensures RsiOf(gain, loss) == 0.0 <==> gain == 0.0
  {
    var rs := gain / (loss + EPSILON);
    assert rs >= 0.0 && (rs == 0.0 <==> gain == 0.0);
    var part := 100.0 / (1.0 + rs);
    assert part * (1.0 + rs) == 100.0;
    assert part > 0.0 && part <= 100.0;
    assert part == 100.0 <==> rs == 0.0;
  }

  /** The RSI stays in [0, 100), and is 0 exactly when none of the last 14 steps was a rise.
      So the first tick and a flat market get 0, and filling gaps with the neutral 50 never
      happens. */
  lemma {:induction false} RsiZeroIff(mid: seq<real>, i: nat)
    requires i < |mid|
    ensures 0.0 <= RsiColumn(mid)[i] < 100.0
    ensures RsiColumn(mid)[i] == 0.0 <==> forall j :: i - RSI_WINDOW < j <= i && 0 < j ==> mid[j] <= mid[j - 1]
  {
    var gain, loss := Gain(mid), Loss(mid);
    MeanNonNegative(gain, RSI_WINDOW, i);
    MeanNonNegative(loss, RSI_WINDOW, i);
    RsiBounds(RollingMean(gain, RSI_WINDOW, i), RollingMean(loss, RSI_WINDOW, i));
    assert forall j :: 0 < j < |mid| ==> (gain[j] == 0.0 <==> mid[j] <= mid[j - 1]);
  }

  lemma {:induction false} RsiValue(gain: real, loss: real)
    requires gain >= 0.0 && loss >= 0.0
    ensures RsiOf(gain, loss) * (gain + loss + 0.00000001) == 100.0 * gain
  {
    var d := loss + 0.00000001;
    var q := gain / d;
    assert q * d == gain && q >= 0.0;
    var part := 100.0 / (1.0 + q);
    assert part * (1.0 + q) == 100.0;
    Regroup(part, 1.0 + q, d);
    assert (1.0 + q) * d == gain + d;
    assert part * (gain + d) == 100.0 * d;
  }

  lemma {:induction false} Regroup(a: real, b: real, c: real)
    ensures (a * b) * c == a * (b * c)
  {
  }

  /** The path column without a slice's first step is the slice's own variation. */
  lemma {:induction false} StepsPath(mid: seq<real>, a: nat, b: nat)
    requires a < b <= |mid|
    ensures Sum(PathColumn(mid)[a + 1..b]) == Variation(mid[a..b])
  {
    hide PathColumn, Variation;
    var path := PathColumn(mid);
    SlicePath(mid, a, b);
    SumJoin(path[a..a + 1], path[a + 1..b]);
    assert path[a..a + 1] + path[a + 1..b] == path[a..b];
    OneStep(mid, a);
  }

  lemma {:induction false} OneStep(mid: seq<real>, a: nat)
    requires a < |mid|
    ensures Sum(PathColumn(mid)[a..a + 1]) == Jump(mid, a)
  {
    SumLast(PathColumn(mid), a, a + 1);
    assert PathColumn(mid)[a..a] == [];
  }

  /** Where the price path of the RSI at tick `i` begins: the last 14 steps lead from there. */
  function PathStart(i: nat): nat {
    if i < 14 then 0 else i - 14
  }

  /** The rises and falls of the last 14 steps. */
  lemma {:induction false} WindowGainLoss(mid: seq<real>, i: nat)
    requires i < |mid|
    ensures var path := mid[PathStart(i)..i + 1];
            var gain, loss := Sum(Window(Gain(mid), RSI_WINDOW, i)), Sum(Window(Loss(mid), RSI_WINDOW, i));
            gain + loss == Variation(path) && gain - loss == mid[i] - mid[PathStart(i)]
  {
    hide Gain, Loss, PathColumn, Variation;
    var a := PathStart(i);
    StepsPath(mid, a, i + 1);
    GainLoss(mid, a + 1, i + 1);
    if i < 14 {
      NoFirstStep(mid);
      SumJoin(Gain(mid)[..1], Gain(mid)[1..i + 1]);
      SumJoin(Loss(mid)[..1], Loss(mid)[1..i + 1]);
      assert Gain(mid)[..1] + Gain(mid)[1..i + 1] == Gain(mid)[..i + 1];
      assert Loss(mid)[..1] + Loss(mid)[1..i + 1] == Loss(mid)[..i + 1];
    }
  }

  lemma {:induction false} NoFirstStep(mid: seq<real>)
    requires mid != []
    ensures Sum(Gain(mid)[..1]) == 0.0 && Sum(Loss(mid)[..1]) == 0.0
  {
    assert Gain(mid)[..1] == [0.0] && Loss(mid)[..1] == [0.0];
    assert [0.0][..0] == [];
  }

  /** MAIN: the RSI by the price path alone: with the variation and the net move of the last 14
      steps (fewer at the start), rsi * (variation + n * 1e-8) = 50 * (variation + move). */
  lemma {:induction false} RsiOfPath(mid: seq<real>, i: nat)
    requires i < |mid|
    ensures var path := mid[PathStart(i)..i + 1];
            var n := (if i < 14 then i + 1 else 14) as real;
            RsiColumn(mid)[i] * (Variation(path) + n * 0.00000001)
            == 50.0 * (Variation(path) + (mid[i] - mid[PathStart(i)]))
  {
    hide Gain, Loss, Variation, RsiOf;
    WindowGainLoss(mid, i);
    RsiInputs(mid, i);
    var wins, losses := Sum(Window(Gain(mid), RSI_WINDOW, i)), Sum(Window(Loss(mid), RSI_WINDOW, i));
    var n := |Window(Gain(mid), RSI_WINDOW, i)| as real;
    var gain, loss := RollingMean(Gain(mid), RSI_WINDOW, i), RollingMean(Loss(mid), RSI_WINDOW, i);
    assert RsiColumn(mid)[i] == RsiOf(gain, loss);
    RsiValue(gain, loss);
    MeanTimes(wins, n);
    MeanTimes(losses, n);
    Scale(RsiOf(gain, loss), gain, loss, n);
  }

  lemma {:induction false} MeanTimes(sum: real, n: real)
    requires n != 0.0
    ensures (sum / n) * n == sum
  {
  }

  lemma {:induction false} Scale(rsi: real, gain: real, loss: real, n: real)
    requires rsi * (gain + loss + 0.00000001) == 100.0 * gain
    ensures rsi * (gain * n + loss * n + n * 0.00000001) == 100.0 * (gain * n)
  {
    Regroup(rsi, gain + loss + 0.00000001, n);
    assert (gain + loss + 0.00000001) * n == gain * n + loss * n + n * 0.00000001;
    Regroup(100.0, gain, n);
  }

  /** The RSI is above 50 exactly when the price has risen over the last 14 steps, by more than
      1e-8 a step. */
  lemma {:induction false} RsiAboveIff(mid: seq<real>, i: nat)
    requires i < |mid|
    ensures RsiColumn(mid)[i] > 50.0
            <==> mid[i] - mid[PathStart(i)] > (if i < 14 then i + 1 else 14) as real * 0.00000001
  {
    hide RsiColumn, Variation;
    var path := mid[PathStart(i)..i + 1];
    var n := (if i < 14 then i + 1 else 14) as real;
    RsiOfPath(mid, i);
    VariationNonNegative(path);
    Above(RsiColumn(mid)[i], Variation(path) + n * 0.00000001, Variation(path) + (mid[i] - mid[PathStart(i)]));
  }

  lemma {:induction false} Above(rsi: real, total: real, up: real)
    requires rsi * total == 50.0 * up && total > 0.0
    ensures rsi > 50.0 <==> up > total
  {
    var over := rsi - 50.0;
    assert over * total == 50.0 * (up - total);
    assert over > 0.0 ==> over * total > 0.0;
    assert over <= 0.0 ==> over * total <= 0.0;
  }

  lemma {:induction false} VariationNonNegative(x: seq<real>)
    ensures Variation(x) >= 0.0
  {
    if |x| > 1 {
      VariationNonNegative(x[..|x| - 1]);
    }
  }
}
