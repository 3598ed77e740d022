/** The order book smoothing and the trailing level that verification_scripts/verify_dtlc.py
    drives, tick by tick, on the service object. */
module LiquidityZones {

  const ALPHA := 0.15
  const SMALLEST_ZONE := 5000.0
  const SIGNIFICANT := 0.1
  const TRAIL := 0.985
  const CATCH_UP := 0.1

  type Level = (real, real)

  /** One order book tick: levels of price and volume, the reference volumes and the price. */
  datatype Tick = Tick(asks: seq<Level>, bids: seq<Level>, maxAsk: real, maxBid: real, price: real)

  /** `listed` is the tick's keys_to_remove. */
  datatype State = State(zones: map<real, real>, listed: set<real>, trail: real)

  const INITIAL := State(map[], {}, 0.0)

  /** The significant levels of one side; a later level at the same price replaces an earlier. */
  function Significant(levels: seq<Level>, limit: real, into: map<real, real>): map<real, real> {
    if levels == [] then into
    else
      var before, last := Significant(levels[..|levels| - 1], limit, into), levels[|levels| - 1];
      if last.1 > limit then before[last.0 := last.1] else before
  }

  /** current_volumes */
  function Current(t: Tick): map<real, real> {
    Significant(t.bids, t.maxBid * SIGNIFICANT, Significant(t.asks, t.maxAsk * SIGNIFICANT, map[]))
  }

  /** The zone at `p` after a tick. */
  function Smoothed(zones: map<real, real>, current: map<real, real>, p: real): real
    requires p in zones || p in current
  {
    if p !in current then zones[p] * (1.0 - ALPHA)
    else if p in zones then current[p] * ALPHA + zones[p] * (1.0 - ALPHA)
    else current[p]
  }

  function Smooth(zones: map<real, real>, current: map<real, real>): map<real, real> {
    map p | p in zones.Keys + current.Keys :: Smoothed(zones, current, p)
  }

  function Listed(zones: map<real, real>, current: map<real, real>): set<real> {
    set p | p in zones && p !in current && Smoothed(zones, current, p) < SMALLEST_ZONE
  }

  function Target(price: real): real {
    price * TRAIL
  }

  function CaughtUp(trail: real, price: real): real {
    if trail == 0.0 || Target(price) > trail then trail + (Target(price) - trail) * CATCH_UP else trail
  }

  function NextTrail(trail: real, price: real): real {
    if price < CaughtUp(trail, price) then Target(price) else CaughtUp(trail, price)
  }

  /** One tick. The script lists the faded zones and keeps them; the service's own loop also
      deletes them (`prune`). */
  function Step(s: State, t: Tick, prune: bool): State {
    var current := Current(t);
    var listed := Listed(s.zones, current);
    var zones := Smooth(s.zones, current);
    State(if prune then zones - listed else zones, listed, NextTrail(s.trail, t.price))
  }

  function RunFrom(s: State, ticks: seq<Tick>, prune: bool): State {
    if ticks == [] then s else Step(RunFrom(s, ticks[..|ticks| - 1], prune), ticks[|ticks| - 1], prune)
  }

  lemma {:induction false} Inhabited(prices: set<real>)
    ensures prices != {} ==> exists p :: p in prices
  {
    assert (forall p :: p !in prices) ==> prices == {};
  }

  /** Blending the present zones and fading the absent ones is what a tick does to the zones. */
  lemma {:induction false} SmoothedBySteps(before: map<real, real>, current: map<real, real>, after: map<real, real>,
                                           listed: set<real>)
    requires after.Keys == before.Keys + current.Keys
    requires forall p :: p in after ==>
               after[p] == if p in current then Smoothed(before, current, p) else before[p] * (1.0 - ALPHA)
    requires listed == set p | p in before.Keys - current.Keys && after[p] < SMALLEST_ZONE
    ensures after == Smooth(before, current) && listed == Listed(before, current)
  {
  }

  /** The fields of the service object that the ticks update. */
  class LiquidityService {
    var smoothedZones: map<real, real>
    var trailingLong: real
    var keysToRemove: set<real>

    constructor ()
      ensures Now() == INITIAL
    {
      smoothedZones, trailingLong, keysToRemove := map[], 0.0, {};
    }

    function Now(): State
      reads this
    {
      State(smoothedZones, keysToRemove, trailingLong)
    }

    method Observe(t: Tick, prune: bool)
      modifies this
      ensures Now() == Step(old(Now()), t, prune)
    {
      hide Significant, NextTrail, Smoothed, Listed, Smooth;
      ghost var before := smoothedZones;
      var asks := Gather(t.asks, t.maxAsk * SIGNIFICANT, map[]);
      var current := Gather(t.bids, t.maxBid * SIGNIFICANT, asks);
      Blend(current);
      Fade(current, before.Keys - current.Keys);
      SmoothedBySteps(before, current, smoothedZones, keysToRemove);
      if prune {
        smoothedZones := smoothedZones - keysToRemove;
      }
      Trail(t.price);
    }

    static method Gather(levels: seq<Level>, limit: real, into: map<real, real>) returns (volumes: map<real, real>)
      ensures volumes == Significant(levels, limit, into)
    {
      volumes := into;
      for i := 0 to |levels|
        invariant volumes == Significant(levels[..i], limit, into)
      {
        assert levels[..i + 1][..i] == levels[..i];
        if levels[i].1 > limit {
          volumes := volumes[levels[i].0 := levels[i].1];
        }
      }
      assert levels[..|levels|] == levels;
    }

    /** The loop over the current volumes. */
    method Blend(current: map<real, real>)
      modifies `smoothedZones
      ensures smoothedZones.Keys == old(smoothedZones).Keys + current.Keys
      ensures forall p :: p in smoothedZones ==>
                smoothedZones[p] ==
                  if p in current then Smoothed(old(smoothedZones), current, p) else old(smoothedZones)[p]
    {
      var todo := current.Keys;
      while todo != {}
        invariant todo <= current.Keys
        invariant smoothedZones.Keys == old(smoothedZones).Keys + (current.Keys - todo)
        invariant forall p :: p in smoothedZones ==>
                    smoothedZones[p] == if p in current && p !in todo then Smoothed(old(smoothedZones), current, p)
                                        else old(smoothedZones)[p]
        decreases todo
      {
        Inhabited(todo);
        var p :| p in todo;
        if p in smoothedZones {
          smoothedZones := smoothedZones[p := current[p] * ALPHA + smoothedZones[p] * (1.0 - ALPHA)];
        } else {
          smoothedZones := smoothedZones[p := current[p]];
        }
        todo := todo - {p};
      }
    }

    /** The loop over the zones that are absent from the current volumes. */
    method Fade(current: map<real, real>, ghost absent: set<real>)
      requires absent == smoothedZones.Keys - current.Keys
      modifies `smoothedZones, `keysToRemove
      ensures smoothedZones.Keys == old(smoothedZones).Keys
      ensures forall p :: p in smoothedZones ==>
                smoothedZones[p] == if p in absent then old(smoothedZones)[p] * (1.0 - ALPHA) else old(smoothedZones)[p]
      ensures keysToRemove == set p | p in absent && smoothedZones[p] < SMALLEST_ZONE
    {
      keysToRemove := {};
      var todo := smoothedZones.Keys;
      while todo != {}
        invariant todo <= smoothedZones.Keys == old(smoothedZones).Keys
        invariant forall p :: p in smoothedZones ==>
                    smoothedZones[p] == if p in absent && p !in todo then old(smoothedZones)[p] * (1.0 - ALPHA)
                                        else old(smoothedZones)[p]
        invariant keysToRemove == set p | p in absent && p !in todo && smoothedZones[p] < SMALLEST_ZONE
        decreases todo
      {
        Inhabited(todo);
        var p :| p in todo;
        if p !in current {
          smoothedZones := smoothedZones[p := smoothedZones[p] * (1.0 - ALPHA)];
          if smoothedZones[p] < SMALLEST_ZONE {
            keysToRemove := keysToRemove + {p};
          }
        }
        todo := todo - {p};
      }
    }

    method Trail(price: real)
      modifies `trailingLong
      ensures trailingLong == NextTrail(old(trailingLong), price)
    {
      var target := price * TRAIL;
      if trailingLong == 0.0 || target > trailingLong {
        trailingLong := trailingLong + (target - trailingLong) * CATCH_UP;
      }
      if price < trailingLong {
        trailingLong := target;
      }
    }
  }

  // ---------------------------------------------------------------- the significant levels

  /** Level `i` is the last one at price `p` with more than `limit`. */
  predicate LastAbove(levels: seq<Level>, limit: real, p: real, i: int) {
    && 0 <= i < |levels| && levels[i].0 == p && levels[i].1 > limit
    && forall j :: i < j < |levels| ==> levels[j].0 != p || levels[j].1 <= limit
  }

  predicate NoneAbove(levels: seq<Level>, limit: real, p: real) {
    forall i :: 0 <= i < |levels| ==> levels[i].0 != p || levels[i].1 <= limit
  }

  lemma {:induction false} SignificantIff(levels: seq<Level>, limit: real, into: map<real, real>, p: real, v: real)
    ensures var volumes := Significant(levels, limit, into);
            (p in volumes && volumes[p] == v) <==>
              || (exists i :: LastAbove(levels, limit, p, i) && levels[i].1 == v)
              || (NoneAbove(levels, limit, p) && p in into && into[p] == v)
  {
    if levels != [] {
      var n := |levels| - 1;
      SignificantIff(levels[..n], limit, into, p, v);
      LastAboveSnoc(levels, limit, p);
    }
  }

  lemma {:induction false} LastAboveSnoc(levels: seq<Level>, limit: real, p: real)
    requires levels != []
    ensures var n := |levels| - 1;
            if levels[n].0 == p && levels[n].1 > limit then
              !NoneAbove(levels, limit, p) && forall i :: LastAbove(levels, limit, p, i) <==> i == n
            else
              && (NoneAbove(levels, limit, p) <==> NoneAbove(levels[..n], limit, p))
              && forall i :: LastAbove(levels, limit, p, i) <==> LastAbove(levels[..n], limit, p, i)
  {
    var n := |levels| - 1;
    assert forall i :: 0 <= i < n ==> levels[..n][i] == levels[i];
    if !(levels[n].0 == p && levels[n].1 > limit) {
      forall i
        ensures LastAbove(levels, limit, p, i) <==> LastAbove(levels[..n], limit, p, i)
      {
      }
    }
  }

  /** MAIN: a tick counts a price with the volume `v` exactly when `v` is the last bid there with
      more than a tenth of the largest bid, or there is none and `v` is the last such ask. */
  lemma {:induction false} CurrentIff(t: Tick, p: real, v: real)
    ensures (p in Current(t) && Current(t)[p] == v) <==>
              || (exists i :: LastAbove(t.bids, t.maxBid * 0.1, p, i) && t.bids[i].1 == v)
              || (NoneAbove(t.bids, t.maxBid * 0.1, p)
                  && exists i :: LastAbove(t.asks, t.maxAsk * 0.1, p, i) && t.asks[i].1 == v)
  {
    hide Significant, LastAbove, NoneAbove;
    SignificantIff(t.asks, t.maxAsk * 0.1, map[], p, v);
    SignificantIff(t.bids, t.maxBid * 0.1, Significant(t.asks, t.maxAsk * 0.1, map[]), p, v);
  }

  // ---------------------------------------------------------------- the zones' range

  /** No volume is negative, and none at price `p` exceeds `most`. */
  predicate LevelsWithin(levels: seq<Level>, p: real, most: real) {
    forall i :: 0 <= i < |levels| ==> 0.0 <= levels[i].1 && (levels[i].0 == p ==> levels[i].1 <= most)
  }

  predicate TicksWithin(ticks: seq<Tick>, p: real, most: real) {
    forall i :: 0 <= i < |ticks| ==> LevelsWithin(ticks[i].asks, p, most) && LevelsWithin(ticks[i].bids, p, most)
  }

  predicate InRange(zones: map<real, real>, p: real, most: real) {
    p in zones ==> 0.0 <= zones[p] <= most
  }

  lemma {:induction false} SignificantInRange(levels: seq<Level>, limit: real, into: map<real, real>, p: real,
                                              most: real)
    requires LevelsWithin(levels, p, most) && InRange(into, p, most)
    ensures InRange(Significant(levels, limit, into), p, most)
  {
    if levels != [] {
      SignificantInRange(levels[..|levels| - 1], limit, into, p, most);
    }
  }

  lemma {:induction false} StepInRange(s: State, t: Tick, prune: bool, p: real, most: real)
    requires InRange(s.zones, p, most)
    requires LevelsWithin(t.asks, p, most) && LevelsWithin(t.bids, p, most)
    ensures InRange(Step(s, t, prune).zones, p, most)
  {
    hide Significant, NextTrail;
    var asks := Significant(t.asks, t.maxAsk * SIGNIFICANT, map[]);
    SignificantInRange(t.asks, t.maxAsk * SIGNIFICANT, map[], p, most);
    SignificantInRange(t.bids, t.maxBid * SIGNIFICANT, asks, p, most);
  }

  /** MAIN: in every run every smoothed zone stays between 0 and the largest volume ever seen
      at its price. */
  lemma {:induction false} ZonesInRange(ticks: seq<Tick>, prune: bool, p: real, most: real)
    requires TicksWithin(ticks, p, most)
    ensures InRange(RunFrom(INITIAL, ticks, prune).zones, p, most)
  {
    if ticks != [] {
      var n := |ticks| - 1;
      ZonesInRange(ticks[..n], prune, p, most);
      StepInRange(RunFrom(INITIAL, ticks[..n], prune), ticks[n], prune, p, most);
    }
  }

  // ---------------------------------------------------------------- fading and steady zones

  function Power(base: real, n: nat): real {
    if n == 0 then 1.0 else base * Power(base, n - 1)
  }

  /** What one tick does to a zone that is absent from it. */
  lemma {:induction false} FadeStep(s: State, t: Tick, p: real, prune: bool)
    requires p in s.zones && p !in Current(t)
    ensures var s', value := Step(s, t, prune), s.zones[p] * (0.85);
            && (p in s'.zones <==> !prune || value >= 5000.0)
            && (p in s'.zones ==> s'.zones[p] == value)
            && (p in s'.listed <==> value < 5000.0)
  {
    hide Current, NextTrail;
  }

  /** What one tick does to a price that it counts. */
  lemma {:induction false} BlendStep(s: State, t: Tick, p: real, prune: bool)
    requires p in Current(t)
    ensures var s', v := Step(s, t, prune), Current(t)[p];
            && p in s'.zones && p !in s'.listed
            && s'.zones[p] == if p in s.zones then 0.15 * v + 0.85 * s.zones[p] else v
  {
    hide Current, NextTrail;
  }

  lemma {:induction false} GoneStaysGone(s: State, t: Tick, p: real, prune: bool)
    requires p !in s.zones && p !in Current(t)
    ensures p !in Step(s, t, prune).zones
  {
    hide Current, NextTrail;
  }

  predicate Absent(ticks: seq<Tick>, p: real) {
    forall i :: 0 <= i < |ticks| ==> p !in Current(ticks[i])
  }

  predicate Steady(ticks: seq<Tick>, p: real, volume: real) {
    forall i :: 0 <= i < |ticks| ==> p in Current(ticks[i]) && Current(ticks[i])[p] == volume
  }

  lemma {:induction false} PowerShrinks(base: real, n: nat)
    requires 0.0 < base < 1.0
    ensures 0.0 < Power(base, n) <= 1.0 && Power(base, n + 1) < Power(base, n)
  {
    if n > 0 {
      PowerShrinks(base, n - 1);
    }
  }

  /** MAIN: a zone absent for n ticks is worth 0.85^n of what it was, and a tick lists it for
      removal exactly when that is below the smallest zone. */
  lemma {:induction false} Fades(s: State, ticks: seq<Tick>, p: real)
    requires p in s.zones && Absent(ticks, p)
    ensures var s' := RunFrom(s, ticks, false);
            && p in s'.zones && s'.zones[p] == Power(0.85, |ticks|) * s.zones[p]
            && (ticks != [] ==> (p in s'.listed <==> s'.zones[p] < 5000.0))
  {
    hide Step;
    if ticks != [] {
      var n := |ticks| - 1;
      Fades(s, ticks[..n], p);
      FadeStep(RunFrom(s, ticks[..n], false), ticks[n], p, false);
      Regroup(0.85, Power(0.85, n), s.zones[p]);
    }
  }

  lemma {:induction false} Regroup(a: real, b: real, c: real)
    ensures (a * b) * c == (b * c) * a
  {
  }

  lemma {:induction false} Scaled(a: real, b: real, c: real)
    requires a <= b && c >= 0.0
    ensures a * c <= b * c
  {
  }

  /** MAIN: in the service's loop the zone follows the same curve and is deleted at the first
      tick that takes it below the smallest zone. */
  lemma {:induction false} Pruned(s: State, ticks: seq<Tick>, p: real)
    requires p in s.zones && s.zones[p] >= 0.0 && Absent(ticks, p)
    ensures var s', value := RunFrom(s, ticks, true), Power(0.85, |ticks|) * s.zones[p];
            && (p in s'.zones <==> ticks == [] || value >= 5000.0)
            && (p in s'.zones ==> s'.zones[p] == value)
  {
    hide Step;
    if ticks != [] {
      var n, z := |ticks| - 1, s.zones[p];
      Pruned(s, ticks[..n], p);
      var before := RunFrom(s, ticks[..n], true);
      if p in before.zones {
        FadeStep(before, ticks[n], p, true);
      } else {
        GoneStaysGone(before, ticks[n], p, true);
      }
      Regroup(0.85, Power(0.85, n), z);
      PowerShrinks(0.85, n);
      Scaled(Power(0.85, n + 1), Power(0.85, n), z);
    }
  }

  lemma {:induction false} PowerFive(n: nat)
    ensures Power(0.85, n + 5) == 0.4437053125 * Power(0.85, n)
  {
    var b := 0.85;
    assert Power(b, n + 1) == b * Power(b, n);
    assert Power(b, n + 2) == b * Power(b, n + 1);
    assert Power(b, n + 3) == b * Power(b, n + 2);
    assert Power(b, n + 4) == b * Power(b, n + 3);
    assert Power(b, n + 5) == b * Power(b, n + 4);
  }

  /** Five ticks halve a zone: 0.85^5 < 1/2. */
  lemma {:induction false} Halvings(z: real, k: nat)
    requires 0.0 <= z <= 5000.0 * Power(2.0, k)
    ensures Power(0.85, 5 * k) * z <= 5000.0
    decreases k
  {
    if k > 0 {
      var half := z / 2.0;
      assert Power(2.0, k) == 2.0 * Power(2.0, k - 1);
      Halvings(half, k - 1);
      var m := 5 * (k - 1);
      PowerFive(m);
      assert 5 * k == m + 5;
      PowerShrinks(0.85, m);
      var w := Power(0.85, m);
      Regroup(0.4437053125, w, z);
      assert w * z == 2.0 * (w * half);
    }
  }

  /** MAIN: a zone of at most 5000 * 2^k is listed for removal by its (5k+1)-th absent tick. */
  lemma {:induction false} ListedWithin(s: State, ticks: seq<Tick>, p: real, k: nat)
    requires p in s.zones && 0.0 <= s.zones[p] <= 5000.0 * Power(2.0, k)
    requires Absent(ticks, p) && |ticks| == 5 * k + 1
    ensures p in RunFrom(s, ticks, false).listed && p !in RunFrom(s, ticks, true).zones
  {
    var z := s.zones[p];
    Fades(s, ticks, p);
    Pruned(s, ticks, p);
    Halvings(z, k);
    assert Power(0.85, 5 * k + 1) == (0.85) * Power(0.85, 5 * k);
    Regroup(0.85, Power(0.85, 5 * k), z);
  }

  /** A zone whose volume holds still closes in on it: the gap shrinks to 0.85^n. */
  lemma {:induction false} Settles(s: State, ticks: seq<Tick>, p: real, volume: real, prune: bool)
    requires p in s.zones && Steady(ticks, p, volume)
    ensures var s' := RunFrom(s, ticks, prune);
            p in s'.zones && s'.zones[p] - volume == Power(0.85, |ticks|) * (s.zones[p] - volume)
  {
    hide Current, NextTrail;
    if ticks != [] {
      var n := |ticks| - 1;
      Settles(s, ticks[..n], p, volume, prune);
      assert p in Current(ticks[n]);
      Regroup(0.85, Power(0.85, n), s.zones[p] - volume);
    }
  }

  // ---------------------------------------------------------------- the trailing level

  /** MAIN: the level never ends a tick above the price, and it falls exactly when the price
      is below it. */
  lemma {:induction false} TrailStep(trail: real, price: real)
    requires trail >= 0.0 && price > 0.0
    ensures 0.0 < NextTrail(trail, price) <= price
    ensures NextTrail(trail, price) < trail <==> price < trail
    ensures price < trail ==> NextTrail(trail, price) == 0.985 * price
    ensures 0.985 * price <= trail <= price && trail > 0.0 ==> NextTrail(trail, price) == trail
    ensures trail < 0.985 * price ==> NextTrail(trail, price) == 0.9 * trail + 0.1 * (0.985 * price)
  {
  }

  lemma {:induction false} TrailOf(s: State, t: Tick, prune: bool)
    ensures Step(s, t, prune).trail == NextTrail(s.trail, t.price)
  {
    hide Current, NextTrail;
  }

  lemma {:induction false} TrailBelowPrice(ticks: seq<Tick>, prune: bool)
    requires ticks != [] && forall i :: 0 <= i < |ticks| ==> ticks[i].price > 0.0
    ensures 0.0 < RunFrom(INITIAL, ticks, prune).trail <= ticks[|ticks| - 1].price
  {
    hide NextTrail, Current;
    var n := |ticks| - 1;
    if n > 0 {
      TrailBelowPrice(ticks[..n], prune);
    }
    TrailStep(RunFrom(INITIAL, ticks[..n], prune).trail, ticks[n].price);
  }

  /** At a steady price the level closes in on 98.5% of it from below: the gap shrinks to
      0.9^n, starting from the whole distance when the service has just started. */
  lemma {:induction false} TrailApproach(s: State, ticks: seq<Tick>, price: real, prune: bool)
    requires price > 0.0 && 0.0 <= s.trail <= 0.985 * price
    requires forall i :: 0 <= i < |ticks| ==> ticks[i].price == price
    ensures var trail := RunFrom(s, ticks, prune).trail;
            && 0.0 <= trail <= 0.985 * price
            && 0.985 * price - trail == Power(0.9, |ticks|) * (0.985 * price - s.trail)
  {
    hide Step;
    if ticks != [] {
      var n := |ticks| - 1;
      TrailApproach(s, ticks[..n], price, prune);
      var before := RunFrom(s, ticks[..n], prune);
      assert Step(before, ticks[n], prune).trail == NextTrail(before.trail, price) by {
        TrailOf(before, ticks[n], prune);
      }
      Regroup(0.9, Power(0.9, n), 0.985 * price - s.trail);
    }
  }
}
