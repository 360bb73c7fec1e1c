/** The online latency bound: interpolated quantile of a sliding window, plus a multiple of the
    median absolute deviation, plus a margin. */
module LatencyEstimators {
  import opened Common
  import opened Sorting

  datatype Estimator = Estimator(
    window: nat,
    quantile: real,
    madMultiplier: real,
    marginMs: real,
    values: seq<real>)

  function Leq(a: real, b: real): bool {
    a <= b
  }

  function Fresh(window: nat, quantile: real, madMultiplier: real, marginMs: real): Estimator {
    Estimator(Max(window, 8), quantile, madMultiplier, marginMs, [])
  }

  function Observed(e: Estimator, ms: real): Estimator {
    var values := e.values + [ms];
    e.(values := if |values| > e.window then values[1..] else values)
  }

  /** Truncation toward zero; C++ leaves the conversion of a position at or below -1 undefined. */
  function Truncate(position: real): nat {
    if position < 0.0 then 0 else position.Floor
  }

  function Mix(a: real, b: real, f: real): real {
    a * (1.0 - f) + b * f
  }

  function Position(n: nat, q: real): real {
    q * (n - 1) as real
  }

  /** The value at a fractional position of a sorted sequence. */
  function At(sorted: seq<real>, position: real): real
    requires sorted != []
  {
    var idx := Truncate(position);
    if idx + 1 >= |sorted| then sorted[|sorted| - 1]
    else Mix(sorted[idx], sorted[idx + 1], position - idx as real)
  }

  function Quantile(values: seq<real>, q: real): real {
    if values == [] then 0.0
    else SortKeepsLength(values); At(Sort(values, Leq), Position(|values|, q))
  }

  function Deviations(values: seq<real>, median: real): (r: seq<real>)
    ensures |r| == |values|
  {
    seq(|values|, i requires 0 <= i < |values| => Abs(values[i] - median))
  }

  /** The upper one of the two middle values when there is an even number of them. */
  function Median(values: seq<real>): real
    requires values != []
  {
    SortKeepsLength(values);
    Sort(values, Leq)[|values| / 2]
  }

  function Mad(values: seq<real>): real {
    if values == [] then 0.0
    else
      SortKeepsLength(values);
      var deviations := Deviations(Sort(values, Leq), Median(values));
      SortKeepsLength(deviations);
      Sort(deviations, Leq)[|deviations| / 2]
  }

  function ConservativeBound(e: Estimator): real {
    Quantile(e.values, e.quantile) + e.madMultiplier * Mad(e.values) + e.marginMs
  }

  lemma SortKeepsLength(s: seq<real>)
    ensures |Sort(s, Leq)| == |s|
  {
    SortSorts(s, Leq);
  }

  class LatencyEstimator {
    const window: nat
    const quantile: real
    const madMultiplier: real
    const marginMs: real
    var values: seq<real>

    constructor (window: nat, quantile: real, madMultiplier: real, marginMs: real)
      ensures View() == Fresh(window, quantile, madMultiplier, marginMs)
    {
      this.window := Max(window, 8);
      this.quantile := quantile;
      this.madMultiplier := madMultiplier;
      this.marginMs := marginMs;
      values := [];
    }

    ghost function View(): Estimator
      reads this
    {
      Estimator(window, quantile, madMultiplier, marginMs, values)
    }

    method ObserveMs(ms: real)
      modifies this
      ensures View() == Observed(old(View()), ms)
    {
      values := values + [ms];
      if |values| > window {
        values := values[1..];
      }
    }

    method QuantileMs() returns (r: real)
      ensures r == Quantile(values, quantile)
    {
      if values == [] {
        return 0.0;
      }
      var sorted := Sort(values, Leq);
      SortKeepsLength(values);
      var position := Position(|sorted|, quantile);
      var idx := Truncate(position);
      var frac := position - idx as real;
      if idx + 1 >= |sorted| {
        return sorted[|sorted| - 1];
      }
      return Mix(sorted[idx], sorted[idx + 1], frac);
    }

    method MadMs() returns (r: real)
      ensures r == Mad(values)
    {
      if values == [] {
        return 0.0;
      }
      var sorted := Sort(values, Leq);
      SortKeepsLength(values);
      var median := sorted[|sorted| / 2];
      var deviations := DeviationsFrom(sorted, median);
      SortKeepsLength(deviations);
      deviations := Sort(deviations, Leq);
      return deviations[|deviations| / 2];
    }

    static method DeviationsFrom(sorted: seq<real>, median: real) returns (deviations: seq<real>)
      ensures deviations == Deviations(sorted, median)
    {
      deviations := [];
      for i := 0 to |sorted|
        invariant |deviations| == i
        invariant forall j | 0 <= j < i :: deviations[j] == Abs(sorted[j] - median)
      {
        deviations := deviations + [Abs(sorted[i] - median)];
      }
    }

    method ConservativeBoundMs() returns (r: real)
      ensures r == ConservativeBound(View())
    {
      hide Quantile, Mad;
      var q := QuantileMs();
      var m := MadMs();
      return q + madMultiplier * m + marginMs;
    }
  }

  // The window

  function ObservedAll(e: Estimator, samples: seq<real>): Estimator {
    if samples == [] then e
    else Observed(ObservedAll(e, samples[..|samples| - 1]), samples[|samples| - 1])
  }

  /** The values of an estimator are exactly the last max(window, 8) samples it was given. */
  lemma {:induction false} WindowIsLastSamples(window: nat, q: real, k: real, margin: real, samples: seq<real>)
    ensures ObservedAll(Fresh(window, q, k, margin), samples)
         == Fresh(window, q, k, margin).(values := LastN(samples, Max(window, 8)))
  {
    if samples != [] {
      var before, last := samples[..|samples| - 1], samples[|samples| - 1];
      WindowIsLastSamples(window, q, k, margin, before);
      LastNStep(before, last, Max(window, 8));
      assert before + [last] == samples;
    }
  }

  lemma LastNStep(s: seq<real>, x: real, n: nat)
    ensures var t := LastN(s, n) + [x];
            LastN(s + [x], n) == if |t| > n then t[1..] else t
  {
  }

  // The quantile

  /** The order in which the samples arrived makes no difference to the bound. */
  lemma BoundIgnoresOrder(e: Estimator, values: seq<real>)
    requires multiset(values) == multiset(e.values)
    ensures ConservativeBound(e.(values := values)) == ConservativeBound(e)
  {
    hide Sort, At;
    SortIgnoresOrder(values, e.values);
    assert Quantile(values, e.quantile) == Quantile(e.values, e.quantile);
    assert Mad(values) == Mad(e.values);
    hide Quantile, Mad;
  }

  lemma SortIgnoresOrder(a: seq<real>, b: seq<real>)
    requires multiset(a) == multiset(b)
    ensures Sort(a, Leq) == Sort(b, Leq) && |a| == |b|
  {
    assert |multiset(a)| == |multiset(b)|;
    SortSorts(a, Leq);
    SortSorts(b, Leq);
    SortedUnique(Sort(a, Leq), Sort(b, Leq), Leq);
  }

  /** How many of the samples are at most `x`. */
  function CountAtMost(values: seq<real>, x: real): nat {
    if values == [] then 0
    else (if values[0] <= x then 1 else 0) + CountAtMost(values[1..], x)
  }

  lemma {:induction false} InsertCounts(v: real, s: seq<real>, x: real)
    ensures CountAtMost(Insert(v, s, Leq), x) == CountAtMost(s, x) + if v <= x then 1 else 0
  {
    if s == [] || Leq(v, s[0]) {
      assert Insert(v, s, Leq)[1..] == s;
    } else {
      InsertCounts(v, s[1..], x);
      assert Insert(v, s, Leq)[1..] == Insert(v, s[1..], Leq);
    }
  }

  lemma {:induction false} SortCounts(s: seq<real>, x: real)
    ensures CountAtMost(Sort(s, Leq), x) == CountAtMost(s, x)
  {
    if s != [] {
      SortCounts(s[1..], x);
      InsertCounts(s[0], Sort(s[1..], Leq), x);
    }
  }

  lemma {:induction false} CountUpdate(s: seq<real>, i: nat, v: real, x: real)
    requires i < |s| && s[i] <= v
    ensures CountAtMost(s[i := v], x) <= CountAtMost(s, x)
  {
    if i == 0 {
      assert s[i := v][1..] == s[1..];
    } else {
      CountUpdate(s[1..], i - 1, v, x);
      assert s[i := v][1..] == s[1..][i - 1 := v];
    }
  }

  /** In a sorted sequence the element at `k` is at most `x` exactly when k + 1 elements are. */
  lemma {:induction false} RankInSorted(s: seq<real>, k: nat, x: real)
    requires SortedBy(s, Leq) && k < |s|
    ensures s[k] <= x <==> CountAtMost(s, x) >= k + 1
  {
    if k == 0 {
      if s[0] > x {
        NoneAtMost(s, x);
      }
    } else {
      RankInSorted(s[1..], k - 1, x);
      if s[0] > x {
        NoneAtMost(s, x);
        assert Leq(s[0], s[k]);
      }
    }
  }

  lemma {:induction false} NoneAtMost(s: seq<real>, x: real)
    requires forall i | 0 <= i < |s| :: s[i] > x
    ensures CountAtMost(s, x) == 0
  {
    if s != [] {
      NoneAtMost(s[1..], x);
    }
  }

  lemma SortedIsSorted(values: seq<real>)
    ensures SortedBy(Sort(values, Leq), Leq) && |Sort(values, Leq)| == |values|
    ensures forall i, j | 0 <= i <= j < |values| :: Sort(values, Leq)[i] <= Sort(values, Leq)[j]
    ensures multiset(Sort(values, Leq)) == multiset(values)
  {
    SortSorts(values, Leq);
    var s := Sort(values, Leq);
    forall i, j | 0 <= i <= j < |values| ensures s[i] <= s[j] {
      assert i < j ==> Leq(s[i], s[j]);
    }
  }

  lemma PositionInRange(n: nat, q: real)
    requires n > 0 && 0.0 <= q <= 1.0
    ensures 0.0 <= Position(n, q) <= (n - 1) as real
  {
    var m := (n - 1) as real;
    assert 0.0 <= q * m <= 1.0 * m;
  }

  lemma MixBetween(a: real, b: real, f: real)
    requires a <= b && 0.0 <= f <= 1.0
    ensures a <= Mix(a, b, f) <= b
  {
    NonNegativeProduct(b - a, f);
    NonNegativeProduct(b - a, 1.0 - f);
    assert Mix(a, b, f) == a + (b - a) * f;
    assert Mix(a, b, f) == b - (b - a) * (1.0 - f);
  }

  lemma MixMonotone(a: real, b: real, c: real, d: real, f: real)
    requires a <= c && b <= d && 0.0 <= f <= 1.0
    ensures Mix(a, b, f) <= Mix(c, d, f)
  {
    NonNegativeProduct(c - a, 1.0 - f);
    NonNegativeProduct(d - b, f);
  }

  lemma AtBounds(s: seq<real>, position: real)
    requires s != [] && 0.0 <= position <= (|s| - 1) as real
    requires forall i, j | 0 <= i <= j < |s| :: s[i] <= s[j]
    ensures s[0] <= s[Truncate(position)] <= At(s, position) <= s[|s| - 1]
  {
    var idx := Truncate(position);
    if idx + 1 < |s| {
      MixBetween(s[idx], s[idx + 1], position - idx as real);
    }
  }

  lemma AtMonotone(s: seq<real>, t: seq<real>, position: real)
    requires |s| == |t| > 0 && 0.0 <= position <= (|s| - 1) as real
    requires forall k | 0 <= k < |s| :: s[k] <= t[k]
    ensures At(s, position) <= At(t, position)
  {
    var idx := Truncate(position);
    if idx + 1 < |s| {
      MixMonotone(s[idx], s[idx + 1], t[idx], t[idx + 1], position - idx as real);
    }
  }

  /** The quantile of a non-empty window lies between the least and the greatest sample, and at
      least floor(q * (n - 1)) + 1 of the samples are at or below it. */
  lemma QuantileInWindow(values: seq<real>, q: real)
    requires values != [] && 0.0 <= q <= 1.0
    ensures exists lo, hi | lo in values && hi in values ::
              && (forall v | v in values :: lo <= v <= hi)
              && lo <= Quantile(values, q) <= hi
    ensures CountAtMost(values, Quantile(values, q)) >= Position(|values|, q).Floor + 1
  {
    var s := Sort(values, Leq);
    SortedIsSorted(values);
    PositionInRange(|values|, q);
    AtBounds(s, Position(|values|, q));
    EndsOfSorted(values);
    RankInSorted(s, Truncate(Position(|values|, q)), Quantile(values, q));
    SortCounts(values, Quantile(values, q));
  }

  lemma EndsOfSorted(values: seq<real>)
    requires values != []
    ensures |Sort(values, Leq)| == |values|
    ensures Sort(values, Leq)[0] in values && Sort(values, Leq)[|values| - 1] in values
    ensures forall v | v in values :: Sort(values, Leq)[0] <= v <= Sort(values, Leq)[|values| - 1]
  {
    SortedIsSorted(values);
    var s := Sort(values, Leq);
    assert s[0] in multiset(values) && s[|values| - 1] in multiset(values);
    forall v | v in values ensures s[0] <= v <= s[|values| - 1] {
      assert v in multiset(s);
    }
  }

  /** Raising one sample never lowers the quantile. */
  lemma QuantileMonotone(values: seq<real>, i: nat, v: real, q: real)
    requires i < |values| && values[i] <= v && 0.0 <= q <= 1.0
    ensures Quantile(values, q) <= Quantile(values[i := v], q)
  {
    SortMonotone(values, i, v);
    PositionInRange(|values|, q);
    AtMonotone(Sort(values, Leq), Sort(values[i := v], Leq), Position(|values|, q));
  }

  lemma SortMonotone(values: seq<real>, i: nat, v: real)
    requires i < |values| && values[i] <= v
    ensures |Sort(values, Leq)| == |Sort(values[i := v], Leq)| == |values|
    ensures forall k | 0 <= k < |values| :: Sort(values, Leq)[k] <= Sort(values[i := v], Leq)[k]
  {
    var raised := values[i := v];
    var s, t := Sort(values, Leq), Sort(raised, Leq);
    SortedIsSorted(values);
    SortedIsSorted(raised);
    forall k | 0 <= k < |values| ensures s[k] <= t[k] {
      RankInSorted(t, k, t[k]);
      SortCounts(raised, t[k]);
      CountUpdate(values, i, v, t[k]);
      SortCounts(values, t[k]);
      RankInSorted(s, k, t[k]);
    }
  }

  lemma SortedElement(values: seq<real>, k: nat)
    requires k < |values|
    ensures |Sort(values, Leq)| == |values| && Sort(values, Leq)[k] in values
  {
    SortedIsSorted(values);
    assert Sort(values, Leq)[k] in multiset(values);
  }

  /** How many of the samples deviate from `m` by at most `x`. */
  function CountNear(values: seq<real>, m: real, x: real): nat {
    if values == [] then 0
    else (if Abs(values[0] - m) <= x then 1 else 0) + CountNear(values[1..], m, x)
  }

  lemma {:induction false} InsertCountsNear(v: real, s: seq<real>, m: real, x: real)
    ensures CountNear(Insert(v, s, Leq), m, x) == CountNear(s, m, x) + if Abs(v - m) <= x then 1 else 0
  {
    if s == [] || Leq(v, s[0]) {
      assert Insert(v, s, Leq)[1..] == s;
    } else {
      InsertCountsNear(v, s[1..], m, x);
      assert Insert(v, s, Leq)[1..] == Insert(v, s[1..], Leq);
    }
  }

  lemma {:induction false} SortCountsNear(s: seq<real>, m: real, x: real)
    ensures CountNear(Sort(s, Leq), m, x) == CountNear(s, m, x)
  {
    if s != [] {
      SortCountsNear(s[1..], m, x);
      InsertCountsNear(s[0], Sort(s[1..], Leq), m, x);
    }
  }

  lemma {:induction false} DeviationsCount(s: seq<real>, m: real, x: real)
    ensures CountAtMost(Deviations(s, m), x) == CountNear(s, m, x)
  {
    if s != [] {
      DeviationsCount(s[1..], m, x);
      assert Deviations(s, m)[1..] == Deviations(s[1..], m);
    }
  }

  /** The median is the least value that more than half of the samples do not exceed, and the
      median absolute deviation is the least distance from it that covers more than half. */
  lemma MadIsMedianDeviation(values: seq<real>, x: real)
    requires values != []
    ensures Median(values) <= x <==> CountAtMost(values, x) >= |values| / 2 + 1
    ensures Mad(values) <= x <==> CountNear(values, Median(values), x) >= |values| / 2 + 1
  {
    hide Sort, CountAtMost, CountNear;
    var s, n := Sort(values, Leq), |values|;
    SortedIsSorted(values);
    RankInSorted(s, n / 2, x);
    SortCounts(values, x);
    var m := Median(values);
    var deviations := Deviations(s, m);
    SortedIsSorted(deviations);
    RankInSorted(Sort(deviations, Leq), n / 2, x);
    SortCounts(deviations, x);
    DeviationsCount(s, m, x);
    SortCountsNear(values, m, x);
  }

  lemma MadNonNegative(values: seq<real>)
    ensures Mad(values) >= 0.0
  {
    if values != [] {
      SortKeepsLength(values);
      var deviations := Deviations(Sort(values, Leq), Median(values));
      SortedElement(deviations, |deviations| / 2);
      assert forall d | d in deviations :: d >= 0.0;
    }
  }

  /** Between two neighbours of the sorted samples the quantile moves in proportion to its position,
      and at the last sample it stops. */
  lemma QuantileInterpolates(values: seq<real>, q: real, sorted: seq<real>, k: nat, f: real)
    requires multiset(sorted) == multiset(values) && k < |sorted| && 0.0 <= f < 1.0
    requires forall i, j | 0 <= i < j < |sorted| :: sorted[i] <= sorted[j]
    requires q * (|sorted| - 1) as real == k as real + f
    ensures Quantile(values, q)
         == if k + 1 < |sorted| then sorted[k] + f * (sorted[k + 1] - sorted[k]) else sorted[k]
  {
    hide Sort, At, SortedBy, TotalPreorder;
    assert Position(|sorted|, q) == k as real + f;
    hide Position;
    SortedIsSort(values, sorted);
    AtInterpolates(sorted, k, f);
  }

  lemma SortedIsSort(values: seq<real>, sorted: seq<real>)
    requires multiset(sorted) == multiset(values)
    requires forall i, j | 0 <= i < j < |sorted| :: sorted[i] <= sorted[j]
    ensures Sort(values, Leq) == sorted && |values| == |sorted|
  {
    SameLength(sorted, values);
    SortSorts(values, Leq);
    SortedUnique(Sort(values, Leq), sorted, Leq);
  }

  lemma AtInterpolates(sorted: seq<real>, k: nat, f: real)
    requires k < |sorted| && 0.0 <= f < 1.0
    ensures At(sorted, k as real + f)
         == if k + 1 < |sorted| then sorted[k] + f * (sorted[k + 1] - sorted[k]) else sorted[|sorted| - 1]
  {
    assert Truncate(k as real + f) == k;
    if k + 1 < |sorted| {
      MixIsProportional(sorted[k], sorted[k + 1], f);
    }
  }

  lemma MixIsProportional(a: real, b: real, f: real)
    ensures Mix(a, b, f) == a + f * (b - a)
  {
  }

  /** The three parts of the bound; without samples only the margin is left. */
  lemma BoundExactly(e: Estimator)
    ensures ConservativeBound(e) == Quantile(e.values, e.quantile) + e.madMultiplier * Mad(e.values) + e.marginMs
    ensures e.values == [] ==> ConservativeBound(e) == e.marginMs
  {
    hide Mad, Quantile;
    NothingMeasured(e.values, e.quantile);
  }

  lemma NothingMeasured(values: seq<real>, q: real)
    ensures values == [] ==> Quantile(values, q) == 0.0 && Mad(values) == 0.0
  {
  }

  /** The deviation term never lowers the bound when its multiplier is non-negative. */
  lemma BoundCoversQuantile(e: Estimator)
    requires e.madMultiplier >= 0.0
    ensures ConservativeBound(e) >= Quantile(e.values, e.quantile) + e.marginMs
  {
    MadNonNegative(e.values);
    NonNegativeProduct(e.madMultiplier, Mad(e.values));
  }
}
