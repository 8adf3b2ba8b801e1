/** When a histogram sample of a run is hinted as a counter reset, as no reset, and when the
    hint is unknown. */
module ResetHints {
  import opened Common
  import opened Bytes
  import opened ExpBuckets
  import opened ResetTracker

  // ------------------------------------------------------------- sums and bounds

  /** A number on the extended real line: which part of it, and where in that part. */
  function Place(x: Float): (int, real)
    requires !x.NaN?
  {
    match x
    case NegInf => (-1, 0.0)
    case Finite(v) => (0, v)
    case PosInf => (1, 0.0)
  }

  predicate Left(a: (int, real), b: (int, real)) { a.0 < b.0 || (a.0 == b.0 && a.1 < b.1) }

  /** Both sums are numbers, and the later one is the smaller. */
  predicate Fell(a: Option<Float>, b: Option<Float>) {
    a.Some? && b.Some? && !a.value.NaN? && !b.value.NaN? && Left(Place(b.value), Place(a.value))
  }

  lemma FellIff(a: Option<Float>, b: Option<Float>)
    ensures SumDecreased(a, b) <==> Fell(a, b)
  {
  }

  /** The same bounds, none of them NaN. */
  predicate EqualBounds(a: seq<Float>, b: seq<Float>) { a == b && NaN !in a }

  lemma BoundsIff(a: seq<Float>, b: seq<Float>)
    ensures SameBounds(a, b) <==> EqualBounds(a, b)
  {
  }

  predicate LaterStart(a: Option<u64>, b: Option<u64>) { a.Some? && b.Some? && a.value < b.value }

  /** Some bucket fell. */
  predicate BucketFell(a: seq<u64>, b: seq<u64>) { |a| == |b| && exists i :: 0 <= i < |a| && b[i] < a[i] }

  // --------------------------------------------------------------- two histograms

  /** A reset is seen by its start time, or between equal bounds by a smaller count, sum or
      bucket. */
  predicate HistogramReset(a: Histogram, b: Histogram) {
    || LaterStart(a.startTime, b.startTime)
    || (EqualBounds(a.bounds, b.bounds) && (b.count < a.count || Fell(a.sum, b.sum) || BucketFell(a.buckets, b.buckets)))
  }

  /** Bounds or numbers of buckets differ, and nothing else has been seen. */
  predicate HistogramUnclear(a: Histogram, b: Histogram) {
    && !LaterStart(a.startTime, b.startTime)
    && (!EqualBounds(a.bounds, b.bounds) || (a.count <= b.count && !Fell(a.sum, b.sum) && |a.buckets| != |b.buckets|))
  }

  lemma HistogramVerdict(a: Histogram, b: Histogram)
    ensures HistogramHint(a, b) == CounterReset <==> HistogramReset(a, b)
    ensures HistogramHint(a, b) == Unknown <==> HistogramUnclear(a, b)
  {
    hide SumDecreased, Fell, SameBounds, EqualBounds;
    FellIff(a.sum, b.sum);
    BoundsIff(a.bounds, b.bounds);
  }

  /** Some bucket of `b` holds less than that of `a`, both seen at scale `target`. */
  ghost predicate BucketsFell(a: Buckets, aScale: int, b: Buckets, bScale: int, target: int)
    requires target <= aScale && target <= bScale
  {
    exists i :: BucketAt(b, bScale, target, i) < BucketAt(a, aScale, target, i)
  }

  /** All buckets can be seen at the coarser of the two scales. */
  ghost predicate CommonScale(a: Exponential, b: Exponential, target: int) {
    && target == (if a.scale < b.scale then a.scale else b.scale)
    && Representable(a.positive, a.scale, target) && Representable(b.positive, b.scale, target)
    && Representable(a.negative, a.scale, target) && Representable(b.negative, b.scale, target)
  }

  /** The same for exponential histograms: equal zero thresholds take the place of equal
      bounds, and buckets are compared at the coarser of the two scales. */
  ghost predicate ExponentialReset(a: Exponential, b: Exponential) {
    || LaterStart(a.startTime, b.startTime)
    || (a.zeroThresholdBits == b.zeroThresholdBits
        && (b.count < a.count || b.zeroCount < a.zeroCount || Fell(a.sum, b.sum) || exists t :: FellAt(a, b, t)))
  }

  ghost predicate FellAt(a: Exponential, b: Exponential, t: int) {
    && CommonScale(a, b, t)
    && (BucketsFell(a.positive, a.scale, b.positive, b.scale, t) || BucketsFell(a.negative, a.scale, b.negative, b.scale, t))
  }

  /** Thresholds differ, or there is no common scale, and nothing else has been seen. */
  ghost predicate ExponentialUnclear(a: Exponential, b: Exponential) {
    && !LaterStart(a.startTime, b.startTime)
    && (|| a.zeroThresholdBits != b.zeroThresholdBits
        || (a.count <= b.count && a.zeroCount <= b.zeroCount && !Fell(a.sum, b.sum) && forall t :: !CommonScale(a, b, t)))
  }

  lemma ExponentialVerdict(a: Exponential, b: Exponential)
    ensures ExponentialHint(a, b) == CounterReset <==> ExponentialReset(a, b)
    ensures ExponentialHint(a, b) == Unknown <==> ExponentialUnclear(a, b)
  {
    hide SumDecreased, Fell, Representable, BucketAt;
    FellIff(a.sum, b.sum);
    var t := if a.scale < b.scale then a.scale else b.scale;
    assert FellAt(a, b, t) <==> exists u :: FellAt(a, b, u);
    assert CommonScale(a, b, t) <==> exists u :: CommonScale(a, b, u);
  }

  // --------------------------------------------------------------------- runs

  /** Sample `j` is the last tracked histogram of the series before `k`. */
  predicate LastHistogram(samples: seq<Sample>, series: nat, j: int, k: nat) {
    0 <= j < k <= |samples| && OfHistogram(samples[j], series) && forall i :: j < i < k ==> !OfHistogram(samples[i], series)
  }

  predicate NoHistogram(samples: seq<Sample>, series: nat, k: nat)
    requires k <= |samples|
  {
    forall i :: 0 <= i < k ==> !OfHistogram(samples[i], series)
  }

  predicate LastExponential(samples: seq<Sample>, series: nat, j: int, k: nat) {
    0 <= j < k <= |samples| && OfExponential(samples[j], series) && forall i :: j < i < k ==> !OfExponential(samples[i], series)
  }

  predicate NoExponential(samples: seq<Sample>, series: nat, k: nat)
    requires k <= |samples|
  {
    forall i :: 0 <= i < k ==> !OfExponential(samples[i], series)
  }

  lemma HistogramTurn(state: State, s: Sample, series: nat)
    ensures var m, n := state.histograms, Remember(state, s).histograms;
            if OfHistogram(s, series) then series in n && n[series] == s.histogram
            else (series in n <==> series in m) && (series in m ==> n[series] == m[series])
  {
  }

  /** What is remembered of a series is its last tracked histogram. */
  lemma {:induction false} HistogramKnown(samples: seq<Sample>, series: nat, k: nat)
    requires k <= |samples|
    ensures series !in StateAfter(samples[..k]).histograms <==> NoHistogram(samples, series, k)
    decreases k
  {
    hide HintIn, HintsOf, StateAfter, Remember, OfHistogram;
    NothingCommitted();
    if k == 0 {
      assert samples[..0] == [];
    } else {
      HistogramKnown(samples, series, k - 1);
      StateStep(samples, k - 1);
      HistogramTurn(StateAfter(samples[..k - 1]), samples[k - 1], series);
    }
  }

  lemma {:induction false} HistogramRemembered(samples: seq<Sample>, series: nat, j: nat, k: nat)
    requires LastHistogram(samples, series, j, k)
    ensures var m := StateAfter(samples[..k]).histograms; series in m && m[series] == samples[j].histogram
    decreases k
  {
    hide HintIn, HintsOf, StateAfter, Remember, OfHistogram;
    StateStep(samples, k - 1);
    HistogramTurn(StateAfter(samples[..k - 1]), samples[k - 1], series);
    if j < k - 1 { HistogramRemembered(samples, series, j, k - 1); }
  }

  lemma ExponentialTurn(state: State, s: Sample, series: nat)
    ensures var m, n := state.exponentials, Remember(state, s).exponentials;
            if OfExponential(s, series) then series in n && n[series] == s.exponential
            else (series in n <==> series in m) && (series in m ==> n[series] == m[series])
  {
  }

  /** Likewise of exponential histograms. */
  lemma {:induction false} ExponentialKnown(samples: seq<Sample>, series: nat, k: nat)
    requires k <= |samples|
    ensures series !in StateAfter(samples[..k]).exponentials <==> NoExponential(samples, series, k)
    decreases k
  {
    hide HintIn, HintsOf, StateAfter, Remember, OfExponential;
    NothingCommitted();
    if k == 0 {
      assert samples[..0] == [];
    } else {
      ExponentialKnown(samples, series, k - 1);
      StateStep(samples, k - 1);
      ExponentialTurn(StateAfter(samples[..k - 1]), samples[k - 1], series);
    }
  }

  lemma {:induction false} ExponentialRemembered(samples: seq<Sample>, series: nat, j: nat, k: nat)
    requires LastExponential(samples, series, j, k)
    ensures var m := StateAfter(samples[..k]).exponentials; series in m && m[series] == samples[j].exponential
    decreases k
  {
    hide HintIn, HintsOf, StateAfter, Remember, OfExponential;
    StateStep(samples, k - 1);
    ExponentialTurn(StateAfter(samples[..k - 1]), samples[k - 1], series);
    if j < k - 1 { ExponentialRemembered(samples, series, j, k - 1); }
  }

  /** The hint of a sample whose temporality or staleness decides it, or that is the first
      of its series. */
  lemma UntrackedHint(samples: seq<Sample>, k: nat)
    requires k < |samples|
    ensures var s := samples[k];
            && (s.metadata.temporality.DeltaKind? ==> HintAt(samples, k) == NotCounterReset)
            && (s.metadata.temporality.Unspecified? ==> HintAt(samples, k) == Unknown)
            && (s.metadata.temporality.Cumulative? && s.metadata.stale ==> HintAt(samples, k) == Unknown)
            && (Tracked(s) && s.HistogramSample? && NoHistogram(samples, s.series, k) ==> HintAt(samples, k) == Unknown)
            && (Tracked(s) && s.ExponentialSample? && NoExponential(samples, s.series, k) ==> HintAt(samples, k) == Unknown)
  {
    hide HistogramHint, ExponentialHint, NoHistogram, NoExponential, StateAfter;
    HistogramKnown(samples, samples[k].series, k);
    ExponentialKnown(samples, samples[k].series, k);
  }

  /** Over every run: a tracked histogram is hinted as a reset exactly when a reset shows
      against the last tracked histogram of its series, and the hint is unknown exactly when
      the two cannot be compared. */
  lemma HistogramRunHint(samples: seq<Sample>, j: nat, k: nat)
    requires k < |samples| && OfHistogram(samples[k], samples[k].series) && LastHistogram(samples, samples[k].series, j, k)
    ensures HintAt(samples, k) == CounterReset <==> HistogramReset(samples[j].histogram, samples[k].histogram)
    ensures HintAt(samples, k) == Unknown <==> HistogramUnclear(samples[j].histogram, samples[k].histogram)
  {
    hide HistogramHint, ExponentialHint, HistogramReset, HistogramUnclear, StateAfter;
    HistogramRemembered(samples, samples[k].series, j, k);
    HistogramVerdict(samples[j].histogram, samples[k].histogram);
  }

  /** The same for exponential histograms. */
  lemma ExponentialRunHint(samples: seq<Sample>, j: nat, k: nat)
    requires k < |samples| && OfExponential(samples[k], samples[k].series) && LastExponential(samples, samples[k].series, j, k)
    ensures HintAt(samples, k) == CounterReset <==> ExponentialReset(samples[j].exponential, samples[k].exponential)
    ensures HintAt(samples, k) == Unknown <==> ExponentialUnclear(samples[j].exponential, samples[k].exponential)
  {
    hide HistogramHint, ExponentialHint, ExponentialReset, ExponentialUnclear, StateAfter;
    ExponentialRemembered(samples, samples[k].series, j, k);
    ExponentialVerdict(samples[j].exponential, samples[k].exponential);
  }

  /** The hints of a run of the tracker are these. */
  lemma {:induction false} RunHints(samples: seq<Sample>, k: nat)
    requires k < |samples|
    ensures HintsOf(samples)[k] == HintAt(samples, k)
    decreases |samples|
  {
    hide HintIn, StateAfter;
    var n := |samples| - 1;
    if k < n {
      RunHints(samples[..n], k);
      assert samples[..n][..k] == samples[..k];
    }
  }
}
