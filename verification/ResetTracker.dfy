/** Counter-reset detection over committed OTLP histogram samples. */
module ResetTracker {
  import opened Common
  import opened Bytes
  import opened ExpBuckets

  /** Doubles without rounding; the two zeros compare equal, as they do in IEEE 754. */
  datatype Float = NaN | NegInf | Finite(value: real) | PosInf

  predicate Same(a: Float, b: Float) { a == b && !a.NaN? }

  predicate Below(a: Float, b: Float) {
    match (a, b)
    case (NaN, _) => false
    case (_, NaN) => false
    case (Finite(x), Finite(y)) => x < y
    case (NegInf, _) => !b.NegInf?
    case (_, PosInf) => !a.PosInf?
    case (_, _) => false
  }

  datatype Temporality = Unspecified | DeltaKind | Cumulative
  datatype Hint = Unknown | CounterReset | NotCounterReset

  datatype Metadata = Metadata(startTime: Option<u64>, stale: bool, temporality: Temporality)

  /** What the tracker keeps of a histogram. */
  datatype Histogram = Histogram(startTime: Option<u64>, count: u64, sum: Option<Float>, bounds: seq<Float>, buckets: seq<u64>)

  datatype Exponential = Exponential(startTime: Option<u64>, count: u64, sum: Option<Float>, scale: i32, zeroThresholdBits: u64,
                                     zeroCount: u64, positive: Buckets, negative: Buckets)

  // -------------------------------------------------------------------- hints

  predicate StartAdvanced(previous: Option<u64>, current: Option<u64>) {
    previous.Some? && current.Some? && current.value > previous.value
  }

  predicate SumDecreased(previous: Option<Float>, current: Option<Float>) {
    previous.Some? && current.Some? && Below(current.value, previous.value)
  }

  predicate SameBounds(a: seq<Float>, b: seq<Float>) {
    |a| == |b| && forall i :: 0 <= i < |a| ==> Same(a[i], b[i])
  }

  /** `histogram_reset_hint`. */
  function HistogramHint(previous: Histogram, current: Histogram): Hint {
    if StartAdvanced(previous.startTime, current.startTime) then CounterReset
    else if !SameBounds(previous.bounds, current.bounds) then Unknown
    else if current.count < previous.count || SumDecreased(previous.sum, current.sum) then CounterReset
    else if |previous.buckets| != |current.buckets| then Unknown
    else if exists i :: 0 <= i < |previous.buckets| && current.buckets[i] < previous.buckets[i] then CounterReset
    else NotCounterReset
  }

  function BucketAt(b: Buckets, scale: int, target: int, i: int): nat
    requires target <= scale
  {
    Total(b.counts, b.offset, Pow2(scale - target), i)
  }

  /** Every bucket of `b` at the coarser scale is at least that of `a`. */
  ghost predicate Grew(a: Buckets, aScale: int, b: Buckets, bScale: int, target: int)
    requires target <= aScale && target <= bScale
  {
    forall i :: BucketAt(a, aScale, target, i) <= BucketAt(b, bScale, target, i)
  }

  function Least(a: int, b: int): int { if a < b then a else b }

  /** `exponential_histogram_reset_hint`, with buckets read as totals at the common
      scale. */
  ghost function ExponentialHint(previous: Exponential, current: Exponential): Hint {
    var target := Least(previous.scale, current.scale);
    if StartAdvanced(previous.startTime, current.startTime) then CounterReset
    else if previous.zeroThresholdBits != current.zeroThresholdBits then Unknown
    else if current.count < previous.count || current.zeroCount < previous.zeroCount || SumDecreased(previous.sum, current.sum)
    then CounterReset
    else if !Representable(previous.positive, previous.scale, target) || !Representable(current.positive, current.scale, target)
         || !Representable(previous.negative, previous.scale, target) || !Representable(current.negative, current.scale, target)
    then Unknown
    else if Grew(previous.positive, previous.scale, current.positive, current.scale, target)
         && Grew(previous.negative, previous.scale, current.negative, current.scale, target)
    then NotCounterReset
    else CounterReset
  }

  predicate MapDecreased(previous: map<int, nat>, current: map<int, nat>) {
    exists i :: i in previous && Get(current, i) < previous[i]
  }

  method ComputeExponentialHint(previous: Exponential, current: Exponential) returns (hint: Hint)
    ensures hint == ExponentialHint(previous, current)
  {
    hide Representable, Total;
    if StartAdvanced(previous.startTime, current.startTime) { return CounterReset; }
    if previous.zeroThresholdBits != current.zeroThresholdBits { return Unknown; }
    if current.count < previous.count || current.zeroCount < previous.zeroCount || SumDecreased(previous.sum, current.sum) {
      return CounterReset;
    }
    var target := if previous.scale < current.scale then previous.scale else current.scale;
    var pp := Downscale(previous.positive, previous.scale, target);
    if pp.Err? { return Unknown; }
    var cp := Downscale(current.positive, current.scale, target);
    if cp.Err? { return Unknown; }
    var pn := Downscale(previous.negative, previous.scale, target);
    if pn.Err? { return Unknown; }
    var cn := Downscale(current.negative, current.scale, target);
    if cn.Err? { return Unknown; }
    DecreasedIffNotGrown(previous.positive, previous.scale, current.positive, current.scale, target, pp.value, cp.value);
    DecreasedIffNotGrown(previous.negative, previous.scale, current.negative, current.scale, target, pn.value, cn.value);
    hint := if MapDecreased(pp.value, cp.value) || MapDecreased(pn.value, cn.value) then CounterReset else NotCounterReset;
  }

  lemma DecreasedIffNotGrown(a: Buckets, aScale: int, b: Buckets, bScale: int, target: int, m: map<int, nat>, n: map<int, nat>)
    requires target <= aScale && target <= bScale
    requires forall i :: Get(m, i) == Total(a.counts, a.offset, Pow2(aScale - target), i)
    requires forall i :: Get(n, i) == Total(b.counts, b.offset, Pow2(bScale - target), i)
    ensures MapDecreased(m, n) <==> !Grew(a, aScale, b, bScale, target)
  {
    hide Total;
    if MapDecreased(m, n) {
      var i :| i in m && Get(n, i) < m[i];
      assert Get(m, i) == m[i];
      assert BucketAt(a, aScale, target, i) > BucketAt(b, bScale, target, i);
    } else {
      forall i ensures BucketAt(a, aScale, target, i) <= BucketAt(b, bScale, target, i) {
        assert Get(m, i) <= Get(n, i);
      }
    }
  }

  // ------------------------------------------------------------------ tracker

  datatype Sample =
    | HistogramSample(series: nat, metadata: Metadata, histogram: Histogram)
    | ExponentialSample(series: nat, metadata: Metadata, exponential: Exponential)

  datatype State = State(histograms: map<nat, Histogram>, exponentials: map<nat, Exponential>)

  /** Only these samples are compared and remembered. */
  predicate Tracked(s: Sample) { s.metadata.temporality.Cumulative? && !s.metadata.stale }

  /** The hint a sample is stamped with in a state. */
  ghost function HintIn(state: State, s: Sample): Hint {
    if s.metadata.temporality.DeltaKind? then NotCounterReset
    else if !Tracked(s) then Unknown
    else match s
      case HistogramSample(series, _, h) =>
        if series in state.histograms then HistogramHint(state.histograms[series], h) else Unknown
      case ExponentialSample(series, _, x) =>
        if series in state.exponentials then ExponentialHint(state.exponentials[series], x) else Unknown
  }

  function Remember(state: State, s: Sample): State {
    if !Tracked(s) then state
    else match s
      case HistogramSample(series, _, h) => state.(histograms := state.histograms[series := h])
      case ExponentialSample(series, _, x) => state.(exponentials := state.exponentials[series := x])
  }

  /** A prepared update: nothing, or the state to insert for one series. */
  datatype Token = Nothing | NextHistogram(series: nat, h: Histogram) | NextExponential(series: nat, x: Exponential)

  class OtlpResetTracker {
    var histograms: map<nat, Histogram>
    var exponentials: map<nat, Exponential>

    function Now(): State
      reads this
    { State(histograms, exponentials) }

    constructor ()
      ensures Now() == State(map[], map[])
    {
      histograms, exponentials := map[], map[];
    }

    /** Stamps at once: the hint against the remembered state, which the sample then
        replaces. */
    method Stamp(s: Sample) returns (hint: Hint)
      modifies this
      ensures hint == HintIn(old(Now()), s) && Now() == Remember(old(Now()), s)
    {
      hide ExponentialHint, HistogramHint;
      if s.metadata.temporality.DeltaKind? { return NotCounterReset; }
      if s.metadata.temporality.Unspecified? || s.metadata.stale { return Unknown; }
      hint := Unknown;
      match s {
      case HistogramSample(series, _, h) =>
        if series in histograms { hint := HistogramHint(histograms[series], h); }
        histograms := histograms[series := h];
      case ExponentialSample(series, _, x) =>
        if series in exponentials { hint := ComputeExponentialHint(exponentials[series], x); }
        exponentials := exponentials[series := x];
      }
    }

    /** Computes the same hint and a token, and changes nothing; without memory it
        fails instead. */
    method Prepare(s: Sample, memory: bool) returns (r: Option<(Hint, Token)>)
      ensures r.None? <==> Tracked(s) && !memory
      ensures r.Some? ==> r.value.0 == HintIn(Now(), s) && After(r.value.1, Now()) == Remember(Now(), s)
    {
      hide ExponentialHint, HistogramHint;
      if s.metadata.temporality.DeltaKind? { return Some((NotCounterReset, Nothing)); }
      if s.metadata.temporality.Unspecified? || s.metadata.stale { return Some((Unknown, Nothing)); }
      if !memory { return None; }
      var hint := Unknown;
      match s {
      case HistogramSample(series, _, h) =>
        if series in histograms { hint := HistogramHint(histograms[series], h); }
        r := Some((hint, NextHistogram(series, h)));
      case ExponentialSample(series, _, x) =>
        if series in exponentials { hint := ComputeExponentialHint(exponentials[series], x); }
        r := Some((hint, NextExponential(series, x)));
      }
    }

    method Commit(token: Token)
      modifies this
      ensures Now() == After(token, old(Now()))
    {
      match token {
      case Nothing =>
      case NextHistogram(series, h) => histograms := histograms[series := h];
      case NextExponential(series, x) => exponentials := exponentials[series := x];
      }
    }
  }

  function After(token: Token, state: State): State {
    match token
    case Nothing => state
    case NextHistogram(series, h) => state.(histograms := state.histograms[series := h])
    case NextExponential(series, x) => state.(exponentials := state.exponentials[series := x])
  }

  /** A sample that was prepared, and whether it was then committed or dropped. */
  datatype Step = Step(sample: Sample, memory: bool, committed: bool)

  predicate Commits(step: Step) { step.committed && (Tracked(step.sample) ==> step.memory) }

  /** The samples that were committed. */
  function Committed(steps: seq<Step>): seq<Sample> {
    if steps == [] then []
    else Committed(steps[..|steps| - 1]) + if Commits(steps[|steps| - 1]) then [steps[|steps| - 1].sample] else []
  }

  /** The state, and the hints, of stamping each sample at once. */
  function StateAfter(samples: seq<Sample>): State {
    if samples == [] then State(map[], map[]) else Remember(StateAfter(samples[..|samples| - 1]), samples[|samples| - 1])
  }

  ghost function HintsOf(samples: seq<Sample>): (hs: seq<Hint>)
    ensures |hs| == |samples|
  {
    if samples == [] then []
    else HintsOf(samples[..|samples| - 1]) + [HintIn(StateAfter(samples[..|samples| - 1]), samples[|samples| - 1])]
  }

  /** Over any run of prepares, each settled before the next, the committed samples
      get the hints, and leave the state, of immediate stamping of them alone. */
  method RunPrepared(steps: seq<Step>) returns (tracker: OtlpResetTracker, hints: seq<Hint>)
    ensures fresh(tracker) && tracker.Now() == StateAfter(Committed(steps)) && hints == HintsOf(Committed(steps))
  {
    hide HintIn, Remember, Committed, StateAfter, HintsOf;
    NothingCommitted();
    tracker := new OtlpResetTracker();
    hints := [];
    for i := 0 to |steps|
      invariant fresh(tracker) && tracker.Now() == StateAfter(Committed(steps[..i])) && hints == HintsOf(Committed(steps[..i]))
    {
      CommittedStep(steps, i);
      var prepared := tracker.Prepare(steps[i].sample, steps[i].memory);
      if prepared.Some? && steps[i].committed {
        tracker.Commit(prepared.value.1);
        hints := hints + [prepared.value.0];
      }
    }
    assert steps[..|steps|] == steps;
  }

  lemma NothingCommitted()
    ensures Committed([]) == [] && StateAfter([]) == State(map[], map[]) && HintsOf([]) == []
  {
  }

  lemma CommittedStep(steps: seq<Step>, i: nat)
    requires i < |steps|
    ensures var before, after, s := Committed(steps[..i]), Committed(steps[..i + 1]), steps[i].sample;
            if Commits(steps[i]) then
              StateAfter(after) == Remember(StateAfter(before), s) && HintsOf(after) == HintsOf(before) + [HintIn(StateAfter(before), s)]
            else after == before
  {
    hide HintIn, Remember;
    assert steps[..i + 1][..i] == steps[..i];
    var before, s := Committed(steps[..i]), steps[i].sample;
    assert (before + [s])[..|before|] == before;
    assert before + [] == before;
  }

  // ------------------------------------------------------------------- chains

  /** Nothing shrank from one histogram to a later one. */
  predicate HistogramGrew(a: Histogram, b: Histogram) {
    && a.bounds == b.bounds && a.count <= b.count && |a.buckets| == |b.buckets|
    && forall i :: 0 <= i < |a.buckets| ==> a.buckets[i] <= b.buckets[i]
  }

  predicate OfHistogram(s: Sample, series: nat) { s.HistogramSample? && s.series == series && Tracked(s) }
  predicate OfExponential(s: Sample, series: nat) { s.ExponentialSample? && s.series == series && Tracked(s) }

  lemma NotResetGrew(a: Histogram, b: Histogram)
    requires HistogramHint(a, b) == NotCounterReset
    ensures HistogramGrew(a, b)
  {
  }

  lemma StateStep(samples: seq<Sample>, n: nat)
    requires n < |samples|
    ensures StateAfter(samples[..n + 1]) == Remember(StateAfter(samples[..n]), samples[n])
    ensures HintsOf(samples[..n + 1])[n] == HintIn(StateAfter(samples[..n]), samples[n])
    ensures HintsOf(samples[..n + 1])[..n] == HintsOf(samples[..n])
  {
    hide HintIn, Remember;
    assert samples[..n + 1][..n] == samples[..n];
  }

  /** The hint of sample `k` in a run. */
  ghost function HintAt(samples: seq<Sample>, k: nat): Hint
    requires k < |samples|
  {
    HintIn(StateAfter(samples[..k]), samples[k])
  }

  /** Along committed cumulative histograms of a series that are all hinted as not
      reset, bounds stay equal and the count and every bucket never decrease. */
  lemma {:induction false} HistogramChain(samples: seq<Sample>, a: nat, b: nat, series: nat)
    requires a < b <= |samples| && OfHistogram(samples[a], series)
    requires forall k :: a < k < b && OfHistogram(samples[k], series) ==> HintAt(samples, k) == NotCounterReset
    ensures var state := StateAfter(samples[..b]);
            series in state.histograms && HistogramGrew(samples[a].histogram, state.histograms[series])
    decreases b
  {
    hide HistogramHint, ExponentialHint;
    StateStep(samples, b - 1);
    if b > a + 1 {
      HistogramChain(samples, a, b - 1, series);
      var s := samples[b - 1];
      if OfHistogram(s, series) {
        assert HintAt(samples, b - 1) == NotCounterReset;
        NotResetGrew(StateAfter(samples[..b - 1]).histograms[series], s.histogram);
      }
    }
  }

  /** The state holds the last tracked histogram, so the chain ends at it. */
  lemma HistogramChainEnds(samples: seq<Sample>, a: nat, b: nat, series: nat)
    requires a < b < |samples| && OfHistogram(samples[a], series) && OfHistogram(samples[b], series)
    requires forall k :: a < k <= b && OfHistogram(samples[k], series) ==> HintAt(samples, k) == NotCounterReset
    ensures HistogramGrew(samples[a].histogram, samples[b].histogram)
  {
    hide HistogramHint, ExponentialHint;
    HistogramChain(samples, a, b + 1, series);
    StateStep(samples, b);
  }

  /** Nothing shrank from one exponential histogram to a later one, seen at scale
      `target`. */
  ghost predicate ExponentialGrew(a: Exponential, b: Exponential, target: int) {
    && target <= a.scale && target <= b.scale
    && a.zeroThresholdBits == b.zeroThresholdBits && a.count <= b.count && a.zeroCount <= b.zeroCount
    && Grew(a.positive, a.scale, b.positive, b.scale, target) && Grew(a.negative, a.scale, b.negative, b.scale, target)
  }

  lemma NotResetGrewExponential(a: Exponential, b: Exponential, target: int)
    requires ExponentialHint(a, b) == NotCounterReset && target <= a.scale && target <= b.scale
    ensures ExponentialGrew(a, b, target)
  {
    hide Total, Pow2, Representable;
    var common := Least(a.scale, b.scale);
    GrewCoarser(a.positive, a.scale, b.positive, b.scale, common, target);
    GrewCoarser(a.negative, a.scale, b.negative, b.scale, common, target);
  }

  lemma GrewCoarser(a: Buckets, aScale: int, b: Buckets, bScale: int, common: int, target: int)
    requires target <= common <= aScale && common <= bScale && Grew(a, aScale, b, bScale, common)
    ensures Grew(a, aScale, b, bScale, target)
  {
    hide Total, Pow2;
    var da, db, e := Pow2(aScale - common), Pow2(bScale - common), Pow2(common - target);
    Pow2Add(aScale - common, common - target);
    Pow2Add(bScale - common, common - target);
    forall i ensures BucketAt(a, aScale, target, i) <= BucketAt(b, bScale, target, i) {
      forall j ensures Total(a.counts, a.offset, da, j) <= Total(b.counts, b.offset, db, j) {
        assert BucketAt(a, aScale, common, j) <= BucketAt(b, bScale, common, j);
      }
      CoarserGrows(a, da, b, db, e, i);
    }
  }

  lemma GrewTrans(a: Exponential, b: Exponential, c: Exponential, target: int)
    requires ExponentialGrew(a, b, target) && ExponentialGrew(b, c, target)
    ensures ExponentialGrew(a, c, target)
  {
    hide Total, Pow2;
    forall i ensures BucketAt(a.positive, a.scale, target, i) <= BucketAt(c.positive, c.scale, target, i) {
      assert BucketAt(a.positive, a.scale, target, i) <= BucketAt(b.positive, b.scale, target, i);
    }
    forall i ensures BucketAt(a.negative, a.scale, target, i) <= BucketAt(c.negative, c.scale, target, i) {
      assert BucketAt(a.negative, a.scale, target, i) <= BucketAt(b.negative, b.scale, target, i);
    }
  }

  /** Along committed cumulative exponential histograms that are all hinted as not
      reset, whatever their scales, the counts and every bucket never decrease at any
      scale that all of them can be folded to. */
  lemma {:induction false} ExponentialChain(samples: seq<Sample>, a: nat, b: nat, series: nat, target: int)
    requires a < b <= |samples| && OfExponential(samples[a], series)
    requires forall k :: a <= k < b && OfExponential(samples[k], series) ==> target <= samples[k].exponential.scale
    requires forall k :: a < k < b && OfExponential(samples[k], series) ==> HintAt(samples, k) == NotCounterReset
    ensures var state := StateAfter(samples[..b]);
            series in state.exponentials && ExponentialGrew(samples[a].exponential, state.exponentials[series], target)
    decreases b
  {
    hide HistogramHint, ExponentialHint, ExponentialGrew;
    StateStep(samples, b - 1);
    if b == a + 1 {
      GrewSelf(samples[a].exponential, target);
    } else {
      ExponentialChain(samples, a, b - 1, series, target);
      var s := samples[b - 1];
      if OfExponential(s, series) {
        assert HintAt(samples, b - 1) == NotCounterReset;
        var last := StateAfter(samples[..b - 1]).exponentials[series];
        GrewScale(samples[a].exponential, last, target);
        NotResetGrewExponential(last, s.exponential, target);
        GrewTrans(samples[a].exponential, last, s.exponential, target);
      }
    }
  }

  lemma GrewSelf(a: Exponential, target: int)
    requires target <= a.scale
    ensures ExponentialGrew(a, a, target)
  {
  }

  lemma GrewScale(a: Exponential, b: Exponential, target: int)
    requires ExponentialGrew(a, b, target)
    ensures target <= b.scale
  {
  }

  /** From the first to the last of them. */
  lemma ExponentialChainEnds(samples: seq<Sample>, a: nat, b: nat, series: nat, target: int)
    requires a < b < |samples| && OfExponential(samples[a], series) && OfExponential(samples[b], series)
    requires forall k :: a <= k <= b && OfExponential(samples[k], series) ==> target <= samples[k].exponential.scale
    requires forall k :: a < k <= b && OfExponential(samples[k], series) ==> HintAt(samples, k) == NotCounterReset
    ensures ExponentialGrew(samples[a].exponential, samples[b].exponential, target)
  {
    hide HistogramHint, ExponentialHint, ExponentialGrew;
    ExponentialChain(samples, a, b + 1, series, target);
    StateStep(samples, b);
  }

  // --------------------------------------------------------------------- sums

  /** A sum that is there and is a number. */
  predicate Summed(sum: Option<Float>) { sum.Some? && !sum.value.NaN? }

  lemma SumStep(a: Option<Float>, b: Option<Float>, c: Option<Float>)
    requires Summed(b) && !SumDecreased(a, b) && !SumDecreased(b, c)
    ensures !SumDecreased(a, c)
  {
  }

  lemma NotResetSum(a: Histogram, b: Histogram)
    requires HistogramHint(a, b) == NotCounterReset
    ensures !SumDecreased(a.sum, b.sum)
  {
  }

  lemma NotResetSumExponential(a: Exponential, b: Exponential)
    requires ExponentialHint(a, b) == NotCounterReset
    ensures !SumDecreased(a.sum, b.sum)
  {
  }

  /** Along a chain of histograms that are all hinted as not reset the sum never
      decreases, provided that those after the first have one. */
  lemma {:induction false} SumChain(samples: seq<Sample>, a: nat, b: nat, series: nat)
    requires a < b <= |samples| && OfHistogram(samples[a], series)
    requires forall k :: a < k < b && OfHistogram(samples[k], series) ==>
               HintAt(samples, k) == NotCounterReset && Summed(samples[k].histogram.sum)
    ensures var state := StateAfter(samples[..b]);
            && series in state.histograms && !SumDecreased(samples[a].histogram.sum, state.histograms[series].sum)
            && (state.histograms[series] == samples[a].histogram || Summed(state.histograms[series].sum))
    decreases b
  {
    hide HistogramHint, ExponentialHint;
    StateStep(samples, b - 1);
    if b > a + 1 {
      SumChain(samples, a, b - 1, series);
      var s := samples[b - 1];
      if OfHistogram(s, series) {
        assert HintAt(samples, b - 1) == NotCounterReset;
        var last := StateAfter(samples[..b - 1]).histograms[series];
        NotResetSum(last, s.histogram);
        if Summed(last.sum) { SumStep(samples[a].histogram.sum, last.sum, s.histogram.sum); }
      }
    }
  }

  /** From the first to the last: only those between need a sum. */
  lemma SumChainEnds(samples: seq<Sample>, a: nat, b: nat, series: nat)
    requires a < b < |samples| && OfHistogram(samples[a], series) && OfHistogram(samples[b], series)
    requires forall k :: a < k <= b && OfHistogram(samples[k], series) ==> HintAt(samples, k) == NotCounterReset
    requires forall k :: a < k < b && OfHistogram(samples[k], series) ==> Summed(samples[k].histogram.sum)
    ensures !SumDecreased(samples[a].histogram.sum, samples[b].histogram.sum)
  {
    hide HistogramHint, ExponentialHint;
    SumChain(samples, a, b, series);
    assert HintAt(samples, b) == NotCounterReset;
    var last := StateAfter(samples[..b]).histograms[series];
    NotResetSum(last, samples[b].histogram);
    if Summed(last.sum) { SumStep(samples[a].histogram.sum, last.sum, samples[b].histogram.sum); }
  }

  lemma {:induction false} ExponentialSumChain(samples: seq<Sample>, a: nat, b: nat, series: nat)
    requires a < b <= |samples| && OfExponential(samples[a], series)
    requires forall k :: a < k < b && OfExponential(samples[k], series) ==>
               HintAt(samples, k) == NotCounterReset && Summed(samples[k].exponential.sum)
    ensures var state := StateAfter(samples[..b]);
            && series in state.exponentials && !SumDecreased(samples[a].exponential.sum, state.exponentials[series].sum)
            && (state.exponentials[series] == samples[a].exponential || Summed(state.exponentials[series].sum))
    decreases b
  {
    hide HistogramHint, ExponentialHint;
    StateStep(samples, b - 1);
    if b > a + 1 {
      ExponentialSumChain(samples, a, b - 1, series);
      var s := samples[b - 1];
      if OfExponential(s, series) {
        assert HintAt(samples, b - 1) == NotCounterReset;
        var last := StateAfter(samples[..b - 1]).exponentials[series];
        NotResetSumExponential(last, s.exponential);
        if Summed(last.sum) { SumStep(samples[a].exponential.sum, last.sum, s.exponential.sum); }
      }
    }
  }

  lemma ExponentialSumChainEnds(samples: seq<Sample>, a: nat, b: nat, series: nat)
    requires a < b < |samples| && OfExponential(samples[a], series) && OfExponential(samples[b], series)
    requires forall k :: a < k <= b && OfExponential(samples[k], series) ==> HintAt(samples, k) == NotCounterReset
    requires forall k :: a < k < b && OfExponential(samples[k], series) ==> Summed(samples[k].exponential.sum)
    ensures !SumDecreased(samples[a].exponential.sum, samples[b].exponential.sum)
  {
    hide HistogramHint, ExponentialHint;
    ExponentialSumChain(samples, a, b, series);
    assert HintAt(samples, b) == NotCounterReset;
    var last := StateAfter(samples[..b]).exponentials[series];
    NotResetSumExponential(last, samples[b].exponential);
    if Summed(last.sum) { SumStep(samples[a].exponential.sum, last.sum, samples[b].exponential.sum); }
  }

  const ONE := Some(Finite(1.0))
  const ZERO := Some(Finite(0.0))

  /** A histogram without a sum between two equal ones with one: both hints are blind to
      the decrease. */
  lemma SumGap(y: Histogram)
    requires !Summed(y.sum) && SameBounds(y.bounds, y.bounds)
    ensures HistogramHint(y.(sum := ONE), y) == NotCounterReset && HistogramHint(y, y.(sum := ZERO)) == NotCounterReset
    ensures SumDecreased(ONE, ZERO)
  {
  }

  /** A histogram keeps sums from decreasing across it exactly when it has a sum, or when
      a NaN among its bounds makes every hint unknown. */
  lemma SumKeptIff(y: Histogram)
    ensures (forall x, z :: HistogramHint(x, y) == NotCounterReset && HistogramHint(y, z) == NotCounterReset ==> !SumDecreased(x.sum, z.sum))
            <==> Summed(y.sum) || !SameBounds(y.bounds, y.bounds)
  {
    hide HistogramHint, SameBounds;
    forall x, z | HistogramHint(x, y) == NotCounterReset && HistogramHint(y, z) == NotCounterReset && Summed(y.sum)
      ensures !SumDecreased(x.sum, z.sum)
    {
      NotResetSum(x, y);
      NotResetSum(y, z);
      SumStep(x.sum, y.sum, z.sum);
    }
    forall x | HistogramHint(x, y) == NotCounterReset ensures SameBounds(y.bounds, y.bounds) { NotResetBounds(x, y); }
    if !Summed(y.sum) && SameBounds(y.bounds, y.bounds) { SumGap(y); }
  }

  lemma NotResetBounds(x: Histogram, y: Histogram)
    requires HistogramHint(x, y) == NotCounterReset
    ensures SameBounds(y.bounds, y.bounds)
  {
  }

  /** The failing runs: whatever such a histogram is, with its sum missing or NaN, a run of
      three tracked samples is hinted as not reset twice while its sum decreases. */
  lemma SumMayDecrease(y: Histogram, series: nat, metadata: Metadata)
    requires !Summed(y.sum) && SameBounds(y.bounds, y.bounds) && metadata.temporality.Cumulative? && !metadata.stale
    ensures var run := [HistogramSample(series, metadata, y.(sum := ONE)), HistogramSample(series, metadata, y),
                        HistogramSample(series, metadata, y.(sum := ZERO))];
            && HintAt(run, 1) == NotCounterReset && HintAt(run, 2) == NotCounterReset
            && SumDecreased(run[0].histogram.sum, run[2].histogram.sum)
  {
    hide HistogramHint, ExponentialHint, SameBounds;
    var run := [HistogramSample(series, metadata, y.(sum := ONE)), HistogramSample(series, metadata, y),
                HistogramSample(series, metadata, y.(sum := ZERO))];
    SumGap(y);
    StateStep(run, 0);
    StateStep(run, 1);
  }

  /** Some scale at which the buckets can be compared. */
  ghost predicate ComparableAt(y: Exponential, t: i32) {
    Representable(y.positive, y.scale, t) && Representable(y.negative, y.scale, t)
  }

  ghost predicate Comparable(y: Exponential) { exists t: i32 :: ComparableAt(y, t) }

  lemma NotResetComparable(x: Exponential, y: Exponential)
    requires ExponentialHint(x, y) == NotCounterReset
    ensures Comparable(y)
  {
    hide Representable, Grew;
    var t: i32 := if x.scale < y.scale then x.scale else y.scale;
    assert t == Least(x.scale, y.scale);
    assert ComparableAt(y, t);
  }

  /** The histogram as it is at scale `t`. */
  lemma AtScale(y: Exponential, t: i32) returns (m: Exponential)
    requires ComparableAt(y, t)
    ensures m.scale == t && m.startTime == y.startTime && m.count == y.count && m.zeroThresholdBits == y.zeroThresholdBits
    ensures m.zeroCount == y.zeroCount && ComparableAt(m, t)
    ensures forall i :: BucketAt(m.positive, t, t, i) == BucketAt(y.positive, y.scale, t, i)
    ensures forall i :: BucketAt(m.negative, t, t, i) == BucketAt(y.negative, y.scale, t, i)
  {
    hide Total, Folds;
    var d := Pow2(y.scale as int - t as int);
    var p := Coarsened(y.positive, d);
    var n := Coarsened(y.negative, d);
    m := Exponential(y.startTime, y.count, y.sum, t, y.zeroThresholdBits, y.zeroCount, p, n);
    assert Pow2(0) == 1;
  }

  /** The same gap between exponential histograms. */
  lemma ExponentialSumGap(y: Exponential, t: i32) returns (x: Exponential, z: Exponential)
    requires !Summed(y.sum) && ComparableAt(y, t)
    ensures ExponentialHint(x, y) == NotCounterReset && ExponentialHint(y, z) == NotCounterReset
    ensures x.sum == ONE && z.sum == ZERO && SumDecreased(x.sum, z.sum)
  {
    hide Total, Folds, BucketAt;
    var m := AtScale(y, t);
    x, z := m.(sum := ONE), m.(sum := ZERO);
    assert Least(t, y.scale) == t && Least(y.scale, t) == t;
    assert Grew(m.positive, t, y.positive, y.scale, t) && Grew(m.negative, t, y.negative, y.scale, t);
    assert Grew(y.positive, y.scale, m.positive, t, t) && Grew(y.negative, y.scale, m.negative, t, t);
  }

  /** An exponential histogram keeps sums from decreasing across it exactly when it has a
      sum, or when its buckets fit no scale, so that every hint is unknown. */
  lemma ExponentialSumKeptIff(y: Exponential)
    ensures (forall x, z :: ExponentialHint(x, y) == NotCounterReset && ExponentialHint(y, z) == NotCounterReset ==> !SumDecreased(x.sum, z.sum))
            <==> Summed(y.sum) || !Comparable(y)
  {
    hide ExponentialHint, ComparableAt;
    forall x, z | ExponentialHint(x, y) == NotCounterReset && ExponentialHint(y, z) == NotCounterReset && Summed(y.sum)
      ensures !SumDecreased(x.sum, z.sum)
    {
      NotResetSumExponential(x, y);
      NotResetSumExponential(y, z);
      SumStep(x.sum, y.sum, z.sum);
    }
    forall x | ExponentialHint(x, y) == NotCounterReset ensures Comparable(y) { NotResetComparable(x, y); }
    if !Summed(y.sum) && Comparable(y) {
      var t: i32 :| ComparableAt(y, t);
      var x, z := ExponentialSumGap(y, t);
    }
  }

  /** And the failing runs of exponential histograms. */
  lemma ExponentialSumMayDecrease(y: Exponential, series: nat, metadata: Metadata) returns (x: Exponential, z: Exponential)
    requires !Summed(y.sum) && Comparable(y) && metadata.temporality.Cumulative? && !metadata.stale
    ensures var run := [ExponentialSample(series, metadata, x), ExponentialSample(series, metadata, y), ExponentialSample(series, metadata, z)];
            && HintAt(run, 1) == NotCounterReset && HintAt(run, 2) == NotCounterReset
            && SumDecreased(run[0].exponential.sum, run[2].exponential.sum)
  {
    hide HistogramHint, ExponentialHint, ComparableAt;
    var t: i32 :| ComparableAt(y, t);
    x, z := ExponentialSumGap(y, t);
    var run := [ExponentialSample(series, metadata, x), ExponentialSample(series, metadata, y), ExponentialSample(series, metadata, z)];
    StateStep(run, 0);
    StateStep(run, 1);
  }
}
