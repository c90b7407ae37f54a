/**
 The two-Gaussian tracker: it quarantines each observed dove location for
 the horizon, feeds the change since the released location to a core and a
 tail variance estimator (the core change winsorised, the tail change
 doubled), and predicts a 95/5 mixture of two normals centred on the latest
 location.
 */
module EmwaVarTracker {
  import opened Wrappers
  import opened RealMath
  import opened Records
  import opened TrackerBase
  import opened NormalDist

  /**
   A fading variance estimator seen from outside: a fresh one for a fading
   factor, one observation folded in, and its current variance.
   */
  datatype Estimator<!V> = Estimator(create: real -> V, update: (V, real) -> V, get: V -> real)

  /** The tracker's fields; `count` lives in the base. */
  datatype State<V> = State(
    base: Base<real>,
    fadingFactor: real,
    currentX: Option<real>,
    core: V,
    tail: V,
    latestThreat: real,
    warmupCutoff: int,
    tickCount: int)

  /** `math.sqrt` of a negative variance raises. */
  datatype TickError = MathDomainError

  /** The state after a tick, and the error the tick raised part-way, if any. */
  datatype TickOutcome<V> = TickOutcome(state: State<V>, raised: Option<TickError>)

  /** The mixture weights of the core and the tail component. */
  const CoreWeight: real := 0.95
  const TailWeight: real := 0.05

  /** The smallest standard deviation a prediction carries. */
  const ScaleFloor: real := 0.000001

  function Init<V>(est: Estimator<V>, fadingFactor: real, horizon: int, warmup: int): (s: State<V>)
    ensures s.base == TrackerBase.Init(horizon)
    ensures s.currentX.None? && s.tickCount == 0 && s.warmupCutoff == warmup
    ensures s.core == est.create(fadingFactor) && s.tail == est.create(fadingFactor)
    ensures s.fadingFactor == fadingFactor && s.latestThreat == 0.0
  {
    State(TrackerBase.Init(horizon), fadingFactor, None, est.create(fadingFactor), est.create(fadingFactor), 0.0, warmup, 0)
  }

  /** The constructor's defaults: fading factor 0.0001, horizon 10, no warm-up. */
  function DefaultInit<V>(est: Estimator<V>): (s: State<V>)
    ensures s.base.horizon == 10 && s.fadingFactor == 0.0001 && s.warmupCutoff == 0
  {
    Init(est, 0.0001, 10, 0)
  }

  /** `np.clip`: x pulled into [lo, hi]. */
  function Clip(x: real, lo: real, hi: real): (r: real)
    ensures lo <= hi ==> lo <= r <= hi
    ensures lo <= x <= hi ==> r == x
    ensures x < lo && lo <= hi ==> r == lo
    ensures hi < x ==> r == hi
  {
    var raised := if x < lo then lo else x;
    if raised > hi then hi else raised
  }

  /**
   The variance the winsorising threshold is taken from: the core
   estimate once some change has been seen, 1.0 before.
   */
  function ThresholdVariance<V>(est: Estimator<V>, s: State<V>): (v: real)
    ensures s.base.count <= 0 ==> v == 1.0
    ensures s.base.count > 0 ==> v == est.get(s.core)
  {
    if s.base.count > 0 then est.get(s.core) else 1.0
  }

  /** The change fed to the core estimator: clipped to the threshold when the threshold is positive. */
  function Winsorized(change: real, threshold: real): (w: real)
    ensures threshold > 0.0 ==> -threshold <= w <= threshold
    ensures threshold > 0.0 && -threshold <= change <= threshold ==> w == change
    ensures threshold <= 0.0 ==> w == change
    ensures threshold > 0.0 && change > threshold ==> w == threshold
    ensures threshold > 0.0 && change < -threshold ==> w == -threshold
  {
    if threshold > 0.0 then Clip(change, -threshold, threshold) else change
  }

  /**
   One tick: quarantine the location, release the newest matured one, and
   if one was released fold the change into both estimators. `metrics` is
   accepted and ignored.
   */
  function Tick<V, M>(m: Math, est: Estimator<V>, s: State<V>, p: Payload, metrics: M): (r: TickOutcome<V>)
    ensures r.state.currentX == Some(p.doveLocation)
    ensures r.state.base.quarantine == Pop(Add(s.base, p.time, p.doveLocation), p.time).base.quarantine
    ensures r.state.base.horizon == s.base.horizon
    ensures r.state.fadingFactor == s.fadingFactor && r.state.warmupCutoff == s.warmupCutoff
    ensures r.state.latestThreat == s.latestThreat
  {
    var x := p.doveLocation;
    var popped := Pop(Add(s.base, p.time, x), p.time);
    var s1 := s.(base := popped.base, currentX := Some(x));
    match popped.released
    case None => TickOutcome(s1.(tickCount := s.tickCount + 1), None)
    case Some(prev) =>
      var change := x - prev;
      var v := ThresholdVariance(est, s);
      if v < 0.0 then TickOutcome(s1, Some(MathDomainError))
      else
        var w := Winsorized(change, 2.0 * m.sqrt(v));
        TickOutcome(
          s1.(core := est.update(s.core, w),
              tail := est.update(s.tail, 2.0 * change),
              base := popped.base.(count := popped.base.count + 1),
              tickCount := s.tickCount + 1),
          None)
  }

  /** Some quarantined location has matured by `now`. */
  ghost predicate Releases(q: seq<Entry<real>>, now: real) {
    exists j :: 0 <= j < |q| && q[j].release <= now
  }

  /**
   The tick counters: every tick that does not raise counts one tick, and
   counts one change exactly when a location was released. A tick raises
   only when a location was released and the core variance is negative; it
   then leaves both counters and both estimators as they were.
   */
  lemma TickCounters<V, M>(m: Math, est: Estimator<V>, s: State<V>, p: Payload, metrics: M)
    ensures
      var r := Tick(m, est, s, p, metrics);
      var q := Add(s.base, p.time, p.doveLocation).quarantine;
      && (r.raised.Some? <==> Releases(q, p.time) && ThresholdVariance(est, s) < 0.0)
      && (r.raised.None? ==> r.state.tickCount == s.tickCount + 1)
      && (r.raised.None? ==> (r.state.base.count == s.base.count + 1 <==> Releases(q, p.time)))
      && (r.raised.None? && !Releases(q, p.time) ==>
            r.state.base.count == s.base.count && r.state.core == s.core && r.state.tail == s.tail)
      && (r.raised.Some? ==>
            && r.state.tickCount == s.tickCount && r.state.base.count == s.base.count
            && r.state.core == s.core && r.state.tail == s.tail)
  {
    var q := Add(s.base, p.time, p.doveLocation).quarantine;
    var popped := Pop(Add(s.base, p.time, p.doveLocation), p.time);
    if popped.released.Some? {
      assert q[|popped.base.quarantine|].release <= p.time;
    }
  }

  /**
   A tick that releases the location `prev` and does not raise feeds the
   tail estimator twice the change since `prev`, and the core estimator the
   change winsorised to twice the standard deviation of the threshold
   variance. A zero variance gives a zero threshold, and then the change
   reaches the core estimator unclipped.
   */
  lemma TickFeedsEstimators<V, M>(m: Math, est: Estimator<V>, s: State<V>, p: Payload, metrics: M)
    requires Pop(Add(s.base, p.time, p.doveLocation), p.time).released.Some?
    requires ThresholdVariance(est, s) >= 0.0
    ensures
      var prev := Pop(Add(s.base, p.time, p.doveLocation), p.time).released.value;
      var change := p.doveLocation - prev;
      var threshold := 2.0 * m.sqrt(ThresholdVariance(est, s));
      var r := Tick(m, est, s, p, metrics);
      && r.raised.None?
      && r.state.tail == est.update(s.tail, 2.0 * change)
      && r.state.core == est.update(s.core, Winsorized(change, threshold))
      && (exists w ::
           && r.state.core == est.update(s.core, w)
           && (threshold > 0.0 ==> -threshold <= w <= threshold)
           && (-threshold <= change <= threshold ==> w == change)
           && (threshold == 0.0 ==> w == change))
      && (threshold == 0.0 <==> ThresholdVariance(est, s) == 0.0)
      && (ThresholdVariance(est, s) == 0.0 ==> r.state.core == est.update(s.core, change))
      && (s.base.count <= 0 ==> threshold == 2.0)
  {
    var prev := Pop(Add(s.base, p.time, p.doveLocation), p.time).released.value;
    var threshold := 2.0 * m.sqrt(ThresholdVariance(est, s));
    var w := Winsorized(p.doveLocation - prev, threshold);
    assert Tick(m, est, s, p, metrics).state.core == est.update(s.core, w);
  }

  /** The performance metrics passed to a tick have no effect on it. */
  lemma TickIgnoresMetrics<V, M>(m: Math, est: Estimator<V>, s: State<V>, p: Payload, a: M, b: M)
    ensures Tick(m, est, s, p, a) == Tick(m, est, s, p, b)
  {
  }

  /** The counters stay ordered: no more changes than ticks, neither negative. */
  ghost predicate CountersValid<V>(s: State<V>) {
    0 <= s.base.count <= s.tickCount
  }

  lemma TickKeepsCountersValid<V, M>(m: Math, est: Estimator<V>, s: State<V>, p: Payload, metrics: M)
    requires CountersValid(s)
    ensures CountersValid(Tick(m, est, s, p, metrics).state)
  {
    TickCounters(m, est, s, p, metrics);
  }

  /**
   The standard deviation a prediction uses for one estimator: the square
   root of its variance, 1.0 when the square root raises, never below the
   floor.
   */
  function ComponentScale(m: Math, variance: real): (sd: real)
    ensures sd >= ScaleFloor
    ensures variance < 0.0 ==> sd == 1.0
    ensures variance >= 0.0 && m.sqrt(variance) > ScaleFloor ==> sd == m.sqrt(variance)
    ensures variance >= 0.0 && m.sqrt(variance) <= ScaleFloor ==> sd == ScaleFloor
  {
    var sd := if variance < 0.0 then 1.0 else m.sqrt(variance);
    if sd <= ScaleFloor then ScaleFloor else sd
  }

  /**
   The prediction: nothing during warm-up; afterwards a mixture of a core
   and a tail normal centred on the latest location, weighted 0.95 and 0.05.
   */
  function Predict<V>(m: Math, est: Estimator<V>, s: State<V>): (r: Option<Density>)
    ensures r.None? <==> s.tickCount < s.warmupCutoff
    ensures r.Some? ==>
      && r.value.Mixture?
      && |r.value.components| == 2
      && r.value.components[0].weight == CoreWeight
      && r.value.components[1].weight == TailWeight
      && r.value.components[0].params == NormalParams(s.currentX, ComponentScale(m, est.get(s.core)))
      && r.value.components[1].params == NormalParams(s.currentX, ComponentScale(m, est.get(s.tail)))
  {
    if s.tickCount < s.warmupCutoff then None
    else
      Some(Mixture([
        Component(NormalParams(s.currentX, ComponentScale(m, est.get(s.core))), CoreWeight),
        Component(NormalParams(s.currentX, ComponentScale(m, est.get(s.tail))), TailWeight)]))
  }

  /**
   Ticks through the payloads in order, stopping at the first tick that
   raises; the horizon, fading factor, warm-up cutoff and threat stay as
   they were.
   */
  function RunTicks<V, M>(m: Math, est: Estimator<V>, s: State<V>, ps: seq<Payload>, metrics: M): (r: TickOutcome<V>)
    ensures r.state.base.horizon == s.base.horizon && r.state.fadingFactor == s.fadingFactor
    ensures r.state.warmupCutoff == s.warmupCutoff && r.state.latestThreat == s.latestThreat
    decreases |ps|
  {
    if |ps| == 0 then TickOutcome(s, None)
    else
      var o := Tick(m, est, s, ps[0], metrics);
      if o.raised.Some? then o else RunTicks(m, est, o.state, ps[1..], metrics)
  }

  /** A run that raises nothing counts every tick. */
  lemma {:induction false} RunTicksCounts<V, M>(m: Math, est: Estimator<V>, s: State<V>, ps: seq<Payload>, metrics: M)
    ensures RunTicks(m, est, s, ps, metrics).raised.None? ==>
      RunTicks(m, est, s, ps, metrics).state.tickCount == s.tickCount + |ps|
    decreases |ps|
  {
    if |ps| > 0 {
      var o := Tick(m, est, s, ps[0], metrics);
      TickCounters(m, est, s, ps[0], metrics);
      if o.raised.None? {
        RunTicksCounts(m, est, o.state, ps[1..], metrics);
      }
    }
  }

  /**
   A fresh tracker with warm-up w abstains exactly while fewer than w ticks
   have been taken.
   */
  lemma WarmupAbstains<V, M>(m: Math, est: Estimator<V>, fadingFactor: real, horizon: int, w: int, ps: seq<Payload>, metrics: M)
    requires RunTicks(m, est, Init(est, fadingFactor, horizon, w), ps, metrics).raised.None?
    ensures Predict(m, est, RunTicks(m, est, Init(est, fadingFactor, horizon, w), ps, metrics).state).None? <==> |ps| < w
  {
    RunTicksCounts(m, est, Init(est, fadingFactor, horizon, w), ps, metrics);
  }

  /**
   Once a location has been seen, a prediction always scores under the
   density metric: the score is 0.95 times the core density plus 0.05 times
   the tail density at the observation, and the stored prediction is the
   core component's.
   */
  lemma PredictionScores<V>(m: Math, est: Estimator<V>, s: State<V>, x: real)
    requires s.currentX.Some? && s.tickCount >= s.warmupCutoff
    ensures Predict(m, est, s).Some?
    ensures
      var d := Predict(m, est, s).value;
      var loc := s.currentX.value;
      var core := ComponentScale(m, est.get(s.core));
      var tail := ComponentScale(m, est.get(s.tail));
      var r := ScoreForNormalDist(m, d, x, PdfMetric);
      && r.Success?
      && r.value.0 == CoreWeight * NormalDensity(m, x, loc, core) + TailWeight * NormalDensity(m, x, loc, tail)
      && r.value.1 == Some(StoredPrediction(Some(loc), Some(core), x, NormalDensity(m, x, loc, core)))
  {
    var cs := Predict(m, est, s).value.components;
    var loc := s.currentX.value;
    var core := ComponentScale(m, est.get(s.core));
    var tail := ComponentScale(m, est.get(s.tail));
    assert cs == [cs[0], cs[1]];
    TwoComponents(m, cs[0], cs[1], x, PdfMetric, NormalDensity(m, x, loc, core), NormalDensity(m, x, loc, tail));
  }

  /**
   Before any location has been seen, a tracker without warm-up predicts a
   mixture whose `loc` is None. A builtin metric raises a TypeError on it
   (the scale is positive, so the scale check passes first), an unknown name
   raises as unsupported, and a callable metric receives the None and scores
   as usual.
   */
  lemma PredictionBeforeFirstTick<V>(m: Math, est: Estimator<V>, fadingFactor: real, horizon: int, x: real, metric: Metric)
    ensures Predict(m, est, Init(est, fadingFactor, horizon, 0)).Some?
    ensures
      var s := Init(est, fadingFactor, horizon, 0);
      var core := ComponentScale(m, est.get(s.core));
      var tail := ComponentScale(m, est.get(s.tail));
      var r := ScoreForNormalDist(m, Predict(m, est, s).value, x, metric);
      && ((metric.PdfMetric? || metric.ZScoreMetric?) ==> r == Failure(NoneOperand))
      && (metric.UnknownMetric? ==> r == Failure(UnsupportedMetric(metric.name)))
      && (metric.CustomMetric? ==>
            r == Success((CoreWeight * metric.f(x, None, Some(core)) + TailWeight * metric.f(x, None, Some(tail)),
                          Some(StoredPrediction(None, Some(core), x, metric.f(x, None, Some(core)))))))
  {
    var s := Init(est, fadingFactor, horizon, 0);
    var d := Predict(m, est, s).value;
    var cs := d.components;
    assert cs == [cs[0], cs[1]];
    if metric.CustomMetric? {
      var core := ComponentScale(m, est.get(s.core));
      var tail := ComponentScale(m, est.get(s.tail));
      assert cs[0] == Component(NormalParams(None, core), CoreWeight);
      assert cs[1] == Component(NormalParams(None, tail), TailWeight);
      TwoComponents(m, cs[0], cs[1], x, metric, metric.f(x, None, Some(core)), metric.f(x, None, Some(tail)));
      var r := ScoreForNormalDist(m, d, x, metric);
      assert r.value.0 == CoreWeight * metric.f(x, None, Some(core)) + TailWeight * metric.f(x, None, Some(tail));
      assert r.value.1 == Some(StoredPrediction(None, Some(core), x, metric.f(x, None, Some(core))));
    } else {
      ScoreForNormalDistMatchesReference(m, d, x, metric);
      assert ScorerFor(m, x, metric)(cs[0]).Failure?;
    }
  }
}
