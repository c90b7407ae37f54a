/**
 The evaluator that scores a tracker's predictions once they have waited out
 the horizon: each tick feeds the tracker, quarantines its prediction, and
 scores the newest matured prediction against the dove's current location.
 */
module TrackerEvaluator {
  import opened Wrappers
  import opened Records
  import opened TrackerBase
  import opened Median
  import opened RealMath
  import opened NormalDist

  /** A tracker's tick as it ends: the state it leaves, and whether it raised part-way. */
  datatype Ticked<S> = Ticked(state: S, raised: bool)

  /**
   A tracker seen from outside: its horizon, how a payload advances its
   state (possibly raising), and what it predicts from a state (None while
   it abstains), or a raise.
   */
  datatype Tracker<!S> = Tracker(horizon: int, tick: (S, Payload) -> Ticked<S>, predict: S -> Result<Option<Density>, ()>)

  /** The density of a prediction at a location, or a raise. */
  type DensityFn = (Density, real) -> Result<real, ()>

  /** The evaluator's fields, with the tracker's own state alongside. */
  datatype Session<!S> = Session(
    tracker: Tracker<S>,
    trackerState: S,
    base: Base<Option<Density>>,
    scores: seq<real>,
    time: Option<real>,
    loc: Option<real>,
    scale: Option<real>,
    doveLocation: Option<real>)

  /**
   What a tick can raise: whatever the tracker's tick or predict raises,
   whatever the density raises, and `max()` over an empty list of components.
   */
  datatype EvalError = TrackerTickRaised | TrackerPredictRaised | DensityRaised | EmptyMixture

  /** The session after a call, and the error the call raised part-way, if any. */
  datatype Outcome<!S> = Outcome(session: Session<S>, raised: Option<EvalError>)

  /** A fresh evaluator: an empty quarantine with the tracker's horizon and no scores. */
  function NewSession<S>(tr: Tracker<S>, st: S): (r: Session<S>)
    ensures r.tracker == tr && r.trackerState == st
    ensures r.base.horizon == tr.horizon && |r.base.quarantine| == 0 && r.base.count == 0 && |r.scores| == 0
    ensures r.time.None? && r.loc.None? && r.scale.None? && r.doveLocation.None?
  {
    Session(tr, st, Init(tr.horizon), [], None, None, None, None)
  }

  /** Index k holds the first largest value of ws. */
  ghost predicate IsFirstMax(ws: seq<real>, k: int) {
    && 0 <= k < |ws|
    && (forall j :: 0 <= j < k ==> ws[j] < ws[k])
    && (forall j :: k < j < |ws| ==> ws[j] <= ws[k])
  }

  /** `max(range(n), key=...)`: the first index of largest weight. */
  function FirstMaxIndex(ws: seq<real>): (k: int)
    requires |ws| > 0
    ensures IsFirstMax(ws, k)
  {
    if |ws| == 1 then 0
    else
      var k := FirstMaxIndex(ws[..|ws| - 1]);
      if ws[|ws| - 1] > ws[k] then |ws| - 1 else k
  }

  /** The params whose loc and scale describe a prediction: the heaviest component's, for a mixture. */
  function Described(d: Density): (r: Result<Params, EvalError>)
    ensures d.Builtin? ==> r == Success(d.params)
    ensures d.Mixture? ==> (r.Failure? <==> |d.components| == 0)
    ensures r.Failure? ==> r.error == EmptyMixture
    ensures d.Mixture? && r.Success? ==>
      exists k :: IsFirstMax(Weights(d.components), k) && r.value == d.components[k].params
  {
    match d
    case Builtin(params) => Success(params)
    case Mixture(cs) =>
      if |cs| == 0 then Failure(EmptyMixture)
      else Success(cs[FirstMaxIndex(Weights(cs))].params)
  }

  /** `dict.get(key, default)`: the bound value of a present key, None included; the default for an absent one. */
  function Get(f: Field, default: Option<real>): (r: Option<real>)
    ensures f.Present? ==> r == f.value
    ensures f.Absent? ==> r == default
  {
    match f
    case Absent => default
    case Present(v) => v
  }

  /**
   The displayed location and scale of a prediction: `loc` or else `mu`,
   `scale` or else `sigma`, falling back only when the first key is absent.
   */
  function LocAndScale(d: Density): (r: Result<(Option<real>, Option<real>), EvalError>)
    ensures r.Failure? <==> d == Mixture([])
    ensures r.Failure? ==> r.error == EmptyMixture
    ensures r.Success? ==>
      var p := Described(d).value;
      && (p.loc.Present? ==> r.value.0 == p.loc.value)
      && (p.loc.Absent? && p.mu.Present? ==> r.value.0 == p.mu.value)
      && (p.loc.Absent? && p.mu.Absent? ==> r.value.0 == None)
      && (p.scale.Present? ==> r.value.1 == p.scale.value)
      && (p.scale.Absent? && p.sigma.Present? ==> r.value.1 == p.sigma.value)
      && (p.scale.Absent? && p.sigma.Absent? ==> r.value.1 == None)
  {
    match Described(d)
    case Failure(e) => Failure(e)
    case Success(p) => Success((Get(p.loc, Get(p.mu, None)), Get(p.scale, Get(p.sigma, None))))
  }

  /** The tracker ticked on the payload and asked for its prediction, or what either raised. */
  function Prediction<S>(s: Session<S>, p: Payload): (r: Result<Option<Density>, EvalError>)
    ensures r.Failure? ==> r.error == TrackerTickRaised || r.error == TrackerPredictRaised
    ensures r.Success? <==>
      !s.tracker.tick(s.trackerState, p).raised && s.tracker.predict(s.tracker.tick(s.trackerState, p).state).Success?
  {
    var t := s.tracker.tick(s.trackerState, p);
    if t.raised then Failure(TrackerTickRaised)
    else
      match s.tracker.predict(t.state)
      case Failure(_) => Failure(TrackerPredictRaised)
      case Success(d) => Success(d)
  }

  /** The quarantine after this tick's prediction has been added to it. */
  function Queued<S>(s: Session<S>, p: Payload): Base<Option<Density>>
    requires Prediction(s, p).Success?
  {
    Add(s.base, p.time, Prediction(s, p).value)
  }

  /**
   One evaluator tick: tick the tracker, ask it for a prediction, queue that,
   release one, and score it with `pdf`. Each raise stops the tick where it
   happens.
   */
  function TickAndPredict<S>(pdf: DensityFn, s: Session<S>, p: Payload): (r: Outcome<S>)
    ensures r.session.tracker == s.tracker
    ensures r.session.trackerState == s.tracker.tick(s.trackerState, p).state
    ensures Prediction(s, p).Failure? ==>
      r == Outcome(s.(trackerState := r.session.trackerState), Some(Prediction(s, p).error))
    ensures Prediction(s, p).Success? ==> r.session.base == Pop(Queued(s, p), p.time).base
    ensures |r.session.scores| == |s.scores| || |r.session.scores| == |s.scores| + 1
    ensures r.session.scores[..|s.scores|] == s.scores
  {
    var t := s.tracker.tick(s.trackerState, p);
    var s0 := s.(trackerState := t.state);
    match Prediction(s, p)
    case Failure(e) => Outcome(s0, Some(e))
    case Success(prediction) =>
      var popped: Popped<Option<Density>> := Pop(Add(s.base, p.time, prediction), p.time);
      var s1 := s0.(base := popped.base);
      match popped.released
      case None => Outcome(s1, None)
      case Some(None) => Outcome(s1, None)
      case Some(Some(d)) =>
        match pdf(d, p.doveLocation)
        case Failure(_) => Outcome(s1, Some(DensityRaised))
        case Success(v) =>
          var s2 := s1.(scores := s.scores + [v], time := Some(p.time), doveLocation := Some(p.doveLocation));
          match LocAndScale(d)
          case Failure(e) => Outcome(s2, Some(e))
          case Success(ls) => Outcome(s2.(loc := ls.0, scale := ls.1), None)
  }

  /**
   Once the tracker has ticked and predicted: when the newest matured
   quarantine entry holds no prediction (or nothing has matured), the tick
   changes nothing but the tracker and the quarantine. When it holds a
   prediction, a raising density changes nothing more either; otherwise its
   density at the dove's location is appended, the time and location are
   recorded, and the prediction's loc and scale are shown, raising part-way
   (after the score is kept) for an empty mixture.
   */
  lemma TickAndPredictScores<S>(pdf: DensityFn, s: Session<S>, p: Payload)
    ensures
      var r := TickAndPredict(pdf, s, p);
      var unscored := s.(trackerState := r.session.trackerState, base := r.session.base);
      Prediction(s, p).Success? ==>
        var q := Queued(s, p).quarantine;
        && ((forall j :: IsLastMatured(q, p.time, j) ==> q[j].value.None?) ==>
              r == Outcome(unscored, None))
        && (forall j :: IsLastMatured(q, p.time, j) && q[j].value.Some? ==>
              var d := q[j].value.value;
              var v := pdf(d, p.doveLocation);
              && (v.Failure? ==> r == Outcome(unscored, Some(DensityRaised)))
              && (v.Success? ==>
                    && r.session.scores == s.scores + [v.value]
                    && r.session.time == Some(p.time)
                    && r.session.doveLocation == Some(p.doveLocation)
                    && (r.raised.Some? <==> d == Mixture([]))
                    && (r.raised.Some? ==> r.raised == Some(EmptyMixture) && r.session.loc == s.loc && r.session.scale == s.scale)
                    && (r.raised.None? ==> (r.session.loc, r.session.scale) == LocAndScale(d).value)))
  {
    if Prediction(s, p).Success? {
      var q := Queued(s, p).quarantine;
      var popped := Pop(Queued(s, p), p.time);
      if popped.released.Some? {
        var n := |popped.base.quarantine|;
        forall j | IsLastMatured(q, p.time, j) ensures j == n {
          LastMaturedUnique(q, p.time, j, n);
        }
      }
    }
  }

  /**
   The overall score: 0.0 with nothing scored, otherwise the median score
   in the sense of `IsMedian`: the middle score of an odd count, the mean of
   the two middle scores of an even count.
   */
  function Score<S>(s: Session<S>): (r: real)
    ensures |s.scores| == 0 ==> r == 0.0
    ensures |s.scores| > 0 ==> IsMedian(s.scores, r)
  {
    if |s.scores| == 0 then 0.0 else Median.Median(s.scores)
  }

  /** The overall score does not depend on the order in which scores arrived. */
  lemma ScoreIgnoresOrder<S>(s: Session<S>, t: Session<S>)
    requires multiset(s.scores) == multiset(t.scores)
    ensures Score(s) == Score(t)
  {
    if |s.scores| > 0 {
      MedianOfPermutation(s.scores, t.scores);
    } else {
      assert |t.scores| == |multiset(t.scores)| == 0;
    }
  }

  /**
   Ticks through the payloads in order, stopping at the first tick that
   raises. The tracker is never replaced, and scores are only ever
   appended, at most one per tick.
   */
  function Run<S>(pdf: DensityFn, s: Session<S>, ps: seq<Payload>): (r: Outcome<S>)
    ensures r.session.tracker == s.tracker
    ensures |s.scores| <= |r.session.scores| <= |s.scores| + |ps|
    ensures r.session.scores[..|s.scores|] == s.scores
    decreases |ps|
  {
    if |ps| == 0 then Outcome(s, None)
    else
      var o := TickAndPredict(pdf, s, ps[0]);
      if o.raised.Some? then o
      else
        var r := Run(pdf, o.session, ps[1..]);
        assert r.session.scores[..|s.scores|] == r.session.scores[..|o.session.scores|][..|s.scores|];
        r
  }

  /**
   A tracker that never predicts a density is never scored, and whatever
   a run raises comes from the tracker itself.
   */
  lemma {:induction false} AbstainingTrackerNeverScored<S>(pdf: DensityFn, s: Session<S>, ps: seq<Payload>)
    requires forall st :: s.tracker.predict(st).Success? ==> s.tracker.predict(st).value == None
    requires forall j :: 0 <= j < |s.base.quarantine| ==> s.base.quarantine[j].value == None
    ensures Run(pdf, s, ps).session.scores == s.scores
    ensures Run(pdf, s, ps).raised in {None, Some(TrackerTickRaised), Some(TrackerPredictRaised)}
    decreases |ps|
  {
    if |ps| > 0 {
      var o := TickAndPredict(pdf, s, ps[0]);
      if Prediction(s, ps[0]).Success? {
        var q := Queued(s, ps[0]).quarantine;
        assert forall j :: 0 <= j < |q| ==> q[j].value == None;
        var popped := Pop(Queued(s, ps[0]), ps[0].time);
        assert o.raised.None? && |o.session.scores| == |s.scores|;
        forall j | 0 <= j < |o.session.base.quarantine| ensures o.session.base.quarantine[j].value == None {
          if popped.released.Some? {
            assert o.session.base.quarantine[j] == q[j];
          }
        }
        AbstainingTrackerNeverScored(pdf, o.session, ps[1..]);
      }
    }
  }

  /** At most one index holds the first largest value. */
  lemma FirstMaxUnique(ws: seq<real>, a: int, b: int)
    requires IsFirstMax(ws, a) && IsFirstMax(ws, b)
    ensures ws[a] == ws[b] && a == b
  {
  }

  /**
   The evaluator's displayed component is the first component of largest
   weight, the same one the mixture scorer stores when that weight is positive.
   */
  lemma HeaviestAgrees(cs: seq<Component>, k: int)
    requires IsFirstMax(Weights(cs), k)
    ensures Described(Mixture(cs)) == Success(cs[k].params)
  {
    var r := Described(Mixture(cs));
    assert |cs| > 0;
    var k' :| IsFirstMax(Weights(cs), k') && r.value == cs[k'].params;
    FirstMaxUnique(Weights(cs), k, k');
  }

  /**
   When the heaviest component's weight is positive, the loc and scale the
   evaluator shows for a mixture are those of the prediction the mixture
   scorer stores, None included.
   */
  lemma DisplayedIsStored(m: Math, cs: seq<Component>, x: real, metric: Metric, k: int)
    requires IsFirstMax(Weights(cs), k) && cs[k].weight > 0.0
    requires ScoreForNormalDist(m, Mixture(cs), x, metric).Success?
    ensures ScoreForNormalDist(m, Mixture(cs), x, metric).value.1.Some?
    ensures
      var stored := ScoreForNormalDist(m, Mixture(cs), x, metric).value.1.value;
      LocAndScale(Mixture(cs)) == Success((stored.loc, stored.scale))
  {
    ScoreForNormalDistMatchesReference(m, Mixture(cs), x, metric);
    var score := ScorerFor(m, x, metric);
    var ss := ScoresFrom(cs, score, 0).value;
    forall j | 0 <= j < |cs| ensures ss[j].weight == cs[j].weight {
      assert score(cs[j]) == Success(ss[j]);
    }
    assert ss[k].weight == Weights(cs)[k];
    assert IsHeaviest(ss, k, 0.0);
    HeaviestAgrees(cs, k);
    assert score(cs[k]) == Success(ss[k]);
  }

  /** A tick at which nothing has matured scores nothing and keeps the new entry queued. */
  lemma TickWithoutRelease<S>(pdf: DensityFn, s: Session<S>, p: Payload)
    requires Prediction(s, p).Success?
    requires forall j :: 0 <= j < |Queued(s, p).quarantine| ==> Queued(s, p).quarantine[j].release > p.time
    ensures TickAndPredict(pdf, s, p)
         == Outcome(s.(trackerState := s.tracker.tick(s.trackerState, p).state, base := Queued(s, p)), None)
  {
    var popped := Pop(Queued(s, p), p.time);
    assert popped.released.None? && popped.base == Queued(s, p);
  }

  /**
   A tick at which only the oldest entry has matured, holding a single
   density with a density value, scores it and empties the quarantine.
   */
  lemma TickReleasingOldest<S>(pdf: DensityFn, s: Session<S>, p: Payload, params: Params)
    requires Prediction(s, p).Success?
    requires |Queued(s, p).quarantine| > 0
    requires Queued(s, p).quarantine[0].release <= p.time
    requires Queued(s, p).quarantine[0].value == Some(Builtin(params))
    requires forall j :: 0 < j < |Queued(s, p).quarantine| ==> Queued(s, p).quarantine[j].release > p.time
    requires pdf(Builtin(params), p.doveLocation).Success?
    ensures TickAndPredict(pdf, s, p).raised.None?
    ensures TickAndPredict(pdf, s, p).session.scores == s.scores + [pdf(Builtin(params), p.doveLocation).value]
    ensures TickAndPredict(pdf, s, p).session.base.quarantine == []
  {
    var q := Queued(s, p).quarantine;
    assert IsLastMatured(q, p.time, 0);
    var popped := Pop(Queued(s, p), p.time);
    LastMaturedUnique(q, p.time, 0, |popped.base.quarantine|);
  }

  /**
   With a tracker that never raises and, after ticking on payload q,
   predicts the density with parameters `P(q)`, each tick queues that density.
   */
  lemma QueuedEntry<S>(s: Session<S>, p: Payload, P: Payload -> Params)
    requires forall st, q :: !s.tracker.tick(st, q).raised && s.tracker.predict(s.tracker.tick(st, q).state) == Success(Some(Builtin(P(q))))
    ensures Prediction(s, p) == Success(Some(Builtin(P(p))))
    ensures Queued(s, p).quarantine == s.base.quarantine + [Entry(p.time + s.base.horizon as real, Some(Builtin(P(p))))]
  {
    var t := s.tracker.tick(s.trackerState, p);
    assert !t.raised && s.tracker.predict(t.state) == Success(Some(Builtin(P(p))));
  }

  /** Running two payload lists back to back is running their concatenation. */
  lemma {:induction false} RunConcat<S>(pdf: DensityFn, s: Session<S>, a: seq<Payload>, b: seq<Payload>)
    ensures Run(pdf, s, a + b)
         == if Run(pdf, s, a).raised.Some? then Run(pdf, s, a) else Run(pdf, Run(pdf, s, a).session, b)
    decreases |a|
  {
    if |a| == 0 {
      assert a + b == b;
    } else {
      assert (a + b)[0] == a[0];
      assert (a + b)[1..] == a[1..] + b;
      var o := TickAndPredict(pdf, s, a[0]);
      if o.raised.None? {
        RunConcat(pdf, o.session, a[1..], b);
      }
    }
  }

  /** A run over a non-empty list takes its first tick, then continues unless that tick raised. */
  lemma RunStep<S>(pdf: DensityFn, s: Session<S>, ps: seq<Payload>)
    requires |ps| > 0
    requires TickAndPredict(pdf, s, ps[0]).raised.None?
    ensures Run(pdf, s, ps) == Run(pdf, TickAndPredict(pdf, s, ps[0]).session, ps[1..])
  {
  }

  /** A run over one payload is a single tick. */
  lemma RunSingle<S>(pdf: DensityFn, s: Session<S>, p: Payload)
    ensures Run(pdf, s, [p]) == TickAndPredict(pdf, s, p)
  {
    assert [p][1..] == [];
  }

  /**
   With horizon 1, a tracker whose prediction after ticking on payload q is
   the single density with parameters `P(q)`, and an empty quarantine: ticks
   at times t and t + 1 score the prediction made at t, the one made from
   the first payload, against the second location, and the release at t + 1
   also discards the prediction made at t + 1, so the quarantine is empty
   again.
   */
  lemma TwoTicksWithHorizonOne<S>(pdf: DensityFn, tr: Tracker<S>, s: Session<S>, P: Payload -> Params,
                                  t: real, x0: real, x1: real)
    requires s.tracker == tr && s.base.horizon == 1 && s.base.quarantine == []
    requires forall st, q :: !tr.tick(st, q).raised && tr.predict(tr.tick(st, q).state) == Success(Some(Builtin(P(q))))
    requires pdf(Builtin(P(Payload(t, x0))), x1).Success?
    ensures
      var r := Run(pdf, s, [Payload(t, x0), Payload(t + 1.0, x1)]);
      && r.raised.None?
      && r.session.scores == s.scores + [pdf(Builtin(P(Payload(t, x0))), x1).value]
      && r.session.base.horizon == 1 && r.session.base.quarantine == []
      && r.session.tracker == s.tracker
  {
    var p0 := Payload(t, x0);
    var p1 := Payload(t + 1.0, x1);
    QueuedEntry(s, p0, P);
    TickWithoutRelease(pdf, s, p0);
    var o1 := TickAndPredict(pdf, s, p0);
    assert o1.raised.None? && o1.session.scores == s.scores && o1.session.base == Queued(s, p0);
    QueuedEntry(o1.session, p1, P);
    assert Queued(o1.session, p1).quarantine == [Entry(t + 1.0, Some(Builtin(P(p0)))), Entry(t + 2.0, Some(Builtin(P(p1))))];
    TickReleasingOldest(pdf, o1.session, p1, P(p0));
    RunStep(pdf, s, [p0, p1]);
    assert [p0, p1][1..] == [p1];
    RunSingle(pdf, o1.session, p1);
  }
}
