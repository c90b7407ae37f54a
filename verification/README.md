# Delayed scoring in the bird game

A Dafny model of the core of the bird game's delayed scoring. A tracker
watches a dove's location, tick by tick, and predicts a density for where
the dove will be `horizon` time units later. Every prediction waits in a
quarantine until its release time. Once it matures it is scored against
the dove's location at that moment.

The model has four parts, one module each, plus small shared modules:

- `TrackerBase` is the quarantine list of `(release_time, value)` pairs.
  `Add` appends `(time + horizon, value)`. `Pop` releases the newest matured
  entry and keeps only the entries strictly before it. `Pop` returns
  `Option<T>` over values of type `T`. The evaluator quarantines
  `Option<Density>` values, so "nothing matured" (`None`) and "a matured
  warm-up prediction" (`Some(None)`) stay apart.
- `NormalDist` is the normal-density scorer:
  - the density metric and the squared z-score, both of which reject a
    non-positive scale;
  - the metric dispatch (two builtin names, a custom callable, or an unknown
    name);
  - the loop over a mixture's components, which sums weight times score
    without renormalising and keeps a diagnostic record for the first
    component of strictly largest positive weight.
- `TrackerEvaluator` is the evaluation session:
  - `TickAndPredict` ticks the tracker, quarantines its prediction, releases
    one, and scores it with a density function passed in as a parameter;
  - the session shows the heaviest component's `loc`/`scale`;
  - `Score` is 0.0 with no scores, otherwise their median (module `Median`,
    an insertion sort followed by numpy's middle rule).
- `EmwaVarTracker` is the reference two-Gaussian tracker:
  - warm-up gating, and the `tick_count` and `count` counters;
  - pairing each location with the released one through its own quarantine;
  - the winsorising clip of the core change and the doubled tail change;
  - the 1e-6 scale floor, and the fixed 0.95/0.05 two-component output.

  Its variance estimator is abstract.

Shared modules:
- `Wrappers` has `Option` and `Result`.
- `Records` types the dictionaries that pass between the parts. A
  dictionary key is a `Field`: `Absent`, or `Present` with a value that may
  itself be None. So a missing key (a `KeyError` when indexed, the default
  of `dict.get`) and a key bound to None stay apart.
- `RealMath` holds `exp`, `sqrt` and `pi` as an uninterpreted `Math` value.
  Only positivity facts are assumed, plus `sqrt(0) = 0` and `sqrt(1) = 1`.
- `Pow` stands for `**`.

Python exceptions that are raised after some fields have already changed are
modelled as an outcome: the state as it stands at the raise, plus the error.
This covers three cases:
- the evaluator keeps the ticked tracker state when the tracker's `tick` or
  `predict`, or the density, raises;
- the evaluator keeps the appended score when `update_loc_and_scale` fails
  on an empty mixture;
- the tracker keeps its quarantine update when `math.sqrt` fails on a
  negative variance.

Behaviour of the code that the contracts make visible:
- **Release rule.** A release keeps `quarantine[:prev_ndx]`, only the
  entries strictly before the one it hands back. So older matured entries
  are re-delivered by later releases (`TrackerBase.PopRedeliversNextOlder`),
  and entries after the returned one are dropped even when they have not
  matured (`TrackerBase.PopDropsPendingEntries`,
  `TrackerEvaluator.TwoTicksWithHorizonOne`).
- **Overall score.** `score()` is the median of the raw densities
  (`TrackerEvaluator.Score`), not an average of them or of their logarithms.
- **A None `loc`.** With warm-up 0, a prediction the reference tracker makes
  before its first tick carries `loc` None. The builtin metrics raise a `TypeError` on it, an
  unknown metric name raises as unsupported, and a callable metric receives
  the None (`EmwaVarTracker.PredictionBeforeFirstTick`).
- **Zero variance.** The winsorising threshold is 0 exactly when the
  threshold variance is 0, and the change then reaches the core estimator
  unclipped (`EmwaVarTracker.TickFeedsEstimators`).

## Model

| member | source | states |
|---|---|---|
| TrackerBase.Init | birdgame/trackers/trackerbase.py:6-9 | a fresh base has the given horizon, an empty quarantine and count 0 |
| TrackerBase.Add | birdgame/trackers/trackerbase.py:11-13 | the new entry `(time + horizon, value)` goes at the end; every earlier entry, the horizon and the count are unchanged |
| TrackerBase.Matured | birdgame/trackers/trackerbase.py:17 | the qualifying indices are exactly those whose release time is at most `now`, anywhere in the list, in increasing order |
| TrackerBase.Pop | birdgame/trackers/trackerbase.py:15-22 | nothing is released, and nothing changes, exactly when every release time is later than `now`; otherwise the released value is that of the last matured entry and the list becomes the prefix strictly before it, so it is strictly shorter; horizon and count are kept |
| TrackerBase.AddThenPopRoundTrip | birdgame/trackers/trackerbase.py:11-22 | a value added to an empty quarantine at t is released at t + horizon and leaves the quarantine empty; it is not released at any earlier time, and that earlier release changes nothing |
| TrackerBase.AddKeepsOrdered | birdgame/trackers/trackerbase.py:11-13 | adding at a release time no earlier than every queued one keeps release times non-decreasing |
| TrackerBase.PopLeavesOnlyMatured | birdgame/trackers/trackerbase.py:17-20 | with ordered release times, everything a release leaves behind has already matured and stays ordered |
| TrackerBase.PopRedeliversNextOlder | birdgame/trackers/trackerbase.py:17-21 | with ordered release times, the next release (at the same or a later time) hands back the entry just before the one released last and drops it |
| TrackerBase.PopDropsPendingEntries | birdgame/trackers/trackerbase.py:20 | releasing `[(1, a), (2, b)]` at time 1 gives `a` and leaves nothing; the pending `b` is lost |
| TrackerBase.ThreeAddsReleaseNewestThenOlder | birdgame/trackers/trackerbase.py:15-21 | after adds at 1, 2, 3 the release at 3 + h gives the newest value, and a second release gives the middle one rather than nothing |
| NormalDist.MetricNamed | birdgame/evaluation/normal_dist.py:84-87 | "pdf_score" selects the density metric and "z_score" the squared z-score, each if and only if; every other name is an unsupported name that keeps the name |
| NormalDist.NormalDensity | birdgame/evaluation/normal_dist.py:18-24 | the normal density at a positive scale is strictly positive |
| NormalDist.PdfScore | birdgame/evaluation/normal_dist.py:3-26 | fails with the scale error if and only if scale ≤ 0; otherwise the density is strictly positive |
| NormalDist.PdfScoreDependsOnDistance | birdgame/evaluation/normal_dist.py:19-24 | two observations at the same squared distance from `loc` get the same score, or the same error |
| NormalDist.PdfScoreSymmetric | birdgame/evaluation/normal_dist.py:19-24 | the score at x equals the score at the mirror point 2·loc − x |
| NormalDist.SquaredZScore | birdgame/evaluation/normal_dist.py:29-34 | fails with the scale error if and only if scale ≤ 0; otherwise it is non-negative, zero exactly when x = loc, and times scale² gives (x − loc)² |
| NormalDist.Operands | birdgame/evaluation/normal_dist.py:15-34 | a builtin metric gets its operands exactly when `loc` and `scale` are not None and scale > 0; the scale test comes first, so a non-positive scale raises the scale error whatever `loc` is, and every other failure is the TypeError of a None |
| NormalDist.ApplyMetric | birdgame/evaluation/normal_dist.py:99-109 | an unknown name raises as unsupported with that name; a callable receives `loc` and `scale` as they are, None included, and its value is the score; a builtin metric succeeds exactly when its operands are usable, gives the density or squared z-score, and otherwise raises the operand error |
| NormalDist.ScoreComponent | birdgame/evaluation/normal_dist.py:95-109 | an absent `loc` raises the `loc` KeyError, then an absent `scale` the `scale` KeyError; with both keys present the component scores exactly when its metric does, with the metric's error otherwise, and a score carries the component's loc, scale (None included) and weight |
| NormalDist.Step | birdgame/evaluation/normal_dist.py:111-121 | the running sum grows by weight × score; a weight strictly above the running highest becomes the highest and the component's record is stored; otherwise highest weight and stored record are kept |
| NormalDist.ScoreFrom | birdgame/evaluation/normal_dist.py:94-121 | the loop never lowers the highest weight, and replaces the stored record only by raising the highest weight |
| NormalDist.Components | birdgame/evaluation/normal_dist.py:94 | a single density has no components; a mixture has its own list |
| NormalDist.ScoreForNormalDist | birdgame/evaluation/normal_dist.py:89-94 | a density without components scores `(0, None)` whatever the metric, because the metric is only looked up inside the loop |
| NormalDist.ScoresFrom | birdgame/evaluation/normal_dist.py:94-109 | the reference: every component scored in order; it succeeds if and only if every component scores, and otherwise fails with the error of the first component that fails |
| NormalDist.HeaviestExists | birdgame/evaluation/normal_dist.py:114-121 | if any weight exceeds the floor, some component is the first of largest weight above it |
| NormalDist.ScoreFromErrors | birdgame/evaluation/normal_dist.py:94-109 | the loop fails if and only if the reference fails, with the same error |
| NormalDist.ScoreFromFold | birdgame/evaluation/normal_dist.py:94-121 | when every component scores, the loop is its body folded over the reference scores in order |
| NormalDist.FoldSum | birdgame/evaluation/normal_dist.py:111 | the loop adds the sum of weight × score over all components to the running sum |
| NormalDist.FoldKeeps | birdgame/evaluation/normal_dist.py:114 | when no weight beats the running highest weight, the highest weight and the stored prediction stay as they are |
| NormalDist.FoldStoresHeaviest | birdgame/evaluation/normal_dist.py:114-121 | the loop ends holding the weight and record of the first component whose weight is strictly above every earlier weight and the running highest, and at least every later weight |
| NormalDist.ScoreForNormalDistMatchesReference | birdgame/evaluation/normal_dist.py:89-123 | the mixture score fails exactly when the reference fails, with the first error; otherwise it is the unrenormalised sum of weight × metric value; the stored record is None exactly when no weight is positive, and otherwise holds loc, scale, the observation and the unweighted score of the first heaviest component |
| NormalDist.UnknownMetricFails | birdgame/evaluation/normal_dist.py:99-101 | with at least one component an unknown metric name fails, and with the first component's loc and scale present it fails with exactly that name |
| NormalDist.NonPositiveScaleFails | birdgame/evaluation/normal_dist.py:94-109 | with a builtin metric, any component whose `loc` key is present (even bound to None) and whose scale is ≤ 0 makes the whole call fail |
| NormalDist.SingleComponent | birdgame/evaluation/normal_dist.py:109-121 | one component scores weight × metric value, and is stored exactly when its weight is positive |
| NormalDist.TwoComponents | birdgame/evaluation/normal_dist.py:109-121 | two components score w₁·f₁ + w₂·f₂, with no division by the total weight; when w₁ is positive and w₂ ≤ w₁ the first component's loc, scale, the observation and f₁ are stored |
| Median.Insert | birdgame/trackers/tracker_evaluator.py:41 | inserting into a sorted list gives a sorted list holding the old values plus the new one |
| Median.Sort | birdgame/trackers/tracker_evaluator.py:41 | the result is sorted and is a permutation of the input |
| Median.SortedUnique | birdgame/trackers/tracker_evaluator.py:41 | two sorted lists holding the same values are equal |
| Median.RankedUnique | birdgame/trackers/tracker_evaluator.py:41 | two values that are both the k-th smallest (at least k values at most each, at least n − k + 1 at least each) are equal |
| Median.MiddleOfSorted | birdgame/trackers/tracker_evaluator.py:41 | for a sorted list of n = 2k + 1 values, the value at index k, which is the (k + 1)-th smallest; for n = 2k, the mean of the k-th and the (k + 1)-th smallest; at least ⌈n/2⌉ values are at most it and at least ⌈n/2⌉ at least it, and it lies between the first and the last value |
| Median.Median | birdgame/trackers/tracker_evaluator.py:41 | for n = 2k + 1 values the median is one of them and is the (k + 1)-th smallest; for n = 2k it is the mean of two of them, the k-th and the (k + 1)-th smallest; at least ⌈n/2⌉ values are at most it and at least ⌈n/2⌉ at least it, and it lies between the smallest and the largest value |
| Median.MedianUnique | birdgame/trackers/tracker_evaluator.py:41 | the rank description of the median admits exactly one value |
| Median.MedianOfPermutation | birdgame/trackers/tracker_evaluator.py:41 | the median does not depend on the order of the values |
| TrackerEvaluator.NewSession | birdgame/trackers/tracker_evaluator.py:9-17 | a fresh session holds the given tracker and its state, the tracker's horizon, an empty quarantine with count 0, no scores, and no time, loc, scale or location |
| TrackerEvaluator.FirstMaxIndex | birdgame/trackers/tracker_evaluator.py:48 | the chosen index holds the largest weight, and every earlier weight is strictly smaller, so ties go to the first |
| TrackerEvaluator.Described | birdgame/trackers/tracker_evaluator.py:44-50 | a single density describes itself; a mixture is described by its first heaviest component, and fails with the empty-`max` error if and only if it has no components |
| TrackerEvaluator.Get | birdgame/trackers/tracker_evaluator.py:51-52 | `dict.get`: a present key gives its bound value, None included, and only an absent key gives the default |
| TrackerEvaluator.LocAndScale | birdgame/trackers/tracker_evaluator.py:43-52 | fails if and only if the prediction is an empty mixture; otherwise the shown loc is the described params' `loc` when that key is present (even as None), else `mu` when present, else None, and the scale likewise from `scale` and `sigma` |
| TrackerEvaluator.Prediction | birdgame/trackers/tracker_evaluator.py:20-21 | the tracker's prediction is obtained exactly when its tick does not raise and its predict on the ticked state does not raise; a failure names which of the two raised |
| TrackerEvaluator.TickAndPredict | birdgame/trackers/tracker_evaluator.py:19-34 | the tracker is ticked once, and a raise from its tick or predict stops the call with only the tracker state changed; otherwise the quarantine is the newly queued prediction after one release; the scores gain at most one entry and keep all old ones as a prefix |
| TrackerEvaluator.TickAndPredictScores | birdgame/trackers/tracker_evaluator.py:19-34 | once the tracker has predicted: when the newest matured entry holds no prediction, or nothing matured, only tracker and quarantine change and nothing is raised. When it holds one whose density raises, the same holds but the raise is reported. Otherwise that density at the current location is appended, time and location are recorded, and the loc/scale update raises exactly for an empty mixture, keeping the old loc/scale when it does |
| TrackerEvaluator.Score | birdgame/trackers/tracker_evaluator.py:36-41 | 0.0 with no scores; otherwise the median in the sense of `Median.Median`: the (k + 1)-th smallest of 2k + 1 scores, the mean of the k-th and (k + 1)-th smallest of 2k scores |
| TrackerEvaluator.ScoreIgnoresOrder | birdgame/trackers/tracker_evaluator.py:41 | sessions holding the same scores in any order have the same overall score |
| TrackerEvaluator.Run | birdgame/trackers/tracker_evaluator.py:19-34 | over any run the tracker is never replaced, the old scores stay a prefix, and at most one score is added per tick |
| TrackerEvaluator.RunConcat | birdgame/trackers/tracker_evaluator.py:19-34 | running two payload lists one after the other is running their concatenation, stopping at the first raise |
| TrackerEvaluator.AbstainingTrackerNeverScored | birdgame/trackers/tracker_evaluator.py:19-27 | a tracker that never predicts a density is never scored, because a released None is falsy; whatever such a run raises is the tracker's own tick or predict raise |
| TrackerEvaluator.HeaviestAgrees | birdgame/trackers/tracker_evaluator.py:48-49 | the described component of a mixture is the first one of largest weight |
| TrackerEvaluator.DisplayedIsStored | birdgame/trackers/tracker_evaluator.py:43-52 | when the heaviest weight is positive, the loc and scale the session shows are those of the record the mixture scorer stores |
| TrackerEvaluator.TickWithoutRelease | birdgame/trackers/tracker_evaluator.py:25-27 | once the tracker has predicted, a tick at which nothing has matured only ticks the tracker and queues its prediction |
| TrackerEvaluator.TickReleasingOldest | birdgame/trackers/tracker_evaluator.py:25-34 | a tick at which only the oldest entry, a single density with a density value, has matured scores it, does not raise, and empties the quarantine |
| TrackerEvaluator.TwoTicksWithHorizonOne | birdgame/trackers/tracker_evaluator.py:19-34 | with horizon 1, an empty quarantine and a tracker that never raises and whose prediction depends on the payload it just ticked, ticks at t and t + 1 score the prediction made from the first payload against the second location. The release also discards the prediction made at t + 1 |
| EmwaVarTracker.Init | birdgame/models/emwavartracker.py:23-34 | a fresh tracker has an empty quarantine with the given horizon, count 0, the given fading factor, no location, tick count 0, the given warm-up, threat 0.0, and two fresh estimators |
| EmwaVarTracker.DefaultInit | birdgame/models/emwavartracker.py:23 | the defaults are fading factor 0.0001, horizon 10 and warm-up 0 |
| EmwaVarTracker.Clip | birdgame/models/emwavartracker.py:76 | the result lies in [lo, hi]; it is x when x is inside, lo below, and hi above |
| EmwaVarTracker.ThresholdVariance | birdgame/models/emwavartracker.py:74 | the threshold uses variance 1.0 while count is 0, and the core estimate after that |
| EmwaVarTracker.Winsorized | birdgame/models/emwavartracker.py:74-78 | with a positive threshold the change is clipped to [−threshold, threshold]: left alone when inside, the threshold above it and −threshold below it; with a threshold ≤ 0 it is left alone |
| EmwaVarTracker.Tick | birdgame/models/emwavartracker.py:36-90 | the latest location becomes the tick's location; the quarantine is the tracker's own after queueing that location and releasing one; horizon, fading factor, warm-up and threat are unchanged |
| EmwaVarTracker.TickCounters | birdgame/models/emwavartracker.py:66-90 | a tick raises exactly when a location is released and the threshold variance is negative, and then changes neither counter nor estimator. Otherwise the tick count goes up by one, and count goes up by one exactly when a location was released; when none was released, count and both estimators stay unchanged |
| EmwaVarTracker.TickFeedsEstimators | birdgame/models/emwavartracker.py:70-82 | on a release the tail gets 2 × (x − prev). The core gets exactly the winsorized change: clipped to [−t, t] for a positive threshold t, and the change itself when it lies inside or when t is 0. The threshold is 2 while count is 0, and is 0 exactly when the threshold variance is 0, in which case the core gets the unclipped change |
| EmwaVarTracker.TickIgnoresMetrics | birdgame/models/emwavartracker.py:36-60 | a tick does the same with any performance metrics |
| EmwaVarTracker.TickKeepsCountersValid | birdgame/models/emwavartracker.py:84-90 | every tick keeps 0 ≤ count ≤ tick count |
| EmwaVarTracker.ComponentScale | birdgame/models/emwavartracker.py:108-115 | the scale is never below 1e-6; it is 1.0 for a negative variance (the caught `sqrt` error), the square root when that is above 1e-6, and 1e-6 otherwise |
| EmwaVarTracker.Predict | birdgame/models/emwavartracker.py:92-136 | None if and only if the tick count is below the warm-up cutoff. Otherwise a mixture of exactly two normals, weighted 0.95 then 0.05, both centred on the latest location, with the core and then the tail scale |
| EmwaVarTracker.RunTicks | birdgame/models/emwavartracker.py:36-90 | a run of ticks keeps the horizon, fading factor, warm-up cutoff and threat |
| EmwaVarTracker.RunTicksCounts | birdgame/models/emwavartracker.py:90 | a run that raises nothing adds one to the tick count per payload |
| EmwaVarTracker.WarmupAbstains | birdgame/models/emwavartracker.py:100-101 | after a run without raises from a fresh tracker with warm-up w, the prediction is None if and only if fewer than w payloads were ticked |
| EmwaVarTracker.PredictionScores | birdgame/models/emwavartracker.py:104-133 | once a location has been seen, a post-warm-up prediction scores under the density metric. Its score is 0.95 × core density + 0.05 × tail density, and it stores the core component |
| EmwaVarTracker.PredictionBeforeFirstTick | birdgame/models/emwavartracker.py:92-136 | a fresh tracker without warm-up predicts a mixture whose `loc` is None. Scoring it raises the TypeError under a builtin metric, the unsupported-metric error under an unknown name, and under a callable gives 0.95·f(x, None, core) + 0.05·f(x, None, tail), storing the core component |

## Left out

- Console output (`print` when there are no scores), plotting and animation,
  the remote data sources, and the NGBoost and quantile-regression trackers
  are not part of this model.
- Floating point: values are mathematical reals, and there is no NaN,
  infinity, overflow or rounding. `math.exp`, `math.sqrt` and `math.pi` are
  uninterpreted apart from positivity, `sqrt(0) = 0` and `sqrt(1) = 1`. Exact density
  values are not stated.
- `densitypdf.density_pdf` is foreign code. It is the `pdf` parameter of
  the evaluator's functions: a value or a raise for each density and
  location.
- `FEWVar` is not part of this model. It is the abstract `Estimator`
  (create, update, get), and any exception its own methods might raise is
  not modelled.
- The evaluator's base class `Quarantine` is not part of this model. Its
  add and release are taken to be those of `TrackerBase`.
- The evaluator calls `tracker.tick(payload)` with one argument, while
  `EMWAVarTracker.tick` requires two. The evaluator's tracker is therefore
  an abstract `Tracker` (horizon, a tick that may raise, a predict that may
  raise). The two modules are linked
  only through the prediction format (`EmwaVarTracker.PredictionScores`),
  not by running one inside the other.
- Dictionaries are typed records:
  - only the `params` keys can be absent; `components`, `density` and
    `weight` are always present, and a weight is always a number;
  - a prediction is either None or a structured density, so Python's falsy
    empty dict has no counterpart.
- NormalDist.ScoreComponent: a callable metric is a total function to a
  real, so an exception it raises, or a result that is not a number, is
  not modelled.
- A `metric` that is neither a string nor a callable cannot be expressed in
  the typed model, so its `ValueError` is not modelled.
- `latest_threat` never changes, because the code that would update it is
  commented out. The `weights` list is the pair of constants 0.95 and 0.05.
- Times are reals and the horizon is an integer, as in the constructors'
  defaults. Ticks are taken in order: the `Run` and `RunTicks` sequences
  stop at the first raise, as an uncaught exception does.
- TrackerEvaluator.Run: bounds the number of new scores by the
  number of ticks, rather than stating it as a count of scoring ticks. The
  exact per-tick condition is in `TrackerEvaluator.TickAndPredictScores`.
