/**
 Density scoring of a (mixture of) normal distributions at an observed
 location: the two builtin per-component metrics and the weighted,
 never-renormalised accumulation over a mixture's components.
 */
module NormalDist {
  import opened Wrappers
  import opened RealMath
  import opened Records

  /**
   What the scorer raises: its two ValueErrors, the KeyError of an absent
   `loc` or `scale`, and the TypeError of comparing or subtracting a None.
   */
  datatype ScoreError = InvalidScale | UnsupportedMetric(name: string) | MissingParam(key: string) | NoneOperand

  /**
   The `metric` argument: one of the two builtin names, another name, or a
   callable, which receives `loc` and `scale` as they are, None included.
   */
  datatype Metric =
    | PdfMetric
    | ZScoreMetric
    | CustomMetric(f: (real, Option<real>, Option<real>) -> real)
    | UnknownMetric(name: string)

  /** The metric a name selects from the table of builtin metrics. */
  function MetricNamed(name: string): (mt: Metric)
    ensures name == "pdf_score" <==> mt == PdfMetric
    ensures name == "z_score" <==> mt == ZScoreMetric
    ensures mt.UnknownMetric? <==> name != "pdf_score" && name != "z_score"
    ensures mt.UnknownMetric? ==> mt.name == name
  {
    if name == "pdf_score" then PdfMetric
    else if name == "z_score" then ZScoreMetric
    else UnknownMetric(name)
  }

  /** The normal density with mean `loc` and standard deviation `scale` at `x`. */
  function NormalDensity(m: Math, x: real, loc: real, scale: real): (r: real)
    requires scale > 0.0
    ensures r > 0.0
  {
    SquarePositive(scale);
    var normalization := 1.0 / m.sqrt(2.0 * m.pi * Pow(scale, 2));
    var decay := -Pow(x - loc, 2) / (2.0 * Pow(scale, 2));
    normalization * m.exp(decay)
  }

  /** `compute_pdf_score`: the normal density, or InvalidScale when the scale is not positive. */
  function PdfScore(m: Math, x: real, loc: real, scale: real): (r: Result<real, ScoreError>)
    ensures r.Failure? <==> scale <= 0.0
    ensures r.Failure? ==> r.error == InvalidScale
    ensures r.Success? ==> r.value > 0.0
  {
    if scale <= 0.0 then Failure(InvalidScale) else Success(NormalDensity(m, x, loc, scale))
  }

  /** The density depends on x only through its squared distance from loc. */
  lemma PdfScoreDependsOnDistance(m: Math, x1: real, x2: real, loc: real, scale: real)
    requires Pow(x1 - loc, 2) == Pow(x2 - loc, 2)
    ensures PdfScore(m, x1, loc, scale) == PdfScore(m, x2, loc, scale)
  {
    if scale > 0.0 {
      assert NormalDensity(m, x1, loc, scale) == NormalDensity(m, x2, loc, scale);
    }
  }

  /** The density is symmetric about its mean. */
  lemma PdfScoreSymmetric(m: Math, x: real, loc: real, scale: real)
    ensures PdfScore(m, x, loc, scale) == PdfScore(m, 2.0 * loc - x, loc, scale)
  {
    assert 2.0 * loc - x - loc == -(x - loc);
    SquareOfNegation(x - loc);
    PdfScoreDependsOnDistance(m, x, 2.0 * loc - x, loc, scale);
  }

  /** The squared distance of x from loc, in units of scale. */
  function SquaredZScore(x: real, loc: real, scale: real): (r: Result<real, ScoreError>)
    ensures r.Failure? <==> scale <= 0.0
    ensures r.Failure? ==> r.error == InvalidScale
    ensures r.Success? ==> r.value >= 0.0 && (r.value == 0.0 <==> x == loc)
    ensures r.Success? ==> r.value * Pow(scale, 2) == Pow(x - loc, 2)
  {
    if scale <= 0.0 then Failure(InvalidScale)
    else
      var z := (x - loc) / scale;
      SquareSign(z);
      SquareOfQuotient(x - loc, scale);
      assert z == 0.0 <==> x == loc;
      Success(Pow(z, 2))
  }

  /**
   The operands of a builtin metric as it reaches them: `scale <= 0` is
   evaluated first, raising a TypeError on a None scale and the scale error
   on a non-positive one; only then is a None `loc` used in arithmetic.
   */
  function Operands(loc: Option<real>, scale: Option<real>): (r: Result<(real, real), ScoreError>)
    ensures r.Success? <==> loc.Some? && scale.Some? && scale.value > 0.0
    ensures r.Success? ==> r.value == (loc.value, scale.value)
    ensures r.Failure? ==> (r.error == InvalidScale <==> scale.Some? && scale.value <= 0.0)
    ensures r.Failure? ==> r.error == InvalidScale || r.error == NoneOperand
  {
    if scale.None? then Failure(NoneOperand)
    else if scale.value <= 0.0 then Failure(InvalidScale)
    else if loc.None? then Failure(NoneOperand)
    else Success((loc.value, scale.value))
  }

  /** One metric applied to one component's `loc` and `scale`, either of which may be None. */
  function ApplyMetric(m: Math, metric: Metric, x: real, loc: Option<real>, scale: Option<real>): (r: Result<real, ScoreError>)
    ensures metric.UnknownMetric? ==> r == Failure(UnsupportedMetric(metric.name))
    ensures metric.CustomMetric? ==> r == Success(metric.f(x, loc, scale))
    ensures metric.PdfMetric? ==>
      (r.Success? <==> Operands(loc, scale).Success?) &&
      (r.Success? ==> r == PdfScore(m, x, loc.value, scale.value))
    ensures metric.ZScoreMetric? ==>
      (r.Success? <==> Operands(loc, scale).Success?) &&
      (r.Success? ==> r == SquaredZScore(x, loc.value, scale.value))
    ensures (metric.PdfMetric? || metric.ZScoreMetric?) && r.Failure? ==> r.error == Operands(loc, scale).error
  {
    match metric
    case UnknownMetric(name) => Failure(UnsupportedMetric(name))
    case CustomMetric(f) => Success(f(x, loc, scale))
    case PdfMetric =>
      (match Operands(loc, scale)
       case Failure(e) => Failure(e)
       case Success(ls) => PdfScore(m, x, ls.0, ls.1))
    case ZScoreMetric =>
      (match Operands(loc, scale)
       case Failure(e) => Failure(e)
       case Success(ls) => SquaredZScore(x, ls.0, ls.1))
  }

  /** A component read and scored: its parameters, its weight and its unweighted metric value. */
  datatype Scored = Scored(loc: Option<real>, scale: Option<real>, weight: real, score: real)

  /**
   Reads a component's `loc` and `scale` (an absent key raises, a key bound
   to None does not), dispatches the metric and scores it.
   */
  function ScoreComponent(m: Math, c: Component, x: real, metric: Metric): (r: Result<Scored, ScoreError>)
    ensures c.params.loc.Absent? ==> r == Failure(MissingParam("loc"))
    ensures c.params.loc.Present? && c.params.scale.Absent? ==> r == Failure(MissingParam("scale"))
    ensures r.Success? ==>
      && c.params.loc == Present(r.value.loc)
      && c.params.scale == Present(r.value.scale)
      && r.value.weight == c.weight
      && ApplyMetric(m, metric, x, r.value.loc, r.value.scale) == Success(r.value.score)
    ensures c.params.loc.Present? && c.params.scale.Present? ==>
      var a := ApplyMetric(m, metric, x, c.params.loc.value, c.params.scale.value);
      (r.Failure? <==> a.Failure?) && (r.Failure? ==> r.error == a.error)
  {
    if c.params.loc.Absent? then Failure(MissingParam("loc"))
    else if c.params.scale.Absent? then Failure(MissingParam("scale"))
    else
      var loc := c.params.loc.value;
      var scale := c.params.scale.value;
      match ApplyMetric(m, metric, x, loc, scale)
      case Failure(e) => Failure(e)
      case Success(s) => Success(Scored(loc, scale, c.weight, s))
  }

  /** The diagnostic record kept for the heaviest component. */
  datatype StoredPrediction = StoredPrediction(loc: Option<real>, scale: Option<real>, doveLocation: real, score: real)

  function StoredOf(s: Scored, x: real): StoredPrediction {
    StoredPrediction(s.loc, s.scale, x, s.score)
  }

  /** The loop variables `weighted_score`, `highest_weight` and `stored_prediction`. */
  datatype LoopState = LoopState(weighted: real, highest: real, stored: Option<StoredPrediction>)

  /** How the loop body reads and scores one component. */
  type Scorer = Component -> Result<Scored, ScoreError>

  function ScorerFor(m: Math, x: real, metric: Metric): Scorer {
    c => ScoreComponent(m, c, x, metric)
  }

  /**
   The rest of the loop body once the component has been scored: the sum
   grows by weight times score, and a strictly heavier component becomes
   the highest weight and the stored record.
   */
  function Step(st: LoopState, s: Scored, x: real): (r: LoopState)
    ensures r.weighted == st.weighted + s.weight * s.score
    ensures r.highest >= st.highest && r.highest >= s.weight
    ensures s.weight > st.highest ==> r.highest == s.weight && r.stored == Some(StoredOf(s, x))
    ensures s.weight <= st.highest ==> r.highest == st.highest && r.stored == st.stored
  {
    var weighted := st.weighted + s.weight * s.score;
    if s.weight > st.highest then LoopState(weighted, s.weight, Some(StoredOf(s, x)))
    else st.(weighted := weighted)
  }

  /** The loop over the components from index i on, with the loop variables in `st`. */
  function ScoreFrom(cs: seq<Component>, x: real, score: Scorer, i: int, st: LoopState): (r: Result<LoopState, ScoreError>)
    requires 0 <= i <= |cs|
    ensures r.Success? ==> r.value.highest >= st.highest
    ensures r.Success? && r.value.stored != st.stored ==> r.value.highest > st.highest
    decreases |cs| - i
  {
    if i == |cs| then Success(st)
    else
      match score(cs[i])
      case Failure(e) => Failure(e)
      case Success(s) => ScoreFrom(cs, x, score, i + 1, Step(st, s, x))
  }

  /** `pdf.get('components', [])`: a single density has no components. */
  function Components(pdf: Density): (cs: seq<Component>)
    ensures pdf.Builtin? ==> cs == []
    ensures pdf.Mixture? ==> cs == pdf.components
  {
    if pdf.Mixture? then pdf.components else []
  }

  /** The weighted score over all components and the stored prediction of the heaviest one. */
  function ScoreForNormalDist(m: Math, pdf: Density, x: real, metric: Metric): (r: Result<(real, Option<StoredPrediction>), ScoreError>)
    ensures |Components(pdf)| == 0 ==> r == Success((0.0, None))
  {
    match ScoreFrom(Components(pdf), x, ScorerFor(m, x, metric), 0, LoopState(0.0, 0.0, None))
    case Failure(e) => Failure(e)
    case Success(st) => Success((st.weighted, st.stored))
  }

  // ---------------------------------------------------------------------------
  // Reference definitions, independent of the loop

  /** Every component from index i on scored in order, or the error of the first that fails. */
  function ScoresFrom(cs: seq<Component>, score: Scorer, i: int): (r: Result<seq<Scored>, ScoreError>)
    requires 0 <= i <= |cs|
    ensures r.Success? ==>
      && |r.value| == |cs| - i
      && forall j :: 0 <= j < |r.value| ==> score(cs[i + j]) == Success(r.value[j])
    ensures r.Failure? ==>
      exists j :: i <= j < |cs| && score(cs[j]) == Failure(r.error) && forall k :: i <= k < j ==> score(cs[k]).Success?
    ensures r.Success? <==> forall j :: i <= j < |cs| ==> score(cs[j]).Success?
    decreases |cs| - i
  {
    if i == |cs| then Success([])
    else
      match score(cs[i])
      case Failure(e) => Failure(e)
      case Success(s) =>
        match ScoresFrom(cs, score, i + 1)
        case Failure(e) => Failure(e)
        case Success(rest) => Success([s] + rest)
  }

  /** The sum of weight times score over the scored components. */
  function WeightedSum(ss: seq<Scored>): real {
    if |ss| == 0 then 0.0 else ss[0].weight * ss[0].score + WeightedSum(ss[1..])
  }

  /** Component k is the first of largest weight, and that weight exceeds `floor`. */
  ghost predicate IsHeaviest(ss: seq<Scored>, k: int, floor: real) {
    && 0 <= k < |ss|
    && ss[k].weight > floor
    && (forall j :: 0 <= j < k ==> ss[j].weight < ss[k].weight)
    && (forall j :: k < j < |ss| ==> ss[j].weight <= ss[k].weight)
  }

  lemma HeaviestUnique(ss: seq<Scored>, k1: int, k2: int, floor: real)
    requires IsHeaviest(ss, k1, floor) && IsHeaviest(ss, k2, floor)
    ensures k1 == k2
  {
  }

  /** If some weight exceeds the floor, some component is the heaviest. */
  lemma {:induction false} HeaviestExists(ss: seq<Scored>, floor: real)
    requires exists j :: 0 <= j < |ss| && ss[j].weight > floor
    ensures exists k :: IsHeaviest(ss, k, floor)
    decreases |ss|
  {
    var rest := ss[1..];
    if ss[0].weight > floor {
      if exists j :: 0 <= j < |rest| && rest[j].weight > ss[0].weight {
        HeaviestExists(rest, ss[0].weight);
        var k :| IsHeaviest(rest, k, ss[0].weight);
        assert IsHeaviest(ss, k + 1, floor);
      } else {
        assert IsHeaviest(ss, 0, floor);
      }
    } else {
      var j :| 0 <= j < |ss| && ss[j].weight > floor;
      assert rest[j - 1].weight > floor;
      HeaviestExists(rest, floor);
      var k :| IsHeaviest(rest, k, floor);
      assert IsHeaviest(ss, k + 1, floor);
    }
  }

  /** From index i on, the loop fails exactly when the reference does, with the same error. */
  lemma {:induction false} ScoreFromErrors(cs: seq<Component>, x: real, score: Scorer, i: int, st: LoopState)
    requires 0 <= i <= |cs|
    ensures ScoreFrom(cs, x, score, i, st).Failure? <==> ScoresFrom(cs, score, i).Failure?
    ensures ScoreFrom(cs, x, score, i, st).Failure? ==> ScoreFrom(cs, x, score, i, st).error == ScoresFrom(cs, score, i).error
    decreases |cs| - i
  {
    if i < |cs| {
      match score(cs[i])
      case Failure(e) =>
      case Success(s) => ScoreFromErrors(cs, x, score, i + 1, Step(st, s, x));
    }
  }

  /** The loop body applied to already scored components, in order. */
  function Fold(ss: seq<Scored>, x: real, st: LoopState): LoopState {
    if |ss| == 0 then st else Fold(ss[1..], x, Step(st, ss[0], x))
  }

  /** When every component scores, the loop is the fold of its body over the reference scores. */
  lemma {:induction false} ScoreFromFold(cs: seq<Component>, x: real, score: Scorer, i: int, st: LoopState)
    requires 0 <= i <= |cs|
    requires ScoresFrom(cs, score, i).Success?
    ensures ScoreFrom(cs, x, score, i, st) == Success(Fold(ScoresFrom(cs, score, i).value, x, st))
    decreases |cs| - i
  {
    if i < |cs| {
      var s := score(cs[i]).value;
      var ss := ScoresFrom(cs, score, i).value;
      ScoreFromFold(cs, x, score, i + 1, Step(st, s, x));
      assert ss[1..] == ScoresFrom(cs, score, i + 1).value;
    }
  }

  /** The fold adds the weighted sum of the scores to the running sum. */
  lemma {:induction false} FoldSum(ss: seq<Scored>, x: real, st: LoopState)
    ensures Fold(ss, x, st).weighted == st.weighted + WeightedSum(ss)
    decreases |ss|
  {
    if |ss| > 0 {
      FoldSum(ss[1..], x, Step(st, ss[0], x));
    }
  }

  /** No weight above the running highest: the running highest and stored prediction are kept. */
  lemma {:induction false} FoldKeeps(ss: seq<Scored>, x: real, st: LoopState)
    requires forall j :: 0 <= j < |ss| ==> ss[j].weight <= st.highest
    ensures Fold(ss, x, st).highest == st.highest && Fold(ss, x, st).stored == st.stored
    decreases |ss|
  {
    if |ss| > 0 {
      assert ss[0].weight <= st.highest;
      var st' := Step(st, ss[0], x);
      assert st'.highest == st.highest && st'.stored == st.stored;
      forall j | 0 <= j < |ss[1..]| ensures ss[1..][j].weight <= st'.highest {
        assert ss[1..][j] == ss[j + 1];
      }
      FoldKeeps(ss[1..], x, st');
    }
  }

  /** The fold ends holding the first heaviest component above the running highest. */
  lemma {:induction false} FoldStoresHeaviest(ss: seq<Scored>, x: real, st: LoopState, k: int)
    requires IsHeaviest(ss, k, st.highest)
    ensures Fold(ss, x, st).highest == ss[k].weight
    ensures Fold(ss, x, st).stored == Some(StoredOf(ss[k], x))
    decreases |ss|
  {
    var rest := ss[1..];
    var st' := Step(st, ss[0], x);
    if k == 0 {
      assert st'.highest == ss[0].weight && st'.stored == Some(StoredOf(ss[0], x));
      forall j | 0 <= j < |rest| ensures rest[j].weight <= st'.highest {
        assert rest[j] == ss[j + 1];
      }
      FoldKeeps(rest, x, st');
    } else {
      assert ss[0].weight < ss[k].weight;
      if ss[0].weight > st.highest {
        assert st'.highest == ss[0].weight;
      } else {
        assert st'.highest == st.highest;
      }
      assert rest[k - 1] == ss[k];
      assert IsHeaviest(rest, k - 1, st'.highest);
      FoldStoresHeaviest(rest, x, st', k - 1);
    }
  }

  /**
   The weighted score is the reference sum of weight times metric value over
   the components, in order; the stored prediction is None exactly when no
   weight is positive and otherwise belongs to the first component of
   largest weight; and the call fails exactly when some component fails,
   with the first failing component's error.
   */
  lemma ScoreForNormalDistMatchesReference(m: Math, pdf: Density, x: real, metric: Metric)
    ensures
      var r := ScoreForNormalDist(m, pdf, x, metric);
      var ref := ScoresFrom(Components(pdf), ScorerFor(m, x, metric), 0);
      && (r.Failure? <==> ref.Failure?)
      && (r.Failure? ==> r.error == ref.error)
      && (r.Success? ==> r.value.0 == WeightedSum(ref.value))
      && (r.Success? ==> (r.value.1.None? <==> forall j :: 0 <= j < |ref.value| ==> ref.value[j].weight <= 0.0))
      && (r.Success? ==> forall k :: IsHeaviest(ref.value, k, 0.0) ==> r.value.1 == Some(StoredOf(ref.value[k], x)))
      && (r.Success? && r.value.1.Some? ==> exists k :: IsHeaviest(ref.value, k, 0.0))
  {
    var cs := Components(pdf);
    var score := ScorerFor(m, x, metric);
    var st := LoopState(0.0, 0.0, None);
    ScoreFromErrors(cs, x, score, 0, st);
    var r := ScoreForNormalDist(m, pdf, x, metric);
    if r.Success? {
      var ss := ScoresFrom(cs, score, 0).value;
      ScoreFromFold(cs, x, score, 0, st);
      FoldSum(ss, x, st);
      forall k | IsHeaviest(ss, k, 0.0) ensures r.value.1 == Some(StoredOf(ss[k], x)) {
        FoldStoresHeaviest(ss, x, st, k);
      }
      if exists j :: 0 <= j < |ss| && ss[j].weight > 0.0 {
        HeaviestExists(ss, 0.0);
        var k :| IsHeaviest(ss, k, 0.0);
        FoldStoresHeaviest(ss, x, st, k);
      } else {
        FoldKeeps(ss, x, st);
      }
    }
  }

  /** With at least one component an unknown metric name always fails. */
  lemma UnknownMetricFails(m: Math, pdf: Density, x: real, name: string)
    requires |Components(pdf)| > 0
    requires name != "pdf_score" && name != "z_score"
    ensures ScoreForNormalDist(m, pdf, x, MetricNamed(name)).Failure?
    ensures
      var c := Components(pdf)[0];
      c.params.loc.Present? && c.params.scale.Present? ==>
        ScoreForNormalDist(m, pdf, x, MetricNamed(name)) == Failure(UnsupportedMetric(name))
  {
    var cs := Components(pdf);
    var score := ScorerFor(m, x, MetricNamed(name));
    ScoreForNormalDistMatchesReference(m, pdf, x, MetricNamed(name));
    assert score(cs[0]).Failure?;
  }

  /**
   With a builtin metric, a non-positive scale in any component makes the
   call fail, whatever that component's `loc` is bound to, None included.
   */
  lemma NonPositiveScaleFails(m: Math, pdf: Density, x: real, metric: Metric, k: int)
    requires metric.PdfMetric? || metric.ZScoreMetric?
    requires 0 <= k < |Components(pdf)|
    requires Components(pdf)[k].params.loc.Present?
    requires Components(pdf)[k].params.scale.Present? && Components(pdf)[k].params.scale.value.Some?
    requires Components(pdf)[k].params.scale.value.value <= 0.0
    ensures ScoreForNormalDist(m, pdf, x, metric).Failure?
  {
    var score := ScorerFor(m, x, metric);
    ScoreForNormalDistMatchesReference(m, pdf, x, metric);
    assert score(Components(pdf)[k]).Failure?;
  }

  /** A single component scores weight times its metric value, and is stored when its weight is positive. */
  lemma SingleComponent(m: Math, c: Component, x: real, metric: Metric, loc: Option<real>, scale: Option<real>, v: real)
    requires c.params.loc == Present(loc) && c.params.scale == Present(scale)
    requires ApplyMetric(m, metric, x, loc, scale) == Success(v)
    ensures ScoreForNormalDist(m, Mixture([c]), x, metric)
         == Success((c.weight * v, if c.weight > 0.0 then Some(StoredPrediction(loc, scale, x, v)) else None))
  {
    var cs := [c];
    var score := ScorerFor(m, x, metric);
    var s := Scored(loc, scale, c.weight, v);
    assert score(c) == Success(s);
    ScoreForNormalDistMatchesReference(m, Mixture(cs), x, metric);
    var ss := ScoresFrom(cs, score, 0).value;
    assert ss == [s];
    assert WeightedSum(ss) == c.weight * v + WeightedSum([]);
    if c.weight > 0.0 {
      assert IsHeaviest(ss, 0, 0.0);
    }
  }

  /**
   Two components score the weighted sum w1 * f1 + w2 * f2, with the
   weights not renormalised; when the first weight is positive and not
   below the second, the first component is the one stored.
   */
  lemma TwoComponents(m: Math, c1: Component, c2: Component, x: real, metric: Metric, f1: real, f2: real)
    requires c1.params.loc.Present? && c1.params.scale.Present? && c2.params.loc.Present? && c2.params.scale.Present?
    requires ApplyMetric(m, metric, x, c1.params.loc.value, c1.params.scale.value) == Success(f1)
    requires ApplyMetric(m, metric, x, c2.params.loc.value, c2.params.scale.value) == Success(f2)
    ensures ScoreForNormalDist(m, Mixture([c1, c2]), x, metric).Success?
    ensures ScoreForNormalDist(m, Mixture([c1, c2]), x, metric).value.0 == c1.weight * f1 + c2.weight * f2
    ensures c1.weight > 0.0 && c2.weight <= c1.weight ==>
      ScoreForNormalDist(m, Mixture([c1, c2]), x, metric).value.1
        == Some(StoredPrediction(c1.params.loc.value, c1.params.scale.value, x, f1))
  {
    var cs := [c1, c2];
    var score := ScorerFor(m, x, metric);
    var s1 := Scored(c1.params.loc.value, c1.params.scale.value, c1.weight, f1);
    var s2 := Scored(c2.params.loc.value, c2.params.scale.value, c2.weight, f2);
    assert score(cs[0]) == Success(s1);
    assert score(cs[1]) == Success(s2);
    ScoreForNormalDistMatchesReference(m, Mixture(cs), x, metric);
    var ss := ScoresFrom(cs, score, 0).value;
    assert ss == [s1, s2];
    assert WeightedSum([s2]) == c2.weight * f2 + WeightedSum([]);
    assert WeightedSum(ss) == c1.weight * f1 + WeightedSum([s2]) by {
      assert ss[1..] == [s2];
    }
    if c1.weight > 0.0 && c2.weight <= c1.weight {
      assert IsHeaviest(ss, 0, 0.0);
    }
  }
}
