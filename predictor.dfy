/** The `AADTPredictor` class of scripts/utils/aadt_predictor.py: it owns the
    full table (`data_full`), the training table derived from it (`data`),
    the response column it is working on, the model and the train/test
    split. The pure functions below give the state each method leaves behind;
    the class methods are proved to leave exactly that state. */
module Predictor {
  import opened Common
  import opened Links
  import opened Learning

  /** What `split_data` stores in X_train, y_train, X_test and y_test. */
  datatype Split = Split(
    xTrain: seq<Features>,
    yTrain: seq<Option<real>>,
    xTest: seq<Features>,
    yTest: seq<Option<real>>)

  /** The fields of an `AADTPredictor`: `data` is None until a subset
      succeeds, `split` is None until a split succeeds. */
  datatype PState = PState(
    dataFull: seq<Link>,
    data: Option<seq<Link>>,
    responseVar: Option<ResponseVar>,
    model: Option<Estimator>,
    split: Option<Split>)

  /** The random-forest key of the model dictionary, which both driver
      scripts also pass to `initialize_model`. */
  const RandomForestKey: string := "Random Forest"

  function ResponseOf(v: ResponseVar): Link -> Option<real> {
    (r: Link) => Get(r, v)
  }

  /** `t[v]`: the response column `v` of a table. */
  function Column(t: seq<Link>, v: ResponseVar): (c: seq<Option<real>>)
    ensures |c| == |t|
    ensures forall i :: 0 <= i < |t| ==> c[i] == Get(t[i], v)
  {
    Map(t, ResponseOf(v))
  }

  /** `t[RF_PREDICTOR_VARS]`: the predictor columns of a table. */
  function Predictors(t: seq<Link>): (x: seq<Features>)
    ensures |x| == |t|
    ensures forall i :: 0 <= i < |t| ==> x[i] == FeaturesOf(t[i])
  {
    Map(t, FeaturesOf)
  }

  /** `subset_train_data`: `data` becomes the rows of `data_full` whose
      response is known; without a response column the lookup raises, the
      error is only reported, and `data` stays what it was. Nothing else
      changes. */
  function AfterSubset(s: PState): (s': PState)
    ensures s'.dataFull == s.dataFull && s'.responseVar == s.responseVar
    ensures s'.model == s.model && s'.split == s.split
    ensures s.responseVar.None? ==> s'.data == s.data
    ensures s.responseVar.Some? ==> (s'.data.Some? &&
      forall r :: r in s'.data.value <==> r in s.dataFull && Get(r, s.responseVar.value).Some?)
  {
    match s.responseVar
    case None => s
    case Some(v) => s.(data := Some(NonNull(s.dataFull, v)))
  }

  /** The state right after construction from the rows read from the CSV
      file: codes padded, then a subset for the response given (none when
      the response is None). No model and no split yet. */
  function Loaded(raw: seq<Link>, rv: Option<ResponseVar>): (s: PState)
    ensures s.dataFull == PadTable(raw)
    ensures s.responseVar == rv && s.model.None? && s.split.None?
    ensures s.data.Some? <==> rv.Some?
    ensures rv.Some? ==> forall r :: r in s.data.value <==> r in s.dataFull && Get(r, rv.value).Some?
  {
    AfterSubset(PState(PadTable(raw), None, rv, None, None))
  }

  /** The train and test rows `train_test_split` picks from the state's
      partition of `data`. */
  function TrainTestRows(data: seq<Link>, state: Option<string>, inTest: nat -> bool): (rows: (seq<Link>, seq<Link>))
    ensures multiset(rows.0) + multiset(rows.1) == multiset(Partition(data, state))
  {
    var part := Partition(data, state);
    assert part[0..] == part;
    SplitRows(part, inTest, 0)
  }

  function SplitOf(rows: (seq<Link>, seq<Link>), v: ResponseVar): Split {
    Split(Predictors(rows.0), Column(rows.0, v), Predictors(rows.1), Column(rows.1, v))
  }

  /** `split_data`: None when it raises, which happens when there is no
      training table (`data` is None), no response column, or no row left
      for training (the library refuses an empty training set). Otherwise
      only the split changes. */
  function AfterSplit(s: PState, state: Option<string>, inTest: nat -> bool): (r: Option<PState>)
    ensures r.Some? <==> (s.data.Some? && s.responseVar.Some? &&
      |TrainTestRows(s.data.value, state, inTest).0| > 0)
    ensures r.Some? ==> r.value.split.Some? && r.value == s.(split := r.value.split)
    ensures r.Some? ==> (r.value.split.value ==
      SplitOf(TrainTestRows(s.data.value, state, inTest), s.responseVar.value))
  {
    if s.data.None? || s.responseVar.None? then None
    else
      var rows := TrainTestRows(s.data.value, state, inTest);
      if |rows.0| == 0 then None
      else Some(s.(split := Some(SplitOf(rows, s.responseVar.value))))
  }

  /** Every row `split_data` hands to training or testing belongs to the
      requested state (when a non-empty one is given) and comes from `data`;
      and train and test together are the whole partition, each row once. */
  lemma SplitRowsComeFromPartition(data: seq<Link>, state: Option<string>, inTest: nat -> bool)
    ensures var rows := TrainTestRows(data, state, inTest);
      forall r :: r in rows.0 || r in rows.1 ==>
        r in data && (state.Some? && state.value != "" ==> r.statefp == state.value)
    ensures var rows := TrainTestRows(data, state, inTest);
      multiset(rows.0) + multiset(rows.1) == multiset(Partition(data, state))
  {
    var rows := TrainTestRows(data, state, inTest);
    forall r | r in rows.0 || r in rows.1
      ensures r in data && (state.Some? && state.value != "" ==> r.statefp == state.value)
    {
      assert r in multiset(rows.0) + multiset(rows.1);
      assert r in multiset(Partition(data, state));
    }
  }

  /** When `data` is the non-null subset, every training and test response
      handed to the model is known. */
  lemma SplitResponsesKnown(s: PState, state: Option<string>, inTest: nat -> bool)
    requires s.responseVar.Some? && s.data == Some(NonNull(s.dataFull, s.responseVar.value))
    requires AfterSplit(s, state, inTest).Some?
    ensures AllKnown(AfterSplit(s, state, inTest).value.split.value.yTrain)
    ensures AllKnown(AfterSplit(s, state, inTest).value.split.value.yTest)
  {
    var v := s.responseVar.value;
    var rows := TrainTestRows(s.data.value, state, inTest);
    SplitRowsComeFromPartition(s.data.value, state, inTest);
    var sp := AfterSplit(s, state, inTest).value.split.value;
    forall i | 0 <= i < |sp.yTrain| ensures sp.yTrain[i].Some? {
      assert rows.0[i] in rows.0;
    }
    forall i | 0 <= i < |sp.yTest| ensures sp.yTest[i].Some? {
      assert rows.1[i] in rows.1;
    }
  }

  /** `initialize_model`: a recognised key installs a fresh, unfitted
      estimator of that kind; any other key raises inside the method, is
      only reported, and leaves the state as it was. */
  function AfterInit(s: PState, key: string): (s': PState)
    ensures ModelKindOf(RandomForestKey, key).Some? ==> s' == s.(model := Some(Estimator(ModelKindOf(RandomForestKey, key).value, None)))
    ensures ModelKindOf(RandomForestKey, key).None? ==> s' == s
  {
    match ModelKindOf(RandomForestKey, key)
    case None => s
    case Some(k) => s.(model := Some(Estimator(k, None)))
  }

  /** `fit_model`: with a model and a split, the model is fitted on the
      training part when the library accepts it. A missing model, a missing
      split or a rejected fit raises inside the method, is only reported,
      and leaves the state as it was. */
  function AfterFit(s: PState, rejects: bool): (s': PState)
    ensures s'.dataFull == s.dataFull && s'.data == s.data && s'.responseVar == s.responseVar
    ensures s'.split == s.split
    ensures s'.model != s.model <==>
      s.model.Some? && s.split.Some? && Fit(s.split.value.xTrain, s.split.value.yTrain, rejects).Some? &&
      s.model.value.fitted != Fit(s.split.value.xTrain, s.split.value.yTrain, rejects)
    ensures s'.model != s.model ==> s'.model == Some(Estimator(s.model.value.kind,
      Fit(s.split.value.xTrain, s.split.value.yTrain, rejects)))
  {
    if s.model.None? || s.split.None? then s
    else
      match Fit(s.split.value.xTrain, s.split.value.yTrain, rejects)
      case None => s
      case Some(ts) => s.(model := Some(Estimator(s.model.value.kind, Some(ts))))
  }

  /** The driver scripts' commit: predictions for the target rows (response
      missing, and of the given state when one is given) are written into
      `data_full`; when `predict` raises the error is only reported and
      nothing is written. */
  function Committed(s: PState, v: ResponseVar, state: Option<string>, rejects: bool, learn: Learner): (s': PState)
    ensures s' == s.(dataFull := s'.dataFull)
    ensures Predictions(s.model, TargetCount(s.dataFull, v, state), rejects, learn).None? ==> s' == s
    ensures Predictions(s.model, TargetCount(s.dataFull, v, state), rejects, learn).Some? ==>
      s'.dataFull == Impute(s.dataFull, v, state, Predictions(s.model, TargetCount(s.dataFull, v, state), rejects, learn).value)
  {
    match Predictions(s.model, TargetCount(s.dataFull, v, state), rejects, learn)
    case None => s
    case Some(f) => s.(dataFull := Impute(s.dataFull, v, state, f))
  }

  /** What the library does in one imputation cycle, as seen from the
      predictor: how `train_test_split` distributes positions, whether `fit`
      and `predict` reject their input, and what the fitted model predicts.
      Each may depend on the response and the state being worked on. */
  datatype Env = Env(
    learn: Learner,
    inTest: (ResponseVar, Option<string>) -> (nat -> bool),
    fitRejects: (ResponseVar, Option<string>) -> bool,
    predictRejects: (ResponseVar, Option<string>) -> bool)

  /** The model `initialize_model(RandomForestKey)` and `fit_model` leave
      after a successful split. */
  function FittedAfter(s1: PState, v: ResponseVar, state: Option<string>, env: Env): PState {
    AfterFit(AfterInit(s1, RandomForestKey), env.fitRejects(v, state))
  }

  /** One imputation cycle of a driver script for response `v` (and a state,
      when given): split, initialise a random forest, fit, then commit the
      predictions for the target rows. Only the split can end the run (None);
      initialisation and fit report their own errors and the commit sits in
      a `try`. The cycle never changes `data`, never changes a row's
      non-response columns, never changes a known value, never touches the
      other response, and either writes nothing or fills every target row. */
  function ImputeCycle(s: PState, v: ResponseVar, state: Option<string>, env: Env): (r: Option<PState>)
    ensures r.None? <==> AfterSplit(s, state, env.inTest(v, state)).None?
    ensures r.Some? ==> r.value.data == s.data && r.value.responseVar == s.responseVar
    ensures r.Some? ==> |r.value.dataFull| == |s.dataFull|
    ensures r.Some? ==> forall i :: 0 <= i < |s.dataFull| ==>
      Skeleton(r.value.dataFull[i]) == Skeleton(s.dataFull[i])
    ensures r.Some? ==> forall i :: 0 <= i < |s.dataFull| && !IsTarget(s.dataFull[i], v, state) ==>
      r.value.dataFull[i] == s.dataFull[i]
    ensures r.Some? ==> forall i, w :: 0 <= i < |s.dataFull| && Get(s.dataFull[i], w).Some? ==>
      Get(r.value.dataFull[i], w) == Get(s.dataFull[i], w)
    ensures r.Some? ==> forall i, w :: 0 <= i < |s.dataFull| && w != v ==>
      Get(r.value.dataFull[i], w) == Get(s.dataFull[i], w)
    ensures r.Some? ==> (r.value.dataFull == s.dataFull ||
      forall i :: 0 <= i < |s.dataFull| && IsTarget(s.dataFull[i], v, state) ==>
        Get(r.value.dataFull[i], v).Some?)
  {
    match AfterSplit(s, state, env.inTest(v, state))
    case None => None
    case Some(s1) =>
      Some(Committed(FittedAfter(s1, v, state, env), v, state, env.predictRejects(v, state), env.learn))
  }

  /** A cycle whose split succeeds goes on to fit and commit. */
  lemma CycleAfterSplit(s: PState, v: ResponseVar, state: Option<string>, env: Env, s1: PState)
    requires AfterSplit(s, state, env.inTest(v, state)) == Some(s1)
    ensures ImputeCycle(s, v, state, env) ==
      Some(Committed(FittedAfter(s1, v, state, env), v, state, env.predictRejects(v, state), env.learn))
  {
  }

  /** A split with no row of the requested state in the training table
      raises. */
  lemma SplitRaisesWithoutRows(s: PState, state: Option<string>, inTest: nat -> bool)
    requires s.data.Some? && Partition(s.data.value, state) == []
    ensures AfterSplit(s, state, inTest).None?
  {
    var rows := TrainTestRows(s.data.value, state, inTest);
    assert multiset(rows.0) + multiset(rows.1) == multiset{};
    assert |multiset(rows.0)| == 0;
  }

  /** A rejected prediction is caught: the cycle completes and the table is
      left exactly as it was, so the missing values stay missing. */
  lemma PredictFailureLeavesTable(s: PState, v: ResponseVar, state: Option<string>, env: Env)
    requires AfterSplit(s, state, env.inTest(v, state)).Some?
    requires env.predictRejects(v, state)
    ensures ImputeCycle(s, v, state, env).Some?
    ensures ImputeCycle(s, v, state, env).value.dataFull == s.dataFull
  {
  }

  /** When the cycle commits, every target row receives the random forest's
      prediction for its own predictor values, the forest having been
      fitted on the training part of the split. */
  lemma CommittedValues(s: PState, v: ResponseVar, state: Option<string>, env: Env)
    requires AfterSplit(s, state, env.inTest(v, state)).Some?
    requires !env.predictRejects(v, state) && !env.fitRejects(v, state)
    requires TargetCount(s.dataFull, v, state) > 0
    requires AllKnown(AfterSplit(s, state, env.inTest(v, state)).value.split.value.yTrain)
    ensures var sp := AfterSplit(s, state, env.inTest(v, state)).value.split.value;
      var ts := TrainingSet(sp.xTrain, Known(sp.yTrain));
      forall i :: 0 <= i < |s.dataFull| && IsTarget(s.dataFull[i], v, state) ==>
        Get(ImputeCycle(s, v, state, env).value.dataFull[i], v) ==
          Some(env.learn(RandomForest, ts, FeaturesOf(s.dataFull[i])))
  {
    var s1 := AfterSplit(s, state, env.inTest(v, state)).value;
    var sp := s1.split.value;
    assert |sp.xTrain| > 0;
    var s2 := FittedAfter(s1, v, state, env);
    assert s2.model == Some(Estimator(RandomForest, Some(TrainingSet(sp.xTrain, Known(sp.yTrain)))));
  }

  /** What one cycle does to the table: None when the split raises,
      Some(None) when nothing is committed, Some(Some(f)) when the
      predictions `f` are committed. */
  function CycleEffect(s: PState, v: ResponseVar, state: Option<string>, env: Env): Option<Option<Features -> real>> {
    match AfterSplit(s, state, env.inTest(v, state))
    case None => None
    case Some(s1) =>
      Some(Predictions(FittedAfter(s1, v, state, env).model, TargetCount(s.dataFull, v, state),
        env.predictRejects(v, state), env.learn))
  }

  /** The table after an effect. */
  function Apply(t: seq<Link>, v: ResponseVar, state: Option<string>, e: Option<Features -> real>): seq<Link> {
    match e
    case None => t
    case Some(f) => Impute(t, v, state, f)
  }

  /** A cycle's table is its effect applied to the table it started from. */
  lemma CycleByEffect(s: PState, v: ResponseVar, state: Option<string>, env: Env)
    ensures ImputeCycle(s, v, state, env).None? <==> CycleEffect(s, v, state, env).None?
    ensures ImputeCycle(s, v, state, env).Some? ==>
      ImputeCycle(s, v, state, env).value.dataFull == Apply(s.dataFull, v, state, CycleEffect(s, v, state, env).value)
  {
  }

  /** The model a cycle fits, and so what it commits, depends only on the
      training table as far as the response `v` and the predictors go, and
      on the number of target rows: not on the other response column, not
      on the model or split left by earlier cycles. */
  lemma {:induction false} CycleEffectDependsOnTraining(s: PState, s': PState, v: ResponseVar, state: Option<string>, env: Env)
    requires s.responseVar == Some(v) && s'.responseVar == Some(v)
    requires s.data.Some? && s'.data.Some? && AgreeOn(s.data.value, s'.data.value, v)
    requires TargetCount(s.dataFull, v, state) == TargetCount(s'.dataFull, v, state)
    ensures CycleEffect(s, v, state, env) == CycleEffect(s', v, state, env)
  {
    var it := env.inTest(v, state);
    SplitDependsOnTraining(s, s', v, state, it);
    if AfterSplit(s, state, it).Some? {
      FittedModelDependsOnSplit(AfterSplit(s, state, it).value, AfterSplit(s', state, it).value, v, state, env);
    }
  }

  /** Whether the split raises, and what it stores, depends only on the
      agreeing part of the training table. */
  lemma SplitDependsOnTraining(s: PState, s': PState, v: ResponseVar, state: Option<string>, it: nat -> bool)
    requires s.responseVar == Some(v) && s'.responseVar == Some(v)
    requires s.data.Some? && s'.data.Some? && AgreeOn(s.data.value, s'.data.value, v)
    ensures AfterSplit(s, state, it).Some? == AfterSplit(s', state, it).Some?
    ensures AfterSplit(s, state, it).Some? ==> AfterSplit(s, state, it).value.split == AfterSplit(s', state, it).value.split
  {
    var part := Partition(s.data.value, state);
    var part' := Partition(s'.data.value, state);
    AgreePartition(s.data.value, s'.data.value, v, state);
    assert part[0..] == part && part'[0..] == part';
    AgreeSplit(part, part', v, it, 0);
    var rows := TrainTestRows(s.data.value, state, it);
    var rows' := TrainTestRows(s'.data.value, state, it);
    AgreeViews(rows.0, rows'.0, v);
    AgreeViews(rows.1, rows'.1, v);
  }

  /** The model a cycle fits depends only on the split. */
  lemma FittedModelDependsOnSplit(s1: PState, s1': PState, v: ResponseVar, state: Option<string>, env: Env)
    requires s1.split == s1'.split
    ensures FittedAfter(s1, v, state, env).model == FittedAfter(s1', v, state, env).model
  {
    var m := AfterInit(s1, RandomForestKey);
    var m' := AfterInit(s1', RandomForestKey);
    assert m.model == m'.model;
  }

  /** Agreeing tables give the same predictor columns and the same response
      column `v`. */
  lemma AgreeViews(a: seq<Link>, b: seq<Link>, v: ResponseVar)
    requires AgreeOn(a, b, v)
    ensures Predictors(a) == Predictors(b)
    ensures Column(a, v) == Column(b, v)
  {
    forall i | 0 <= i < |a| ensures FeaturesOf(a[i]) == FeaturesOf(b[i]) {
      assert FeaturesOf(a[i]) == FeaturesOf(Skeleton(a[i]));
      assert FeaturesOf(b[i]) == FeaturesOf(Skeleton(b[i]));
    }
  }

  /** The predictor object. `State()` collects its fields; every method is
      proved to leave the state the matching function above describes. */
  class AADTPredictor {
    var dataFull: seq<Link>
    var data: Option<seq<Link>>
    var responseVar: Option<ResponseVar>
    var model: Option<Estimator>
    var split: Option<Split>

    function State(): PState
      reads this
    {
      PState(dataFull, data, responseVar, model, split)
    }

    /** `__init__` and `_load_data` with the rows already read from the CSV
        file: pre-process, which pads the codes and takes the subset. */
    constructor(raw: seq<Link>, rv: Option<ResponseVar>)
      ensures State() == Loaded(raw, rv)
    {
      dataFull := raw;
      data := None;
      responseVar := rv;
      model := None;
      split := None;
      new;
      PreProcessData();
    }

    /** `_pre_process_data`: pad STATEFP, COUNTYFP and GEOID, then subset. */
    method PreProcessData()
      modifies this
      ensures State() == AfterSubset(old(State()).(dataFull := PadTable(old(dataFull))))
    {
      dataFull := PadTable(dataFull);
      SubsetTrainData();
    }

    /** `subset_train_data`. */
    method SubsetTrainData()
      modifies this
      ensures State() == AfterSubset(old(State()))
    {
      if responseVar.Some? {
        data := Some(NonNull(dataFull, responseVar.value));
      }
    }

    /** `split_data` with `stratify_by_state=False`; `raised` reports the
        exception that escapes to the caller, in which case nothing changed. */
    method SplitData(state: Option<string>, inTest: nat -> bool) returns (raised: bool)
      modifies this
      ensures raised <==> AfterSplit(old(State()), state, inTest).None?
      ensures raised ==> State() == old(State())
      ensures !raised ==> State() == AfterSplit(old(State()), state, inTest).value
    {
      if data.None? || responseVar.None? {
        return true;
      }
      var rows := TrainTestRows(data.value, state, inTest);
      if |rows.0| == 0 {
        return true;
      }
      split := Some(SplitOf(rows, responseVar.value));
      return false;
    }

    /** `initialize_model`. */
    method InitializeModel(key: string)
      modifies this
      ensures State() == AfterInit(old(State()), key)
    {
      var k := ModelKindOf(RandomForestKey, key);
      if k.Some? {
        model := Some(Estimator(k.value, None));
      }
    }

    /** `fit_model`: `rejects` is the library refusing the training data. */
    method FitModel(rejects: bool)
      modifies this
      ensures State() == AfterFit(old(State()), rejects)
    {
      if model.Some? && split.Some? {
        var ts := Fit(split.value.xTrain, split.value.yTrain, rejects);
        if ts.Some? {
          model := Some(Estimator(model.value.kind, ts));
        }
      }
    }

    /** `test_model`, MAE and MSE part. The state is not changed. */
    method TestModel(rejects: bool, learn: Learner) returns (scores: Option<(real, real)>)
      ensures scores == TestOutcome(State(), rejects, learn)
    {
      if split.None? || !AllKnown(split.value.yTest) || |split.value.yTest| != |split.value.xTest| {
        return None;
      }
      var f := Predictions(model, |split.value.xTest|, rejects, learn);
      if f.None? {
        return None;
      }
      var m := model.value;
      scores := TestScores(Known(split.value.yTest), Map(split.value.xTest, PredictWith(m, learn)));
    }
  }

  /** What a fitted estimator predicts for one predictor row. */
  function PredictWith(m: Estimator, learn: Learner): Features -> real
    requires m.fitted.Some?
  {
    (x: Features) => learn(m.kind, m.fitted.value, x)
  }

  /** The known responses of the test rows. */
  function TestActual(sp: Split): (y: seq<real>)
    requires AllKnown(sp.yTest)
    ensures |y| == |sp.yTest|
    ensures forall i :: 0 <= i < |y| ==> sp.yTest[i] == Some(y[i])
  {
    Known(sp.yTest)
  }

  /** The fitted model's predictions for the test rows, in row order. */
  function TestPredicted(sp: Split, m: Estimator, learn: Learner): (p: seq<real>)
    requires m.fitted.Some?
    ensures |p| == |sp.xTest|
    ensures forall i :: 0 <= i < |p| ==> p[i] == learn(m.kind, m.fitted.value, sp.xTest[i])
  {
    Map(sp.xTest, PredictWith(m, learn))
  }

  /** The MAE and MSE `test_model` returns: None when `predict` or the
      metrics raise (no fitted model, no split, an empty test set, a
      rejected batch, a missing test response, responses and rows of
      different lengths). Both errors are never
      negative, and the MAE is the mean of the absolute errors of the
      model's predictions on the test rows. */
  function TestOutcome(s: PState, rejects: bool, learn: Learner): (r: Option<(real, real)>)
    ensures r.Some? <==> (s.model.Some? && s.model.value.fitted.Some? && s.split.Some? &&
      |s.split.value.xTest| > 0 && !rejects && AllKnown(s.split.value.yTest) &&
      |s.split.value.yTest| == |s.split.value.xTest|)
    ensures r.Some? ==> r.value.0 >= 0.0 && r.value.1 >= 0.0
    ensures r.Some? ==>
      r.value.0 == MeanAbsError(TestActual(s.split.value), TestPredicted(s.split.value, s.model.value, learn)) &&
      r.value.1 == MeanSqError(TestActual(s.split.value), TestPredicted(s.split.value, s.model.value, learn))
  {
    if s.split.None? || !AllKnown(s.split.value.yTest) || |s.split.value.yTest| != |s.split.value.xTest| then None
    else if Predictions(s.model, |s.split.value.xTest|, rejects, learn).None? then None
    else TestScores(TestActual(s.split.value), TestPredicted(s.split.value, s.model.value, learn))
  }

  /** The commit of the driver scripts (`data_full.loc[missing.index, v] =
      model.predict(missing[RF_PREDICTOR_VARS])` inside its `try`):
      `failed` reports the caught error. */
  method CommitPredictions(p: AADTPredictor, v: ResponseVar, state: Option<string>, rejects: bool, learn: Learner)
    returns (failed: bool)
    modifies p
    ensures p.State() == Committed(old(p.State()), v, state, rejects, learn)
    ensures failed <==> Predictions(old(p.model), TargetCount(old(p.dataFull), v, state), rejects, learn).None?
  {
    var preds := Predictions(p.model, TargetCount(p.dataFull, v, state), rejects, learn);
    if preds.None? {
      return true;
    }
    p.dataFull := Impute(p.dataFull, v, state, preds.value);
    return false;
  }

  /** The body both driver scripts run for one response (and state): split,
      initialise a random forest, fit, commit. `raised` reports the split
      error that escapes it. */
  method RunImputeCycle(p: AADTPredictor, v: ResponseVar, state: Option<string>, env: Env) returns (raised: bool)
    modifies p
    ensures raised <==> ImputeCycle(old(p.State()), v, state, env).None?
    ensures !raised ==> p.State() == ImputeCycle(old(p.State()), v, state, env).value
  {
    ghost var before := p.State();
    raised := p.SplitData(state, env.inTest(v, state));
    if raised {
      return;
    }
    ghost var s1 := p.State();
    p.InitializeModel(RandomForestKey);
    p.FitModel(env.fitRejects(v, state));
    assert p.State() == FittedAfter(s1, v, state, env);
    var _ := CommitPredictions(p, v, state, env.predictRejects(v, state), env.learn);
    CycleAfterSplit(before, v, state, env, s1);
  }
}
