/** The estimator side of the predictor, with the regression library kept
    opaque: a fitted model is its kind plus the training set it saw, and its
    predictions come from an uninterpreted learner. The error metrics are
    stated exactly, over reals. */
module Learning {
  import opened Common
  import opened Links

  /** The two estimators of the model dictionary. */
  datatype ModelKind = RandomForest | LinearRegression

  /** What `fit` was given: predictor rows and known response values. */
  datatype TrainingSet = TrainingSet(x: seq<Features>, y: seq<real>)

  /** `self.model`: an estimator of some kind, fitted or not yet fitted. */
  datatype Estimator = Estimator(kind: ModelKind, fitted: Option<TrainingSet>)

  /** The regression library: what a model of a kind, fitted on a training
      set, predicts for one predictor row. */
  type Learner = (ModelKind, TrainingSet, Features) -> real

  /** `model_dict[model_type]`, for a dictionary whose random-forest entry
      has the key `rfKey` ("Random Forest" in scripts/utils/aadt_predictor.py,
      "RandomForest" in src/aadt_predictor.py): exactly `rfKey` and "Linear"
      are recognised. */
  function ModelKindOf(rfKey: string, key: string): (k: Option<ModelKind>)
    ensures k == Some(RandomForest) <==> key == rfKey
    ensures k == Some(LinearRegression) <==> key == "Linear" && key != rfKey
    ensures k.None? <==> key != rfKey && key != "Linear"
  {
    if key == rfKey then Some(RandomForest)
    else if key == "Linear" then Some(LinearRegression)
    else None
  }

  predicate AllKnown(y: seq<Option<real>>) {
    forall i :: 0 <= i < |y| ==> y[i].Some?
  }

  /** The values of a response column whose every cell is known. */
  function Known(y: seq<Option<real>>): (r: seq<real>)
    requires AllKnown(y)
    ensures |r| == |y|
    ensures forall i :: 0 <= i < |y| ==> y[i] == Some(r[i])
  {
    Map(y, (c: Option<real>) => c.GetOr(0.0))
  }

  /** `model.fit(X, y)`: fails when there is no training row, when a response
      value is NaN, or when the library rejects the data (`rejects`, e.g. a
      predictor it cannot consume); otherwise the model has seen exactly
      these rows. */
  function Fit(x: seq<Features>, y: seq<Option<real>>, rejects: bool): (r: Option<TrainingSet>)
    ensures r.Some? <==> |x| > 0 && AllKnown(y) && !rejects
    ensures r.Some? ==> r.value.x == x && |r.value.y| == |y|
    ensures r.Some? ==> forall i :: 0 <= i < |y| ==> y[i] == Some(r.value.y[i])
  {
    if |x| > 0 && AllKnown(y) && !rejects then Some(TrainingSet(x, Known(y))) else None
  }

  /** `model.predict(batch)`: fails when there is no model, when the model is
      not fitted, when the batch has no row, or when the library rejects the
      batch (`rejects`); otherwise each row gets the learner's value for its
      own features. */
  function Predictions(model: Option<Estimator>, batchSize: nat, rejects: bool, learn: Learner): (r: Option<Features -> real>)
    ensures r.Some? <==> model.Some? && model.value.fitted.Some? && batchSize > 0 && !rejects
    ensures r.Some? ==> forall x :: r.value(x) == learn(model.value.kind, model.value.fitted.value, x)
  {
    if model.Some? && model.value.fitted.Some? && batchSize > 0 && !rejects then
      var m := model.value;
      Some((x: Features) => learn(m.kind, m.fitted.value, x))
    else None
  }

  function Abs(x: real): real { if x < 0.0 then -x else x }

  /** The sum of absolute errors; never negative. */
  function SumAbsError(actual: seq<real>, predicted: seq<real>): (r: real)
    requires |actual| == |predicted|
    ensures r >= 0.0
    ensures r == 0.0 <== actual == predicted
  {
    if actual == [] then 0.0
    else Abs(actual[0] - predicted[0]) + SumAbsError(actual[1..], predicted[1..])
  }

  /** The sum of squared errors; never negative. */
  function SumSqError(actual: seq<real>, predicted: seq<real>): (r: real)
    requires |actual| == |predicted|
    ensures r >= 0.0
    ensures r == 0.0 <== actual == predicted
  {
    if actual == [] then 0.0
    else (actual[0] - predicted[0]) * (actual[0] - predicted[0]) + SumSqError(actual[1..], predicted[1..])
  }

  /** The library's "neg_mean_absolute_error" score of one fold. */
  function NegMaeScore(actual: seq<real>, predicted: seq<real>): real
    requires |actual| == |predicted| > 0
  {
    -(SumAbsError(actual, predicted) / (|actual| as real))
  }

  /** The library's "neg_mean_squared_error" score of one fold. */
  function NegMseScore(actual: seq<real>, predicted: seq<real>): real
    requires |actual| == |predicted| > 0
  {
    -(SumSqError(actual, predicted) / (|actual| as real))
  }

  /** One cross-validation fold: the held-out responses and the predictions
      of the model fitted on the other folds. */
  datatype FoldResult = FoldResult(actual: seq<real>, predicted: seq<real>)

  datatype ErrorScores = ErrorScores(mae: seq<real>, mse: seq<real>)

  ghost predicate Aligned(folds: seq<FoldResult>) {
    forall k :: 0 <= k < |folds| ==> |folds[k].actual| == |folds[k].predicted|
  }

  /** The mean absolute error: at least 0, 0 for an exact prediction, and
      the summed absolute error spread over the rows. */
  function MeanAbsError(actual: seq<real>, predicted: seq<real>): (m: real)
    requires |actual| == |predicted| > 0
    ensures m >= 0.0
    ensures m * (|actual| as real) == SumAbsError(actual, predicted)
    ensures actual == predicted ==> m == 0.0
  {
    SumAbsError(actual, predicted) / (|actual| as real)
  }

  /** The mean squared error: at least 0, 0 for an exact prediction, and
      the summed squared error spread over the rows. */
  function MeanSqError(actual: seq<real>, predicted: seq<real>): (m: real)
    requires |actual| == |predicted| > 0
    ensures m >= 0.0
    ensures m * (|actual| as real) == SumSqError(actual, predicted)
    ensures actual == predicted ==> m == 0.0
  {
    SumSqError(actual, predicted) / (|actual| as real)
  }

  /** The MAE and MSE half of `cross_validate_model`: the library's negated
      scores negated back, one per fold. Every returned error is >= 0, and it
      is 0 for a fold predicted without error. A fold without rows
      makes the library raise. */
  function CrossValidateScores(folds: seq<FoldResult>): (r: Option<ErrorScores>)
    requires Aligned(folds)
    ensures r.Some? <==> forall k :: 0 <= k < |folds| ==> |folds[k].actual| > 0
    ensures r.Some? ==> |r.value.mae| == |folds| && |r.value.mse| == |folds|
    ensures r.Some? ==> forall k :: 0 <= k < |folds| ==>
      r.value.mae[k] >= 0.0 && r.value.mse[k] >= 0.0 &&
      (folds[k].actual == folds[k].predicted ==> r.value.mae[k] == 0.0 && r.value.mse[k] == 0.0)
    ensures r.Some? ==> forall k :: 0 <= k < |folds| ==>
      r.value.mae[k] == MeanAbsError(folds[k].actual, folds[k].predicted) &&
      r.value.mse[k] == MeanSqError(folds[k].actual, folds[k].predicted)
  {
    if forall k :: 0 <= k < |folds| ==> |folds[k].actual| > 0 then
      Some(ErrorScores(
        seq(|folds|, k requires 0 <= k < |folds| => -NegMaeScore(folds[k].actual, folds[k].predicted)),
        seq(|folds|, k requires 0 <= k < |folds| => -NegMseScore(folds[k].actual, folds[k].predicted))))
    else None
  }

  /** The MAE and MSE of `test_model` on the held-out set; an empty test set
      makes the library raise. */
  function TestScores(actual: seq<real>, predicted: seq<real>): (r: Option<(real, real)>)
    requires |actual| == |predicted|
    ensures r.Some? <==> |actual| > 0
    ensures r.Some? ==> r.value.0 >= 0.0 && r.value.1 >= 0.0
    ensures r.Some? ==> r.value.0 == MeanAbsError(actual, predicted) && r.value.1 == MeanSqError(actual, predicted)
  {
    if |actual| > 0 then
      Some((SumAbsError(actual, predicted) / (|actual| as real), SumSqError(actual, predicted) / (|actual| as real)))
    else None
  }
}
