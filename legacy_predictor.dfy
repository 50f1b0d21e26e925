/** The older `AADTPredictor` of src/aadt_predictor.py: a single table
    `data`, padded and then stripped in place of every row missing either
    truck count; the response is chosen per split; the model dictionary has
    the keys "RandomForest" and "Linear"; `fit_model` has no `try`. */
module LegacyPredictor {
  import opened Common
  import opened Links
  import opened Learning
  import opened Predictor

  /** A row with both truck counts present. */
  predicate Complete(r: Link) {
    r.aadtMdv.Some? && r.aadtHdv.Some?
  }

  /** `dropna(subset=RESPONSE_VARS)`: the rows with both truck counts
      present, in their original order. A row missing only one of them is
      dropped too. */
  function DropIncomplete(t: seq<Link>): (d: seq<Link>)
    ensures |d| <= |t|
    ensures forall r :: r in d <==> r in t && Complete(r)
    ensures forall i, v :: 0 <= i < |d| ==> Get(d[i], v).Some?
  {
    var d := Filter(t, Complete);
    assert forall i :: 0 <= i < |d| ==> d[i] in d;
    d
  }

  /** The random-forest key of the model dictionary of src/aadt_predictor.py. */
  const LegacyRandomForestKey: string := "RandomForest"

  /** The key the newer predictor uses for a random forest is not a key of
      the older one, and the other way round. */
  lemma ModelKeysDiffer()
    ensures ModelKindOf(RandomForestKey, RandomForestKey) == Some(RandomForest)
    ensures ModelKindOf(LegacyRandomForestKey, RandomForestKey).None?
    ensures ModelKindOf(RandomForestKey, LegacyRandomForestKey).None?
  {
  }

  class LegacyAADTPredictor {
    var data: seq<Link>
    var model: Option<Estimator>
    var split: Option<Split>

    /** `__init__`, `load_data` and `pre_process_data` with the rows read
        from the CSV file: pad the codes, then drop the incomplete rows. */
    constructor(raw: seq<Link>)
      ensures data == DropIncomplete(PadTable(raw))
      ensures model.None? && split.None?
    {
      var padded := PadTable(raw);
      data := padded;
      model := None;
      split := None;
      new;
      DropIncompleteRows();
    }

    /** The in-place `dropna` of `pre_process_data`. */
    method DropIncompleteRows()
      modifies this
      ensures data == DropIncomplete(old(data))
      ensures model == old(model) && split == old(split)
    {
      data := DropIncomplete(data);
    }

    /** `split_data(response_var, ...)`: the rows of the state (all rows
        when no state, or the empty string, is given) split into train and
        test; raises when no row is left for training, and then nothing
        changes. */
    method SplitData(v: ResponseVar, state: Option<string>, inTest: nat -> bool) returns (raised: bool)
      modifies this
      ensures data == old(data) && model == old(model)
      ensures raised <==> |TrainTestRows(data, state, inTest).0| == 0
      ensures raised ==> split == old(split)
      ensures !raised ==> split == Some(SplitOf(TrainTestRows(data, state, inTest), v))
    {
      var rows := TrainTestRows(data, state, inTest);
      if |rows.0| == 0 {
        return true;
      }
      split := Some(SplitOf(rows, v));
      return false;
    }

    /** `initialize_model`: an unknown key is reported and changes nothing. */
    method InitializeModel(key: string)
      modifies this
      ensures data == old(data) && split == old(split)
      ensures ModelKindOf(LegacyRandomForestKey, key).None? ==> model == old(model)
      ensures ModelKindOf(LegacyRandomForestKey, key).Some? ==> model == Some(Estimator(ModelKindOf(LegacyRandomForestKey, key).value, None))
    {
      var k := ModelKindOf(LegacyRandomForestKey, key);
      if k.Some? {
        model := Some(Estimator(k.value, None));
      }
    }

    /** `fit_model`, with no `try`: a missing model, a missing split or a
        rejected fit raises to the caller (`raised`), and nothing changes. */
    method FitModel(rejects: bool) returns (raised: bool)
      modifies this
      ensures data == old(data) && split == old(split)
      ensures raised <==> (old(model).None? || split.None? ||
        Fit(split.value.xTrain, split.value.yTrain, rejects).None?)
      ensures raised ==> model == old(model)
      ensures !raised ==> (old(model).Some? && split.Some? &&
        model == Some(Estimator(old(model).value.kind, Fit(split.value.xTrain, split.value.yTrain, rejects))))
    {
      if model.None? || split.None? {
        return true;
      }
      var ts := Fit(split.value.xTrain, split.value.yTrain, rejects);
      if ts.None? {
        return true;
      }
      model := Some(Estimator(model.value.kind, ts));
      return false;
    }
  }

  /** After pre-processing, no row of the table has a missing truck count,
      so every split takes known responses only, for either response. */
  lemma LegacySplitResponsesKnown(raw: seq<Link>, v: ResponseVar, state: Option<string>, inTest: nat -> bool)
    ensures var sp := SplitOf(TrainTestRows(DropIncomplete(PadTable(raw)), state, inTest), v);
      AllKnown(sp.yTrain) && AllKnown(sp.yTest)
  {
    var d := DropIncomplete(PadTable(raw));
    var rows := TrainTestRows(d, state, inTest);
    SplitRowsComeFromPartition(d, state, inTest);
    var sp := SplitOf(rows, v);
    forall i | 0 <= i < |sp.yTrain| ensures sp.yTrain[i].Some? {
      assert rows.0[i] in rows.0;
    }
    forall i | 0 <= i < |sp.yTest| ensures sp.yTest[i].Some? {
      assert rows.1[i] in rows.1;
    }
  }

  /** Every row a split hands to training or testing has both truck
      counts: a row missing either was dropped by pre-processing, whichever
      response is being modelled. */
  lemma SplitRowsComplete(raw: seq<Link>, state: Option<string>, inTest: nat -> bool)
    ensures var rows := TrainTestRows(DropIncomplete(PadTable(raw)), state, inTest);
      forall r :: r in rows.0 || r in rows.1 ==> Complete(r)
  {
    SplitRowsComeFromPartition(DropIncomplete(PadTable(raw)), state, inTest);
  }
}
