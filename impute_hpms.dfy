/** scripts/impute_hpms.py: one predictor over the whole subset table; for
    each response column in turn it re-subsets, splits over the whole
    country, fits a random forest and commits the predictions into the
    rows of `data_full` whose value is missing. The table is then written
    out. */
module ImputeHpms {
  import opened Common
  import opened Links
  import opened Learning
  import opened Predictor

  /** RESPONSE_VARS, in the order the loop visits them. */
  const ResponseVars: seq<ResponseVar> := [AadtMdv, AadtHdv]

  /** The body of the loop for response `v`: set the response, re-subset,
      then one whole-country cycle. None when the split raises, which ends
      the script before anything is written. */
  function CountryStep(s: PState, v: ResponseVar, env: Env): (r: Option<PState>)
    ensures r.Some? ==> |r.value.dataFull| == |s.dataFull|
    ensures r.Some? ==> forall i :: 0 <= i < |s.dataFull| && Get(s.dataFull[i], v).Some? ==>
      r.value.dataFull[i] == s.dataFull[i]
    ensures r.Some? ==> forall i, w :: 0 <= i < |s.dataFull| && w != v ==>
      Get(r.value.dataFull[i], w) == Get(s.dataFull[i], w)
    ensures r.Some? ==> forall i :: 0 <= i < |s.dataFull| ==>
      Skeleton(r.value.dataFull[i]) == Skeleton(s.dataFull[i])
    ensures r.Some? ==> (r.value.dataFull == s.dataFull ||
      forall i :: 0 <= i < |s.dataFull| ==> Get(r.value.dataFull[i], v).Some?)
  {
    ImputeCycle(AfterSubset(s.(responseVar := Some(v))), v, None, env)
  }

  /** The loop over `vars`, stopping at the first split that raises. */
  function CountryRun(s: PState, vars: seq<ResponseVar>, env: Env): Option<PState>
    decreases |vars|
  {
    if vars == [] then Some(s)
    else
      match CountryRun(s, vars[..|vars| - 1], env)
      case None => None
      case Some(t) => CountryStep(t, vars[|vars| - 1], env)
  }

  /** What the script writes to hpms_aadt_imputed.csv: nothing (None) when
      a split raised, otherwise the final `data_full`. */
  function ImputedTable(raw: seq<Link>, env: Env): Option<seq<Link>> {
    match CountryRun(Loaded(raw, None), ResponseVars, env)
    case None => None
    case Some(t) => Some(t.dataFull)
  }

  /** Once a split has raised, the rest of the loop does not run. */
  lemma {:induction false} RunStopsAtRaise(s: PState, vars: seq<ResponseVar>, k: nat, env: Env)
    requires k <= |vars| && CountryRun(s, vars[..k], env).None?
    ensures CountryRun(s, vars, env).None?
    decreases |vars| - k
  {
    if k < |vars| {
      assert vars[..k + 1][..k] == vars[..k];
      RunStopsAtRaise(s, vars, k + 1, env);
    } else {
      assert vars[..k] == vars;
    }
  }

  lemma RunSnoc(s: PState, vars: seq<ResponseVar>, k: nat, env: Env)
    requires k < |vars|
    ensures CountryRun(s, vars[..k + 1], env) ==
      match CountryRun(s, vars[..k], env)
      case None => None
      case Some(t) => CountryStep(t, vars[k], env)
  {
    assert vars[..k + 1][..k] == vars[..k];
  }

  /** One pass of the loop of `main` on the predictor `p`: `raised`
      reports the split raising, which ends the script. */
  method CountryCycle(p: AADTPredictor, v: ResponseVar, env: Env) returns (raised: bool)
    modifies p
    ensures raised <==> CountryStep(old(p.State()), v, env).None?
    ensures !raised ==> p.State() == CountryStep(old(p.State()), v, env).value
  {
    ghost var before := p.State();
    p.responseVar := Some(v);
    assert p.State() == before.(responseVar := Some(v));
    p.SubsetTrainData();
    raised := RunImputeCycle(p, v, None, env);
  }

  /** `main`, with the rows read from the CSV file as `raw` and the library
      as `env`. */
  method ImputeAll(raw: seq<Link>, env: Env) returns (written: Option<seq<Link>>)
    ensures written == ImputedTable(raw, env)
  {
    var p := new AADTPredictor(raw, None);
    ghost var s0 := p.State();
    for k := 0 to |ResponseVars|
      invariant CountryRun(s0, ResponseVars[..k], env) == Some(p.State())
    {
      RunSnoc(s0, ResponseVars, k, env);
      var raised := CountryCycle(p, ResponseVars[k], env);
      if raised {
        RunStopsAtRaise(s0, ResponseVars, k + 1, env);
        return None;
      }
    }
    assert ResponseVars[..|ResponseVars|] == ResponseVars;
    return Some(p.dataFull);
  }

  /** Across the whole run the table keeps its rows, in order, with every
      non-response column unchanged; a value known before the run is
      identical after it; and a response column the run does not visit is
      untouched. */
  lemma {:induction false} RunPreservesTable(s: PState, vars: seq<ResponseVar>, env: Env)
    requires CountryRun(s, vars, env).Some?
    ensures var t := CountryRun(s, vars, env).value.dataFull;
      |t| == |s.dataFull| &&
      (forall i :: 0 <= i < |t| ==> Skeleton(t[i]) == Skeleton(s.dataFull[i])) &&
      (forall i, w :: 0 <= i < |t| && Get(s.dataFull[i], w).Some? ==> Get(t[i], w) == Get(s.dataFull[i], w)) &&
      (forall i, w :: 0 <= i < |t| && w !in vars ==> Get(t[i], w) == Get(s.dataFull[i], w))
    decreases |vars|
  {
    if vars != [] {
      var init := vars[..|vars| - 1];
      RunPreservesTable(s, init, env);
      var m := CountryRun(s, init, env).value;
      var t := CountryRun(s, vars, env).value.dataFull;
      assert t == CountryStep(m, vars[|vars| - 1], env).value.dataFull;
      forall i, w | 0 <= i < |t| && w !in vars
        ensures Get(t[i], w) == Get(s.dataFull[i], w)
      {
        assert w !in init;
      }
      forall i, w | 0 <= i < |t| && Get(s.dataFull[i], w).Some?
        ensures Get(t[i], w) == Get(s.dataFull[i], w)
      {
        if w == vars[|vars| - 1] {
          assert Get(m.dataFull[i], w).Some?;
          assert t[i] == m.dataFull[i];
        }
      }
    }
  }

  /** The file written has the same rows as the loaded table, in the same
      order; every truck count present in the input is in the output
      unchanged, and every other column is the padded input's. */
  lemma OutputKeepsRowsAndKnownValues(raw: seq<Link>, env: Env)
    requires ImputedTable(raw, env).Some?
    ensures var out := ImputedTable(raw, env).value;
      |out| == |raw| &&
      (forall i :: 0 <= i < |raw| ==> Skeleton(out[i]) == Skeleton(PadCodes(raw[i]))) &&
      (forall i, w :: 0 <= i < |raw| && Get(raw[i], w).Some? ==> Get(out[i], w) == Get(raw[i], w))
  {
    var s0 := Loaded(raw, None);
    RunPreservesTable(s0, ResponseVars, env);
    forall i, w | 0 <= i < |raw| && Get(raw[i], w).Some?
      ensures Get(s0.dataFull[i], w) == Get(raw[i], w)
    {
      assert s0.dataFull[i] == PadCodes(raw[i]);
    }
  }

  /** A rejected prediction for one response is caught: the run carries on
      with the next response, and that response's missing values stay
      missing. */
  lemma PredictFailureContinues(s: PState, v: ResponseVar, env: Env)
    requires AfterSplit(AfterSubset(s.(responseVar := Some(v))), None, env.inTest(v, None)).Some?
    requires env.predictRejects(v, None)
    ensures CountryStep(s, v, env).Some?
    ensures CountryStep(s, v, env).value.dataFull == s.dataFull
  {
    PredictFailureLeavesTable(AfterSubset(s.(responseVar := Some(v))), v, None, env);
  }

  /** What the step for `v` commits (see `CycleEffect`). */
  function StepEffect(s: PState, v: ResponseVar, env: Env): Option<Option<Features -> real>> {
    CycleEffect(AfterSubset(s.(responseVar := Some(v))), v, None, env)
  }

  /** A step's table is its effect applied to the table it started from. */
  lemma StepByEffect(s: PState, v: ResponseVar, env: Env)
    ensures CountryStep(s, v, env).None? <==> StepEffect(s, v, env).None?
    ensures CountryStep(s, v, env).Some? ==>
      CountryStep(s, v, env).value.dataFull == Apply(s.dataFull, v, None, StepEffect(s, v, env).value)
  {
    CycleByEffect(AfterSubset(s.(responseVar := Some(v))), v, None, env);
  }

  /** The step for `v` commits the same predictions from any table that
      agrees with `s`'s on everything but the other response column. */
  lemma StepEffectDependsOnColumn(s: PState, s': PState, v: ResponseVar, env: Env)
    requires AgreeOn(s.dataFull, s'.dataFull, v)
    ensures StepEffect(s, v, env) == StepEffect(s', v, env)
  {
    AgreeNonNull(s.dataFull, s'.dataFull, v);
    AgreeTargetCount(s.dataFull, s'.dataFull, v, None);
    CycleEffectDependsOnTraining(AfterSubset(s.(responseVar := Some(v))),
      AfterSubset(s'.(responseVar := Some(v))), v, None, env);
  }

  lemma TwoSteps(s: PState, a: ResponseVar, b: ResponseVar, env: Env)
    ensures CountryRun(s, [a, b], env) ==
      match CountryStep(s, a, env)
      case None => None
      case Some(t) => CountryStep(t, b, env)
  {
    var vars := [a, b];
    RunSnoc(s, vars, 0, env);
    RunSnoc(s, vars, 1, env);
    assert vars[..0] == [] && vars[..2] == vars;
  }

  /** After the step for `a`, the step for another response `b` commits
      what it would have committed first. */
  lemma SecondStepSameEffect(s: PState, a: ResponseVar, b: ResponseVar, env: Env)
    requires a != b && CountryStep(s, a, env).Some?
    ensures StepEffect(CountryStep(s, a, env).value, b, env) == StepEffect(s, b, env)
  {
    StepAgreesOnOther(s, a, b, env);
    StepEffectDependsOnColumn(s, CountryStep(s, a, env).value, b, env);
  }

  /** The step for `a` leaves the table agreeing on every other column. */
  lemma StepAgreesOnOther(s: PState, a: ResponseVar, b: ResponseVar, env: Env)
    requires a != b && CountryStep(s, a, env).Some?
    ensures AgreeOn(s.dataFull, CountryStep(s, a, env).value.dataFull, b)
  {
    StepByEffect(s, a, env);
    var e := StepEffect(s, a, env).value;
    if e.Some? {
      ImputeAgrees(s.dataFull, a, None, e.value, b);
    }
  }

  /** The table after the steps for `a` then `b`, in terms of their effects
      on the starting table. */
  lemma TwoStepsByEffect(s: PState, a: ResponseVar, b: ResponseVar, env: Env)
    requires a != b
    ensures CountryRun(s, [a, b], env).Some? <==> StepEffect(s, a, env).Some? && StepEffect(s, b, env).Some?
    ensures CountryRun(s, [a, b], env).Some? ==>
      CountryRun(s, [a, b], env).value.dataFull ==
        Apply(Apply(s.dataFull, a, None, StepEffect(s, a, env).value), b, None, StepEffect(s, b, env).value)
  {
    TwoSteps(s, a, b, env);
    StepByEffect(s, a, env);
    if CountryStep(s, a, env).Some? {
      var t := CountryStep(s, a, env).value;
      SecondStepSameEffect(s, a, b, env);
      StepByEffect(t, b, env);
    }
  }

  /** Neither response is a predictor and each step writes only its own
      column, so imputing AADT_HDV first gives the same outcome, and the
      same table, as imputing AADT_MDV first. */
  lemma ResponseOrderIrrelevant(s: PState, env: Env)
    ensures CountryRun(s, [AadtMdv, AadtHdv], env).Some? == CountryRun(s, [AadtHdv, AadtMdv], env).Some?
    ensures CountryRun(s, [AadtMdv, AadtHdv], env).Some? ==>
      CountryRun(s, [AadtMdv, AadtHdv], env).value.dataFull == CountryRun(s, [AadtHdv, AadtMdv], env).value.dataFull
  {
    TwoStepsByEffect(s, AadtMdv, AadtHdv, env);
    TwoStepsByEffect(s, AadtHdv, AadtMdv, env);
    var eM := StepEffect(s, AadtMdv, env);
    var eH := StepEffect(s, AadtHdv, env);
    if eM.Some? && eH.Some? && eM.value.Some? && eH.value.Some? {
      ImputeCommute(s.dataFull, AadtMdv, None, eM.value.value, AadtHdv, None, eH.value.value);
    }
  }
}
