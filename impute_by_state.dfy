/** src/aadt_imputation.py: for each response column a fresh predictor is
    loaded from the subset file; then, state by state, it splits the
    state's labelled rows, fits a random forest and commits predictions
    into the state's rows whose value is missing. The last predictor's table
    is written out. The script uses the predictor of
    scripts/utils/aadt_predictor.py (the one with `data_full`). */
module ImputeByState {
  import opened Common
  import opened Links
  import opened Learning
  import opened Predictor

  /** RESPONSE_VARS, in the order the outer loop visits them. */
  const ResponseVars: seq<ResponseVar> := [AadtMdv, AadtHdv]

  function StateOf(r: Link): string {
    r.statefp
  }

  /** `data_full.STATEFP.unique()`: every state code of the table, each
      exactly once. */
  function States(t: seq<Link>): (r: seq<string>)
    ensures forall st :: st in r <==> exists i :: 0 <= i < |t| && t[i].statefp == st
    ensures forall i, j :: 0 <= i < j < |r| ==> r[i] != r[j]
  {
    var codes := Map(t, StateOf);
    assert forall st :: st in codes <==> exists i :: 0 <= i < |t| && t[i].statefp == st by {
      forall st | st in codes ensures exists i :: 0 <= i < |t| && t[i].statefp == st {
        var i :| 0 <= i < |codes| && codes[i] == st;
        assert t[i].statefp == st;
      }
      forall st | exists i :: 0 <= i < |t| && t[i].statefp == st ensures st in codes {
        var i :| 0 <= i < |t| && t[i].statefp == st;
        assert codes[i] == st;
      }
    }
    Unique(codes)
  }

  /** The inner loop over `states`, stopping at the first split that
      raises (nothing around the split catches it). */
  function StatesRun(s: PState, v: ResponseVar, states: seq<string>, env: Env): Option<PState>
    decreases |states|
  {
    if states == [] then Some(s)
    else
      match StatesRun(s, v, states[..|states| - 1], env)
      case None => None
      case Some(t) => ImputeCycle(t, v, Some(states[|states| - 1]), env)
  }

  /** One pass of the outer loop: a predictor freshly loaded for `v`, then
      every state of its table. */
  function ResponsePass(raw: seq<Link>, v: ResponseVar, env: Env): Option<PState> {
    var s := Loaded(raw, Some(v));
    StatesRun(s, v, States(s.dataFull), env)
  }

  /** What the script writes to hpms_aadt_subset_imputed.csv, as written:
      nothing when a split raised in either pass, otherwise the table of the
      predictor of the last pass. */
  function ByStateOutput(raw: seq<Link>, env: Env): Option<seq<Link>> {
    match ResponsePass(raw, AadtMdv, env)
    case None => None
    case Some(_) =>
      match ResponsePass(raw, AadtHdv, env)
      case None => None
      case Some(t) => Some(t.dataFull)
  }

  lemma StatesSnoc(s: PState, v: ResponseVar, states: seq<string>, k: nat, env: Env)
    requires k < |states|
    ensures StatesRun(s, v, states[..k + 1], env) ==
      match StatesRun(s, v, states[..k], env)
      case None => None
      case Some(t) => ImputeCycle(t, v, Some(states[k]), env)
  {
    assert states[..k + 1][..k] == states[..k];
  }

  /** Once a split has raised, the remaining states are not visited. */
  lemma {:induction false} StatesStopAtRaise(s: PState, v: ResponseVar, states: seq<string>, k: nat, env: Env)
    requires k <= |states| && StatesRun(s, v, states[..k], env).None?
    ensures StatesRun(s, v, states, env).None?
    decreases |states| - k
  {
    if k < |states| {
      StatesSnoc(s, v, states, k, env);
      StatesStopAtRaise(s, v, states, k + 1, env);
    } else {
      assert states[..k] == states;
    }
  }

  /** The inner loop of the script for the predictor `q`, freshly loaded
      for `v`; `raised` reports the split error that escapes it. */
  method ImputeStates(q: AADTPredictor, v: ResponseVar, ghost raw: seq<Link>, env: Env) returns (raised: bool)
    requires q.State() == Loaded(raw, Some(v))
    modifies q
    ensures raised <==> ResponsePass(raw, v, env).None?
    ensures !raised ==> ResponsePass(raw, v, env) == Some(q.State())
  {
    ghost var s0 := q.State();
    var states := States(q.dataFull);
    for j := 0 to |states|
      invariant StatesRun(s0, v, states[..j], env) == Some(q.State())
    {
      StatesSnoc(s0, v, states, j, env);
      raised := RunImputeCycle(q, v, Some(states[j]), env);
      if raised {
        StatesStopAtRaise(s0, v, states, j + 1, env);
        return;
      }
    }
    assert states[..|states|] == states;
    return false;
  }

  /** The script, with the rows read from the CSV file as `raw` and the
      library as `env`; `written` is None when the run died in a split. */
  method Run(raw: seq<Link>, env: Env) returns (written: Option<seq<Link>>)
    ensures written == ByStateOutput(raw, env)
  {
    var p: AADTPredictor? := null;
    for k := 0 to |ResponseVars|
      invariant k > 0 ==> ResponsePass(raw, AadtMdv, env).Some?
      invariant k == 1 ==> p != null && ResponsePass(raw, AadtMdv, env) == Some(p.State())
      invariant k == 2 ==> p != null && ResponsePass(raw, AadtHdv, env) == Some(p.State())
    {
      var v := ResponseVars[k];
      var q := new AADTPredictor(raw, Some(v));
      p := q;
      var raised := ImputeStates(q, v, raw, env);
      if raised {
        return None;
      }
    }
    return Some(p.dataFull);
  }

  /** A state cycle only fills missing values of its own response column,
      and leaves the training table and the response as they were. */
  lemma CycleOnlyFills(s: PState, v: ResponseVar, st: string, env: Env)
    requires ImputeCycle(s, v, Some(st), env).Some?
    ensures OnlyFills(s.dataFull, ImputeCycle(s, v, Some(st), env).value.dataFull, v)
    ensures ImputeCycle(s, v, Some(st), env).value.data == s.data
    ensures ImputeCycle(s, v, Some(st), env).value.responseVar == s.responseVar
  {
  }

  /** Over a whole pass, the table only gains values in the pass's own
      column, and the training table `data` stays the copy made when the
      predictor was loaded: values committed for one state never reach
      another state's training rows. */
  lemma {:induction false} StatesRunOnlyFills(s: PState, v: ResponseVar, states: seq<string>, env: Env)
    requires StatesRun(s, v, states, env).Some?
    ensures OnlyFills(s.dataFull, StatesRun(s, v, states, env).value.dataFull, v)
    ensures StatesRun(s, v, states, env).value.data == s.data
    ensures StatesRun(s, v, states, env).value.responseVar == s.responseVar
    decreases |states|
  {
    if states != [] {
      var init := states[..|states| - 1];
      StatesRunOnlyFills(s, v, init, env);
      var m := StatesRun(s, v, init, env).value;
      CycleOnlyFills(m, v, states[|states| - 1], env);
      OnlyFillsTrans(s.dataFull, m.dataFull, StatesRun(s, v, states, env).value.dataFull, v);
    }
  }

  /** The cycles of two different states give the same outcome, and the
      same table, in either order: each trains on the unchanging `data` and
      writes only rows of its own state. */
  lemma TwoStatesCommute(s: PState, v: ResponseVar, a: string, b: string, env: Env)
    requires a != b
    requires s.responseVar == Some(v) && s.data.Some?
    ensures StatesRun(s, v, [a, b], env).Some? == StatesRun(s, v, [b, a], env).Some?
    ensures StatesRun(s, v, [a, b], env).Some? ==>
      StatesRun(s, v, [a, b], env).value.dataFull == StatesRun(s, v, [b, a], env).value.dataFull
  {
    TwoStatesByEffect(s, v, a, b, env);
    TwoStatesByEffect(s, v, b, a, env);
    var ea := CycleEffect(s, v, Some(a), env);
    var eb := CycleEffect(s, v, Some(b), env);
    if ea.Some? && eb.Some? && ea.value.Some? && eb.value.Some? {
      ImputeCommute(s.dataFull, v, Some(a), ea.value.value, v, Some(b), eb.value.value);
    }
  }

  lemma TwoStatesRun(s: PState, v: ResponseVar, a: string, b: string, env: Env)
    ensures StatesRun(s, v, [a, b], env) ==
      match ImputeCycle(s, v, Some(a), env)
      case None => None
      case Some(t) => ImputeCycle(t, v, Some(b), env)
  {
    var states := [a, b];
    StatesSnoc(s, v, states, 0, env);
    StatesSnoc(s, v, states, 1, env);
    assert states[..0] == [] && states[..2] == states;
  }

  /** After the cycle of state `a`, the cycle of another state `b` commits
      what it would have committed first. */
  lemma SecondStateSameEffect(s: PState, v: ResponseVar, a: string, b: string, env: Env)
    requires a != b
    requires s.responseVar == Some(v) && s.data.Some?
    requires ImputeCycle(s, v, Some(a), env).Some?
    ensures CycleEffect(ImputeCycle(s, v, Some(a), env).value, v, Some(b), env) == CycleEffect(s, v, Some(b), env)
  {
    var t := ImputeCycle(s, v, Some(a), env).value;
    CycleByEffect(s, v, Some(a), env);
    var e := CycleEffect(s, v, Some(a), env).value;
    if e.Some? {
      ImputeKeepsOtherStateTargets(s.dataFull, v, a, e.value, b);
    }
    CycleEffectDependsOnTraining(t, s, v, Some(b), env);
  }

  lemma TwoStatesByEffect(s: PState, v: ResponseVar, a: string, b: string, env: Env)
    requires a != b
    requires s.responseVar == Some(v) && s.data.Some?
    ensures StatesRun(s, v, [a, b], env).Some? <==>
      CycleEffect(s, v, Some(a), env).Some? && CycleEffect(s, v, Some(b), env).Some?
    ensures StatesRun(s, v, [a, b], env).Some? ==>
      StatesRun(s, v, [a, b], env).value.dataFull ==
        Apply(Apply(s.dataFull, v, Some(a), CycleEffect(s, v, Some(a), env).value),
              v, Some(b), CycleEffect(s, v, Some(b), env).value)
  {
    TwoStatesRun(s, v, a, b, env);
    CycleByEffect(s, v, Some(a), env);
    if ImputeCycle(s, v, Some(a), env).Some? {
      var t := ImputeCycle(s, v, Some(a), env).value;
      SecondStateSameEffect(s, v, a, b, env);
      CycleByEffect(t, v, Some(b), env);
    }
  }

  /** As written, the table saved carries only the last pass's imputations:
      its AADT_MDV column is the AADT_MDV column of the file as loaded, so
      every AADT_MDV value the first pass imputed is lost. */
  lemma AsWrittenLosesMdvImputations(raw: seq<Link>, env: Env)
    requires ByStateOutput(raw, env).Some?
    ensures |ByStateOutput(raw, env).value| == |raw|
    ensures forall i :: 0 <= i < |raw| ==> Get(ByStateOutput(raw, env).value[i], AadtMdv) == Get(raw[i], AadtMdv)
  {
    var s := Loaded(raw, Some(AadtHdv));
    StatesRunOnlyFills(s, AadtHdv, States(s.dataFull), env);
    assert Other(AadtHdv) == AadtMdv;
    forall i | 0 <= i < |raw| ensures Get(s.dataFull[i], AadtMdv) == Get(raw[i], AadtMdv) {
      assert s.dataFull[i] == PadCodes(raw[i]);
    }
  }

  /** A state none of whose rows has a known value of `v` leaves nothing to
      train on; its split raises, nothing catches it, and the script dies
      before writing anything. */
  lemma UnlabelledStateAbortsRun(raw: seq<Link>, v: ResponseVar, st: string, env: Env)
    requires exists i :: 0 <= i < |raw| && PadCodes(raw[i]).statefp == st
    requires forall i :: 0 <= i < |raw| && PadCodes(raw[i]).statefp == st ==> Get(raw[i], v).None?
    ensures ResponsePass(raw, v, env).None?
    ensures ByStateOutput(raw, env).None?
  {
    var s := Loaded(raw, Some(v));
    var states := States(s.dataFull);
    var k := StateIndex(raw, st);
    NoLabelledRows(raw, v, st);
    StatesSnoc(s, v, states, k, env);
    var before := StatesRun(s, v, states[..k], env);
    if before.Some? {
      StatesRunOnlyFills(s, v, states[..k], env);
      SplitRaisesWithoutRows(before.value, Some(st), env.inTest(v, Some(st)));
    }
    StatesStopAtRaise(s, v, states, k + 1, env);
  }

  /** A state code of the padded table is visited, at some position. */
  lemma StateIndex(raw: seq<Link>, st: string) returns (k: nat)
    requires exists i :: 0 <= i < |raw| && PadCodes(raw[i]).statefp == st
    ensures k < |States(Loaded(raw, Some(AadtMdv)).dataFull)|
    ensures States(Loaded(raw, Some(AadtMdv)).dataFull)[k] == st
    ensures |st| >= StateWidth
  {
    var t := PadTable(raw);
    var i :| 0 <= i < |raw| && PadCodes(raw[i]).statefp == st;
    assert t[i].statefp == st;
    var states := States(t);
    assert st in states;
    k :| 0 <= k < |states| && states[k] == st;
  }

  lemma NoLabelledRows(raw: seq<Link>, v: ResponseVar, st: string)
    requires |st| >= StateWidth
    requires forall i :: 0 <= i < |raw| && PadCodes(raw[i]).statefp == st ==> Get(raw[i], v).None?
    ensures Partition(Loaded(raw, Some(v)).data.value, Some(st)) == []
  {
  }

  /** One cycle with the split inside the `try`: a state whose split raises
      is skipped and the pass carries on. */
  function SkipFailed(s: PState, v: ResponseVar, st: string, env: Env): PState {
    match ImputeCycle(s, v, Some(st), env)
    case None => s
    case Some(t) => t
  }

  function CorrectedStates(s: PState, v: ResponseVar, states: seq<string>, env: Env): PState
    decreases |states|
  {
    if states == [] then s
    else SkipFailed(CorrectedStates(s, v, states[..|states| - 1], env), v, states[|states| - 1], env)
  }

  /** A pass of the corrected script: the one predictor is pointed at `v`
      and re-subset, then visits every state. */
  function CorrectedPass(s: PState, v: ResponseVar, env: Env): PState {
    var s1 := AfterSubset(s.(responseVar := Some(v)));
    CorrectedStates(s1, v, States(s1.dataFull), env)
  }

  /** The corrected script: one predictor for both passes (as in
      scripts/impute_hpms.py), each split inside the `try`. It always writes
      a table. */
  function CorrectedOutput(raw: seq<Link>, env: Env): seq<Link> {
    CorrectedPass(CorrectedPass(Loaded(raw, None), AadtMdv, env), AadtHdv, env).dataFull
  }

  lemma {:induction false} CorrectedStatesOnlyFills(s: PState, v: ResponseVar, states: seq<string>, env: Env)
    ensures OnlyFills(s.dataFull, CorrectedStates(s, v, states, env).dataFull, v)
    decreases |states|
  {
    if states != [] {
      var init := states[..|states| - 1];
      CorrectedStatesOnlyFills(s, v, init, env);
      var m := CorrectedStates(s, v, init, env);
      if ImputeCycle(m, v, Some(states[|states| - 1]), env).Some? {
        CycleOnlyFills(m, v, states[|states| - 1], env);
        OnlyFillsTrans(s.dataFull, m.dataFull, CorrectedStates(s, v, states, env).dataFull, v);
      }
    }
  }

  lemma CorrectedSnoc(s: PState, v: ResponseVar, states: seq<string>, n: nat, env: Env)
    requires n < |states|
    ensures CorrectedStates(s, v, states[..n + 1], env) ==
      SkipFailed(CorrectedStates(s, v, states[..n], env), v, states[n], env)
  {
    assert states[..n + 1][..n] == states[..n];
  }

  /** Visiting a state leaves the rows of any other state, and that
      state's number of missing values, as they were, and never touches
      `data`. */
  lemma SkipFailedKeepsOtherState(m: PState, v: ResponseVar, a: string, st: string, env: Env)
    requires a != st
    ensures SkipFailed(m, v, a, env).data == m.data
    ensures SkipFailed(m, v, a, env).responseVar == m.responseVar
    ensures |SkipFailed(m, v, a, env).dataFull| == |m.dataFull|
    ensures TargetCount(SkipFailed(m, v, a, env).dataFull, v, Some(st)) == TargetCount(m.dataFull, v, Some(st))
    ensures forall i :: 0 <= i < |m.dataFull| && m.dataFull[i].statefp == st ==>
      SkipFailed(m, v, a, env).dataFull[i] == m.dataFull[i]
  {
    if ImputeCycle(m, v, Some(a), env).Some? {
      CycleByEffect(m, v, Some(a), env);
      var e := CycleEffect(m, v, Some(a), env).value;
      if e.Some? {
        ImputeKeepsOtherStateTargets(m.dataFull, v, a, e.value, st);
      }
    }
  }

  /** The corrected pass leaves the rows of a state it has not yet visited,
      and so that state's number of missing values, as they were, and never
      touches `data`. */
  lemma {:induction false} CorrectedKeepsUnvisited(s: PState, v: ResponseVar, states: seq<string>, st: string, env: Env)
    requires st !in states
    ensures CorrectedStates(s, v, states, env).data == s.data
    ensures CorrectedStates(s, v, states, env).responseVar == s.responseVar
    ensures |CorrectedStates(s, v, states, env).dataFull| == |s.dataFull|
    ensures TargetCount(CorrectedStates(s, v, states, env).dataFull, v, Some(st)) == TargetCount(s.dataFull, v, Some(st))
    ensures forall i :: 0 <= i < |s.dataFull| && s.dataFull[i].statefp == st ==>
      CorrectedStates(s, v, states, env).dataFull[i] == s.dataFull[i]
    decreases |states|
  {
    if states != [] {
      var init := states[..|states| - 1];
      var a := states[|states| - 1];
      assert a in states;
      assert forall x :: x in init ==> x in states;
      CorrectedKeepsUnvisited(s, v, init, st, env);
      SkipFailedKeepsOtherState(CorrectedStates(s, v, init, env), v, a, st, env);
    }
  }

  /** Values known after the first `n` states of the corrected pass are
      still there at its end. */
  lemma {:induction false} CorrectedKeepsKnown(s: PState, v: ResponseVar, states: seq<string>, n: nat, w: ResponseVar, env: Env)
    requires n <= |states|
    ensures |CorrectedStates(s, v, states, env).dataFull| == |CorrectedStates(s, v, states[..n], env).dataFull|
    ensures forall i :: (0 <= i < |CorrectedStates(s, v, states[..n], env).dataFull| &&
      Get(CorrectedStates(s, v, states[..n], env).dataFull[i], w).Some?) ==>
        Get(CorrectedStates(s, v, states, env).dataFull[i], w) == Get(CorrectedStates(s, v, states[..n], env).dataFull[i], w)
    decreases |states| - n
  {
    if n == |states| {
      assert states[..n] == states;
    } else {
      CorrectedSnoc(s, v, states, n, env);
      CorrectedKeepsKnown(s, v, states, n + 1, w, env);
    }
  }

  /** With the split inside the `try`, every state is imputed whatever the
      states before it did: when the cycle of `states[k]`, run on the
      starting predictor, would commit the predictions `f`, the end of the
      corrected pass holds `f`'s prediction in every row of that state that
      was missing `v`, even if an earlier state's split raised. */
  lemma CorrectedImputesEveryState(s: PState, v: ResponseVar, states: seq<string>, k: nat,
                                   f: Features -> real, env: Env)
    requires s.responseVar == Some(v) && s.data.Some?
    requires k < |states| && states[k] !in states[..k]
    requires CycleEffect(s, v, Some(states[k]), env) == Some(Some(f))
    ensures |CorrectedStates(s, v, states, env).dataFull| == |s.dataFull|
    ensures forall i :: 0 <= i < |s.dataFull| && IsTarget(s.dataFull[i], v, Some(states[k])) ==>
      Get(CorrectedStates(s, v, states, env).dataFull[i], v) == Some(f(FeaturesOf(s.dataFull[i])))
  {
    var a := CorrectedStates(s, v, states[..k + 1], env).dataFull;
    var b := CorrectedStates(s, v, states, env).dataFull;
    CorrectedVisitFills(s, v, states, k, f, env);
    CorrectedKeepsKnown(s, v, states, k + 1, v, env);
  }

  /** The visit of `states[k]` itself fills that state's missing values. */
  lemma CorrectedVisitFills(s: PState, v: ResponseVar, states: seq<string>, k: nat,
                            f: Features -> real, env: Env)
    requires s.responseVar == Some(v) && s.data.Some?
    requires k < |states| && states[k] !in states[..k]
    requires CycleEffect(s, v, Some(states[k]), env) == Some(Some(f))
    ensures |CorrectedStates(s, v, states[..k + 1], env).dataFull| == |s.dataFull|
    ensures forall i :: 0 <= i < |s.dataFull| && IsTarget(s.dataFull[i], v, Some(states[k])) ==>
      Get(CorrectedStates(s, v, states[..k + 1], env).dataFull[i], v) == Some(f(FeaturesOf(s.dataFull[i])))
  {
    var st := states[k];
    CorrectedKeepsUnvisited(s, v, states[..k], st, env);
    var t := CorrectedStates(s, v, states[..k], env);
    CycleEffectDependsOnTraining(t, s, v, Some(st), env);
    CycleByEffect(t, v, Some(st), env);
    CorrectedSnoc(s, v, states, k, env);
    assert CorrectedStates(s, v, states[..k + 1], env).dataFull == Impute(t.dataFull, v, Some(st), f);
  }

  /** The two-state case of the claim: a first state whose split raises
      does not stop the second state's imputation. */
  lemma CorrectedSkipsRaisingState(s: PState, v: ResponseVar, a: string, b: string,
                                   f: Features -> real, env: Env)
    requires a != b
    requires s.responseVar == Some(v) && s.data.Some?
    requires ImputeCycle(s, v, Some(a), env).None?
    requires CycleEffect(s, v, Some(b), env) == Some(Some(f))
    ensures StatesRun(s, v, [a, b], env).None?
    ensures CorrectedStates(s, v, [a, b], env).dataFull == Apply(s.dataFull, v, Some(b), Some(f))
  {
    TwoStatesRun(s, v, a, b, env);
    assert [a, b][..1] == [a] && [a][..0] == [];
    assert CorrectedStates(s, v, [a], env) == SkipFailed(s, v, a, env) == s;
    assert CorrectedStates(s, v, [a, b], env) == SkipFailed(s, v, b, env);
    CycleByEffect(s, v, Some(b), env);
  }

  lemma CorrectedPassOnlyFills(s: PState, v: ResponseVar, env: Env)
    ensures OnlyFills(s.dataFull, CorrectedPass(s, v, env).dataFull, v)
  {
    var s1 := AfterSubset(s.(responseVar := Some(v)));
    CorrectedStatesOnlyFills(s1, v, States(s1.dataFull), env);
  }

  /** The corrected script keeps both passes' work: the AADT_MDV column
      written is the one the AADT_MDV pass produced, the AADT_HDV pass only
      fills AADT_HDV, and every value known in the input is kept. */
  lemma {:induction false} CorrectedKeepsBothImputations(raw: seq<Link>, env: Env)
    ensures var mdv := CorrectedPass(Loaded(raw, None), AadtMdv, env).dataFull;
      var out := CorrectedOutput(raw, env);
      |out| == |raw| && |mdv| == |raw| &&
      (forall i :: 0 <= i < |raw| ==> Get(out[i], AadtMdv) == Get(mdv[i], AadtMdv)) &&
      (forall i, w :: 0 <= i < |raw| && Get(raw[i], w).Some? ==> Get(out[i], w) == Get(raw[i], w))
  {
    var s0 := Loaded(raw, None);
    var m := CorrectedPass(s0, AadtMdv, env);
    CorrectedPassOnlyFills(s0, AadtMdv, env);
    CorrectedPassOnlyFills(m, AadtHdv, env);
    TwoPassesKeep(raw, s0.dataFull, m.dataFull, CorrectedPass(m, AadtHdv, env).dataFull);
  }

  /** Filling AADT_MDV and then AADT_HDV keeps the AADT_MDV column of the
      middle table and every value known at the start. */
  lemma TwoPassesKeep(raw: seq<Link>, a: seq<Link>, b: seq<Link>, c: seq<Link>)
    requires a == PadTable(raw)
    requires OnlyFills(a, b, AadtMdv) && OnlyFills(b, c, AadtHdv)
    ensures |c| == |raw| && |b| == |raw|
    ensures forall i :: 0 <= i < |raw| ==> Get(c[i], AadtMdv) == Get(b[i], AadtMdv)
    ensures forall i, w :: 0 <= i < |raw| && Get(raw[i], w).Some? ==> Get(c[i], w) == Get(raw[i], w)
  {
    assert Other(AadtHdv) == AadtMdv && Other(AadtMdv) == AadtHdv;
    forall i, w | 0 <= i < |raw| && Get(raw[i], w).Some?
      ensures Get(c[i], w) == Get(raw[i], w)
    {
      assert a[i] == PadCodes(raw[i]);
    }
  }
}
