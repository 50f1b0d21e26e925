# HPMS traffic data: a Dafny model of the table logic

This project models the table-level logic of the HPMS traffic-data pipeline
and proves properties of it. The pipeline takes the Highway Performance
Monitoring System road links, clips them to counties, cleans them, fills in
missing truck AADT values with a random forest, and aggregates vehicle
kilometres travelled into traffic density per census block. The model covers
four groups:

- **Imputation controller** (`predictor.dfy`, `legacy_predictor.dfy`,
  `impute_hpms.dfy`, `impute_by_state.dfy`, with `links.dfy` and
  `learning.dfy`).
  - The `AADTPredictor` classes are Dafny classes whose methods update
    `dataFull`, `data`, `model` and `split`. Each method is proved against a
    pure transition function on the state record `PState`.
  - The two driver scripts are methods with loops. Each is proved equal to a
    recursive specification.
  - The lemmas about those specifications state:
    - which rows a run reads and which it writes;
    - that known values are never overwritten;
    - which failures end a run;
    - that neither the order of the responses nor the order of the states
      matters.
  - The regressor and the random split are parameters: `Env.learn`,
    `Env.inTest`, `Env.fitRejects` and `Env.predictRejects`.
- **Row cleaning** (`subset_hpms.dfy`, `near_road_subset.dfy`):
  - zero-filling of FIPS codes and the through-lanes default;
  - VKT/VMT by vehicle class;
  - the urban-code correction and the URBAN category;
  - truncation at '.';
  - the AADT error filter keyed on `FID_Link_Cnty_Intxn`;
  - the near-road script's extra subsets and percentages;
  - its export-file naming.
- **Traffic density** (`traffic_density.dfy`): group by GEOID20, then the
  VKT sums, the first area and densities per square kilometre with 0 as the
  fallback. The arithmetic is exact over `real`.
- **Join helpers** (`join_helpers.dfy`):
  - `queryBuilder` as an accumulating loop;
  - the loop that removes system fields from a field list;
  - `getUniqueValues`.

Shared sequence helpers (`Filter`, `Map`, `PadLeft`, `SortedUnique`, the
position-based split) live in `common.dfy`.

In two places the model follows the code rather than what its docstrings suggest:

- In scripts/utils/aadt_predictor.py, `initialize_model` and `fit_model`
  catch their own exceptions. In the per-state loop of src/aadt_imputation.py
  only `split_data` can therefore end the run. An unknown key or a failed
  fit is only reported, and the old or unfitted model goes on to the commit,
  whose `try` catches a failed predict.
- src/aadt_imputation.py imports `aadt_predictor` but uses `data_full`, which
  only the predictor in scripts/utils/aadt_predictor.py has. The loop is
  modelled against that predictor, with its per-state split.

## Model

| member | source | states |
|---|---|---|
| Common.PadLeft | scripts/utils/aadt_predictor.py:67-75 | padded length is max(len, width); the input is kept as a suffix behind a prefix of fill characters |
| Common.PadLeftIdempotent | scripts/utils/aadt_predictor.py:67-75 | padding twice equals padding once |
| Links.PadCodes | scripts/utils/aadt_predictor.py:67-75 | STATEFP, COUNTYFP and GEOID padded with '0' to widths 2, 3 and 5; every other column kept |
| Links.PadCodesIdempotent | scripts/utils/aadt_predictor.py:67-75 | pre-processing a padded row changes nothing |
| Links.NonNull | scripts/utils/aadt_predictor.py:89 | `dropna(subset=[v])` keeps exactly the rows whose response `v` is known |
| Links.Partition | scripts/utils/aadt_predictor.py:113-119 | a non-empty state code keeps exactly that state's rows; None or "" keeps all rows |
| Links.Impute | scripts/impute_hpms.py:21-24 | every target row (response null, and in the state when one is given) gets the prediction for its own features; every other row, every known value and the other response are unchanged |
| Links.ImputeIdempotent | scripts/impute_hpms.py:24 | committing the same predictions twice equals committing them once |
| Links.ImputeCommute | src/aadt_imputation.py:22-24 | commits for different responses, or for different states, commute |
| Links.ImputeKeepsOtherStateTargets | src/aadt_imputation.py:22-24 | a commit for one state leaves another state's number of target rows unchanged |
| Links.AgreeFilter | scripts/utils/aadt_predictor.py:89 | a row filter that looks only at shared columns keeps agreeing tables agreeing |
| Links.AgreeSplit | scripts/utils/aadt_predictor.py:120-127 | the position-based split of agreeing tables gives agreeing train and test parts |
| Links.AgreeTargetCount | src/aadt_imputation.py:22 | tables agreeing on column `v` have the same number of rows to impute |
| Links.ImputeAgrees | scripts/impute_hpms.py:24 | imputing `v` leaves the table agreeing on the other response |
| Links.OnlyFillsTrans | src/aadt_imputation.py:17-24 | "only fills missing values of `v`" composes across cycles |
| Learning.ModelKindOf | scripts/utils/aadt_predictor.py:136-144 | for a dictionary whose random-forest key is `rfKey` ("Random Forest" here, "RandomForest" in src/aadt_predictor.py:97-100), exactly that key and "Linear" are recognised, each to its estimator |
| Learning.Fit | scripts/utils/aadt_predictor.py:151 | the fit succeeds iff there are training rows, every response is known and the library accepts; it records exactly those rows and values |
| Learning.Predictions | scripts/impute_hpms.py:24 | predict succeeds iff a fitted model exists, the batch is non-empty and the library accepts; it is the learner applied to the model's training set |
| Learning.MeanAbsError | scripts/utils/aadt_predictor.py:166 | the mean absolute error is at least 0, is 0 for an exact prediction, and times the row count is the summed absolute error |
| Learning.MeanSqError | scripts/utils/aadt_predictor.py:167 | the mean squared error is at least 0, is 0 for an exact prediction, and times the row count is the summed squared error |
| Learning.CrossValidateScores | scripts/utils/aadt_predictor.py:180-194 | the negated library scores are the mean absolute and mean squared errors of each fold, in fold order: each is at least 0 and is 0 for an exact fold; None when a fold is empty; `validate_model` of src/aadt_predictor.py:130-136 negates the same scores |
| Learning.TestScores | scripts/utils/aadt_predictor.py:164-168 | MAE and MSE on the test set are the mean absolute and mean squared errors, so at least 0; None on an empty test set |
| Predictor.Column | scripts/utils/aadt_predictor.py:122 | the response column has one cell per row, each the row's value |
| Predictor.Predictors | scripts/utils/aadt_predictor.py:121 | the predictor columns have one entry per row, each the row's features |
| Predictor.AfterSubset | scripts/utils/aadt_predictor.py:83-95 | `data` becomes exactly the rows of `data_full` with a known response; without a response column nothing changes; nothing else changes |
| Predictor.Loaded | scripts/utils/aadt_predictor.py:21-81 | after construction `data_full` is the padded table and `data` its non-null subset for the response; there is no model and no split |
| Predictor.TrainTestRows | scripts/utils/aadt_predictor.py:113-127 | train and test together are the state partition, as a multiset |
| Predictor.AfterSplit | scripts/utils/aadt_predictor.py:97-127 | the split raises iff there is no training table, no response or no training row; otherwise only the split changes, to the predictors and responses of the chosen rows |
| Predictor.SplitRowsComeFromPartition | scripts/utils/aadt_predictor.py:113-127 | every train or test row comes from `data` and, for a given state, has that STATEFP; train plus test is the partition |
| Predictor.SplitResponsesKnown | scripts/utils/aadt_predictor.py:89 | after the non-null subset, every training and test response is known |
| Predictor.AfterInit | scripts/utils/aadt_predictor.py:129-144 | a recognised key installs a fresh unfitted estimator of that kind; an unknown key leaves the state unchanged |
| Predictor.AfterFit | scripts/utils/aadt_predictor.py:146-154 | only the model can change, and only to the estimator fitted on the split; a failed fit changes nothing |
| Predictor.Committed | scripts/impute_hpms.py:23-27 | a failed predict leaves the state unchanged; otherwise only `data_full` changes, by the imputation |
| Predictor.ImputeCycle | src/aadt_imputation.py:19-27 | a cycle ends the run iff the split raises; otherwise `data` and the response are kept, every row keeps its non-response columns, known values and the other response are kept, and either nothing is written or every target row is filled |
| Predictor.RunImputeCycle | src/aadt_imputation.py:19-27 | one split–initialise–fit–commit pass on the predictor object reports a raising split exactly when `ImputeCycle` is None, and otherwise leaves the predictor in the state `ImputeCycle` gives; scripts/impute_hpms.py:17-27 runs the same pass over the whole country |
| Predictor.CycleAfterSplit | src/aadt_imputation.py:19-27 | a cycle whose split succeeds initialises a random forest, fits and commits |
| Predictor.SplitRaisesWithoutRows | scripts/utils/aadt_predictor.py:113-127 | a state with no training row makes the split raise |
| Predictor.PredictFailureLeavesTable | src/aadt_imputation.py:23-27 | a rejected predict is caught and the table is left exactly as it was |
| Predictor.CommittedValues | scripts/impute_hpms.py:17-24 | when the cycle commits, each target row holds the random forest's prediction from the split's training rows for its own features |
| Predictor.CycleByEffect | src/aadt_imputation.py:19-27 | a cycle's table is its effect applied to the starting table |
| Predictor.CycleEffectDependsOnTraining | src/aadt_imputation.py:19-24 | what a cycle commits depends only on the agreeing part of `data` and the target count, not on values committed earlier |
| Predictor.SplitDependsOnTraining | scripts/utils/aadt_predictor.py:113-127 | whether the split raises, and what it stores, depends only on the agreeing part of `data` |
| Predictor.FittedModelDependsOnSplit | scripts/utils/aadt_predictor.py:129-154 | the fitted model depends only on the split |
| Predictor.AgreeViews | scripts/utils/aadt_predictor.py:120-122 | agreeing tables give the same predictor columns and the same response column |
| Predictor.AADTPredictor.constructor | scripts/utils/aadt_predictor.py:21-81 | the new object's state is `Loaded(raw, rv)` |
| Predictor.AADTPredictor.PreProcessData | scripts/utils/aadt_predictor.py:51-81 | pads the codes, then subsets |
| Predictor.AADTPredictor.SubsetTrainData | scripts/utils/aadt_predictor.py:83-95 | the new state is `AfterSubset` of the old one |
| Predictor.AADTPredictor.SplitData | scripts/utils/aadt_predictor.py:97-127 | reports raising iff `AfterSplit` is None; the state is unchanged then, and otherwise is `AfterSplit` |
| Predictor.AADTPredictor.InitializeModel | scripts/utils/aadt_predictor.py:129-144 | the new state is `AfterInit` |
| Predictor.AADTPredictor.FitModel | scripts/utils/aadt_predictor.py:146-154 | the new state is `AfterFit` |
| Predictor.AADTPredictor.TestModel | scripts/utils/aadt_predictor.py:156-168 | returns the MAE and MSE of `TestOutcome`: non-negative, MAE the mean absolute error on the test set; None when predict fails |
| Predictor.TestPredicted | scripts/utils/aadt_predictor.py:164 | `predict` on the test rows gives, row by row, the learner's value for that row under the fitted model |
| Predictor.TestActual | scripts/utils/aadt_predictor.py:165-167 | the test responses the metrics compare against, one per test row, each the known value of that row |
| Predictor.TestOutcome | scripts/utils/aadt_predictor.py:156-168 | scores exist iff there is a fitted model and a non-empty, fully known test set and the library accepts; they are then the mean absolute and mean squared errors of the model's predictions against the known test responses |
| Predictor.CommitPredictions | scripts/impute_hpms.py:23-27 | the predictor's new state is `Committed`; it reports failure iff predict fails |
| ImputeHpms.CountryStep | scripts/impute_hpms.py:14-27 | one iteration keeps the rows, keeps known values of `v`, leaves the other response and the non-response columns alone, and writes nothing or every null of `v` |
| ImputeHpms.RunStopsAtRaise | scripts/impute_hpms.py:14-19 | a split that raises ends the loop |
| ImputeHpms.CountryCycle | scripts/impute_hpms.py:15-27 | one pass of the loop body on the predictor object reports a raising split exactly when `CountryStep` is None, and otherwise leaves the predictor in the state `CountryStep` gives |
| ImputeHpms.ImputeAll | scripts/impute_hpms.py:5-29 | the loop over `[AADT_MDV, AADT_HDV]` writes exactly `ImputedTable(raw)`, or nothing when a split raised |
| ImputeHpms.RunPreservesTable | scripts/impute_hpms.py:14-27 | across the run the rows, their order and non-response columns are kept, every known value is identical, and an unvisited response is untouched |
| ImputeHpms.OutputKeepsRowsAndKnownValues | scripts/impute_hpms.py:12-29 | the file written has the loaded rows, in order and padded, with every known truck value unchanged |
| ImputeHpms.PredictFailureContinues | scripts/impute_hpms.py:23-27 | a rejected predict leaves the table as it was and the loop goes on |
| ImputeHpms.StepByEffect | scripts/impute_hpms.py:14-27 | an iteration's table is its effect applied to the starting table |
| ImputeHpms.StepEffectDependsOnColumn | scripts/impute_hpms.py:9 | what the step for `v` commits depends only on the table's agreement on `v`: the other response is not a predictor |
| ImputeHpms.StepAgreesOnOther | scripts/impute_hpms.py:15-27 | the step for one response leaves the table agreeing on every other column |
| ImputeHpms.SecondStepSameEffect | scripts/impute_hpms.py:15-24 | after the step for one response, the step for the other commits what it would have committed first |
| ImputeHpms.TwoStepsByEffect | scripts/impute_hpms.py:15-24 | the table after two steps is both effects applied to the starting table |
| ImputeHpms.ResponseOrderIrrelevant | scripts/impute_hpms.py:9-24 | for a fixed learner (`Env.learn`), imputing HDV before MDV gives the same outcome and the same table |
| ImputeByState.States | src/aadt_imputation.py:17 | every STATEFP of the table appears, each exactly once |
| ImputeByState.StatesStopAtRaise | src/aadt_imputation.py:19 | once a split raises, no later state is visited |
| ImputeByState.ImputeStates | src/aadt_imputation.py:17-27 | the inner loop raises iff `ResponsePass` is None; otherwise the predictor ends in `ResponsePass`'s state |
| ImputeByState.Run | src/aadt_imputation.py:15-29 | the script writes exactly `ByStateOutput(raw)` |
| ImputeByState.CycleOnlyFills | src/aadt_imputation.py:22-24 | a state cycle only fills missing values of its own response and keeps `data` |
| ImputeByState.StatesRunOnlyFills | src/aadt_imputation.py:17-27 | a whole pass only fills missing values of its response |
| ImputeByState.TwoStatesCommute | src/aadt_imputation.py:17-24 | for a fixed learner (`Env.learn`), two different states give the same outcome and table in either order |
| ImputeByState.SecondStateSameEffect | src/aadt_imputation.py:19-24 | after one state's cycle, another state's cycle commits what it would have committed first |
| ImputeByState.TwoStatesByEffect | src/aadt_imputation.py:17-24 | two state cycles give both effects applied to the starting table |
| ImputeByState.AsWrittenLosesMdvImputations | src/aadt_imputation.py:16-29 | as written, the saved AADT_MDV column is the loaded one: every MDV imputation is lost |
| ImputeByState.UnlabelledStateAbortsRun | src/aadt_imputation.py:17-21 | a state with no known value of the response makes the split raise and nothing is written |
| ImputeByState.CorrectedKeepsBothImputations | src/aadt_imputation.py:15-29 | with one predictor and each split inside the `try`, the output keeps the MDV pass's column and every value known in the input |
| ImputeByState.SkipFailedKeepsOtherState | src/aadt_imputation.py:19-27 | with the split inside the `try`, visiting one state leaves every row of another state, and its number of missing values, unchanged, and keeps `data` |
| ImputeByState.CorrectedKeepsUnvisited | src/aadt_imputation.py:17-27 | with each split inside the `try`, the rows of a state not yet visited, and its number of missing values, are as they were, and `data` is untouched |
| ImputeByState.CorrectedKeepsKnown | src/aadt_imputation.py:17-27 | with each split inside the `try`, a value known after some states is still there after the remaining ones |
| ImputeByState.CorrectedVisitFills | src/aadt_imputation.py:19-24 | with each split inside the `try`, visiting a state fills its missing values with the predictions its cycle would commit on the starting predictor |
| ImputeByState.CorrectedImputesEveryState | src/aadt_imputation.py:17-27 | with each split inside the `try`, every state whose cycle commits has all its missing values filled at the end of the pass, whatever the states before it did, including a raising split |
| ImputeByState.CorrectedSkipsRaisingState | src/aadt_imputation.py:17-27 | a first state whose split raises ends the pass as written, but with the split inside the `try` the second state is still imputed |
| ImputeByState.TwoPassesKeep | src/aadt_imputation.py:15-29 | filling MDV and then HDV keeps the MDV column of the middle table and every initially known value |
| LegacyPredictor.DropIncomplete | src/aadt_predictor.py:55 | keeps exactly the rows with both truck counts, so no remaining row has a null response |
| LegacyPredictor.ModelKeysDiffer | src/aadt_predictor.py:97-100 | "Random Forest", the newer predictor's key, is not a key of the older predictor, and the reverse holds too |
| LegacyPredictor.LegacyAADTPredictor.constructor | src/aadt_predictor.py:14-55 | `data` is the padded table without incomplete rows |
| LegacyPredictor.LegacyAADTPredictor.DropIncompleteRows | src/aadt_predictor.py:55 | in-place `dropna` over both responses |
| LegacyPredictor.LegacyAADTPredictor.SplitData | src/aadt_predictor.py:61-85 | raises iff no training row is left; otherwise the split holds the chosen state's rows |
| LegacyPredictor.LegacyAADTPredictor.InitializeModel | src/aadt_predictor.py:87-105 | an unknown key leaves the model unchanged |
| LegacyPredictor.LegacyAADTPredictor.FitModel | src/aadt_predictor.py:107-111 | with no `try`, a missing model, a missing split or a rejected fit raises and nothing changes |
| LegacyPredictor.LegacySplitResponsesKnown | src/aadt_predictor.py:55-85 | every split response is known, for either response |
| LegacyPredictor.SplitRowsComplete | src/aadt_predictor.py:55-85 | every split row has both truck counts |
| HpmsCleaning.DefaultLanes | scripts/subset_hpms.py:44 | a missing or zero lane count becomes 2; any other count is kept |
| HpmsCleaning.CorrectRow | scripts/subset_hpms.py:36-44 | GEOID, STATEFP and COUNTYFP zero-filled to 5, 2 and 3; lanes defaulted; everything else kept |
| HpmsCleaning.CorrectRowIdempotent | scripts/subset_hpms.py:36-44 | correcting twice equals correcting once |
| HpmsCleaning.CorrectHpmsColumns | scripts/subset_hpms.py:26-57 | the frame's rows become the corrected rows, in order |
| HpmsCleaning.PerUnit | scripts/subset_hpms.py:73-78 | the value times the unit equals AADT times the length; missing stays missing |
| HpmsCleaning.Minus | scripts/subset_hpms.py:79-80 | the difference plus the subtrahend is the minuend; missing if either is missing |
| HpmsCleaning.WithTotals | NearRoadExp_AADT_Subset.py:207-208 | VKT·1000 and VMT·1609.344 equal AADT × length; nothing else changes |
| HpmsCleaning.WithVktVmt | scripts/subset_hpms.py:71-82 | LDV + MDV + HDV = total for VKT and VMT when all are present; each class is AADT × length per unit |
| HpmsCleaning.CalculateVktVmt | scripts/subset_hpms.py:71-82 | the frame's rows gain their VKT/VMT columns, in order |
| HpmsCleaning.WithLaneLengths | scripts/subset_hpms.py:121-122 | lane km·1000 and lane miles·1609.344 equal lanes × length |
| HpmsCleaning.NewUrbanCode | scripts/subset_hpms.py:63 | 'U' gives the row's own UACE10, 'C' gives "99998", and any other type or no match gives "99999" |
| HpmsCleaning.NewUrbanCodeAsWritten | scripts/subset_hpms.py:63 | as written, 'U' gives the text of the whole UACE10 column |
| HpmsCleaning.Urban | scripts/subset_hpms.py:66 | URBAN is 0 iff the code is "99999", 2 iff "99998", otherwise 1 |
| HpmsCleaning.Lookup | scripts/subset_hpms.py:62 | the left merge finds a match iff the FID has one |
| HpmsCleaning.UrbanFollowsType | scripts/subset_hpms.py:63-66 | URBAN is 1 iff 'U', 2 iff 'C', 0 otherwise or unmatched |
| HpmsCleaning.AsWrittenUrbanCodeIgnoresRow | scripts/subset_hpms.py:63 | as written, two 'U' rows with different census codes get the same code |
| HpmsCleaning.AsWrittenUrbanAgrees | scripts/subset_hpms.py:63-66 | URBAN itself is unaffected by the column quirk |
| HpmsCleaning.WithUrban | scripts/subset_hpms.py:59-69 | NEW_URBAN_CODE from the row's match and URBAN from that code; nothing else changes |
| HpmsCleaning.MergeUacData | scripts/subset_hpms.py:59-69 | every row, in order, gets its code and category |
| HpmsCleaning.CutAtDot | scripts/subset_hpms.py:126 | the result has no '.', is a prefix of the input, and stops at the first '.' |
| HpmsCleaning.CutAtDotNoDot | scripts/subset_hpms.py:126 | a code without '.' is unchanged |
| HpmsCleaning.CutAtDotIdempotent | scripts/subset_hpms.py:126 | cutting twice equals cutting once |
| HpmsCleaning.MarkUacSame | scripts/subset_hpms.py:126-128 | ORIG_URBAN_CODE cut at '.', and UAC_IS_SAME iff it equals NEW_URBAN_CODE |
| HpmsCleaning.NotErrorMeans | scripts/subset_hpms.py:86-91 | a row is clean iff AADT is present and non-zero, and AADT is negative or at least HDV + MDV, with missing trucks read as 0 |
| HpmsCleaning.ErrorIds | scripts/subset_hpms.py:86-92 | exactly the identifiers of error rows |
| HpmsCleaning.ErrorRows | scripts/subset_hpms.py:92 | exactly the rows sharing an identifier with some error row |
| HpmsCleaning.SubsetHpms | scripts/subset_hpms.py:93 | exactly the rows sharing no identifier with an error row; no error row survives |
| HpmsCleaning.ErrorsAndSubsetPartition | scripts/subset_hpms.py:92-93 | error rows and kept rows together are the table, as a multiset |
| HpmsCleaning.SubsetIsMask | scripts/subset_hpms.py:93 | the subset is an order-keeping mask of the table |
| HpmsCleaning.UniqueIdsDropExactlyErrors | scripts/subset_hpms.py:92-93 | with unique identifiers a row is dropped iff it is an error row |
| HpmsCleaning.Prepared | scripts/subset_hpms.py:115-128 | one prepared row per input row, in order |
| HpmsCleaning.SubsetMain | scripts/subset_hpms.py:106-132 | `main` returns the subset of the prepared table |
| HpmsCleaning.SubsetMembers | scripts/subset_hpms.py:86-93 | a row kept by `subset_hpms` is a row of its input and is not an error row |
| HpmsCleaning.OutputFromInput | scripts/subset_hpms.py:106-132 | every output row is the prepared form of some input row and is clean |
| HpmsCleaning.LightDutyVkt | scripts/subset_hpms.py:71-82 | the light-duty VKT is (AADT − MDV − HDV) × length per kilometre |
| HpmsCleaning.RemainderScaled | scripts/subset_hpms.py:71-82 | the light-duty remainder of shares scaled by length is the light-duty count scaled by length |
| HpmsCleaning.PrepareRowCodes | scripts/subset_hpms.py:116-128 | after the column steps, the codes are zero-filled and the lane count is non-zero |
| HpmsCleaning.PrepareRowUrban | scripts/subset_hpms.py:116-128 | after the column steps, NEW_URBAN_CODE and URBAN come from the link's match, ORIG_URBAN_CODE has no '.', and UAC_IS_SAME says whether the codes agree |
| HpmsCleaning.PrepareRowCounts | scripts/subset_hpms.py:116-128 | the column steps keep the identifier, counts and length; light-duty VKT is present iff the three counts are, and not negative when trucks do not exceed AADT |
| HpmsCleaning.OutputRowsCorrected | scripts/subset_hpms.py:106-132 | every output row is clean, has its codes zero-filled and a non-zero lane count, and has URBAN and NEW_URBAN_CODE from its match and a dot-free ORIG_URBAN_CODE; it keeps the input's AADT values and length |
| HpmsCleaning.CleanRowCoversTrucks | scripts/subset_hpms.py:91-93 | a clean row with non-negative AADT and both trucks has AADT ≥ MDV + HDV |
| HpmsCleaning.OutputLightDutyNonNegative | scripts/subset_hpms.py:79 | in the output, light-duty VKT is never negative for non-negative AADT and length |
| NearRoadSubset.UrbanCellAsWritten | NearRoadExp_AADT_Subset.py:236 | as written, a 'U' link's NEW_URBAN_CODE cell is the UACE10 column object; every other link gets the code of the intended rule |
| NearRoadSubset.AsWrittenCellIgnoresRow | NearRoadExp_AADT_Subset.py:236-265 | as written, two 'U' links with different census codes get the same cell, and it equals no code text |
| NearRoadSubset.MarkSameCode | NearRoadExp_AADT_Subset.py:265 | UAC_IS_SAME iff the original code equals the new code |
| NearRoadSubset.NearRoadPrepared | NearRoadExp_AADT_Subset.py:195-265 | one prepared row per link of positive length, in order |
| NearRoadSubset.PrepareNearRoad | NearRoadExp_AADT_Subset.py:195-265 | the frame's rows become the prepared rows |
| NearRoadSubset.NearRoadRowFacts | NearRoadExp_AADT_Subset.py:198-265 | a prepared row has its codes zero-filled, a non-zero lane count, VKT/VMT and lane lengths, URBAN from its match, and its AADT values and length kept |
| NearRoadSubset.LengthFilterFirst | NearRoadExp_AADT_Subset.py:195 | every prepared row has positive length and comes from an input link; every input link of positive length is prepared |
| NearRoadSubset.MissingLanesSubset | NearRoadExp_AADT_Subset.py:311-315 | exactly the non-error rows with missing or zero lanes |
| NearRoadSubset.MissingLanesSubsetEmpty | NearRoadExp_AADT_Subset.py:211-315 | after the lanes default, that subset is always empty |
| NearRoadSubset.OneTruckClassSubset | NearRoadExp_AADT_Subset.py:305-307 | at most the table's rows |
| NearRoadSubset.OneTruckClassMeans | NearRoadExp_AADT_Subset.py:305-307 | exactly the non-error rows where one truck class is positive and the other is missing or 0 |
| NearRoadSubset.UrbanDesc | NearRoadExp_AADT_Subset.py:419-427 | 0 is 'rural', 1 is 'urban', 2 is 'small urban', anything else is missing |
| NearRoadSubset.PreparedLinksDescribed | NearRoadExp_AADT_Subset.py:247-427 | every prepared link has a description |
| NearRoadSubset.SameCount | NearRoadExp_AADT_Subset.py:267 | at most the table's size |
| NearRoadSubset.UacPercentages | NearRoadExp_AADT_Subset.py:267-268 | undefined on an empty table; both shares lie in [0, 100] and add up to 100; the same-share is 100 × count / size |
| NearRoadSubset.AllSameMeansHundred | NearRoadExp_AADT_Subset.py:267 | all codes agree iff the same-count is the table size |
| NearRoadSubset.RStrip | NearRoadExp_AADT_Subset.py:142 | the result is the longest prefix whose stripped tail consists of set characters |
| NearRoadSubset.ExportNameAsWritten | NearRoadExp_AADT_Subset.py:140-149 | the name as written is the stripped name plus ".csv" |
| NearRoadSubset.SummaryStatsNameLosesLetter | NearRoadExp_AADT_Subset.py:503-505 | "hpms_aadt_subset_summary_stats" is written as "hpms_aadt_subset_summary_stat.csv" |
| NearRoadSubset.ExportName | NearRoadExp_AADT_Subset.py:142 | the intended name always ends in ".csv"; ".csv" is appended only when absent |
| NearRoadSubset.ExportNameRoundTrip | NearRoadExp_AADT_Subset.py:142 | naming is idempotent, and dropping ".csv" recovers the name |
| NearRoadSubset.SummaryStatsNameIntended | NearRoadExp_AADT_Subset.py:503-505 | the intended rule keeps "..._summary_stats.csv" |
| NearRoadSubset.AsWrittenAgreesWithoutStripChar | NearRoadExp_AADT_Subset.py:142 | a name not ending in '.', 'c', 's' or 'v' gets the same file name under both rules |
| TrafficDensity.Blocks | scripts/estimate_traffic_density.py:20 | the GEOID20 keys, ascending and without repeats, are exactly those present |
| TrafficDensity.Group | scripts/estimate_traffic_density.py:20 | a group is exactly the rows with that key |
| TrafficDensity.FirstArea | scripts/estimate_traffic_density.py:18 | missing iff no row of the group has an area |
| TrafficDensity.FirstAreaIsFirst | scripts/estimate_traffic_density.py:18 | the area is that of the first row that has one |
| TrafficDensity.FirstAreaOfUniformBlock | src/estimate_td.py:36 | when the area is constant per block, the block gets that area |
| TrafficDensity.PerSquareKm | scripts/estimate_traffic_density.py:22-25 | density × (area / 10^6) equals the sum for a non-zero area; otherwise 0 |
| TrafficDensity.BlockRow | scripts/estimate_traffic_density.py:13-25 | a block's sums are its group's sums, its area is the first area (or 0), and its densities are the sums per square kilometre |
| TrafficDensity.CalculateTrafficDensity | scripts/estimate_traffic_density.py:9-27 | one row per block key, in key order; src/estimate_td.py:28-47 performs the same aggregation |
| TrafficDensity.BlockHasRow | scripts/estimate_traffic_density.py:20-27 | a block key has an output row iff some input row carries that key |
| TrafficDensity.OneRowPerBlock | scripts/estimate_traffic_density.py:20-27 | no two output rows share a key, and a key appears iff some input row has it |
| TrafficDensity.SumPreserved | src/estimate_td.py:31-38 | over all output rows, each VKT column sums to the input total over keyed rows |
| TrafficDensity.SumBlockRows | scripts/estimate_traffic_density.py:13-20 | the output sums are the per-block sums added up |
| TrafficDensity.OverBlocksIsKeyedSum | scripts/estimate_traffic_density.py:13-20 | the per-block sums added over distinct keys equal the total over keyed rows |
| TrafficDensity.BlockSumIsGroupSum | scripts/estimate_traffic_density.py:13-20 | a block's sum over the table equals the sum over its group |
| JoinHelpers.QueryBuilder | src/joingeo_and_vmtcalc.py:59-63 | the accumulating loop and the `[:-4]` slice produce the " Or "-join of the clauses, in list order; src/JoinGeometry_HPMS_AADT_imputation.py:73-77 has the same builder |
| JoinHelpers.Accumulated | src/joingeo_and_vmtcalc.py:60-62 | the accumulator is "" before any value, and otherwise the join plus a trailing " Or " |
| JoinHelpers.DropLast4 | src/joingeo_and_vmtcalc.py:63 | all but the last four characters, or "" for a shorter string |
| JoinHelpers.JoinOrShape | src/joingeo_and_vmtcalc.py:59-63 | an empty list gives ""; one value gives a single clause with no " Or "; one more value appends " Or " and its clause |
| JoinHelpers.JoinOrLength | src/joingeo_and_vmtcalc.py:59-63 | the query's length is that of its clauses plus 4 per separator |
| JoinHelpers.RemoveSystemFields | src/joingeo_and_vmtcalc.py:134-137 | the loop leaves the fields with the first occurrence of each system field removed, in turn; src/JoinGeometry_HPMS_AADT_imputation.py:185-187 has the same loop |
| JoinHelpers.RemoveFirstAbsent | src/joingeo_and_vmtcalc.py:137 | an absent name is skipped and the list is unchanged |
| JoinHelpers.FirstIndex | src/joingeo_and_vmtcalc.py:137 | the position `list.remove` acts on: the name sits there and nowhere before it |
| JoinHelpers.RemoveAfterPrefix | src/joingeo_and_vmtcalc.py:137 | removing a name from a list where it first appears after a prefix deletes exactly that occurrence |
| JoinHelpers.RemoveFirstAt | src/joingeo_and_vmtcalc.py:137 | a present name loses its first occurrence; the names before and after it stay in place |
| JoinHelpers.RemoveFirstMultiset | src/joingeo_and_vmtcalc.py:137 | exactly one occurrence goes, if there is one |
| JoinHelpers.RemoveEachMultiset | src/joingeo_and_vmtcalc.py:136-137 | the remaining names are the original multiset minus the removal list |
| JoinHelpers.FilterSkip | src/joingeo_and_vmtcalc.py:137 | a name the filter rejects does not affect what the filter keeps, wherever it sits |
| JoinHelpers.RemoveFirstKeepsOthers | src/joingeo_and_vmtcalc.py:137 | removing a listed name keeps the unlisted names in order |
| JoinHelpers.RemoveEachKeepsOthers | src/joingeo_and_vmtcalc.py:136-137 | all unlisted names survive, in their original relative order |
| JoinHelpers.SystemFieldsRemoved | src/JoinGeometry_HPMS_AADT_imputation.py:185-187 | one occurrence of each system field present is removed and the other fields stay in order |
| JoinHelpers.GetUniqueValues | src/joingeo_and_vmtcalc.py:54-57 | ascending without repeats, with the same value set as the input |
| JoinHelpers.SortedSameSetEqual | src/JoinGeometry_HPMS_AADT_imputation.py:68-71 | two ascending lists without repeats holding the same values are equal |
| JoinHelpers.UniqueValuesCanonical | src/JoinGeometry_HPMS_AADT_imputation.py:68-71 | the result depends only on the value set, and applying it twice changes nothing |
| Common.Filter | scripts/subset_hpms.py:93 | a boolean mask keeps exactly the rows satisfying it |
| Common.FilterCount | scripts/subset_hpms.py:93 | a mask keeps every copy of an accepted row and no copy of a rejected one |
| Common.FilterComplement | scripts/subset_hpms.py:92-93 | a mask and its negation split the table, as a multiset |
| Common.SortedUnique | scripts/estimate_traffic_density.py:20 | the distinct keys, ascending, with the same set |
| Common.SplitRows | scripts/utils/aadt_predictor.py:120-127 | train and test together are the rows, each once |

## Left out

- Random forest and linear-regression fitting, `predict` and the metrics are
  not modelled as numeric code. Fitting and prediction are the parameter
  `Env.learn`. Rejection by the library is a boolean parameter. An empty
  training set or an empty batch counts as rejected, matching the library's
  behaviour.
- `train_test_split`'s shuffling and `test_size` are not modelled. Which
  position goes to the test set is a parameter (`inTest`), and a split with no
  training row raises. Stratification and the random seed are left out. The
  r2 scores, KFold fold composition, `hyperparameter_tuning` (GridSearchCV)
  and `BayesSearchCV` are left out. Cross-validation is modelled on its
  folds' results.
- Predictor.Env: the regressor, the split and the rejection parameters depend
  only on the response and the state, not on the run's history.
- CSV and geodatabase reads and writes, the `print` diagnostics, `tqdm` and
  the timing output are left out. A read that fails is not modelled: the
  loaded table is a parameter.
- The `astype` conversions are not modelled. FIPS codes are strings before
  padding. `URBAN` and `F_SYSTEM` are plain integers, not categories.
- The state-name merge (scripts/subset_hpms.py:51-52) is left out: it calls
  an external package.
- The `sort_values` at scripts/subset_hpms.py:46 is left out. The model keeps
  input order, so the output order is the input order, not the sorted order.
- The replacement of infinities (scripts/subset_hpms.py:55 and 101,
  NearRoadExp_AADT_Subset.py:218) is left out because reals have no
  infinities.
- The `sort_values` at NearRoadExp_AADT_Subset.py:221 is left out. The
  near-road model keeps input order, so its output order is the input order,
  not the order by STATEFP, COUNTYFP and F_SYSTEM.
- HpmsCleaning.WithUrban and the members built on it use the corrected urban
  code `NewUrbanCode`: a 'U' link gets its own UACE10. As written,
  scripts/subset_hpms.py:59-69 gives every 'U' link the text of the whole
  UACE10 column (`NewUrbanCodeAsWritten`), and NearRoadExp_AADT_Subset.py:236
  gives it the column object itself (`UrbanCellAsWritten`); both are listed
  under "## Findings".
- HpmsCleaning.MergeUacData: uses the corrected urban code of
  `WithUrban`, not what scripts/subset_hpms.py:59-69 computes as written.
- HpmsCleaning.PrepareRowUrban: NEW_URBAN_CODE and URBAN "from the link's
  match" follow the corrected rule, not scripts/subset_hpms.py:63 as written.
- HpmsCleaning.OutputRowsCorrected: URBAN and NEW_URBAN_CODE of the output
  rows follow the corrected rule, not scripts/subset_hpms.py:63 as written.
- NearRoadSubset.NearRoadRowFacts: URBAN and NEW_URBAN_CODE follow the
  corrected rule, not NearRoadExp_AADT_Subset.py:236 as written.
- NearRoadSubset.NearRoadPrepared: keeps input order where
  NearRoadExp_AADT_Subset.py:221 sorts, and uses the corrected urban code
  where line 236 stores the UACE10 column object.
- NearRoadSubset.PrepareNearRoad: the same two differences as
  `NearRoadPrepared`.
- The final column projection and rename (scripts/subset_hpms.py:95-100) are
  left out. Rows keep every column.
- HpmsCleaning.Lookup: the urban-area join has at most one match per FID (a
  map). A FID matched several times would duplicate rows.
- The near-road script's summary tables and plots
  (NearRoadExp_AADT_Subset.py:270-283, 340-500) are left out, as are its
  state-name join. So are the subset percentages `pcnt_errors`,
  `pcnt_1vehclassobsv` and `pcnt_nolnmi` (NearRoadExp_AADT_Subset.py:318-326):
  only the subsets they divide are modelled. Of the percentages, only the
  urban-code shares are modelled, together with the export naming.
- LegacyPredictor.LegacyAADTPredictor.constructor takes the names
  `RESPONSE_VARS` and `OUTDIR` as given. In src/aadt_predictor.py:17-18 they
  are globals the module never defines.
- The legacy `test_model` and `validate_model` (src/aadt_predictor.py:113-136)
  are covered only through `Learning.TestScores` and
  `Learning.CrossValidateScores`. The legacy class has no method for them.
- GEOID20 and the `getUniqueValues` values are integers. Fixed-width digit
  strings order the same way. A row without GEOID20 belongs to no block
  (pandas drops NaN keys).
- TrafficDensity.FirstArea takes the first non-null area of a block, which is
  what pandas' `first` does, not the area of the block's first row.
- The arcpy geoprocessing of the two join scripts is left out. So is how a
  value is formatted into the query: values are already text.
- JoinHelpers.GetUniqueValues takes the field values as a sequence. The
  cursor over a feature class is left out.

## Findings

| source | as written | input that shows it | evidently intended | confidence | as-written member | corrected member |
|---|---|---|---|---|---|---|
| src/aadt_imputation.py:16 | a new predictor is loaded for each response, and the last one's table is saved | any table where the AADT_MDV pass fills a value | both passes' imputations reach the file | not executed | ImputeByState.AsWrittenLosesMdvImputations | ImputeByState.CorrectedKeepsBothImputations |
| src/aadt_imputation.py:19-21 | `split_data` sits outside the `try`, so one state without training rows ends the run before anything is written | a state whose rows all lack AADT_MDV | skip that state and impute the others | not executed | ImputeByState.UnlabelledStateAbortsRun | ImputeByState.CorrectedImputesEveryState |
| scripts/subset_hpms.py:63 | 'U' maps to the whole UACE10 column rather than the row's own code | two 'U' links with different UACE10 | each link gets its own census code | not executed | HpmsCleaning.AsWrittenUrbanCodeIgnoresRow | HpmsCleaning.UrbanFollowsType |
| NearRoadExp_AADT_Subset.py:142 | `rstrip('.csv')` strips characters from a set, not a suffix | "hpms_aadt_subset_summary_stats" (line 503) | "hpms_aadt_subset_summary_stats.csv" | not executed | NearRoadSubset.SummaryStatsNameLosesLetter | NearRoadSubset.SummaryStatsNameIntended |
| NearRoadExp_AADT_Subset.py:236 | 'U' maps to the whole UACE10 column and, with no `astype(str)` after it, each 'U' cell holds that column object, which lines 247 and 265 then use as if it were a code | two 'U' links with different UACE10 | each link gets its own census code | not executed | NearRoadSubset.AsWrittenCellIgnoresRow | NearRoadSubset.NearRoadRowFacts |
