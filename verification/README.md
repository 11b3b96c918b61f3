# NCAA_Predict core in Dafny

This project models the logic that the NCAA prediction application writes itself, leaving out the library calls around it:

- **Prediction server** (`state-of-the-art/backend/index.js`). It holds two process-wide values, the installed network and the per-feature training means. A `/train` run writes them in source order, `/status` reports whether a network is installed, and `/predict` does four things in order: it checks that a network is installed, checks each configured feature column in order, thresholds the forward pass at one half, and builds the above/below explanation. The network is opaque. It is a width plus weights, the result of `fit` is an input to the model, and the forward pass is a function parameter `probability`. Request fields are held as the text `parseFloat` reads, and an opaque `parse: string -> Option<real>` stands for `parseFloat`, with `None` for `NaN`.
- **Training form** (`frontend/src/components/ModelTrainingForm.jsx`). The state is the season range, the feature cap `numFeatures`, the selected features in click order, the loading flag and the message. It has transitions for toggling a feature, changing the cap, submitting and receiving the reply, plus the two `disabled` predicates. The selection invariant is: no duplicates, and no more features than the cap.
- **Train-request validator** (`backend/routes/model.js`). The two checks of `/train-model` form a pure verdict function: first missing parameters, then season order.

Modules: `Wrappers` (Option/Result), `FeatureMeans`, `Backend`, `TrainRoute`, `TrainingForm`.

Two consequences of the order of statements in `trainModel`:

- `model` is assigned at line 78, before `fit` runs at line 80. A `fit` that throws therefore leaves the freshly built network installed, and `/status` reports it as trained (`Backend.Train`, `Backend.StatusAfterRuns`).
- Suppose the tensor conversion accepted an empty file. (It is an opaque library step, and it may well refuse one at line 75, in which case the run changes nothing.) Say a later run's file is empty and the conversion accepts it. Then `featureMeans` becomes `[]` at line 77, and line 78 throws on `features[0].length`. The old network stays installed with empty means. If at least one feature column is configured, every well-formed request then reaches `meanVal.toFixed` on `undefined` and gets the 500 reply. This lasts until a later run installs full means (`Backend.EmptyRetrainBreaksPrediction`).

## Model

| member | source | states |
|---|---|---|
| FeatureMeans.CalculateFeatureMeans | state-of-the-art/backend/index.js:50-58 | no rows give `[]`; otherwise one mean per column of the first row, each the column sum over the row count; equals the reference definition `Means` |
| FeatureMeans.MeansOfSingleRow | state-of-the-art/backend/index.js:52-57 | the means of a one-row table are that row |
| FeatureMeans.MeanWithinColumnRange | state-of-the-art/backend/index.js:52-57 | every mean lies within the bounds of its column's values |
| Backend.StatusInitiallyUntrained | state-of-the-art/backend/index.js:23-26 | before any run `/status` reports no model |
| Backend.Train | state-of-the-art/backend/index.js:73-91 | a run completes iff the file loads, the tensors build, the file has rows and `fit` succeeds; a load or tensor failure changes nothing; the means are replaced once the tensors build; the network is replaced, with the configured width, iff the run reaches line 78, even when `fit` then fails; an installed network is never removed |
| Backend.StatusAfterRuns | state-of-the-art/backend/index.js:73-113 | after any series of runs `/status` reports trained iff it did before or some run reached the install at line 78 |
| Backend.ParseFrom | state-of-the-art/backend/index.js:130-137 | validation succeeds iff every column from the start position parses; the vector then holds one parsed value per column in column order; a failure names a column that is the first one that does not parse |
| Backend.ParseInputAccepts | state-of-the-art/backend/index.js:130-137 | when every column parses, the input vector has exactly one entry per feature column, equal to its parsed value |
| Backend.ParseInputRejects | state-of-the-art/backend/index.js:131-135 | the rejection names exactly the first column whose value is missing or not a number |
| Backend.PredictedClass | state-of-the-art/backend/index.js:141 | the class is 0 or 1, and 1 iff the probability is at least one half, so exactly 0.5 gives class 1 |
| Backend.ExplainFrom | state-of-the-art/backend/index.js:93-105 | one clause per feature column in column order, carrying the column, its input and its mean; "above" iff input is strictly greater than the mean; fails iff some column has no mean |
| Backend.EqualToMeanIsBelow | state-of-the-art/backend/index.js:98-102 | an input equal to its mean is reported below the average |
| Backend.Predict | state-of-the-art/backend/index.js:125-152 | without a network the reply is "not trained" whatever the input; with a network, a bad value is rejected naming the first bad column; a success carries the network's probability for the parsed vector, class 1 iff it is at least one half, and one clause per column; success iff installed, valid input, matching width and a mean for every column |
| Backend.RejectedRequestIgnoresModel | state-of-the-art/backend/index.js:127-135 | a request refused for a missing network or a bad value gets the same reply whatever the network computes, so the network is never run on it |
| Backend.TrainPreservesConsistent | state-of-the-art/backend/index.js:73-91 | every run keeps an installed network at the configured width, with means that are full or empty |
| Backend.ConsistentAfterRuns | state-of-the-art/backend/index.js:73-91 | any series of runs from a consistent state ends in a consistent state, so every state reachable from the initial one is consistent |
| Backend.ConsistentPredictSucceeds | state-of-the-art/backend/index.js:125-152 | in a consistent state with full means, every well-formed request gets a prediction |
| Backend.EmptyRetrainBreaksPrediction | state-of-the-art/backend/index.js:74-101 | if the tensor conversion accepts an empty file, a run on it fails, keeps the old network, and makes every later well-formed request with at least one feature column fail with a 500 |
| TrainRoute.Validate | backend/routes/model.js:26-38 | invalid input iff a season is falsy or `features` is not a non-empty array; otherwise refused iff from > to; accepted requests pass seasons and features to training unchanged |
| TrainRoute.ZeroSeasonIsMissing | backend/routes/model.js:29 | a season of 0 is treated as missing by the first check |
| TrainRoute.EqualSeasonsAccepted | backend/routes/model.js:33-35 | equal seasons are accepted |
| TrainRoute.MissingTakesPrecedence | backend/routes/model.js:29-35 | an incomplete body that is also out of order gets the missing-parameter reply |
| TrainingForm.Without | frontend/src/components/ModelTrainingForm.jsx:38 | the filter keeps exactly the other names, shrinks the list when the name was present, and keeps a duplicate-free list duplicate-free |
| TrainingForm.ToggleFeature | frontend/src/components/ModelTrainingForm.jsx:36-42 | only the selection changes; afterwards a name is selected iff it was selected and is not the toggled one, or it is the toggled one, was absent, and the selection was below the cap; the invariant is preserved |
| TrainingForm.ToggleSelectedRemoves | frontend/src/components/ModelTrainingForm.jsx:37-38 | toggling the selected name at position i removes exactly that position and keeps the others in order |
| TrainingForm.ToggleUnselected | frontend/src/components/ModelTrainingForm.jsx:39-41 | an unselected name is appended at the end below the cap; at the cap the form is unchanged |
| TrainingForm.WithoutKeepsOrder | frontend/src/components/ModelTrainingForm.jsx:38 | the filter's result is a subsequence of the input (order kept) and has the input's counts with every copy of the name removed |
| TrainingForm.ToggleTwiceRestores | frontend/src/components/ModelTrainingForm.jsx:38-40 | clicking an unselected name twice restores the form: below the cap it is appended then removed, at the cap both clicks do nothing |
| TrainingForm.SetNumFeatures | frontend/src/components/ModelTrainingForm.jsx:27-34 | the cap becomes v; the selection becomes a prefix of the old one, of length min(old length, v); only the cap and the selection change; a duplicate-free selection satisfies the invariant afterwards |
| TrainingForm.Submit | frontend/src/components/ModelTrainingForm.jsx:44-60 | a request is sent iff the selection size equals the cap; otherwise only the message changes, to "select exactly"; on sending, the form starts loading, shows the in-progress message and posts the form's from and to seasons and its selected features; nothing else changes |
| TrainingForm.FinishSubmit | frontend/src/components/ModelTrainingForm.jsx:61-66 | loading stops; the message carries the reply's accuracy on success and its error text on failure; nothing else changes |
| TrainingForm.CheckboxDisabledIffToggleIsNoOp | frontend/src/components/ModelTrainingForm.jsx:120 | a checkbox is disabled exactly when clicking it would leave the form unchanged |
| TrainingForm.SubmitDisabledIffGuardRefuses | frontend/src/components/ModelTrainingForm.jsx:128 | when not loading, the button is disabled exactly when the submit guard refuses |
| TrainingForm.RunKeepsValid | frontend/src/components/ModelTrainingForm.jsx:27-42 | any sequence of user actions preserves the selection invariant |
| TrainingForm.ReachableFormsValid | frontend/src/components/ModelTrainingForm.jsx:5-11 | every form reachable from the initial state satisfies the invariant |
| TrainingForm.SubmittedRequestVerdict | frontend/src/components/ModelTrainingForm.jsx:56-60 | for a request `handleSubmit` posts: invalid input iff a season is 0 or the cap is 0; otherwise it is refused iff from > to, and otherwise it trains on the form's seasons and selection |

## Left out

- Network construction, `fit` and the forward pass: library calls. They are an input outcome (`FitOutcome`, which carries the weights the network object holds afterwards) and the function parameter `probability`. The probability is not constrained to [0, 1] because no property here needs it.
- `loadDataset` (CSV streaming, file path and configuration loading): file I/O. A run receives the load outcome. `LoaderShaped` states the loader's guarantee of one value per configured column and one label per row.
- `LoadFailed` covers only errors the CSV parser reports, which reach `reject` and the 500 reply. The `'error'` listener at line 43 sits on the parser stream returned by `pipe`, which does not forward errors of the file stream. So a file that cannot be opened or read raises an uncaught stream error that ends the process and loses the installed model. That crash is not modelled.
- `tf.tensor2d` conversion: a library call, modelled as the flag `tensorsOk`. It is left unconstrained, including for zero rows, where the library may well refuse the conversion. The `trainingFeatures`/`trainingLabels` globals are read only by `fit`, so they are not part of the state.
- `NaN` cells in the training file: training values are reals, so `NaN` means are not modelled.
- Double-precision arithmetic: feature values, column sums, means, the division in `calculateFeatureMeans` and the `>` and `>=` comparisons use exact reals, so double rounding is not modelled.
- `parseFloat` beyond "a number or `NaN`", `toFixed` rounding, percentage formatting and the explanation wording: floating point and text formatting. An explanation is its probability and its clauses.
- Per-epoch logging, fixed hyperparameters, and the 500 replies of Express middleware: side effects with no logic.
- Overlapping `/train` requests and async interleavings: concurrency. Runs are taken one at a time.
- `/config`, `/features` and static serving: they return constants.
- The mock `trainModel` of `backend/routes/model.js` (timer delay, constant accuracy): a stub. An accepted request ends at the `Train` verdict.
- TrainRoute.Validate: season values are numbers, `null` or absent. Strings, booleans and JavaScript's mixed-type `>` are not modelled. The form sends numbers, or `null` when a cleared season box makes `parseInt` give `NaN`, which JSON serialisation sends as `null`.
- TrainingForm.Submit: the browser's constraint validation of the number inputs is not modelled. That is `min="1985" max={toSeason}`, `min={fromSeason} max="2023"` and `min="1"` at lines 80-81, 90-91 and 103, checked before `handleSubmit` runs. So `Submit` and `SubmittedRequestVerdict` cover every body `handleSubmit` can post, which includes reversed ranges, seasons of 0 and a cap of 0 that a browser would stop first. A cleared box still posts `null`, because an empty value passes that validation.
- TrainingForm.SetNumFeatures: the cap is a natural number. `parseInt` giving `NaN` or a negative value is not modelled, and neither is `parseInt` in the season inputs.
- React rendering, `useEffect` fetches of the available features, the other pages and components, and the API service wrappers: UI and network glue.
- The Mongoose schema: persistence declaration only.
