/** The prediction server: the process-wide model and feature means, the
    `/train` run that replaces them, `/status`, and `/predict` with its
    explanation. The neural network is opaque: a `Model` is the width it was
    built for plus the weights `fit` leaves in it, the end of `fit` is an
    outcome supplied by the caller, and the forward pass is a function
    parameter `probability`. */
module Backend {
  import opened Wrappers
  import FeatureMeans

  /** A network artifact: the input width it was built for and its weights. */
  datatype Model = Model(inputWidth: nat, weights: seq<real>)

  /** The process-wide globals `featureMeans` and `model`; `None` is `null`. */
  datatype State = State(means: Option<seq<real>>, model: Option<Model>)

  /** Both globals start out `null`. */
  const Initial: State := State(None, None)

  /** `/status`: the server reports a trained model iff one is installed. */
  function ModelTrained(s: State): bool
  {
    s.model.Some?
  }

  // ---------------------------------------------------------------- training

  /** Parallel feature rows and labels as the CSV loader returns them. */
  datatype Dataset = Dataset(features: seq<seq<real>>, labels: seq<real>)

  /** How `loadDataset` settled: with the parsed rows, or rejected because the
      CSV parser reported an error. */
  datatype LoadOutcome = Loaded(data: Dataset) | LoadFailed

  /** How the library's `fit` call ended; either way the model object holds
      the weights `fit` left in it. */
  datatype FitOutcome = Fitted(weights: seq<real>) | FitFailed(weights: seq<real>)

  /** Everything a training run receives from outside: the file read, whether
      the library accepted the rows as tensors, and the end of `fit`. */
  datatype TrainEnv = TrainEnv(load: LoadOutcome, tensorsOk: bool, fit: FitOutcome)

  /** The `/train` reply: the success message or the 500 "Training failed.". */
  datatype TrainReply = TrainingComplete | TrainingFailed

  datatype TrainRun = TrainRun(state: State, reply: TrainReply)

  /** The loader reads one value per configured feature column for every row,
      and one label per row. */
  predicate LoaderShaped(env: TrainEnv, columns: seq<string>)
  {
    env.load.Loaded? ==>
      && FeatureMeans.Uniform(env.load.data.features, |columns|)
      && |env.load.data.labels| == |env.load.data.features|
  }

  /** The run gets past the statement that installs the fresh network. */
  predicate ReachesInstall(env: TrainEnv)
  {
    env.load.Loaded? && env.tensorsOk && |env.load.data.features| > 0
  }

  /** One `/train` run. The steps are taken in source order: load, tensors,
      means (written to the global), network built for the width of the first
      row and installed at once, then `fit`. An exception at any step ends the
      run with whatever globals were already written. */
  function Train(s: State, columns: seq<string>, env: TrainEnv): (t: TrainRun)
    requires LoaderShaped(env, columns)
    ensures t.reply == TrainingComplete <==> ReachesInstall(env) && env.fit.Fitted?
    ensures !(env.load.Loaded? && env.tensorsOk) ==> t.state == s
    ensures env.load.Loaded? && env.tensorsOk ==> t.state.means == Some(FeatureMeans.Means(env.load.data.features))
    ensures !ReachesInstall(env) ==> t.state.model == s.model
    ensures ReachesInstall(env) ==>
      t.state.model == Some(Model(|columns|, env.fit.weights))
    ensures ModelTrained(s) ==> ModelTrained(t.state)
  {
    if env.load.LoadFailed? || !env.tensorsOk then
      TrainRun(s, TrainingFailed)
    else
      var rows := env.load.data.features;
      var withMeans := s.(means := Some(FeatureMeans.Means(rows)));
      if |rows| == 0 then
        // `features[0].length` throws once the means are already written
        TrainRun(withMeans, TrainingFailed)
      else
        var installed := withMeans.(model := Some(Model(|rows[0]|, env.fit.weights)));
        if env.fit.Fitted? then TrainRun(installed, TrainingComplete)
        else TrainRun(installed, TrainingFailed)
  }

  /** A series of `/train` runs, one after the other. */
  function TrainAll(s: State, columns: seq<string>, envs: seq<TrainEnv>): State
    requires forall k :: 0 <= k < |envs| ==> LoaderShaped(envs[k], columns)
    decreases |envs|
  {
    if |envs| == 0 then s
    else TrainAll(Train(s, columns, envs[0]).state, columns, envs[1..])
  }

  /** `/status` after a series of runs reports a trained model iff one was
      installed before, or some run got as far as installing a fresh network,
      whether or not its `fit` then succeeded. */
  lemma {:induction false} StatusAfterRuns(s: State, columns: seq<string>, envs: seq<TrainEnv>)
    requires forall k :: 0 <= k < |envs| ==> LoaderShaped(envs[k], columns)
    ensures ModelTrained(TrainAll(s, columns, envs)) <==>
      ModelTrained(s) || exists k :: 0 <= k < |envs| && ReachesInstall(envs[k])
    decreases |envs|
  {
    if |envs| > 0 {
      var next := Train(s, columns, envs[0]).state;
      StatusAfterRuns(next, columns, envs[1..]);
      assert forall k :: 1 <= k < |envs| ==> envs[1..][k - 1] == envs[k];
      if ModelTrained(TrainAll(s, columns, envs)) && !ModelTrained(s) && !ReachesInstall(envs[0]) {
        var k :| 0 <= k < |envs[1..]| && ReachesInstall(envs[1..][k]);
        assert ReachesInstall(envs[k + 1]);
      }
    }
  }

  /** Before any training run `/status` reports no model. */
  lemma StatusInitiallyUntrained()
    ensures !ModelTrained(Initial)
  {
  }

  // -------------------------------------------------------------- prediction

  /** The `/predict` failures: 400 for a missing model or a bad feature value,
      500 for an exception thrown later in the handler. */
  datatype PredictError = NotTrained | InvalidValue(column: string) | PredictionFailed

  /** One sentence of the explanation: a feature, its input, its training mean
      and whether the input is reported above the mean. */
  datatype Clause = Clause(column: string, value: real, mean: real, above: bool)

  /** The explanation text, abstracted from its formatting: the probability it
      opens with and one clause per feature column. */
  datatype Explanation = Explanation(probability: real, clauses: seq<Clause>)

  datatype Prediction = Prediction(predictedClass: int, probability: real, explanation: Explanation)

  /** `parseFloat(req.body[col])`: a missing field and an unparsable one are
      both `NaN`. Field values are held as the text `parseFloat` reads. */
  function FieldValue(body: map<string, string>, parse: string -> Option<real>, col: string): Option<real>
  {
    if col in body then parse(body[col]) else None
  }

  /** The validation loop from column `i` on: it stops at the first column
      whose value is not a number and names it. */
  function ParseFrom(columns: seq<string>, body: map<string, string>, parse: string -> Option<real>, i: nat): (r: Result<seq<real>, string>)
    requires i <= |columns|
    decreases |columns| - i
    ensures r.Success? <==> forall k :: i <= k < |columns| ==> FieldValue(body, parse, columns[k]).Some?
    ensures r.Success? ==>
      && |r.value| == |columns| - i
      && forall k :: 0 <= k < |r.value| ==> FieldValue(body, parse, columns[i + k]) == Some(r.value[k])
    ensures r.Failure? ==> exists k :: i <= k < |columns| && FirstInvalid(columns, body, parse, i, k) && columns[k] == r.error
  {
    if i == |columns| then Success([])
    else
      match FieldValue(body, parse, columns[i])
      case None => Failure(columns[i])
      case Some(v) =>
        match ParseFrom(columns, body, parse, i + 1)
        case Failure(c) => Failure(c)
        case Success(rest) => Success([v] + rest)
  }

  /** Column `k` is the first column at or after `i` without a numeric value. */
  predicate FirstInvalid(columns: seq<string>, body: map<string, string>, parse: string -> Option<real>, i: nat, k: nat)
    requires i <= k < |columns|
  {
    && FieldValue(body, parse, columns[k]).None?
    && forall m :: i <= m < k ==> FieldValue(body, parse, columns[m]).Some?
  }

  /** The whole validation loop over the configured feature columns. */
  function ParseInput(columns: seq<string>, body: map<string, string>, parse: string -> Option<real>): Result<seq<real>, string>
  {
    ParseFrom(columns, body, parse, 0)
  }

  /** On acceptance the input vector holds exactly one parsed value per
      feature column, in column order. */
  lemma ParseInputAccepts(columns: seq<string>, body: map<string, string>, parse: string -> Option<real>)
    requires forall k :: 0 <= k < |columns| ==> FieldValue(body, parse, columns[k]).Some?
    ensures ParseInput(columns, body, parse).Success?
    ensures var v := ParseInput(columns, body, parse).value;
      |v| == |columns| && forall k :: 0 <= k < |columns| ==> Some(v[k]) == FieldValue(body, parse, columns[k])
  {
  }

  /** A request is rejected naming column `k` exactly when `k` is the first
      column without a numeric value. */
  lemma ParseInputRejects(columns: seq<string>, body: map<string, string>, parse: string -> Option<real>, k: nat)
    requires k < |columns| && FirstInvalid(columns, body, parse, 0, k)
    ensures ParseInput(columns, body, parse) == Failure(columns[k])
  {
  }

  /** The threshold of line 141: class 1 from probability one half upwards. */
  function PredictedClass(p: real): (c: int)
    ensures c == 0 || c == 1
    ensures c == 1 <==> p >= 0.5
  {
    if p >= 0.5 then 1 else 0
  }

  /** `null` and `[]` means both yield `undefined` when indexed. */
  function MeanList(means: Option<seq<real>>): seq<real>
  {
    if means.Some? then means.value else []
  }

  /** `generateExplanation` from column `i` on. Indexing past the means gives
      `undefined`, which falls into the "below" branch, whose `toFixed` call
      then throws. */
  function ExplainFrom(columns: seq<string>, input: seq<real>, means: seq<real>, i: nat): (r: Result<seq<Clause>, PredictError>)
    requires |input| == |columns| && i <= |columns|
    decreases |columns| - i
    ensures r.Success? <==> |columns| <= |means| || i == |columns|
    ensures r.Failure? ==> r.error == PredictionFailed
    ensures r.Success? ==>
      && |r.value| == |columns| - i
      && forall k :: 0 <= k < |r.value| ==>
           && r.value[k].column == columns[i + k]
           && r.value[k].value == input[i + k]
           && r.value[k].mean == means[i + k]
           && (r.value[k].above <==> input[i + k] > means[i + k])
  {
    if i == |columns| then Success([])
    else if i >= |means| then Failure(PredictionFailed)
    else
      var clause := Clause(columns[i], input[i], means[i], input[i] > means[i]);
      match ExplainFrom(columns, input, means, i + 1)
      case Failure(e) => Failure(e)
      case Success(rest) => Success([clause] + rest)
  }

  /** The explanation for one prediction: the probability, then one clause
      per feature column in column order. */
  function Explain(columns: seq<string>, input: seq<real>, means: seq<real>, p: real): (r: Result<Explanation, PredictError>)
    requires |input| == |columns|
  {
    match ExplainFrom(columns, input, means, 0)
    case Failure(e) => Failure(e)
    case Success(clauses) => Success(Explanation(p, clauses))
  }

  /** A value equal to its training mean is reported below the average. */
  lemma EqualToMeanIsBelow(columns: seq<string>, input: seq<real>, means: seq<real>, p: real, k: nat)
    requires |input| == |columns| && |columns| <= |means|
    requires k < |columns| && input[k] == means[k]
    ensures Explain(columns, input, means, p).Success?
    ensures !Explain(columns, input, means, p).value.clauses[k].above
  {
  }

  /** The `/predict` handler: model gate, validation, forward pass, threshold,
      explanation. */
  function Predict(s: State, columns: seq<string>, body: map<string, string>,
                   parse: string -> Option<real>, probability: (Model, seq<real>) -> real): (r: Result<Prediction, PredictError>)
    ensures r == Failure(NotTrained) <==> s.model.None?
    ensures (r.Failure? && r.error.InvalidValue?) <==> s.model.Some? && ParseInput(columns, body, parse).Failure?
    ensures r.Failure? && r.error.InvalidValue? ==> r.error.column == ParseInput(columns, body, parse).error
    ensures r.Success? <==>
      && s.model.Some?
      && ParseInput(columns, body, parse).Success?
      && s.model.value.inputWidth == |columns|
      && |columns| <= |MeanList(s.means)|
    ensures r.Success? ==>
      var input := ParseInput(columns, body, parse).value;
      && r.value.probability == probability(s.model.value, input)
      && (r.value.predictedClass == 1 <==> r.value.probability >= 0.5)
      && (r.value.predictedClass == 0 <==> r.value.probability < 0.5)
      && r.value.explanation.probability == r.value.probability
      && |r.value.explanation.clauses| == |columns|
      && forall k :: 0 <= k < |columns| ==>
           r.value.explanation.clauses[k] ==
             Clause(columns[k], input[k], MeanList(s.means)[k], input[k] > MeanList(s.means)[k])
  {
    match s.model
    case None => Failure(NotTrained)
    case Some(m) =>
      match ParseInput(columns, body, parse)
      case Failure(col) => Failure(InvalidValue(col))
      case Success(input) =>
        if m.inputWidth != |input| then
          // the library rejects an input of the wrong shape
          Failure(PredictionFailed)
        else
          var p := probability(m, input);
          match Explain(columns, input, MeanList(s.means), p)
          case Failure(e) => Failure(e)
          case Success(explanation) => Success(Prediction(PredictedClass(p), p, explanation))
  }

  /** A rejected request never reaches the network: its reply is the same
      whatever forward pass the model would compute. */
  lemma RejectedRequestIgnoresModel(s: State, columns: seq<string>, body: map<string, string>,
                                    parse: string -> Option<real>, p1: (Model, seq<real>) -> real, p2: (Model, seq<real>) -> real)
    requires s.model.None? || ParseInput(columns, body, parse).Failure?
    ensures Predict(s, columns, body, parse, p1) == Predict(s, columns, body, parse, p2)
    ensures Predict(s, columns, body, parse, p1).Failure?
  {
  }

  // ------------------------------------------------------------ consistency

  /** What every state reachable by training runs satisfies
      (`ConsistentAfterRuns`): an installed network was built for
      the configured width and the means next to it are either the full
      column means or the empty list of a later run on an empty file. */
  predicate Consistent(s: State, columns: seq<string>)
  {
    s.model.Some? ==>
      && s.means.Some?
      && s.model.value.inputWidth == |columns|
      && (|s.means.value| == |columns| || |s.means.value| == 0)
  }

  /** Every training run keeps the state consistent. */
  lemma TrainPreservesConsistent(s: State, columns: seq<string>, env: TrainEnv)
    requires Consistent(s, columns) && LoaderShaped(env, columns)
    ensures Consistent(Train(s, columns, env).state, columns)
  {
  }

  /** Every series of runs from the initial state ends in a consistent state. */
  lemma {:induction false} ConsistentAfterRuns(s: State, columns: seq<string>, envs: seq<TrainEnv>)
    requires Consistent(s, columns)
    requires forall k :: 0 <= k < |envs| ==> LoaderShaped(envs[k], columns)
    ensures Consistent(TrainAll(s, columns, envs), columns)
    decreases |envs|
  {
    if |envs| > 0 {
      TrainPreservesConsistent(s, columns, envs[0]);
      ConsistentAfterRuns(Train(s, columns, envs[0]).state, columns, envs[1..]);
    }
  }

  lemma ReachableStatesConsistent(columns: seq<string>, envs: seq<TrainEnv>)
    requires forall k :: 0 <= k < |envs| ==> LoaderShaped(envs[k], columns)
    ensures Consistent(TrainAll(Initial, columns, envs), columns)
  {
    ConsistentAfterRuns(Initial, columns, envs);
  }

  /** In a consistent state with full means, a trained server answers every
      well-formed request. */
  lemma ConsistentPredictSucceeds(s: State, columns: seq<string>, body: map<string, string>,
                                  parse: string -> Option<real>, probability: (Model, seq<real>) -> real)
    requires Consistent(s, columns) && s.model.Some? && |MeanList(s.means)| == |columns|
    requires forall k :: 0 <= k < |columns| ==> FieldValue(body, parse, columns[k]).Some?
    ensures Predict(s, columns, body, parse, probability).Success?
  {
  }

  /** If the tensor conversion accepts an empty file, a run on it keeps the
      installed network but empties the means; a well-formed request with at
      least one feature column then fails with a 500, and keeps failing until
      a later run installs full means. */
  lemma EmptyRetrainBreaksPrediction(s: State, columns: seq<string>, env: TrainEnv, body: map<string, string>,
                                     parse: string -> Option<real>, probability: (Model, seq<real>) -> real)
    requires Consistent(s, columns) && s.model.Some? && |columns| > 0
    requires env.load.Loaded? && env.tensorsOk && |env.load.data.features| == 0 && |env.load.data.labels| == 0
    requires forall k :: 0 <= k < |columns| ==> FieldValue(body, parse, columns[k]).Some?
    ensures Train(s, columns, env).reply == TrainingFailed
    ensures Train(s, columns, env).state.model == s.model
    ensures Predict(Train(s, columns, env).state, columns, body, parse, probability) == Failure(PredictionFailed)
  {
  }
}
