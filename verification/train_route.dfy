/** The `/train-model` route: the two input checks run before training. */
module TrainRoute {

  /** A season field of the JSON body. JSON carries no `NaN`, so a number is a
      real; `Absent` is `undefined`. */
  datatype Season = Absent | Null | Num(n: real)

  /** The `features` field: missing, some non-array value, or an array of names. */
  datatype FeatureList = Missing | NotAnArray | Items(names: seq<string>)

  datatype Body = Body(fromSeason: Season, toSeason: Season, features: FeatureList)

  /** The two 400 replies, or the call into training with the values read from
      the body. */
  datatype Verdict = InvalidInput | SeasonOrder | Train(fromSeason: real, toSeason: real, features: seq<string>)

  /** JavaScript truthiness of a season: `undefined`, `null` and `0` are falsy. */
  predicate Truthy(v: Season)
  {
    v.Num? && v.n != 0.0
  }

  /** `features` is present, an array and not empty. */
  predicate HasFeatures(f: FeatureList)
  {
    f.Items? && |f.names| > 0
  }

  /** Both seasons are truthy and `features` is a non-empty array. */
  predicate ParametersPresent(b: Body)
  {
    Truthy(b.fromSeason) && Truthy(b.toSeason) && HasFeatures(b.features)
  }

  /** The checks in source order: missing parameters first, season order second. */
  function Validate(b: Body): (v: Verdict)
    ensures v == InvalidInput <==> !ParametersPresent(b)
    ensures v == SeasonOrder <==> ParametersPresent(b) && b.fromSeason.n > b.toSeason.n
    ensures v.Train? <==> ParametersPresent(b) && b.fromSeason.n <= b.toSeason.n
    ensures v.Train? ==> v == Train(b.fromSeason.n, b.toSeason.n, b.features.names)
  {
    if !Truthy(b.fromSeason) || !Truthy(b.toSeason) || b.features.Missing? || !b.features.Items? || |b.features.names| == 0 then
      InvalidInput
    else if b.fromSeason.n > b.toSeason.n then
      SeasonOrder
    else
      Train(b.fromSeason.n, b.toSeason.n, b.features.names)
  }

  /** A season of 0 counts as missing, whatever the rest of the body. */
  lemma ZeroSeasonIsMissing(b: Body)
    requires b.fromSeason == Num(0.0) || b.toSeason == Num(0.0)
    ensures Validate(b) == InvalidInput
  {
  }

  /** Equal seasons pass the order check. */
  lemma EqualSeasonsAccepted(season: real, names: seq<string>)
    requires season != 0.0 && |names| > 0
    ensures Validate(Body(Num(season), Num(season), Items(names))) == Train(season, season, names)
  {
  }

  /** A body that is both incomplete and out of order gets the
      missing-parameter reply. */
  lemma MissingTakesPrecedence(b: Body)
    requires !ParametersPresent(b)
    requires b.fromSeason.Num? && b.toSeason.Num? && b.fromSeason.n > b.toSeason.n
    ensures Validate(b) == InvalidInput
  {
  }
}
