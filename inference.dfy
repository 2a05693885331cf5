/** One reading through the inference path: `PreProcessData` turns reflectance
    into model features (absorbance, Savitzky–Golay smoothing, standard normal
    variate), and `Predict` guards the reading's length and asks every trained
    model for its score. */
module Inference {
  import opened Options
  import opened MathExt
  import opened SavitzkyGolay

  /** Half-window and polynomial order of the filter the preprocessing builds. */
  const SidePoints: nat := 11
  const PolynomialOrder: nat := 2

  /** Reflectance values in one reading, wavelengths 2501.98 nm down to 1350.72 nm. */
  const FeatureCount: nat := 154

  /** The library arithmetic the preprocessing calls: `Math.Log`, `Math.Sqrt` and
      floating-point division, which the source lets divide by zero. */
  datatype Numerics = Numerics(ln: real -> real, sqrt: real -> real, divide: (real, real) -> real)

  /** Division is exact wherever the divisor is not zero. */
  ghost predicate ExactDivision(ops: Numerics)
  {
    forall x, y :: y != 0.0 ==> ops.divide(x, y) * y == x
  }

  /** `ModelInput`: the feature vector handed to every model. */
  datatype ModelInput = ModelInput(featureVector: seq<real>)

  /** One entry of the prediction list: the model's file stem and its score. */
  datatype ResultPrediction = ResultPrediction(elementName: string, elementValue: real)

  /** A trained model file: its name without extension, and the score its
      prediction engine gives a feature vector. `None` stands for loading the
      model, building the engine or predicting throwing. */
  datatype ModelFile = ModelFile(stem: string, score: seq<real> -> Option<real>)

  /** What `Predict` ends with: `null` (the guard), an exception thrown while
      scoring with the named model, or the list of results. */
  datatype Prediction = Rejected | Threw(model: string) | Results(results: seq<ResultPrediction>)

  /** Absorbance, log(1 / reflectance), of every value. */
  function Absorbance(ops: Numerics, s: seq<real>): (r: seq<real>)
    ensures |r| == |s|
  {
    seq(|s|, i requires 0 <= i < |s| => ops.ln(ops.divide(1.0, s[i])))
  }

  /** Standard normal variate: every value minus the mean, over the population
      standard deviation. */
  function Normalise(ops: Numerics, xs: seq<real>): (r: seq<real>)
    requires |xs| > 0
    ensures |r| == |xs|
  {
    var mean := Average(xs);
    var stdDev := StdDev(xs, ops.sqrt);
    seq(|xs|, i requires 0 <= i < |xs| => ops.divide(xs[i] - mean, stdDev))
  }

  /** The features `PreProcessData` produces from a reading, `None` where it
      returns `null`. */
  function Preprocessed(ops: Numerics, projection: Projection, s: seq<real>): (r: Option<ModelInput>)
    ensures r.None? <==> |s| < FrameSize(SidePoints)
    ensures r.Some? ==> |r.value.featureVector| == |s|
  {
    match Smooth(Designed(SidePoints, PolynomialOrder, projection), SidePoints, Absorbance(ops, s))
    case None => None
    case Some(smoothed) => Some(ModelInput(Normalise(ops, smoothed)))
  }

  /** Every reading that passes the length guard of `Predict` is long enough for
      the filter, so its preprocessing never fails. */
  lemma GuardedReadingPreprocesses(ops: Numerics, projection: Projection, s: seq<real>)
    requires |s| == FeatureCount
    ensures Preprocessed(ops, projection, s).Some?
    ensures |Preprocessed(ops, projection, s).value.featureVector| == FeatureCount
  {
  }

  lemma ZeroFactor(a: real, b: real, total: real, shift: real)
    requires b != 0.0 && a * b == total - shift && shift == total
    ensures a == 0.0
  {
  }

  /** Each normalised value times the standard deviation gives back the value's
      distance from the mean. */
  lemma NormaliseInverts(ops: Numerics, xs: seq<real>)
    requires ExactDivision(ops) && |xs| > 0
    requires StdDev(xs, ops.sqrt) != 0.0
    ensures forall i :: 0 <= i < |xs| ==>
      Normalise(ops, xs)[i] * StdDev(xs, ops.sqrt) == xs[i] - Average(xs)
  {
    var ys := Normalise(ops, xs);
    forall i | 0 <= i < |xs|
      ensures ys[i] * StdDev(xs, ops.sqrt) == xs[i] - Average(xs)
    {
      assert ys[i] == ops.divide(xs[i] - Average(xs), StdDev(xs, ops.sqrt));
    }
  }

  lemma CountTimesMean(xs: seq<real>)
    requires |xs| > 0
    ensures (|xs| as real) * Average(xs) == Sum(xs)
  {
  }

  /** The normalised values sum to zero, so their mean is zero, whenever the
      standard deviation is not zero. */
  lemma NormaliseCentres(ops: Numerics, xs: seq<real>)
    requires ExactDivision(ops) && |xs| > 0
    requires StdDev(xs, ops.sqrt) != 0.0
    ensures Sum(Normalise(ops, xs)) == 0.0
  {
    var ys := Normalise(ops, xs);
    NormaliseInverts(ops, xs);
    SumAffine(xs, ys, Average(xs), StdDev(xs, ops.sqrt));
    CountTimesMean(xs);
    ZeroFactor(Sum(ys), StdDev(xs, ops.sqrt), Sum(xs), (|xs| as real) * Average(xs));
  }

  lemma UnitRoot(sqrt: real -> real)
    requires IsSqrt(sqrt)
    ensures sqrt(1.0) == 1.0
  {
    var y := sqrt(1.0);
    assert Square(y) == 1.0;
    if 0.0 < y < 1.0 {
      ProductPositive(y, 1.0 - y, y - Square(y));
    }
  }

  lemma QuotientOne(p: real, square: real, q: real, count: nat)
    requires count > 0 && square != 0.0
    requires p * square == q && square == q / (count as real)
    ensures p == count as real
  {
    var n := count as real;
    assert q != 0.0;
    assert p * (q / n) == q;
  }

  /** Values that times `stdDev` give back each sample's distance from `mean`
      have squared deviations from zero adding up to their count, when `stdDev`
      squared is the population variance about `mean`. */
  lemma ScaledDeviations(xs: seq<real>, ys: seq<real>, mean: real, stdDev: real)
    requires |xs| > 1 && |ys| == |xs| && stdDev != 0.0
    requires Square(stdDev) == SquaredDeviations(xs, mean) / (|xs| as real)
    requires forall i :: 0 <= i < |xs| ==> ys[i] * stdDev == xs[i] - mean
    ensures SquaredDeviations(ys, 0.0) == |xs| as real
  {
    SquaredDeviationsAffine(xs, ys, mean, stdDev);
    SquareSign(stdDev);
    QuotientOne(SquaredDeviations(ys, 0.0), Square(stdDev), SquaredDeviations(xs, mean), |xs|);
  }

  /** Values with mean zero whose squares add up to their count have standard
      deviation one. */
  lemma UnitStdDev(ys: seq<real>, sqrt: real -> real)
    requires IsSqrt(sqrt) && |ys| > 1
    requires Sum(ys) == 0.0 && SquaredDeviations(ys, 0.0) == |ys| as real
    ensures StdDev(ys, sqrt) == 1.0
  {
    assert Average(ys) == 0.0;
    assert SquaredDeviations(ys, Average(ys)) / (|ys| as real) == 1.0;
    UnitRoot(sqrt);
  }

  /** The normalised values have population standard deviation one whenever the
      original standard deviation is not zero. */
  lemma NormaliseScales(ops: Numerics, xs: seq<real>)
    requires ExactDivision(ops) && IsSqrt(ops.sqrt) && |xs| > 1
    requires StdDev(xs, ops.sqrt) != 0.0
    ensures StdDev(Normalise(ops, xs), ops.sqrt) == 1.0
  {
    var ys := Normalise(ops, xs);
    NormaliseCentres(ops, xs);
    NormaliseInverts(ops, xs);
    StdDevIsPopulation(xs, ops.sqrt);
    ScaledDeviations(xs, ys, Average(xs), StdDev(xs, ops.sqrt));
    UnitStdDev(ys, ops.sqrt);
  }

  /** A flat reading has standard deviation zero, so every normalised value is the
      quotient 0 / 0 (NaN in floating point); any other reading of two or more
      values has a non-zero standard deviation. */
  lemma NormaliseFlat(ops: Numerics, xs: seq<real>)
    requires IsSqrt(ops.sqrt) && |xs| > 1
    ensures StdDev(xs, ops.sqrt) == 0.0 <==> forall i :: 0 <= i < |xs| ==> xs[i] == xs[0]
    ensures (forall i :: 0 <= i < |xs| ==> xs[i] == xs[0]) ==>
              forall i :: 0 <= i < |xs| ==> Normalise(ops, xs)[i] == ops.divide(0.0, 0.0)
  {
    StdDevZeroIffConstant(xs, ops.sqrt);
    if forall i :: 0 <= i < |xs| ==> xs[i] == xs[0] {
      SumConstant(xs, xs[0]);
      assert Average(xs) == xs[0];
    }
  }

  /** `PreProcessData`: rewrites the caller's reading in place — absorbance, then
      the smoothed absorbance, then its standard normal variate — and returns the
      final values as the feature vector. A null reading or an exception from the
      filter gives `None`; the filter throwing leaves the reading in its
      absorbance state. */
  method PreProcessData(reflectance: array?<real>, ops: Numerics, projection: Projection)
    returns (item: Option<ModelInput>)
    modifies reflectance
    ensures reflectance == null ==> item.None?
    ensures reflectance != null ==> item == Preprocessed(ops, projection, old(reflectance[..]))
    ensures reflectance != null && item.Some? ==> reflectance[..] == item.value.featureVector
    ensures reflectance != null && item.None? ==> reflectance[..] == Absorbance(ops, old(reflectance[..]))
  {
    if reflectance == null {
      return None;
    }
    ToAbsorbance(reflectance, ops);
    var filter := new SavitzkyGolayFilter(SidePoints, PolynomialOrder, projection);
    var rowDatas := Copied(reflectance);
    var filtered := filter.Process(rowDatas);
    if filtered.None? {
      return None;
    }
    Overwrite(reflectance, filtered.value);
    StandardNormalVariate(reflectance, ops);
    item := Some(ModelInput(reflectance[..]));
  }

  /** The absorbance loop: each reflectance value becomes log(1 / value). */
  method ToAbsorbance(reflectance: array<real>, ops: Numerics)
    modifies reflectance
    ensures reflectance[..] == Absorbance(ops, old(reflectance[..]))
  {
    for col := 0 to reflectance.Length
      invariant forall k :: 0 <= k < col ==> reflectance[k] == ops.ln(ops.divide(1.0, old(reflectance[k])))
      invariant forall k :: col <= k < reflectance.Length ==> reflectance[k] == old(reflectance[k])
    {
      reflectance[col] := ops.ln(ops.divide(1.0, reflectance[col]));
    }
  }

  /** A new array holding the values of `source` (a list filled value by value,
      then `ToArray`). */
  method Copied(source: array<real>) returns (copy: array<real>)
    ensures fresh(copy) && copy[..] == source[..]
  {
    copy := new real[source.Length];
    for col := 0 to source.Length
      modifies copy
      invariant forall k :: 0 <= k < col ==> copy[k] == source[k]
    {
      copy[col] := source[col];
    }
  }

  /** The loop that writes the filtered values back over the reading. */
  method Overwrite(reflectance: array<real>, values: array<real>)
    requires reflectance != values && values.Length == reflectance.Length
    modifies reflectance
    ensures reflectance[..] == values[..]
  {
    for col := 0 to reflectance.Length
      invariant forall k :: 0 <= k < col ==> reflectance[k] == values[k]
    {
      reflectance[col] := values[col];
    }
  }

  /** The SNV loop: the mean and standard deviation of the reading as it stands,
      then every value replaced by its distance from the mean over the deviation. */
  method StandardNormalVariate(reflectance: array<real>, ops: Numerics)
    requires reflectance.Length > 0
    modifies reflectance
    ensures reflectance[..] == Normalise(ops, old(reflectance[..]))
  {
    var rowDatas := reflectance[..];
    var mean := Average(rowDatas);
    var stdDev := StdDev(rowDatas, ops.sqrt);
    for col := 0 to reflectance.Length
      invariant forall k :: 0 <= k < col ==> reflectance[k] == ops.divide(rowDatas[k] - mean, stdDev)
      invariant forall k :: col <= k < reflectance.Length ==> reflectance[k] == rowDatas[k]
    {
      reflectance[col] := ops.divide(reflectance[col] - mean, stdDev);
    }
  }

  /** Model i throws on `features`, and every model before it scores them. */
  predicate FirstThrowing(models: seq<ModelFile>, features: seq<real>, i: int)
  {
    0 <= i < |models| && models[i].score(features).None? &&
    forall j :: 0 <= j < i ==> models[j].score(features).Some?
  }

  /** The results of scoring `features` with every model in order: one result per
      model, or the exception of the first model that throws. */
  function Collect(models: seq<ModelFile>, features: seq<real>): (r: Prediction)
    ensures !r.Rejected?
    ensures r.Results? <==> forall i :: 0 <= i < |models| ==> models[i].score(features).Some?
    ensures r.Results? ==> |r.results| == |models|
    ensures r.Results? ==> forall i :: 0 <= i < |models| ==>
      r.results[i] == ResultPrediction(models[i].stem, models[i].score(features).value)
    ensures r.Threw? ==> exists i :: FirstThrowing(models, features, i) && r.model == models[i].stem
  {
    if |models| == 0 then Results([])
    else match models[0].score(features)
      case None => Threw(models[0].stem)
      case Some(value) =>
        var rest := Collect(models[1..], features);
        assert forall i :: 1 <= i < |models| ==> models[1..][i - 1] == models[i];
        if rest.Results? then Results([ResultPrediction(models[0].stem, value)] + rest.results)
        else
          var i :| FirstThrowing(models[1..], features, i) && rest.model == models[1..][i].stem;
          assert FirstThrowing(models, features, i + 1);
          rest
  }

  /** Every model scores the features: the results, one per model, in order. */
  lemma CollectAllScored(models: seq<ModelFile>, features: seq<real>, results: seq<ResultPrediction>)
    requires |results| == |models|
    requires forall i :: 0 <= i < |models| ==>
      models[i].score(features).Some? &&
      results[i] == ResultPrediction(models[i].stem, models[i].score(features).value)
    ensures Collect(models, features) == Results(results)
  {
    var r := Collect(models, features);
    assert r.results == results;
  }

  /** Model k is the first to throw: its exception is the outcome. */
  lemma CollectFirstThrow(models: seq<ModelFile>, features: seq<real>, k: nat)
    requires FirstThrowing(models, features, k)
    ensures Collect(models, features) == Threw(models[k].stem)
  {
    var r := Collect(models, features);
    var i :| FirstThrowing(models, features, i) && r.model == models[i].stem;
    assert i == k;
  }

  /** `Predict`: a reading that is null or does not hold 154 values is rejected
      before any model is touched and is left as it was. Any other reading is
      preprocessed in place and scored by every model in order. */
  method Predict(models: seq<ModelFile>, reflectance: array?<real>, ops: Numerics, projection: Projection)
    returns (r: Prediction)
    modifies reflectance
    ensures reflectance == null || reflectance.Length != FeatureCount ==>
              r == Rejected && (reflectance != null ==> reflectance[..] == old(reflectance[..]))
    ensures reflectance != null && reflectance.Length == FeatureCount ==>
              var input := Preprocessed(ops, projection, old(reflectance[..]));
              input.Some? && reflectance[..] == input.value.featureVector &&
              r == Collect(models, input.value.featureVector)
  {
    if reflectance == null || reflectance.Length != FeatureCount {
      return Rejected;
    }
    ghost var original := reflectance[..];
    var inputData := PreProcessData(reflectance, ops, projection);
    GuardedReadingPreprocesses(ops, projection, original);
    r := ScoreAll(models, inputData.value.featureVector);
  }

  /** The `foreach` over the model files: one result appended per model, in
      enumeration order, until a model throws. */
  method ScoreAll(models: seq<ModelFile>, features: seq<real>) returns (r: Prediction)
    ensures r == Collect(models, features)
  {
    var datas: seq<ResultPrediction> := [];
    for k := 0 to |models|
      invariant |datas| == k
      invariant forall i :: 0 <= i < k ==>
        models[i].score(features).Some? &&
        datas[i] == ResultPrediction(models[i].stem, models[i].score(features).value)
    {
      var model := models[k];
      var predictionResult := model.score(features);
      if predictionResult.None? {
        CollectFirstThrow(models, features, k);
        return Threw(model.stem);
      }
      datas := datas + [ResultPrediction(model.stem, predictionResult.value)];
    }
    CollectAllScored(models, features, datas);
    r := Results(datas);
  }
}
