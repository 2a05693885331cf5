# Soil Sensing Kit inference core in Dafny

This project models the per-reading inference path of the Soil Sensing Kit
(`BalitTanah.SoilSensingKit.Modelv3`). A reading is 154 reflectance values,
for wavelengths 2501.98 nm down to 1350.72 nm. The path works in two steps:

- `PreProcessData` rewrites the reading in place. It converts each value to
  absorbance, log(1 / reflectance), then applies a Savitzky–Golay filter with
  11 side points and polynomial order 2. Last, it applies the standard normal
  variate: each value minus the mean, over the population standard deviation.
- `Predict` rejects readings that are null or not 154 values long. It then
  asks every trained model for a score on the feature vector and collects one
  `(file stem, score)` pair per model.

The model works over mathematical reals. `Math.Log`, `Math.Sqrt` and
floating-point division are parameters (`Inference.Numerics`). So is the
library's least-squares projection A·(AᵀA)⁻¹·Aᵀ (`SavitzkyGolay.Projection`).
Each trained model is a name plus a scoring function. The function returns
`None` when loading the model or predicting with it throws. The properties
that depend on the arithmetic carry explicit hypotheses:

- `MathExt.IsSqrt`: `sqrt` is a square root on the non-negative reals.
- `Inference.ExactDivision`: division is exact when the divisor is non-zero.

Modules:

- `options.dfy`: `Option`. `None` stands for a `null` result or a thrown
  exception.
- `math_ext.dfy`: `MathExt.StdDev` and its sum and deviation lemmas.
- `savitzky_golay.dfy`: the filter class with `Design` and `Process`, and the
  functions that specify them.
- `centred_smoothing.dfy`: the filter as the least-squares design intends it,
  compared with the filter as written (see Findings).
- `inference.dfy`: `PreProcessData`, `Predict` and their specifications.

The code and the design description of the system disagree in places. The
model follows the code:

- Interior samples use coefficient column `SidePoints + 1`, not the centre
  column.
- The trailing frame is shifted by one sample, and the last sample appears
  twice in it.
- A filter with 0 side points throws instead of acting as the identity.
- The preprocessing's 11-side-point filter throws only when the input is
  shorter than one frame. A flat reading does not raise an error: it produces
  0 / 0 (NaN) features.
- A zero or negative reflectance raises no error either: log(1 / value) is
  computed unchecked (Program.cs:99), and its result is whatever the `Numerics`
  parameters give.
- Models are scored in the order the model folder lists them, not sorted by
  name.
- The first model that throws aborts the whole call, and the results
  collected so far are lost.

## Model

| member | source | states |
|---|---|---|
| MathExt.StdDev | src/BalitTanah.SoilSensingKit.Modelv3/Program.cs:383-399 | Fewer than two values give a standard deviation of 0. |
| MathExt.StdDevIsPopulation | src/BalitTanah.SoilSensingKit.Modelv3/Program.cs:386-398 | With two or more values and a true square root, StdDev is non-negative. Its square is the sum of squared deviations divided by the count, not by count - 1. |
| MathExt.StdDevZeroIffConstant | src/BalitTanah.SoilSensingKit.Modelv3/Program.cs:386-398 | With two or more values, StdDev is 0 exactly when all values are equal. |
| MathExt.SumAffine | src/BalitTanah.SoilSensingKit.Modelv3/Program.cs:125-129 | If each y times b equals x - a, then Sum(ys) times b equals Sum(xs) - count·a. The mean-centring step rests on this. |
| MathExt.SquaredDeviationsAffine | src/BalitTanah.SoilSensingKit.Modelv3/Program.cs:126-129 | Under the same relation, the squared deviations of ys from 0, times b², equal the squared deviations of xs from a. The rescaling step rests on this. |
| SavitzkyGolay.Project | src/BalitTanah.SoilSensingKit.Modelv3/Program.cs:458-459 | The stored coefficients form a (2m+1)×(2m+1) matrix, whatever the projection's entries are. |
| SavitzkyGolay.Smooth | src/BalitTanah.SoilSensingKit.Modelv3/Program.cs:418-444 | Process fails exactly when the input is shorter than one frame, or when there are 0 side points and two or more samples (column 1 of a 1×1 matrix). Otherwise the output has the input's length. |
| SavitzkyGolay.SmoothPreservesConstant | src/BalitTanah.SoilSensingKit.Modelv3/Program.cs:425-441 | Suppose every coefficient column sums to 1, as it does for a fit that includes the constant term. Then a flat input comes back unchanged from all three loops, unless Process throws. |
| SavitzkyGolay.CopyRange | src/BalitTanah.SoilSensingKit.Modelv3/Program.cs:427 | Array.Copy and Array.ConstrainedCopy: the destination becomes its prefix, then the copied run of the source, then its old suffix. |
| SavitzkyGolay.SavitzkyGolayFilter.constructor | src/BalitTanah.SoilSensingKit.Modelv3/Program.cs:407-411 | Stores the side points and the coefficients designed from them and the polynomial order, a (2m+1)×(2m+1) matrix. |
| SavitzkyGolay.SavitzkyGolayFilter.Design | src/BalitTanah.SoilSensingKit.Modelv3/Program.cs:446-460 | The coefficients become the projection of the polynomial basis: entry (k, j) of the basis is (k - m)^j. |
| SavitzkyGolay.SavitzkyGolayFilter.Vandermonde | src/BalitTanah.SoilSensingKit.Modelv3/Program.cs:448-456 | The array has 2m+1 rows and p+1 columns, and every entry [k, j] is (k - m)^j. |
| SavitzkyGolay.SavitzkyGolayFilter.Process | src/BalitTanah.SoilSensingKit.Modelv3/Program.cs:418-444 | Returns None (the exception) exactly in the failing cases. Otherwise it returns a fresh array holding Smooth's values and leaves the samples untouched. |
| SavitzkyGolay.SavitzkyGolayFilter.FillLeading | src/BalitTanah.SoilSensingKit.Modelv3/Program.cs:425-429 | For i <= m, output[i] is coefficient column i applied to the first full window. Every output above m keeps its old value. The frame is left holding that window. |
| SavitzkyGolay.SavitzkyGolayFilter.FillInterior | src/BalitTanah.SoilSensingKit.Modelv3/Program.cs:431-435 | Fails exactly when there are 0 side points and the loop runs, and then leaves the output as it was. Otherwise, for m < n < length - m (including the last step, n = length-1-m), output[n] is column m+1 applied to the window centred on n, and the frame's last slot ends on the final sample. The leading m+1 outputs and the last m outputs keep their old values. |
| SavitzkyGolay.SavitzkyGolayFilter.SmoothInterior | src/BalitTanah.SoilSensingKit.Modelv3/Program.cs:433-434 | One interior step changes only output[n], to column m+1 applied to samples[n-m..n+m]. |
| SavitzkyGolay.SavitzkyGolayFilter.FillTrailing | src/BalitTanah.SoilSensingKit.Modelv3/Program.cs:437-441 | For i <= m, output[length-1-m+i] is column m+i applied to the last 2m samples followed by the final sample again. This overwrites the interior value at length-1-m. Earlier outputs are kept. |
| SavitzkyGolay.SavitzkyGolayFilter.SmoothTrailing | src/BalitTanah.SoilSensingKit.Modelv3/Program.cs:439-440 | One trailing step changes only output[length-1-m+i], computed from that trailing frame. |
| CentredSmoothing.WindowStart | src/BalitTanah.SoilSensingKit.Modelv3/Program.cs:425-441 | The corrected window lies inside the reading and contains the sample. It is centred on the sample wherever the reading allows. |
| CentredSmoothing.SmoothCentred | src/BalitTanah.SoilSensingKit.Modelv3/Program.cs:418-444 | Corrected filter: fails only for input shorter than one frame, and keeps the input's length. |
| CentredSmoothing.CentredReproduces | src/BalitTanah.SoilSensingKit.Modelv3/Program.cs:418-444 | When the coefficients reproduce every window of a reading, the corrected filter returns that reading unchanged. |
| CentredSmoothing.IdentityReproduces | src/BalitTanah.SoilSensingKit.Modelv3/Program.cs:446-460 | The identity coefficients, which the design gives when p = 2m, reproduce every reading. |
| CentredSmoothing.AsWrittenMovesRamp | src/BalitTanah.SoilSensingKit.Modelv3/Program.cs:431-441 | With identity coefficients and m = 1, the filter as written turns the ramp 0,1,2,3,4 into 0,1,3,4,4. The corrected filter returns the ramp. |
| CentredSmoothing.ZeroSidePoints | src/BalitTanah.SoilSensingKit.Modelv3/Program.cs:431-434 | With m = 0 the filter as written fails on every reading of two or more samples. The corrected filter returns the reading. |
| Inference.Normalise | src/BalitTanah.SoilSensingKit.Modelv3/Program.cs:125-130 | The standard normal variate keeps the reading's length. |
| Inference.Preprocessed | src/BalitTanah.SoilSensingKit.Modelv3/Program.cs:90-140 | Preprocessing yields no features (null) exactly when the reading is shorter than one 23-sample frame. Otherwise it keeps the reading's length. |
| Inference.GuardedReadingPreprocesses | src/BalitTanah.SoilSensingKit.Modelv3/Program.cs:64-68 | A reading that passes Predict's guard always yields 154 features. |
| Inference.NormaliseInverts | src/BalitTanah.SoilSensingKit.Modelv3/Program.cs:125-129 | Each normalised value times the standard deviation gives back the value minus the mean. |
| Inference.NormaliseCentres | src/BalitTanah.SoilSensingKit.Modelv3/Program.cs:125-129 | With a non-zero standard deviation, the normalised values sum, and so average, to 0. |
| Inference.NormaliseScales | src/BalitTanah.SoilSensingKit.Modelv3/Program.cs:125-129 | With a non-zero standard deviation, the normalised values have population standard deviation 1. |
| Inference.NormaliseFlat | src/BalitTanah.SoilSensingKit.Modelv3/Program.cs:125-129 | The standard deviation is 0 exactly for a flat reading. Every feature of a flat reading is then 0 / 0, and no exception is raised. |
| Inference.PreProcessData | src/BalitTanah.SoilSensingKit.Modelv3/Program.cs:90-140 | A null reading gives null. Otherwise the result is Preprocessed of the original reading. On success the reading holds the feature vector. When the filter throws, the reading is left in its absorbance state. |
| Inference.ToAbsorbance | src/BalitTanah.SoilSensingKit.Modelv3/Program.cs:97-100 | The reading becomes log(1 / value) of its old values, position by position. |
| Inference.Copied | src/BalitTanah.SoilSensingKit.Modelv3/Program.cs:106-111 | Returns a fresh array with the reading's values. |
| Inference.Overwrite | src/BalitTanah.SoilSensingKit.Modelv3/Program.cs:112-115 | The reading becomes the filtered values. |
| Inference.StandardNormalVariate | src/BalitTanah.SoilSensingKit.Modelv3/Program.cs:120-130 | The reading becomes its standard normal variate. The mean and deviation are taken once, before the loop. |
| Inference.Collect | src/BalitTanah.SoilSensingKit.Modelv3/Program.cs:69-82 | Results appear exactly when every model scores, with one (stem, score) per model in order. Otherwise the outcome is the exception of the first model that throws. |
| Inference.CollectAllScored | src/BalitTanah.SoilSensingKit.Modelv3/Program.cs:69-82 | When every model scores, the outcome is exactly the given per-model list. |
| Inference.CollectFirstThrow | src/BalitTanah.SoilSensingKit.Modelv3/Program.cs:69-82 | When model k is the first to throw, the outcome is model k's exception. |
| Inference.ScoreAll | src/BalitTanah.SoilSensingKit.Modelv3/Program.cs:70-81 | The loop's outcome equals Collect. |
| Inference.Predict | src/BalitTanah.SoilSensingKit.Modelv3/Program.cs:62-83 | A reading that is null or not 154 values long gives null and is left unchanged, and no model is touched. Otherwise the reading is replaced by its features, and the outcome is Collect over all models on those features. |

## Left out

- Floating point: doubles and floats are modelled as reals. The `(float)`
  casts at Program.cs:99, 114 and 129 are not modelled, and no claim is made
  about rounding. Infinite and NaN values exist only through the `Numerics`
  parameters.
- The matrix inverse and products of `Design` (Program.cs:459) are the
  `Projection` parameter. A singular basis (p > 2m) is not detected.
- `Math.Pow` is exact integer powers (`SavitzkyGolay.Power`).
- Model loading and prediction: `Directory.GetFiles`,
  `Path.GetFileNameWithoutExtension`, `mlContext.Model.Load`,
  `CreatePredictionEngine` and `predEngine.Predict` (Program.cs:69-77). They
  become the `models` sequence: the files `Directory.GetFiles(ModelFolder,
  "*.csv")` lists, in that order, each with a scoring function. The `ModelFolder`
  argument is that sequence. Training saves its models as `.zip` files
  (Program.cs:164); which files match the `*.csv` filter is outside the model.
- Inference.Predict: an exception from `Directory.GetFiles` itself (a missing
  folder, say) is not modelled. It would leave `Predict` after the reading has
  already been rewritten to its features.
- `ModelInput.ElementValue`, the training label, is not read on the inference
  path and is not modelled.
- `ConsoleHelper.Print` (Program.cs:79) is console output.
- `DoAutoML`, the CSV and DataTable tools, `GetAbsolutePath` and the metric
  printers (Program.cs:141-377, 462-474) are training-time file I/O and
  console output.
- `InferenceController.cs`, `Model.cs` and `OutputData.cs` are not part of
  this model. They hold the HTTP layer and plain data classes.
- SavitzkyGolay.SavitzkyGolayFilter.Process: a null `samples` array and
  negative side points cannot be expressed (non-null array, `nat`). Neither
  reaches `Process` from `PreProcessData`.
- SavitzkyGolay.SavitzkyGolayFilter.FillInterior: when 0 side points make
  `Column(1)` throw, the model stops before the step's `ConstrainedCopy`. That
  copy only writes to the scratch frame.
- Inference.PreProcessData: the reading, the row list and the output buffer
  are arrays. The model's `None` covers both `null` and a caught exception;
  only the filter can throw here.
- Inference.Predict: a model that throws ends the call with `Threw`. The
  exception's type and message are not modelled.
- The preprocessing keeps the filter as written, because the trained models'
  features come from it. `CentredSmoothing.SmoothCentred` is the corrected
  filter the findings compare against.

## Findings

| source | as written | input that shows it | evidently intended | confidence | as-written member | corrected member |
|---|---|---|---|---|---|---|
| src/BalitTanah.SoilSensingKit.Modelv3/Program.cs:434 | interior output n applies column `SidePoints + 1`: the fitted value one sample after the centre | identity coefficients (the design's result for p = 2m), m = 1, samples 0,1,2,3,4: output[2] = 3 | column `SidePoints`, the fitted value at n: output[2] = 2 | high, not executed | CentredSmoothing.AsWrittenMovesRamp | CentredSmoothing.CentredReproduces |
| src/BalitTanah.SoilSensingKit.Modelv3/Program.cs:439-440 | trailing frame is the last 2m samples followed by the final sample again, so it is shifted by one and is in general not the last full window | same input: output[3] = 4 | copy the last full window `samples[length-2m-1..length)` and apply column m+i: output[3] = 3 | high, not executed | CentredSmoothing.AsWrittenMovesRamp | CentredSmoothing.CentredReproduces |
| src/BalitTanah.SoilSensingKit.Modelv3/Program.cs:431-434 | with `SidePoints` = 0 the interior loop reads column 1 of a 1×1 matrix and throws for any input of two or more samples | m = 0, samples of length 2 | a one-sample window: the identity filter | medium (the program only uses m = 11), not executed | CentredSmoothing.ZeroSidePoints | CentredSmoothing.SmoothCentred |
