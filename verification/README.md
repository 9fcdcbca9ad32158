# Linear fit of measurements — a Dafny model

`main.py` reads a text file of measurements. The file holds the values `x`, `y` and their
uncertainties `dx`, `dy`, laid out either as rows (`x 1 2 3`) or as columns under a header
line, plus `key: value` label lines such as `x axis: time`. It fits a straight line
`y = a·x + b` in two ways:

- **The closed-form fit.** This is the weighted least-squares line, where every point is
  weighted by `1/dy²`. The script reports its chi-square and its reduced chi-square.
- **A numeric search.** The search scans a grid of candidate slopes and intercepts built
  from the ranges given under `a` and `b`. It keeps the pair with the smallest chi-square,
  where each point's uncertainty also accounts for the x-error `dx`.

This project models the reading and the arithmetic of the script and proves what they
compute. The modules follow the script:

| module | file | models |
|---|---|---|
| `Errors` | errors.dfy | Python's exceptions as an error value: `IndexError` → `IndexOutOfRange`, `TypeError` → `WrongType`, `ZeroDivisionError` → `DivisionByZero`, and the two exceptions raised by `check_data_validation` → `LengthMismatch`, `NegativeUncertainty` |
| `Text` | text.dfy | the string methods the reader relies on: `strip()`, `strip('\n')`, `lower()`, `split()`, `split(':')`, `in` |
| `Sums`, `RealFacts` | sums.dfy, reals.dfy | left-to-right sums and facts of real arithmetic used by the proofs |
| `Parsing` | parsing.dfy | `check_row_or_col`, `strip_data`, `insert_rows`, `insert_cols`, `check_data_validation`, `create_dict` |
| `Statistics` | statistics.dfy | `calc_z_bar`, `calc_chi_sqr`, `calc_linear_values`, `calc_chi_sqr_bonus`, `calc_parameters` |
| `GridSearch` | gridsearch.dfy | `create_parameter_list`, `numeric_fit` |

Conventions:

- **Numbers.** They are ideal `real`s. `float()` is a parameter `parse: string -> real` of
  the reading functions.
- **Exceptions.** A function that can raise returns a `Result`: `Ok(value)` or `Err(kind)`,
  where `kind` is the error above.
- **Measurements.** The two fits take a `Measurements` record of four lists of equal
  length (`Parallel`). This is the shape `check_data_validation` guarantees, and
  `Parsing.ValidatedMeasurements` proves it.

Some properties worth knowing:

- **The closed-form fit.** The least-squares line is proved optimal: no other line has a
  smaller chi-square. Data lying exactly on a line give that line back.
- **The seed of the search.** The seed uses the plain chi-square of the first pair. Every
  x-aware cost is at most the plain chi-square of the same line. So the first pair scanned
  always replaces the seed, and the result is the last pair of least x-aware cost in the
  order the loops visit the grid.
- **The order of the points.** Reordering the points, with each point's four values kept
  together, changes neither the closed-form line, nor its chi-square, nor whether it fails.
- **The `strip('\n')` after `strip()`.** It never changes anything.
- **Layouts.** In the rows layout `insert_rows` never fails, because `strip_data` never
  produces an empty row.

## Model

| member | source | states |
|---|---|---|
| Parsing.CheckRowOrCol | main.py:15-20 | IndexError exactly for an empty file; otherwise the columns layout exactly when the lower-cased first line contains both `dx` and `dy` |
| Parsing.OrientationIgnoresCase | main.py:16-17 | the layout decision does not depend on the letter case of the header line |
| Parsing.SplitLine | main.py:28-31 | a line with `:` is cut into at least two parts, none of which contains `:`; a line without one gives no tokens exactly when it is blank |
| Parsing.StripData | main.py:25-34 | never more rows than input lines, and every row kept is non-empty |
| Parsing.StripDataAppend | main.py:26-34 | lines are handled one at a time and in order: the rows of `a + b` are the rows of `a` followed by those of `b` |
| Parsing.StripDataRows | main.py:27-33 | every row is the cut of one of the input lines |
| Parsing.LineDropped | main.py:28-33 | a line is dropped exactly when it has no `:` and is whitespace only |
| Parsing.WordsAreLowerCase | main.py:30-31 | the tokens of a line without `:` are non-empty, contain no whitespace and no upper-case letter |
| Parsing.ColonLineRoundTrip | main.py:28-29 | joining the parts of a `:` line with `:` gives back the stripped line: nothing is lower-cased or lost |
| Parsing.FillRowLabel | main.py:44-47 | under a title containing a space the value is the last token stripped, or stays the empty list when no token follows |
| Parsing.FillRowNumbers | main.py:44-49 | under any other title the value is every token stripped and parsed, in order |
| Parsing.InsertRowsFrom | main.py:40-50 | IndexError exactly when some row is empty; the keys are the old keys plus the titles; keys without a row keep their value; the last row with a title decides its value |
| Parsing.InsertRows | main.py:39-50 | IndexError exactly for an empty row; the keys are exactly the titles, each holding the value of its last row |
| Parsing.RemainingStep | main.py:63-65 | pass `t` pops token `t` of the original row exactly when that token and all before it have no space; otherwise the row is left as it is |
| Parsing.ColumnOfFullRows | main.py:62-65 | when every data row has plain tokens past position `t`, column `t` is token `t` of every row, parsed |
| Parsing.Column | main.py:62-65 | the popping pass yields at most one value per data row, and every value is token `t`, parsed, of a data row whose plain prefix is longer than `t` |
| Parsing.ColumnsUpTo | main.py:59-65 | after `t` passes of the column loop the keys are exactly the first `t` titles |
| Parsing.ColumnsUpToAt | main.py:59-65 | each title holds the column of its position; among repeated titles the last one wins |
| Parsing.ColumnsAt | main.py:59-65 | after all passes, every title that no later title repeats holds the column of its own position |
| Parsing.AddLabels | main.py:67-69 | IndexError exactly when a label row has no value token; otherwise the keys are the old keys plus the labels, keys without a label row keep their value, each label holds the stripped second token of its last row, and without label rows nothing changes |
| Parsing.InsertColsSpec | main.py:55-70 | IndexError exactly for no rows or a bare label row left after the number passes; otherwise the keys are the titles plus the labels left behind, a title without a later repeat or a label holds its column, and each label holds the stripped value of its last row |
| Parsing.PlainFileColumns | main.py:55-70 | for a file without labels the dictionary is exactly the columns under their titles |
| Parsing.PopNumber | main.py:63-65 | the pop of one row takes token `t` of the original row exactly when pass `t` may pop, and leaves the row as pass `t + 1` expects it |
| Parsing.TakeColumn | main.py:62-65 | one pass of the popping loop builds column `t` and leaves every row as the next pass expects it |
| Parsing.TakeColumns | main.py:59-65 | the popping loop over all titles yields the columns and leaves the label rows behind |
| Parsing.StoreLabels | main.py:67-69 | the label loop as written, which reads `item[1]` before the pop, agrees with `AddLabels` |
| Parsing.InsertCols | main.py:55-70 | `insert_cols` with its destructive pops agrees with the functional description `InsertColsSpec` |
| Parsing.Length | main.py:77-82 | `len(data_dict.get(key))` is TypeError exactly when the key is missing |
| Parsing.FirstNegative | main.py:85-87 | the sign loop fails exactly when some value is negative |
| Parsing.SignCheck | main.py:83-87 | a field fails the sign loop exactly when it is not non-negative; a text field fails with TypeError |
| Parsing.CheckDataValidation | main.py:76-89 | success implies the four keys exist, their lengths agree and no uncertainty is negative; a missing `x` or `dx` is TypeError; differing `x`/`dx` lengths are reported before any sign |
| Parsing.ValidationOfNumbers | main.py:82-89 | for numeric fields, validation succeeds exactly when the four lengths agree and every `dx`, `dy` is at least zero; unequal lengths give the length error whatever the signs |
| Parsing.ValidatedMeasurements | main.py:82-89 | validated data have four lists of one length and non-negative `dy` |
| Parsing.CreateDict | main.py:94-101 | a dictionary is returned only when it passes validation; in the rows layout its keys are the titles; the columns layout fails on a file without rows |
| Parsing.StrippedRowsInsert | main.py:94-101 | in the rows layout `insert_rows` never fails on the rows `strip_data` gives, so only validation rejects a file |
| Statistics.MeanBetween | main.py:106-113 | the weighted mean lies between any lower and upper bound of the values |
| Statistics.CalcZBar | main.py:106-113 | ZeroDivisionError exactly for an empty list or a zero uncertainty; otherwise the weighted mean lies between the least and the greatest value |
| Statistics.MeanOfConstant | main.py:106-113 | the weighted mean of a constant list is that constant |
| Statistics.ZBarScaleInvariant | main.py:110-112 | scaling every uncertainty by the same non-zero factor leaves the weighted mean unchanged, failures included |
| Statistics.MeanLinear | main.py:109-112 | the weighted mean is linear in the values |
| Statistics.MeanAffine | main.py:109-112 | averaging `α·u + β·v + γ` gives `α·ū + β·v̄ + γ` |
| Statistics.VarianceIsMeanDeviation | main.py:145-156 | the denominator of the slope, `x²̄ − x̄²`, is the weighted mean of the squared deviations from `x̄` |
| Statistics.VarianceZeroIffConstant | main.py:145-156 | the denominator of the slope, `x²̄ − x̄²`, is non-negative and zero exactly when all x are equal |
| Statistics.ChiSqrZeroIffOnLine | main.py:118-122 | chi-square is non-negative and zero exactly when every point lies on the line |
| Statistics.CalcChiSqr | main.py:118-122 | ZeroDivisionError exactly for a zero uncertainty; otherwise non-negative, and zero exactly for data on the line |
| Statistics.LinearValues | main.py:177-181 | one value per x, in order, each `b + x·a` |
| Statistics.BonusDenominatorsZero | main.py:213-221 | a point's x-aware variance `dy² + (f(x+dx) − f(x−dx))²` is zero exactly when `dy` and `a·dx` are both zero |
| Statistics.BonusDenominators | main.py:213-221 | one denominator per point; the difference `f(x+dx) − f(x−dx)` of the line is exactly `2·a·dx`, so the denominator is `dy² + (2·a·dx)²` |
| Statistics.RootCancels | main.py:221 | dividing by a positive square root of a value and squaring is dividing by the value |
| Statistics.BonusTermsAsRoots | main.py:213-221 | for any positive square roots of the denominators, each term is the script's `((y − f)/root)²` |
| Statistics.CalcChiSqrBonus | main.py:212-222 | ZeroDivisionError exactly when some point has zero x-aware variance; otherwise non-negative, and zero exactly for data on the line |
| Statistics.BonusAtMostChiSqr | main.py:212-222 | with no zero `dy` the x-aware chi-square exists and never exceeds the plain one |
| Statistics.BonusWithoutXErrors | main.py:212-222 | with all `dx` zero the x-aware chi-square is the plain chi-square |
| Statistics.ChiSqrAsMean | main.py:118-122 | chi-square is the total weight times the weighted mean of the squared residuals |
| Statistics.SlopeNormal | main.py:156-158 | for any means with `x²̄ ≠ x̄²`, the slope `(xy̅ − x̄·ȳ)/(x²̄ − x̄²)` and the intercept `ȳ − a·x̄` solve the two normal equations |
| Statistics.NormalEquations | main.py:156-158 | the closed-form line leaves residuals of weighted mean zero, uncorrelated with x |
| Statistics.MeanSquaredResidualsShift | main.py:156-162 | moving away from the closed-form line adds the mean squared offset between the two lines |
| Statistics.LeastSquaresOptimal | main.py:156-162 | no line has a smaller chi-square than the closed-form line |
| Statistics.ExactLineRecovered | main.py:156-158 | data lying on a line give back exactly that slope and intercept |
| Statistics.ReducedChiSqr | main.py:163 | ZeroDivisionError exactly for two points; otherwise the value times `n − 2` is the chi-square |
| Statistics.CalcParameters | main.py:128-172 | ZeroDivisionError exactly for no points, a zero `dy`, all x equal or two points; the line minimises chi-square, recovers exact data, and the reduced value is chi-square per degree of freedom |
| Statistics.FitIsBest | main.py:156-162 | the closed-form line is optimal and recovers any line the data lie on |
| Statistics.MeanPermute | main.py:106-113 | listing the points in another order keeps the weights non-zero and leaves the weighted mean unchanged |
| Statistics.ChiSqrPermute | main.py:118-122 | listing the points in another order leaves chi-square unchanged |
| Statistics.SlopePermute | main.py:139-158 | listing the points in another order keeps the data fittable and leaves slope and intercept unchanged |
| Statistics.CalcParametersPermute | main.py:128-172 | listing `x`, `dx`, `y`, `dy` together in another order gives the same result: the same line, chi-square and reduced chi-square, or the same ZeroDivisionError |
| GridSearch.ValuesFrom | main.py:205-207 | value `j` appended is value number `k + j` of the progression, all lie within `abs(stop)` and the next one does not |
| GridSearch.Progression | main.py:202-208 | element `k` is `start + k·step`, every element is within `abs(stop)`, the value after the last is not, and the list is empty exactly when `abs(start) > abs(stop)` |
| GridSearch.PastBound | main.py:205-207 | past a computable number of steps the progression has left the range, so the loop ends for a non-zero step |
| GridSearch.ProgressionUnique | main.py:202-208 | the list is determined by those properties: any list with them is the progression |
| GridSearch.CreateParameterList | main.py:202-208 | IndexError exactly when `q_data[1]` is missing, or `q_data[2]` is missing and the loop runs; otherwise the progression, empty exactly when `abs(start) > abs(stop)` |
| GridSearch.ZeroRange | main.py:202-208 | `[0, 0, 1]` gives exactly `[0]` |
| GridSearch.ParameterListLoop | main.py:203-208 | the loop as written, adding the step after every append, yields the progression |
| GridSearch.GridCost | main.py:249 | the x-aware cost is defined once no `dy` is zero, is non-negative, never above the plain chi-square, and zero exactly for data on the line |
| GridSearch.SelectBest | main.py:243-253 | the result never exceeds the seed or any pair's cost; either no pair costs at most the seed and the seed pair is kept, or the result is the last pair of least cost in row-major order |
| GridSearch.LastMinimumUnique | main.py:247-253 | at most one pair of the grid is the last minimum, so the choice is determined |
| GridSearch.SeedNeverKept | main.py:243-253 | the first pair's x-aware cost is at most the seed's plain chi-square, so the seed pair is never kept by default |
| GridSearch.ExactLineOnGrid | main.py:247-253 | when the grid holds a line through every point, the chosen pair has cost zero and is such a line |
| GridSearch.CostWithoutXErrors | main.py:243-249 | without x-uncertainties the loop ranks pairs by the same chi-square as the seed |
| GridSearch.NoCandidatesIff | main.py:238-245 | indexing a candidate list at 0 fails exactly when the range data are too short or `abs(start) > abs(stop)` |
| GridSearch.NumericFit | main.py:228-262 | IndexError exactly for missing candidates; ZeroDivisionError for a zero `dy` or two points; otherwise the last pair of least x-aware cost, never above the seed, with the raw steps `a_data[2]`, `b_data[2]`, the slope list and chi-square per degree of freedom |
| Text.StripBy | main.py:29-31 | the result is the infix of the text left between a run of stripped characters at each end, starting at offset `Leading`; it neither starts nor ends with a stripped character |
| Text.Strip | main.py:29-31 | `strip()` leaves the infix of the line between a run of whitespace at each end, starting after the leading whitespace; it neither starts nor ends with whitespace |
| Text.StripKeeps | main.py:29-31 | every non-whitespace character of a line survives `strip()` |
| Text.StripNewlinesAfterStrip | main.py:29-31 | `strip('\n')` after `strip()` changes nothing |
| Text.StripEmptyIffBlank | main.py:31-32 | a stripped line is empty exactly when the line is whitespace only |
| Text.Lower | main.py:16 | one character per character, ASCII capitals mapped to lower case, others kept |
| Text.LowerIdempotent | main.py:16-17 | lower-casing twice is lower-casing once |
| Text.SplitWs | main.py:31 | `split()` gives non-empty tokens without whitespace, drawn from the text, and none exactly for blank text |
| Text.SplitWsConcat | main.py:31 | the tokens of `split()` together are the non-whitespace characters of the text, in order |
| Text.SplitWsSkipsSpaces | main.py:31 | leading whitespace gives no token |
| Text.SplitWsWordThen | main.py:31 | a word followed by whitespace is the first token, and the rest of the text gives the others |
| Text.SplitWsOfWord | main.py:31 | a single word is its own only token |
| Text.SplitOn | main.py:29 | `split(':')` gives at least one part and no part contains the separator |
| Text.JoinSplitOn | main.py:29 | joining the parts of `split(':')` with `:` gives back the text |
| Text.SplitOnJoin | main.py:29 | splitting parts joined with `:` gives back the parts when none contains `:` |
| Text.Contains | main.py:17 | `sub in s` holds exactly when `sub` occurs at some position of `s` |

## Left out

- `open_input_file` (main.py:6-10). It is file I/O: the model starts from the list of lines.
- `plot_correlation`, `plot_chi`, `search_best_parameter`, `fit_linear` (main.py:185-197, main.py:266-309). These are plotting, printing of exceptions and orchestration of the steps.
- The `print` calls and their formatting in `calc_parameters` and `numeric_fit`. The values printed are returned in the result records instead.
- `float()`. It is the parameter `parse`, and its `ValueError` on malformed text is not modelled.
- Floating point. All arithmetic is over ideal reals. IEEE rounding is not modelled, nor the drift of `i += step` in `create_parameter_list`, where the model's value number `k` is exactly `start + k·step`.
- Text.Lower: maps only the ASCII capitals `A`–`Z`. Other cased letters are kept as they are, where Python's `lower()` would map them too.
- Statistics.CalcParameters: does not compute `dy_sqr_bar`, `da` or `db` (main.py:149-150, 157, 159). `dy_sqr_bar` is the weighted mean of the `dy²`. `da` and `db` are square roots of quotients of it. All three only feed the printing and the returned dictionary. None of them can raise once `a` has been computed.
- Statistics.CalcParameters, GridSearch.NumericFit: take a `Measurements` record of numbers. Dictionary lookups of text values or missing keys (`TypeError` on `None`) after validation are not modelled.
- GridSearch.NumericFit: takes the `a` and `b` range lists directly, not through `work_data.get`. A range given as text is not modelled.
- GridSearch.CreateParameterList, GridSearch.ParameterListLoop, GridSearch.NumericFit: require a non-zero step whenever the loop would run (`Stops`). With a zero step and `abs(start) <= abs(stop)` the script never returns, and a function cannot return for it. `NumericFit` constrains the `b` range only once the list for the `a` range has been built. If the `a` range already raises IndexError, the `b` range is never read.
- Parsing.CheckDataValidation: its contract names the errors for a missing `x` or `dx` and for an `x`/`dx` length mismatch. The later comparisons, and the TypeError for a text field compared with 0, are stated for numeric fields in `ValidationOfNumbers` and for single fields in `SignCheck`.
- Parsing.CreateDict: its contract speaks of the keys in the rows layout only. The columns layout is described by `InsertColsSpec` and `InsertCols`.
