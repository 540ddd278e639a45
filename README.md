# Used car price estimator — a verified model

The repository is a one-screen iOS app, "Used Car Estimator", plus the Python
scripts that prepared its training data. The user types an odometer reading
and a model year and picks a condition. The app checks these inputs, derives
the car's age and asks a bundled regression model for a price. This project
models two parts in Dafny:

* the app's submission handler `predictPrice` and the form state it reads and
  writes (`estimator.dfy`, module `Estimator`). The guard chain is specified by
  pure functions: `Validate`, `ModelInput`, `Invoke`, `Request`, `Display` and
  `PredictionText`. The class `EstimatorForm` holds the four `@State` fields.
  Its method `PredictPrice` runs the same early-return chain and is proved to
  write exactly `PredictionText` into `prediction`. It may modify only
  `prediction`.
* the data-cleaning steps that produce the training data
  (`cleaning.dfy`, module `Cleaning`):
  * the `price > 0` row filter;
  * the `car_age` column, computed from the year of the latest posting date;
  * `convert_condition`, which encodes the condition strings as ordinal codes
    and counts the values it could not map.

  A pandas frame is treated as a value: a row count plus a map from each
  column name to its cells. A step that would make pandas raise (a missing
  column, or text in arithmetic or a comparison) returns `None`.

The app and the script use the same condition scale (`conditions.dfy`, module
`Conditions`). The script maps its strings to the codes 0–4, and the app's
picker sends the tags 0.0–4.0. `EncodedRange` proves that every code the
script produces is one of the picker's tags.

The app's collaborators are passed in as parameters, in the datatype
`Estimator.Collaborators`:
* Swift's `Double(String)` parser is an oracle `string -> Option<real>`;
* a failure while loading the CoreML model is `Option<string>`;
* one inference is `Features -> Result<real, string>`;
* the `%.2f` formatter is `real -> string`.

The current year is one `int` parameter of `PredictPrice`. The source reads
the clock once (ContentView.swift line 115) and uses that value for both the
range check and the age. `decimal.dfy` renders `Int(currentYear)` for the range message. Its
parser partner proves that the message reads back as the year.

## Model

| member | source | states |
|---|---|---|
| Conditions.Ordinal | cst380-special-topic-main/special-topic-swiftui/special-topic-swiftui/ContentView.swift:49-55 | every condition level has a code between 0 and 4 |
| Conditions.FromTag | cst380-special-topic-main/special-topic-swiftui/special-topic-swiftui/ContentView.swift:49-55 | a decoded picker value is exactly the tag of the level it decodes to |
| Conditions.TagRoundTrip | cst380-special-topic-main/special-topic-swiftui/special-topic-swiftui/ContentView.swift:49-55 | each level's tag decodes back to that level; a value decodes iff it is a whole number in 0..4 |
| Conditions.OrdinalInjective | cst380-special-topic-main/special-topic-swiftui/special-topic-swiftui/ContentView.swift:49-55 | the five picker segments have five distinct codes |
| Decimal.NatToString | cst380-special-topic-main/special-topic-swiftui/special-topic-swiftui/ContentView.swift:117 | the rendering is a non-empty digit string, longer than one digit exactly for numbers of 10 or more |
| Decimal.NatRoundTrip | cst380-special-topic-main/special-topic-swiftui/special-topic-swiftui/ContentView.swift:117 | parsing the digits of n gives back n |
| Decimal.IntRoundTrip | cst380-special-topic-main/special-topic-swiftui/special-topic-swiftui/ContentView.swift:117 | parsing the rendering of any integer, negatives included, gives back that integer |
| Estimator.OdometerCheckedFirst | cst380-special-topic-main/special-topic-swiftui/special-topic-swiftui/ContentView.swift:105-108 | the odometer is rejected iff it fails to parse or is negative; then the odometer message is shown whatever the year text, model or clock, so it takes precedence over the year checks |
| Estimator.YearParsedSecond | cst380-special-topic-main/special-topic-swiftui/special-topic-swiftui/ContentView.swift:110-113 | "Please enter a valid year." iff the odometer passed and the year text does not parse |
| Estimator.YearRangeCheckedThird | cst380-special-topic-main/special-topic-swiftui/special-topic-swiftui/ContentView.swift:115-119 | the range message iff the odometer passed, the year parsed and it lies outside 1950..currentYear; the text names that current year |
| Estimator.ValidateAccepts | cst380-special-topic-main/special-topic-swiftui/special-topic-swiftui/ContentView.swift:105-119 | validation succeeds iff all three guards pass, and it passes on the parsed odometer and year unmodified |
| Estimator.YearBoundaries | cst380-special-topic-main/special-topic-swiftui/special-topic-swiftui/ContentView.swift:116 | 1950 and the current year are both accepted; values just outside are not; a fractional year inside the range is accepted |
| Estimator.ModelInputShape | cst380-special-topic-main/special-topic-swiftui/special-topic-swiftui/ContentView.swift:115-132 | the model gets [odometer, condition, year, currentYear - year] in that order, using the same clock value as the range check; the age lies in 0..currentYear-1950 and the odometer is non-negative |
| Estimator.ModelOutcome | cst380-special-topic-main/special-topic-swiftui/special-topic-swiftui/ContentView.swift:123-138 | after validation, a failed model load or a failed prediction becomes ModelFailed with the error's own text; a prediction becomes Priced with that price; nothing is thrown |
| Estimator.PriceColourRule | cst380-special-topic-main/special-topic-swiftui/special-topic-swiftui/ContentView.swift:83-137 | the shown text starts with "$" (green) iff the outcome is a price; every error text, "Prediction failed: …" included, does not |
| Estimator.RangeMessageNamesYear | cst380-special-topic-main/special-topic-swiftui/special-topic-swiftui/ContentView.swift:117 | the range message is the fixed prefix, the current year as an integer, and "." |
| Estimator.FailureTextsDistinct | cst380-special-topic-main/special-topic-swiftui/special-topic-swiftui/ContentView.swift:106-137 | two outcomes with the same text are the same outcome when one is a rejection: the message tells which guard failed, and no rejection reads like a model failure or a price |
| Estimator.ScenarioAccepted | cst380-special-topic-main/special-topic-swiftui/special-topic-swiftui/ContentView.swift:121-132 | "45000", "2018" and Good in 2025 pass validation and reach the model as [45000, 2, 2018, 7] |
| Estimator.EstimatorForm.constructor | cst380-special-topic-main/special-topic-swiftui/special-topic-swiftui/ContentView.swift:12-15 | the form starts with empty text fields, condition 2 (Good) and no prediction |
| Estimator.EstimatorForm.EnterOdometer | cst380-special-topic-main/special-topic-swiftui/special-topic-swiftui/ContentView.swift:32 | the odometer field holds the typed text; nothing else changes |
| Estimator.EstimatorForm.EnterYear | cst380-special-topic-main/special-topic-swiftui/special-topic-swiftui/ContentView.swift:39 | the year field holds the typed text; nothing else changes |
| Estimator.EstimatorForm.SelectCondition | cst380-special-topic-main/special-topic-swiftui/special-topic-swiftui/ContentView.swift:49-55 | the picker stores the chosen segment's tag, so condition is always one of 0..4 |
| Estimator.EstimatorForm.PredictPrice | cst380-special-topic-main/special-topic-swiftui/special-topic-swiftui/ContentView.swift:104-139 | sets prediction to the outcome's text for the current fields and the single clock read; modifies only prediction, so odometer, year and condition stay as they were |
| Cleaning.Select | cst380-special-topic-main/special-topic-python/data_cleaning.py:17 | a masked column has one cell per true mask entry |
| Cleaning.Kept | cst380-special-topic-main/special-topic-python/data_cleaning.py:17 | the selected positions are as many as the true mask entries |
| Cleaning.KeptIndices | cst380-special-topic-main/special-topic-python/data_cleaning.py:17 | the selected positions are exactly those whose mask entry is true, strictly increasing |
| Cleaning.SelectAt | cst380-special-topic-main/special-topic-python/data_cleaning.py:17 | the k-th cell left by the mask is the input cell at the k-th selected position |
| Cleaning.SelectRows | cst380-special-topic-main/special-topic-python/data_cleaning.py:17 | masking a frame keeps it rectangular and keeps every column |
| Cleaning.PriceMask | cst380-special-topic-main/special-topic-python/data_cleaning.py:17 | `price > 0` is defined iff no price cell is text or a date; it is false for a null |
| Cleaning.KeepPositivePriceDefined | cst380-special-topic-main/special-topic-python/data_cleaning.py:17 | the filter fails iff the price column is missing or holds a non-numeric, non-null cell |
| Cleaning.KeepPositivePriceSpec | cst380-special-topic-main/special-topic-python/data_cleaning.py:17 | after the filter every price is a number above 0; surviving rows are exactly the positive-price rows, in their original order, each carried whole |
| Cleaning.EncodeColumn | cst380-special-topic-main/special-topic-python/data_cleaning.py:46 | the mapped column has the input's length, and each cell is the mapping of the cell at the same row |
| Cleaning.EncodingTable | cst380-special-topic-main/special-topic-python/data_cleaning.py:33-40 | salvage 0, fair 1, good 2, excellent 3, new 4, like new 4; "Good" and "New" map to null because matching is case-sensitive; null maps to null |
| Cleaning.EncodedRange | cst380-special-topic-main/special-topic-python/data_cleaning.py:33-46 | every non-null code is one of the app picker's tags, so it lies in 0..4; the result is null iff the input is null or not a key |
| Cleaning.EncodingNotInjective | cst380-special-topic-main/special-topic-python/data_cleaning.py:38-39 | two different strings, "new" and "like new", get the same code |
| Cleaning.UnmappedIsUnknown | cst380-special-topic-main/special-topic-python/data_cleaning.py:49-51 | the number of cells that are null after mapping but were not null before equals the number of present cells that are not keys |
| Cleaning.NoUnknownCountsZero | cst380-special-topic-main/special-topic-python/data_cleaning.py:49-50 | the count of unknown cells is 0 iff no cell is unknown |
| Cleaning.ConvertConditionSpec | cst380-special-topic-main/special-topic-python/data_cleaning.py:21-54 | fails iff the column is missing; otherwise keeps row count, row order and column set, rewrites only the named column cell by cell, and reports a nonzero count (the warning) iff some present cell is not a key |
| Cleaning.LatestPostingIsMaximum | cst380-special-topic-main/special-topic-python/data_cleaning.py:59 | the latest posting date is a date of the column and no date there is later; there is none iff the column has no date |
| Cleaning.AgeColumn | cst380-special-topic-main/special-topic-python/data_cleaning.py:60 | the age column is defined iff every year cell is a number or null; it has the years' length and each cell is that row's age |
| Cleaning.AddCarAgeSpec | cst380-special-topic-main/special-topic-python/data_cleaning.py:60 | fails iff the year column is missing or holds text or a date; otherwise every row's car_age is reference year minus year (null if either is missing), and only car_age changes |
| Cleaning.CarAgeFromLatestPosting | cst380-special-topic-main/special-topic-python/data_cleaning.py:59-60 | with the reference year taken from the posting-date column, there is one posting date of the column that no other date is later than, and every row with a numeric year gets car_age = that date's year − the row's year; with no date at all, every car_age is null |
| Cleaning.ProcessedPricesPositive | cst380-special-topic-main/special-topic-python/data_cleaning.py:17-62 | after the filter, the age step and the encoding, every row still has a positive price |

## Left out

- Layout, focus handling, styling and `hideKeyboard` (ContentView.swift lines 22-102 and 141-143): presentation and UIKit calls, with no decision logic.
- The CoreML model: how it is built and what it computes are opaque. It is a parameter that may fail, both when loading and when predicting.
- Swift's `Double(String)` parser and `Calendar`/`Date` are foreign calls. The parser is an oracle and the current year is a parameter.
- IEEE-754 behaviour: the model works over exact reals. It does not capture NaN or infinity, which `Double("inf")` can produce and which would pass the odometer guard. It also does not capture rounding in `currentYear - yr`.
- `String(format: "%.2f", …)`: float formatting is a parameter. The model states only that the success text is "$" followed by the formatted price.
- Estimator.EstimatorForm.PredictPrice: does not state "exactly one write" as a separate fact. Each branch of its body assigns `prediction` once and then returns.
- model.py (training, grid search, scaling, metrics, CoreML export): library wrappers and floating-point numerics.
- CSV reading and writing, date parsing, `dropna` on `transmission`, the column drops, `info()`, `corr_map` and the wording of the printed warnings (data_cleaning.py lines 14-15, 19, 58, 64, 66, 68-77). These are pandas I/O and library behaviour. The warning itself is modelled as the `unmapped` count being nonzero.
- Cleaning.LatestPostingIsMaximum: posting dates arrive already parsed, ordered by year and then by position within the year. Time zones are not modelled. A cell in the date column that is not a date is skipped, not reported as a pandas error.
- pandas dtypes: a successfully mapped condition column is modelled as numeric cells. The model does not track whether pandas stores them as float64 or as object.
