# California housing price prediction: a verified model of the core

This project models the logic of a small house-price prediction system in Dafny and proves properties of that model. The system has four parts:

- **Preprocessing job.** It reads a table of housing blocks and caps outliers at each column's 95th percentile. Latitude and Longitude are left uncapped. It then derives `RoomsPerHousehold`, selects nine features and the `MedHouseVal` target, and splits the rows 80/20 into a train table and a test table.
- **Evaluation job.** It loads the trained model, predicts the test table and reports MSE, RMSE, MAE and R².
- **Prediction service.** A `POST /predict` handler turns the request body into a one-row frame and asks the model for a prediction. It answers 200 with the prediction, or 400 with the error message.
- **Command-line client.** It loads a request body (a JSON file or the built-in sample) and posts it. It prints the prediction in dollars, and maps each kind of failure to its own exit code.

The modules follow the source files:

| module | file | what it holds |
|---|---|---|
| `FeatureContract` | feature_contract.dfy | the nine feature names in their fixed order |
| `Json` | json.dfy | JSON values as Python decodes them |
| `Wrappers` | wrappers.dfy | `Option` and `Result` |
| `Reals` | reals.dfy | the magnitude of a real, shared by the currency rendering and the metrics |
| `Regressor` | regressor.dfy | the outcome of one `model.predict` call: values, or the exception raised |
| `Currency` | currency.dfy | `format(x, ",.2f")` over exact reals, and the digit reading it is proved against |
| `Client` | client.dfy | `load_input`, `predict`, `format_prediction`, and `main` as a function (`Exit`) and a step-by-step method (`Run`) |
| `Server` | server.dfy | the request handler over a fixed, read-only model |
| `Tables` | tables.dfy | numeric data frames: named columns of equal length |
| `Percentile` | percentile.dfy | sorting, the linearly interpolated quantile, and clipping from above |
| `Preprocessing` | preprocessing.dfy | the data frame as a class that the capping loop and the derivation change in place, then selection, split and output |
| `Metrics` | metrics.dfy | the four regression metrics as recursive sums |
| `Evaluation` | evaluation.dfy | the evaluation job: the target split, the metrics and the report's shape |
| `Pipeline` | pipeline.dfy | the client against the service, and the evaluation job on the preprocessing job's output |

Numbers are exact reals. The trained regressor is a function given to each job, and so is the shuffle behind the split (a permutation of the row numbers). The square root is a parameter required to be the non-negative square root. The network exchange and the reading of the input file are inputs too: the client model receives what `session.post` and `json.load` produced.

Three points where a reader might expect something other than what the code does; the model follows the code:
- **Re-capping.** Running the capping step again on its own output is not a no-op. The code recomputes each percentile from the already-clipped column, so a second pass can lower the cap again. `Preprocessing.RecappingIsNotIdempotent` exhibits this: for the column [0, 1] the cap is 0.95 on the first pass and 0.9025 on the second. What does hold is `Preprocessing.ReclipSameCap`: clipping again at the same cap changes nothing.
- **RoomsPerHousehold.** The comment on the client's sample value (client.py:77) calls it `AveRooms / AveOccup`. The preprocessing job (data_processing.py:23) computes `TotalRooms / Households`, and that is what is modelled.
- **Missing columns.** There is no schema check of its own. The code raises pandas' KeyError: one for a single label, or one listing every missing feature at once. `ProcessError` models the code's cases.

## Model

| member | source | states |
|---|---|---|
| FeatureContract.FeaturesDistinct | data_processing.py:25-28 | there are nine feature names and no two are equal |
| Tables.IndexOf | data_processing.py:29-30 | a label is found exactly when it is among the names, and the position found holds that label |
| Tables.ColumnNamed | data_processing.py:29-30 | `df[name]` is missing exactly when the label is absent; otherwise it is the column stored under that label |
| Tables.Pick | data_processing.py:43-44 | the selected rows, in the given order, one value per selected row |
| Tables.NamesPickOneColumn | data_processing.py:29-30 | in a well-formed table a label names one column only |
| Tables.ColumnAt | data_processing.py:29-30 | in a well-formed table, looking up the label at a position gives that position's column |
| Percentile.Insert | data_processing.py:20 | inserting into sorted values keeps them sorted and adds exactly the one value |
| Percentile.Sort | data_processing.py:20 | the result is sorted and is a permutation of the column |
| Percentile.Lerp | data_processing.py:20 | linear interpolation between two order statistics stays between them |
| Percentile.Position | data_processing.py:20 | the interpolation position (n-1)q splits into a row below n and a fraction in [0, 1) whose sum is exactly (n-1)q |
| Percentile.Quantile | data_processing.py:20 | the 95th percentile with linear interpolation lies between some value of the column and some other, so between its least and greatest value |
| Percentile.Clip | data_processing.py:21 | `clip(upper=cap)` keeps the length and leaves no value above the cap |
| Percentile.ClipPointwise | data_processing.py:21 | a value at or below the cap is kept; a value above it becomes exactly the cap |
| Percentile.ClipNeverRaises | data_processing.py:21 | clipping never increases a value |
| Percentile.ClipIdempotent | data_processing.py:21 | clipping twice at the same cap is clipping once |
| Percentile.ClipWithinCap | data_processing.py:21 | a column already within the cap is unchanged |
| Preprocessing.CapColumn | data_processing.py:19-21 | capping a column keeps its row count |
| Preprocessing.CapAll | data_processing.py:18-21 | capping every column keeps the names, the row count and a well-formed table |
| Preprocessing.CapBound | data_processing.py:18-21 | after the loop no value of a non-geographic column exceeds that column's own 95th percentile |
| Preprocessing.CapKeepsGeography | data_processing.py:19 | Latitude and Longitude are unchanged by capping |
| Preprocessing.CapClipsFromAbove | data_processing.py:20-21 | values at or below the cap are kept, values above become exactly the cap, and the cap lies between the column's least and greatest value |
| Preprocessing.CapIsColumnwise | data_processing.py:18-21 | what capping does to a column depends on that column alone, so capping one column never changes another |
| Preprocessing.ReclipSameCap | data_processing.py:21 | clipping a capped column again at its own cap is a no-op |
| Preprocessing.RecappingIsNotIdempotent | data_processing.py:18-21 | running the whole capping loop twice can differ from running it once |
| Preprocessing.DataFrame.constructor | data_processing.py:8 | the frame holds the table that was read |
| Preprocessing.DataFrame.CapOutliers | data_processing.py:18-21 | the in-place loop leaves the frame equal to the capped table and keeps it well formed |
| Preprocessing.RoomsPerHousehold | data_processing.py:23 | succeeds exactly when both source columns exist and no household count is zero, and then each row is TotalRooms over Households; a missing TotalRooms is reported first, then a missing Households, then a zero household count |
| Preprocessing.WithColumn | data_processing.py:23 | assignment replaces a column of that name in place or appends it; the new column is found under its name and no other column changes |
| Preprocessing.Derive | data_processing.py:23 | the derived table is well formed, keeps its rows and holds the ratio under `RoomsPerHousehold`; the old labels stay in place as a prefix, and every column other than `RoomsPerHousehold` keeps its values |
| Preprocessing.DeriveKeepsColumn | data_processing.py:23 | looking up any label other than `RoomsPerHousehold` gives the same answer before and after the derivation |
| Preprocessing.DeriveKeepsBaseColumns | data_processing.py:23-30 | the eight base features and `MedHouseVal` read the same from the derived table as from the capped one |
| Preprocessing.DataFrame.AddRoomsPerHousehold | data_processing.py:23 | the frame becomes the derived table, or on an error it is left as it was and the error is returned |
| Preprocessing.SelectFeatures | data_processing.py:25-30 | succeeds exactly when no feature and not the target is missing; the features come in the fixed order and each column is the frame's column of that name; missing features give the KeyError listing them, and otherwise a missing target gives the KeyError for `MedHouseVal` |
| Preprocessing.TestCount | data_processing.py:34-36 | the test share is the least whole number of rows at or above 0.2n |
| Preprocessing.TrainCount | data_processing.py:34-36 | the train share is the greatest whole number of rows at or below 0.8n |
| Preprocessing.CountsPartition | data_processing.py:34-36 | ceil(0.2n) test rows plus floor(0.8n) train rows make n; the train share is empty exactly when n < 2 |
| Preprocessing.PermutationRows | data_processing.py:34-36 | a permutation of the rows has n entries, each a row number |
| Preprocessing.SplitRows | data_processing.py:34-36 | the split fails exactly when fewer than two rows leave the train share empty |
| Preprocessing.SplitPartitions | data_processing.py:34-36 | train and test are disjoint and together hold every row exactly once; the test share has ceil(0.2n) rows |
| Preprocessing.Assemble | data_processing.py:43-44 | an output table is the features followed by the target, with each value taken from the selected row |
| Preprocessing.Preprocess | data_processing.py:17-44 | the job succeeds exactly when the derivation and the selection succeed on the capped table and there are at least two rows; each failure is the error of the first step that fails |
| Preprocessing.ProcessJob | data_processing.py:17-44 | the steps run on the frame, in the source's order, produce exactly the outputs of `Preprocess` on the table read; the frame is left valid, holding the capped and derived table, or only the capped one when the derivation fails |
| Preprocessing.OutputShape | data_processing.py:25-44 | both tables have the nine features then `MedHouseVal`, and the row counts are ceil(0.2n) for test and the rest for train |
| Preprocessing.Finish | data_processing.py:29-44 | on the derived table: succeeds exactly when the features and target are present and there are at least two rows, otherwise the selection's error or the split's; on success both outputs have the nine output columns, the test share has ceil(0.2n) rows and the train share the rest |
| Preprocessing.FinishTestRows | data_processing.py:34-44 | each test row holds the features and target of the row the permutation put there |
| Preprocessing.FinishTrainRows | data_processing.py:34-44 | each train row holds the features and target of the row the permutation put there |
| Preprocessing.TestRowsComeFromDerivedTable | data_processing.py:18-44 | each test value comes from the derived table, and RoomsPerHousehold is computed from the capped columns after the loop, so it is not capped itself |
| Preprocessing.TestRowsKeepCappedBaseColumns | data_processing.py:18-44 | the eight base features of each test row are the capped table's values at the permuted row |
| Metrics.SquareSign | evaluation.py:30 | a squared residual is non-negative and zero only for a zero residual |
| Metrics.SumSquaresZero | evaluation.py:30 | the sum of squared residuals is non-negative and zero exactly when every prediction equals its target |
| Metrics.SumAbsoluteZero | evaluation.py:32 | the sum of absolute residuals is non-negative and zero exactly when every prediction equals its target |
| Metrics.SumDeviationsZero | evaluation.py:33 | squared deviations from a centre vanish exactly when every value is that centre |
| Metrics.TotalSquaresZero | evaluation.py:33 | SS_tot is non-negative and zero exactly when the target is constant |
| Metrics.MeanSquaredError | evaluation.py:30 | mse is non-negative and zero exactly when predictions equal targets |
| Metrics.MeanAbsoluteError | evaluation.py:32 | mae is non-negative and zero exactly when predictions equal targets |
| Metrics.R2Score | evaluation.py:33 | r2 is undefined for fewer than two samples and otherwise at most 1; for a constant target it is 1 for an exact prediction and 0.0 otherwise, as sklearn does by default |
| Metrics.PerfectPredictionScoresOne | evaluation.py:33 | an exact prediction scores r2 = 1 |
| Metrics.MeanPredictionScoresZero | evaluation.py:33 | predicting the mean everywhere scores r2 = 0 on a non-constant target |
| Metrics.RootUnique | evaluation.py:31 | the non-negative square root is unique, so rmse is determined by mse |
| Metrics.WorkedExample | evaluation.py:30-33 | for targets [1, 2] and predictions [1.5, 2.5]: mse 0.25, rmse 0.5, mae 0.5, r2 0 |
| Metrics.R2AgainstMeanPrediction | evaluation.py:33 | on a non-constant target, r2 is 1 minus the prediction's mse divided by the (positive) mse of always predicting the target's mean |
| Metrics.PartialFitExample | evaluation.py:33 | for targets [1, 2] and predictions [1, 2.5], r2 is 0.5 |
| Evaluation.Dropped | evaluation.py:23 | `drop` keeps every other label and removes this one |
| Evaluation.DroppedLength | evaluation.py:23 | dropping a present label from distinct labels removes exactly one |
| Evaluation.DroppedLast | evaluation.py:23 | dropping the last label of a table leaves the labels before it |
| Evaluation.SplitTarget | evaluation.py:23-25 | succeeds exactly when the label is present; the features are the other columns in order and the target is the labelled column |
| Evaluation.EvaluateOn | evaluation.py:23-33 | a present target, at least one row and one prediction per row always give a report; a missing target or a raising model ends the job, and ModelFailed occurs only when the model raised; a prediction count other than the row count gives InconsistentSamples with both counts, and an empty table NoSamples; on success there is one prediction per row, mse and mae are non-negative and zero exactly for a perfect prediction, rmse squared is mse, and r2 is `Metrics.R2Score` of target and predictions: NaN exactly for one sample and otherwise at most 1 |
| Evaluation.Evaluate | evaluation.py:23-33 | the job as written reads `target`: without that column it fails with a missing-target error |
| Evaluation.EvaluateCorrected | evaluation.py:23-33 | the same job reading `MedHouseVal` |
| Evaluation.ReportDocument | evaluation.py:36-43 | the report has the single key `regression_metrics`, holding exactly `mse`, `rmse`, `mae` and `r2_score` with the computed values |
| Currency.Padded | client.py:114 | a zero-padded field has exactly its width |
| Reals.Abs | client.py:114 | the magnitude is non-negative, is the value or its negation, and is zero only for zero |
| Currency.RoundHalfEven | client.py:114 | the rounded value is within one half of x, and a tie goes to the even neighbour |
| Currency.Cents | client.py:114 | the cents shown are within half a cent of the magnitude |
| Currency.ValueConcat | client.py:114 | reading the digits of a concatenation shifts the first part by the digit count of the second |
| Currency.DigitsValueOfDigits | client.py:114 | the decimal digits of n read back as n, without a leading zero |
| Currency.PaddedValue | client.py:114 | a padded field reads back as its number |
| Currency.GroupJoin | client.py:114 | a comma and a three-digit group after a well grouped prefix keep it well grouped and multiply its value by 1000 |
| Currency.GroupedDenotes | client.py:114 | grouping by thousands puts the commas where they belong, keeps the number's digits and has no leading zero (zero is "0") |
| Currency.UnsignedCentsDenotes | client.py:114 | the unsigned rendering of a cent amount has the two-decimal shape and reads back as the amount |
| Currency.SignedCentsDenotes | client.py:114 | the rendering of a cent amount has a sign exactly when asked for, grouped whole digits without leading zeros, a point and two decimals, and reads back as the amount |
| Currency.FixedTwo | client.py:114 | `,.2f` output starts with a minus sign exactly for negative x, and its digits spell the cents of x |
| Currency.FixedTwoDenotes | client.py:114 | `,.2f` output has a minus sign exactly for negative x, a well grouped whole part without leading zeros, a point and two decimals, and its digits spell |x| in cents to within half a cent |
| Currency.DigitsValueBound | client.py:114 | k digits spell a number below 10^k |
| Currency.LeadingDigitPositive | client.py:114 | digits that start with 1-9 spell a positive number |
| Currency.PaddedOfValue | client.py:114 | a zero-padded field is the padding of the number it spells |
| Currency.DigitsOfValue | client.py:114 | digits without leading zeros are the decimal digits of the number they spell |
| Currency.GroupedOfValue | client.py:114 | a well grouped whole part without leading zeros is the grouping of the number it spells, so grouping is the inverse of reading |
| Currency.SignedCentsOfShape | client.py:114 | an unsigned two-decimal string is the rendering of the cents it spells |
| Currency.RenderingDetermined | client.py:114 | any string with the sign of x and the two-decimal shape whose digits spell the cents of x is exactly the `,.2f` rendering of x |
| Client.SampleDataHasTheFeatureKeys | client.py:68-78 | the built-in sample has exactly the nine feature keys, each a float |
| Client.LoadInput | client.py:125-132 | no path or an empty path gives the sample; otherwise it succeeds exactly when the file decodes to an object, and a non-object is rejected with the source's message; a file that cannot be opened or decoded fails with that exception's message |
| Client.Predict | client.py:81-93 | succeeds exactly for a received, non-error status with a JSON body; transport errors pass through, a 4xx/5xx status is an HTTP error, and a non-JSON body is a ValueError |
| Client.HttpErrorText | client.py:89 | `str(HTTPError)`: the status in decimal, "Client Error" exactly below 500 and "Server Error" from 500 on, the reason, " for url: ", and the URL at the end |
| Client.RequestFailureMessage | client.py:143-156 | the stderr line follows the same clause as the exit code: could-not-connect with the URL for 3, timed out for 4, the HTTP error text followed by the response's repr for 5, and the request error's message for 6 |
| Client.ResponseText | client.py:152 | the response's repr holds its status code in decimal between `<Response [` and `]>` |
| Client.RequestFailureCode | client.py:143-156 | the first matching clause decides: ConnectionError 3, Timeout 4, HTTPError 5, anything else 6 |
| Client.ToFloat | client.py:109-111 | ints and floats convert exactly, `True`/`False` convert to 1.0/0.0, null, strings, lists and objects fail, and every failure is a conversion error |
| Client.PredictionValue | client.py:104-111 | an empty list fails with `Empty prediction list`; a non-empty list gives its first element; any other value is converted itself |
| Client.FormatErrorText | client.py:101-107 | `str(e)` of the formatting exceptions: the KeyError's message shown between double quotes, since its `repr` is printed, and the other messages shown as they are |
| Client.FormatPrediction | client.py:96-114 | a missing key is the KeyError and an empty list the ValueError; an object succeeds exactly when its prediction converts, and otherwise fails with the conversion's own error; and gives the prefix followed by the value times 100000 in `,.2f`. A response that is not an object fails as Python would evaluate `"prediction" in result` and `result["prediction"]` on it: a list or string without the key gives the KeyError, one with it the indexing TypeError, and null, booleans and numbers the not-iterable TypeError |
| Client.OnlyObjectsFormat | client.py:101-104 | a response that is not an object never formats |
| Client.ListFormatsLikeScalar | client.py:106-111 | `{"prediction": [p, ...]}` formats exactly like `{"prediction": p}` |
| Client.FormatDenotesDollars | client.py:113-114 | a formatted line is the prefix, an optional minus sign, grouped dollars without leading zeros, a point and two decimals spelling the value times 100000 in cents |
| Client.FormatDetermined | client.py:113-114 | any amount text of that shape spelling those cents is exactly what the line prints, so the line is determined by the prediction |
| Client.FormatExample | client.py:113-114 | 4.526 gives `Predicted house value: $452,600.00`, and [2.0] gives `$200,000.00` |
| Client.Exit | client.py:135-166 | the exit code is one of 0, 2, 3, 4, 5, 6, 7; success prints the prediction line and at most a status line, and a failure prints one stderr line |
| Client.Run | client.py:135-166 | `main` with its early returns computes exactly `Exit` |
| Client.LoadFailureStopsBeforeRequest | client.py:137-141 | an input that does not load gives 2 and the line "Error loading input data: " with the loading message, whatever the network would have done |
| Client.RequestFailureExits | client.py:143-156 | a failed request exits with its clause's code and message |
| Client.ConnectTimeoutExits3 | client.py:145-150 | a connect timeout is a Timeout but is caught by the earlier ConnectionError clause |
| Client.NotJsonExits6 | client.py:90-93 | a successful response with a non-JSON body exits 6, not 7 |
| Client.BadPredictionExits7 | client.py:158-166 | a result without `prediction` exits 7 with the KeyError's text, and one with an empty list there exits 7 with "Empty prediction list" |
| Client.FormatFailureExits7 | client.py:158-166 | every failure of `format_prediction` (missing key, empty list, a value `float()` refuses, a non-object response) exits 7 with "Error processing response: " and the exception's text |
| Client.SuccessExits0 | client.py:158-163 | exit 0 exactly when loading, request and formatting succeed; the status line is printed exactly when `status` is present, after the prediction line |
| Server.ToRow | local-fastapi-server.py:21 | the request body becomes one row whose columns are its keys (or positions) holding its values |
| Server.SuccessBody | local-fastapi-server.py:25-28 | the 200 body holds exactly `prediction`, the value as a float, and `status`, the string `success` |
| Server.ErrorBody | local-fastapi-server.py:29-30 | the 400 body holds only `detail` with the message, and no `prediction` |
| Server.Handle | local-fastapi-server.py:16-30 | the status is 200 or 400; 200 exactly when the body parsed and the model returned a prediction, with the first prediction and `success`; a 400's detail is the parse error's message, the model's exception message, or the IndexError text for an empty prediction |
| Server.Serve | local-fastapi-server.py:8-30 | one response per request |
| Server.ServeEach | local-fastapi-server.py:8-30 | each response depends only on its own request and the model loaded once |
| Server.ServeConcatenation | local-fastapi-server.py:8-30 | serving one batch does not change how later requests are served |
| Server.RequestBecomesOneRow | local-fastapi-server.py:19-23 | every feature key of the request reaches the model in its single row with its value |
| Pipeline.SampleReachesModelAsFeatureRow | local-fastapi-server.py:21 | the client's built-in sample reaches the model as one row holding exactly the nine features |
| Pipeline.TransportSucceeds | local-fastapi-server.py:23-28 | a body the model predicts comes back as a 200 with the success body |
| Pipeline.SuccessBodyFormats | local-fastapi-server.py:25-28 | the client formats the service's success body as the first prediction in dollars |
| Pipeline.ClientAcceptsSuccessBody | client.py:158-163 | the success body makes the client print the prediction and `Status: success` and exit 0 |
| Pipeline.ServedPredictionIsPrinted | local-fastapi-server.py:23-28 | every 200 from the service is accepted by the client, printed with its status, and exits 0 |
| Pipeline.BadRequestText | client.py:152 | the HTTP error text for the service's 400 |
| Pipeline.ServedErrorExits5 | local-fastapi-server.py:29-30 | every 400 from the service makes the client report the HTTP error and exit 5 |
| Pipeline.ServedExitCodes | local-fastapi-server.py:16-30 | against the service, a client whose input loads exits only with 0 or 5 |
| Pipeline.AsWrittenEvaluationMissesTarget | evaluation.py:23-25 | the evaluation job as written fails on every test table the preprocessing job writes |
| Pipeline.CorrectedEvaluationOnOutputTable | evaluation.py:23-33 | on any table with the nine features then `MedHouseVal`, the corrected job gives the model exactly the features and reports whenever it returns one prediction per row |
| Pipeline.CorrectedEvaluationReachesModel | evaluation.py:23-33 | read under `MedHouseVal`, the test table gives the model exactly the nine features in order, and a report is produced whenever the model returns one prediction per row |

## Left out

- File and network I/O are inputs, not modelled: reading and writing CSV, tar extraction, joblib loading, directory creation, `requests` sessions, FastAPI's async request parsing, the request timeout, and printing.
- Training, the S3 upload script and the joblib entry point are not part of this model; the trained regressor is an opaque `predict` function.
- The seeded shuffle of `train_test_split` (seed 42) is not reproduced; the permutation it produces is an input.
- Argument parsing (`--url`, `--timeout`, `--json`), and the `--url` default taken from the `API_URL` environment variable or `http://localhost:8000/predict`: the parsed arguments are an input. argparse's own usage errors, which also exit 2, are not modelled.
- IEEE floating point: numbers are exact reals, and `,.2f` rounds the exact value half to even at the cent. Binary rounding of `float` values, infinities and NaN values, and the `NaN`/`Infinity` JSON tokens are not modelled.
- Client.ToFloat: every string is refused. Python's `float()` also accepts numeric strings such as "4.5", which the model does not capture.
- Client.ToFloat: the refusal message quotes the string between single quotes, where Python prints its `repr`, which switches to double quotes for a string holding `'` and escapes backslashes and control characters.
- Client.FormatPrediction: tuples cannot come out of JSON decoding and are not modelled; only lists are.
- Client.Predict: redirects and URL normalisation are not modelled, and the response's URL is taken as given.
- Preprocessing.RoomsPerHousehold: a zero household count is reported as an error. pandas would produce an infinity or NaN and carry on.
- Preprocessing: columns are numeric. Text columns in the CSV, and NaN cells (which pandas' quantile skips), are not modelled.
- Server.ToRow: JSON objects are maps, so the key order of the request body is not modelled. `pd.DataFrame([features])` takes its column order from that key order, and a scikit-learn model fitted on a named frame rejects columns in another order; the model leaves that rejection to the opaque `predict`, so a reordered `--json` file cannot be told apart from the sample.
- Server.Handle: FastAPI's 500 response for a non-finite prediction, and the conversion of numpy scalars by `float(...)`, are not modelled. The prediction is already a real.
- Evaluation.EvaluateOn: `sqrt` is a parameter required to be the non-negative square root, rather than a computed function. The report's serialisation to JSON text is not modelled, only its keys and values.
- Evaluation.EvaluateOn: sklearn's checks on the shape of multi-output predictions are not modelled; the model returns one value per row or raises.
- The commented-out legacy client at client.py:1-50 is not modelled.

## Findings

| source | as written | input that shows it | evidently intended | confidence | as-written member | corrected member |
|---|---|---|---|---|---|---|
| evaluation.py:23-25 | the evaluation job splits the test table on the label `target` | any test table written by data_processing.py:43-48, whose target column is `MedHouseVal` | reading the target under `MedHouseVal`, the name the preprocessing job writes | high, not executed | Pipeline.AsWrittenEvaluationMissesTarget | Pipeline.CorrectedEvaluationReachesModel |
