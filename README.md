# Analytics backend core, modelled in Dafny

This project models the parts of an analytics web backend that are the backend's own logic. Users upload a CSV/XLSX table, and the backend offers exploratory statistics, forecasting and anomaly-based risk scoring. Most of the work is done by pandas, scikit-learn and Prophet. Everything the backend decides itself is modelled here:

- **File store** (`file_service.dfy`, module `FileService`): the upload validator (inclusive 50 MiB bound, then the lower-cased text after the last dot must be `csv` or `xlsx`). Also the `{id}_{filename}` storage key, joined under `uploads` the way `os.path.join` does it, shared by save and load. Also the loader's case-sensitive suffix dispatch, and the file-info record.
- **Exploratory analysis** (`eda_service.dfy`, module `EdaService`): the summary counts, and the per-column branch of column statistics (numeric only for `int64`/`float64`). Also the empty correlation matrix, the IQR fence for outliers with ascending row indices, and the 5-chart / 10-entry truncation of chart data.
- **Forecast engine** (`forecast_service.dfy`, module `ForecastService`): the error dicts of the Prophet path, and the exponential-smoothing fallback. The fallback is a loop proved against the recurrence est₀ = last value, estₖ₊₁ = 0.3·estₖ + 0.7·m, where m is the mean of the last five values. It is proved that the forecast has exactly `periods` entries, that each forecast lies between the last value and m, and that estₖ − m = 0.3ᵏ·(last − m).
- **Forecast route** (`forecast_route.dfy`, module `ForecastRoute`): load, primary forecast, and a fallback when the primary result has an `"error"` key. The fallback's result is not re-checked. Every exception becomes HTTP 500.
- **Risk engine** (`risk_service.dfy`, module `RiskService`): the anomaly report built from the isolation forest's ±1 labels. It holds the count, the first ten flagged rows tagged with `row_index`, and a score of count/rows·100. The report has an early return for an empty numeric sub-frame. A second function computes the cell-completeness quality score.

The table (`frames.dfy`, module `Frames`) is a row count plus a sequence of named columns. Each column has a dtype tag and a sequence of cells (`Null`, `Num(real)` or `Str(string)`). `WellFormed` states what pandas' readers guarantee: the table is rectangular, numeric columns hold no text, only the two tags `Int64`/`Float64` are named "int64"/"float64", and column names are distinct. Library results are passed in as parameters: quartiles, moments, modes, value counts, correlation coefficients, memory-use text, `describe()`, the forest's labels, what Prophet did, and what the pandas reader parsed. The uuid drawn by `save_file` and the clock read by `get_file_info` are parameters too.

Details of the code's exact behaviour that the model follows:

- `DataFrame.empty` on the numeric sub-frame is true when there is no numeric column *or* no row. So `get_correlation_matrix` returns `{}`, and `detect_anomalies` takes its early return, in both cases.
- `get_column_stats` treats only `int64`/`float64` as numeric. An `int32` or `float32` column gets categorical statistics while the outlier, chart and correlation analyses treat it as numeric (`EdaService.NarrowNumericIsCategorical`).
- `simple_forecast` averages only `values[-5:]`. So text values earlier in the column do no harm. Text inside the window raises only when `periods > 0`, because otherwise the loop never runs. `periods` is not checked to be positive: for `periods <= 0` the forecast list is empty.
- A categorical `mode` is `None` exactly when pandas' `mode()` is empty, which includes an all-missing column.

## Model

| member | source | states |
|---|---|---|
| `Frames.NumericColumns` | backend/services/eda_service.py:59 | the `np.number` columns: every member is a numeric column of the frame, and every numeric column is a member |
| `Frames.NumericColumnsAppend` | backend/services/eda_service.py:72-75 | selection keeps frame order: the numeric columns of a + b are those of a followed by those of b |
| `Frames.NonMissing` | backend/services/forecast_service.py:51 | `dropna()` keeps only cells of the column, none missing, and exactly as many as the column has non-missing cells |
| `Frames.NonMissingAppend` | backend/services/forecast_service.py:51 | `dropna()` keeps the order of the cells: it distributes over concatenation |
| `Frames.TotalPresentPlusNulls` | backend/services/risk_service.py:43-44 | on a rectangular table, non-missing plus missing cells make up rows·cols cells |
| `Frames.Positions` | backend/services/eda_service.py:64 | the positions whose element satisfies the mask, each exactly once, strictly ascending |
| `Frames.Lookup` | backend/services/forecast_service.py:51 | `df[name]` finds a column with that name whenever one exists, and with distinct names it is exactly that column |
| `FileService.AfterLast` | backend/services/file_service.py:16 | `split(".")[-1]` is the longest suffix without a dot: a dot-free suffix, preceded by a dot unless it is the whole name |
| `FileService.ExtensionAfterLastDot` | backend/services/file_service.py:16 | the extension is the lower-cased text after the last dot |
| `FileService.ExtensionWithoutDot` | backend/services/file_service.py:16 | a dot-less name is its own (lower-cased) extension |
| `FileService.ValidateFile` | backend/services/file_service.py:11-20 | valid exactly when size ≤ MAX_FILE_SIZE and the extension is allowed; the size message whenever the size is too big, else the type message, else "valid" |
| `FileService.SizeBoundary` | backend/services/file_service.py:13-14 | exactly 52428800 bytes passes; one byte more fails with the size message for any name |
| `FileService.UpperCaseExtensionValidates` | backend/services/file_service.py:16-18 | "DATA.CSV" validates |
| `FileService.LastDotCounts` | backend/services/file_service.py:16-18 | "report.v2.xlsx" validates: only the last dot counts |
| `FileService.DotlessNameValidates` | backend/services/file_service.py:16-18 | the dot-less name "csv" validates |
| `FileService.TextFileRejected` | backend/services/file_service.py:16-18 | "notes.txt" fails with the type message |
| `FileService.StoragePathRoundTrip` | backend/services/file_service.py:27 | for a uuid-text id, the id and the filename can be read back from the stored path |
| `FileService.StoragePathInjective` | backend/services/file_service.py:27 | distinct (uuid id, filename) pairs never share a stored path |
| `FileService.SaveFile` | backend/services/file_service.py:22-32 | returns the drawn id, keeps the content, and writes to a path that parses back to (id, filename) |
| `FileService.LoadDataframe` | backend/services/file_service.py:35-44 | loads exactly when the name ends in ".csv" or ".xlsx" (case-sensitive), picks the matching reader, else raises "Unsupported file format: {filename}" |
| `FileService.SuffixExtension` | backend/services/file_service.py:16 | a name ending in ".csv" or ".xlsx" has "csv" or "xlsx" as its extension |
| `FileService.LoadOpensSavedFile` | backend/services/file_service.py:27-37 | load opens the same path save wrote |
| `FileService.LoadableNamesValidate` | backend/services/file_service.py:39-44 | every name the loader accepts passes validation (for a size within the bound) |
| `FileService.ValidatedButNotLoadable` | backend/services/file_service.py:39-44 | "DATA.CSV" and "csv" validate, yet the loader raises on them |
| `FileService.LoadDataframeByExtension` | backend/services/file_service.py:39-44 | corrected dispatch: loads exactly when the validator's extension is allowed, from the saved path |
| `FileService.ValidatedFilesLoad` | backend/services/file_service.py:16-18 | with the corrected dispatch every validated name loads |
| `FileService.GetFileInfo` | backend/services/file_service.py:47-56 | echoes id and filename; rows = row count; columns = number of column names = column count; names in frame order |
| `EdaService.GetSummary` | backend/services/eda_service.py:7-16 | row_count and column_count are the frame's dimensions; missing_values and data_types have one key per column, holding its null count and dtype name |
| `EdaService.StatOf` | backend/services/eda_service.py:24-40 | "numeric" exactly for int64/float64; categorical `unique` is the distinct non-missing count; `mode` is None exactly when mode() is empty, else its first value |
| `EdaService.GetColumnStats` | backend/services/eda_service.py:19-42 | exactly one entry per column, each the column's branch result |
| `EdaService.NarrowNumericIsCategorical` | backend/services/eda_service.py:24 | a numeric dtype other than int64/float64 is categorical in the stats although it is an `np.number` column |
| `EdaService.GetCorrelationMatrix` | backend/services/eda_service.py:45-52 | `{}` exactly when the numeric sub-frame is empty; otherwise one row per numeric column, each keyed by every numeric column |
| `EdaService.CorrelationEntry` | backend/services/eda_service.py:51-52 | entry (a, b) is the coefficient of numeric columns a and b |
| `EdaService.OutlierRows` | backend/services/eda_service.py:60-64 | row k is flagged exactly when its value is below Q1 − 1.5·IQR or above Q3 + 1.5·IQR; indices ascending, no duplicates |
| `EdaService.InsideFenceNotFlagged` | backend/services/eda_service.py:64 | values on or inside the closed fence, and missing values, are never flagged |
| `EdaService.OutlierExample` | backend/services/eda_service.py:60-65 | [1,2,3,4,5,100] with quartiles 2.25/4.75 flags only index 5 |
| `EdaService.GetOutliers` | backend/services/eda_service.py:55-67 | exactly one key per numeric column, holding that column's flagged rows |
| `EdaService.ChartOf` | backend/services/eda_service.py:76-80 | one "histogram" chart named after its column, with the first min(10, #counts) value counts |
| `EdaService.GetChartData` | backend/services/eda_service.py:70-83 | min(5, #numeric) charts in numeric-column order, each "histogram" with the first min(10, #counts) value counts |
| `ForecastService.Tail` | backend/services/forecast_service.py:37 | `tail(n)` is a suffix of length min(n, len) for n ≥ 0, and all but the first −n rows for n < 0 |
| `ForecastService.ForecastTimeSeries` | backend/services/forecast_service.py:14-46 | error dict (with install hint) when Prophet is missing; error dict with the exception text when fitting raises; a preparation error propagates; otherwise no error key, `periods` echoed and equal-length forecast and bounds |
| `ForecastService.Estimates` | backend/services/forecast_service.py:58-63 | the forecast list has n entries, entry j being the estimate after j+1 steps |
| `ForecastService.SimpleForecast` | backend/services/forecast_service.py:49-69 | the loop computes the smoothing specification: KeyError, insufficient-data dict, or the recurrence's first `periods` estimates |
| `ForecastService.EstimateDistance` | backend/services/forecast_service.py:62 | estₖ − m = 0.3ᵏ·(last − m) |
| `ForecastService.EstimateConvex` | backend/services/forecast_service.py:62 | estₖ = w·last + (1 − w)·m with w = 0.3ᵏ in (0, 1] |
| `ForecastService.EstimateBetween` | backend/services/forecast_service.py:62 | every estimate lies between the last value and m |
| `ForecastService.EstimatesBetween` | backend/services/forecast_service.py:58-63 | every entry of the forecast list lies between the last value and m |
| `ForecastService.EstimateFixedPoint` | backend/services/forecast_service.py:62 | when last = m, every estimate equals m |
| `ForecastService.SimpleForecastShape` | backend/services/forecast_service.py:51-69 | missing column raises; fewer than 3 non-missing values give the error dict; otherwise exactly max(periods, 0) forecasts, method "exponential_smoothing", periods echoed, all between last value and m |
| `ForecastRoute.Forecast` | backend/routes/forecast.py:9-36 | the primary result is returned unchanged unless it has an "error" key; then the fallback on the same value column and periods is returned unchecked; an Ok body with an error key always came from the fallback; every exception is a 500 carrying its text |
| `RiskService.AnomalyIndices` | backend/services/risk_service.py:23 | the rows labelled −1, each once, ascending |
| `RiskService.TaggedRow` | backend/services/risk_service.py:27-28 | the row's dict with "row_index" set to the row's position, keys = column names plus "row_index", and on a loaded frame every other key holds that column's cell in the row |
| `RiskService.RiskScore` | backend/services/risk_service.py:31 | count/rows·100 is in [0, 100], 0 exactly when nothing is flagged, 100 when every row is |
| `RiskService.DetectAnomalies` | backend/services/risk_service.py:8-38 | empty numeric sub-frame: anomalies [], score 0, "No numeric columns found" and no total; otherwise total = number of −1 labels, the first min(10, total) flagged rows tagged in order, score = total/rows·100 in [0, 100], summary text |
| `RiskService.ReportedRowsAreFirstFlagged` | backend/services/risk_service.py:23-29 | the k-th reported row is labelled −1 and has exactly k flagged rows before it |
| `RiskService.DataQualityScore` | backend/services/risk_service.py:41-47 | 0 for a table without cells; on a loaded frame, the share of non-missing cells (counted by `dropna()`) among rows·cols, times 100 |
| `RiskService.QualityScoreBounds` | backend/services/risk_service.py:43-47 | on a loaded frame the score is in [0, 100] |
| `RiskService.QualityScoreComplete` | backend/services/risk_service.py:43-47 | a loaded frame with cells and no missing cell scores 100 |
| `RiskService.QualityScoreHalf` | backend/services/risk_service.py:43-47 | a loaded frame with half of its cells missing scores 50 |

## Findings

| source | as written | input that shows it | evidently intended | confidence | as-written member | corrected member |
|---|---|---|---|---|---|---|
| backend/services/file_service.py:39-44 | the loader picks a reader by a case-sensitive ".csv"/".xlsx" suffix, while the validator lower-cases the text after the last dot | an upload named "DATA.CSV" (or just "csv") passes validation and is saved, then the loader raises ValueError and the upload answers 500 | the loader accepts every name the validator accepts | medium (not executed) | `FileService.ValidatedButNotLoadable` | `FileService.LoadDataframeByExtension` |

The forecast route keeps the loader as written (`FileService.LoadDataframe`), because that is the code the route runs. `FileService.ValidatedFilesLoad` proves the intended property of the corrected loader.

## Left out

- AI insight client and report generation (`ai_service.py`, `routes/ai_insights.py`, `routes/reports.py`): asynchronous HTTP calls to a hosted LLM. Their only own logic is prompt text and status wrapping.
- Model training (`ml_service.py`, `routes/models.py`): scikit-learn fitting, splitting and metrics are library calls.
- Prophet's fit and predict (`forecast_service.py:23-44`): an external library. What they did is the `ProphetRun` input: preparation raised, fitting raised, or predicted rows. The import probe is the `prophetAvailable` flag.
- pandas and numpy numerics: `read_csv`/`read_excel`, `quantile`, `mean`/`median`/`std`/`min`/`max`, `mode`, `value_counts`, `corr`, `memory_usage`, `describe`, and the isolation forest with its mean imputation and `contamination`. Their results are inputs. Values are `real`, so the model makes no claim about float rounding or NaN arithmetic.
- `save_file`'s directory creation and byte write, and `uuid4`: filesystem I/O and randomness. The id is a parameter, and `GeneratedId` describes its text.
- `datetime.now()` in `get_file_info`: a clock, passed in as `now`.
- FastAPI wiring in `routes/eda.py`, `routes/upload.py`, `routes/risk.py` and `main.py`: the upload's 400 mapping and the `contamination` range check are framework glue.
- `config.py` constants are copied as given. `models/schemas.py` holds DTOs without logic; the default of 12 periods belongs to it.
- Frontend (`lib/api-client.ts`, `hooks/use-data-context.tsx`, `app/page.tsx`): UI code.
- FileService.Lower: only ASCII letters are lower-cased, while Python also lowers other Unicode letters. No non-ASCII character lowers to a letter of "csv" or "xlsx", so validation outcomes are the same.
- EdaService.GetColumnStats: requires distinct column names. pandas' readers rename duplicate headers, and with duplicates `df[col].dtype` would raise. `EdaService.GetOutliers` and `EdaService.GetChartData` have the same precondition. `ForecastRoute.Forecast` requires a parsed frame to be well-formed in the same sense.
- RiskService.DataQualityScore: the non-missing share is stated for well-formed frames only, which is every frame pandas' readers produce.
- Frames.DType: the names of `OtherNumeric` and `NonNumeric` tags are free text. `WellFormed` rules out "int64" and "float64" for them, as `str(dtype)` never prints those for another dtype.
- EdaService.GetCorrelationMatrix: the contract gives the keys only. The entry values are stated by `EdaService.CorrelationEntry`, for distinct names.
- ForecastService.SimpleForecast: the TypeError text for text values in the window is a fixed placeholder, and the KeyError text is the quoted name without Python's repr escaping.
- RiskService.DetectAnomalies: the summary's `:.1f` rounds half up on exact reals, while Python rounds the binary float half-to-even. The early return's integer `0` risk score is `0.0`. Row dicts lose numpy's value types and key order.
- RiskService.DetectAnomalies: requires one forest label per row, which `fit_predict` always returns.
