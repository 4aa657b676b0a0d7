# RAN-Automation KPI analysis: a Dafny model

RAN-Automation reads LTE network KPI exports (one row per date and eNodeB or
cell, one column per KPI). It cleans them and summarises each KPI column. It
finds the site column, draws one time-series plot per site and KPI, and looks
up a category for each KPI. It flags anomalies in two ways:

- a global z-score detector;
- a static threshold whose direction is given by a French label.

This project models that logic in Dafny and proves what each piece promises.

Modules, one per source file plus four shared ones:

- `Frames`: the table. A `Frame` has named columns, each of object, number or
  some other dtype (datetime, bool), and row-major cells. A cell is `Missing` (NaN), `Num(x)` or
  `Text(s)`.
- `Sequences`:
  - order-preserving filtering (boolean-mask selection);
  - `unique()` in first-appearance order;
  - an in-place sort of an array by a key (`sort_values`).
- `Strings`: `str.replace` of one character, digit strings.
- `Stats`: pandas `mean` and `var` (ddof 1) over present values, in exact real
  arithmetic. `IsSampleStd` ties a standard deviation to the variance: it is
  absent exactly when the variance is, and otherwise it is the non-negative
  number whose square is the variance.
- `AnomalyDetector`: `detect_zscore_anomalies`.
- `ReportGenerator`: the anomaly selection and the text of `generate_anomaly_summary`.
- `Preprocessing`: `clean_data` and `summarize_kpis`.
- `SiteUtils`: `get_site_column` and `get_sites_list`.
- `GraphGenerator`: `plot_kpi_time_series` and `generate_all_kpi_graphs`. This
  covers the rows plotted and their order, early returns and exceptions, the
  save path, the threshold given to each plot, and the order of the calls.
- `KpiUtils`: `get_kpi_info` and `categorize_kpi`.

The code handles things that pandas decides for it; the model states them
explicitly:

- NaN compares `False`, so missing values are never flagged or selected.
- `std()` of fewer than two values is NaN.
- `astype(str)` turns a NaN cell into `"nan"`.
- `unique()` keeps NaN.
- `df[c] == NaN` matches nothing.
- An exception (`KeyError`, or `AttributeError` from `replace` on a site name
  that is not a string) ends the whole `generate_all_kpi_graphs` run.

Some behaviour of the code that is easy to miss:

- Any direction label other than "Maximum à ne pas dépasser" selects values
  below the threshold. There is no check that the label is the minimum label.
- No threshold is rejected: the z-score detector takes a negative threshold,
  and the static rule takes any threshold.
- Besides a zero standard deviation, a NaN one (fewer than two values) also
  gives no flags.
- The result of the z-score detector is one flag per position, not a set of
  flagged points.
- The `clean_data` docstring says duplicates are removed and that rows and
  columns need a non-zero value. The code discards the result of
  `drop_duplicates()` and drops only columns whose every value is missing.
- Eleven of the nineteen 4G column names in `kpi_utils.py` have no dictionary
  entry, because their spelling differs from the keys: "RRC_Succes_Rate"
  against "RRC_Success_Rate", and so on. `categorize_kpi` therefore returns
  "Inconnu" for them. `KpiUtils.Kpis4GCategories` states the category of
  each one.

## Model

| member | source | states |
|---|---|---|
| Frames.IndexOf | graph_generator.py:20 | a column lookup `df[name]`: absent (the `KeyError`) iff no column has the name, otherwise the first column that has it |
| Stats.Mean | anomaly_detector.py:37 | the mean is absent (NaN) exactly when no value is present |
| Stats.SampleVariance | anomaly_detector.py:38 | the sample variance is absent exactly when fewer than two values are present, and is non-negative otherwise |
| Stats.MeanOfConstant | anomaly_detector.py:37 | a series whose present values all equal c has mean c |
| Stats.VarianceOfConstant | anomaly_detector.py:38 | such a series with at least two present values has variance zero |
| AnomalyDetector.ZScore | anomaly_detector.py:43 | the z-score is defined exactly when the value, the mean and a non-zero std are all present |
| AnomalyDetector.DetectZScoreAnomalies | anomaly_detector.py:37-45 | one flag per input position; all flags false when std is zero (no division); a missing value is never flagged |
| AnomalyDetector.FlagIffBeyondThreshold | anomaly_detector.py:40-44 | point i is flagged iff it is present, std is positive, and abs(value - mean) / std is strictly greater than the threshold |
| Stats.IsSampleStd | anomaly_detector.py:38 | predicate, no ensures: the standard deviation is absent exactly when the sample variance is; otherwise it is non-negative and its square is the variance |
| Stats.StdZeroIffVarianceZero | anomaly_detector.py:38-40 | the standard deviation is zero exactly when the variance is zero |
| AnomalyDetector.FlagIffSquaredDeviation | anomaly_detector.py:37-45 | point i is flagged iff it is present, the variance is positive, and the threshold is negative or (value - mean)² exceeds threshold² times the variance |
| AnomalyDetector.DeviationBeyond | anomaly_detector.py:43-44 | for s the root of v, a positive s with abs(d) / s above t is the same as a positive v with t negative or d² above t² v |
| AnomalyDetector.QuotientBeyond | anomaly_detector.py:43-44 | for a >= 0 and s the positive root of v, a / s > t iff t is negative or a² > t² v |
| AnomalyDetector.SquareMonotone | anomaly_detector.py:44 | on non-negative reals, x > y iff x² > y² |
| AnomalyDetector.AtThresholdNotFlagged | anomaly_detector.py:44 | a point whose z-score magnitude equals the threshold is not flagged |
| AnomalyDetector.ThresholdMonotone | anomaly_detector.py:44 | a point flagged under a higher threshold is flagged under any lower one |
| AnomalyDetector.ThresholdMonotoneCount | anomaly_detector.py:43-45 | raising the threshold never increases the number of flags |
| AnomalyDetector.MeanPointNotFlagged | anomaly_detector.py:43-44 | with a non-negative threshold a point equal to the mean is never flagged |
| AnomalyDetector.FewPointsNoFlags | anomaly_detector.py:37-45 | with fewer than two present values nothing is flagged |
| AnomalyDetector.ConstantSeriesNoFlags | anomaly_detector.py:37-45 | a series whose present values are all equal is never flagged, whatever the threshold |
| ReportGenerator.IsAnomaly | report_generator.py:9-12 | predicate, no ensures: a row is an anomaly when its value is present and strictly above the threshold under "Maximum à ne pas dépasser", strictly below it under any other label; a NaN value is never one |
| ReportGenerator.SelectAnomalies | report_generator.py:9-12 | the selection holds only anomalous rows of the table and every anomalous row |
| ReportGenerator.MaximumSelectsAbove | report_generator.py:9-10 | under "Maximum à ne pas dépasser" a row is selected iff its value is present and strictly above the threshold |
| ReportGenerator.OtherDirectionSelectsBelow | report_generator.py:11-12 | under any other label a row is selected iff its value is present and strictly below the threshold |
| ReportGenerator.AtThresholdNeverSelected | report_generator.py:10-12 | no selected row has a value equal to the threshold |
| ReportGenerator.SelectionKeepsTableOrder | report_generator.py:9-12 | the selected rows are the rows at ascending kept positions, and a position is kept iff its row is an anomaly |
| ReportGenerator.GenerateAnomalySummary | report_generator.py:8-25 | the text built line by line equals the no-anomaly sentence, or the header followed by one bullet per selected row in table order |
| ReportGenerator.Summary | report_generator.py:14-24 | the summary text: the no-anomaly sentence when nothing is selected, otherwise the count line, the threshold line and one bullet per selected row |
| ReportGenerator.SummaryEmptyCase | report_generator.py:14-15 | the summary is the sentence "Aucune anomalie détectée sur le KPI {kpi}." iff nothing is selected |
| ReportGenerator.SummaryCountsAnomalies | report_generator.py:17 | the number that opens a non-empty summary is the number of selected rows |
| ReportGenerator.SummaryLineCount | report_generator.py:17-24 | a non-empty summary has three header line breaks plus exactly one bullet line per selected row |
| Preprocessing.AsText | preprocessing.py:61 | `astype(str)` of a cell: "nan" for NaN, `str` of a number, the text itself otherwise |
| Strings.ReplaceChar | preprocessing.py:62-64 | `str.replace` of one character (also graph_generator.py:50-51): each occurrence adds the length of `rep` less one to the length; the character is gone when `rep` lacks it; every output character comes from `rep` or is a kept input character |
| Strings.ReplaceCharAppend | graph_generator.py:51 | replacing in a concatenation is concatenating the replacements |
| Preprocessing.NormaliseText | preprocessing.py:59-64 | the chain of replaces: commas to periods, then percent signs and spaces removed |
| Preprocessing.NormaliseTextSpec | preprocessing.py:59-64 | after the replace chain no comma, percent sign or space remains; every comma became a period; other characters are kept in count |
| Preprocessing.NormaliseTextIdempotent | preprocessing.py:59-64 | normalising normalised text changes nothing |
| Preprocessing.NormaliseCell | preprocessing.py:59-65 | a normalised cell is text or missing, and it is missing iff its normalised text is empty |
| Preprocessing.NormaliseCellIdempotent | preprocessing.py:59-66 | a text cell with non-empty normalised text normalises to itself the second time; a missing cell becomes the text "nan" |
| Preprocessing.ToNumeric | preprocessing.py:70 | the conversion fails iff some cell does not parse; otherwise each cell becomes its number or NaN |
| Preprocessing.RewriteColumn | preprocessing.py:59-74 | the rewritten column has the same length; when conversion fails it holds the normalised cells, otherwise no text |
| Preprocessing.RewriteColumnConversion | preprocessing.py:59-74 | the column stays of object dtype iff some normalised cell does not parse; otherwise each cell becomes the number it parses to, or NaN |
| Preprocessing.FailedConversionKeepsNormalisedText | preprocessing.py:69-74 | a column with an unparsable cell keeps the normalised strings, not the original text |
| Preprocessing.KeptColumns | preprocessing.py:42 | the kept positions ascend, and a column is kept iff it has a non-missing value |
| Preprocessing.SelectColumns | preprocessing.py:42 | the selected frame has the chosen columns in order and every row's cells at those positions |
| Preprocessing.DropEmptyColumns | preprocessing.py:42 | dropping the all-missing columns keeps a well-formed table with every row |
| Preprocessing.DropEmptyColumnsSpec | preprocessing.py:42 | `dropna(axis='columns', how='all')` keeps exactly the columns that have a value, in order, and all rows |
| Preprocessing.Checked | preprocessing.py:45-50 | predicate, no ensures: a column gets the "/0" test iff it is of object dtype and its name is not one of the five non-numeric names |
| Strings.Contains | preprocessing.py:52 | predicate, no ensures (`Strings.ContainsIff` states its meaning): `str.contains(pat, regex=False)` on one string |
| Strings.ContainsIff | preprocessing.py:52 | `Contains(s, pat)` holds iff `pat` is the slice of `s` at some offset |
| Preprocessing.DivZeroSurvivors | preprocessing.py:49-53 | the rows that pass the "/0" test of every checked object column, in table order |
| Preprocessing.SurvivorsHaveNoDivZero | preprocessing.py:45-53 | a row survives iff no checked object column outside the exempt list holds "/0" in its text |
| Preprocessing.NoDivZeroKeepsAllRows | preprocessing.py:39-53 | with no "/0" cell every row survives, duplicates included |
| Preprocessing.RemoveDivZeroRows | preprocessing.py:49-53 | the column loop leaves exactly the surviving rows, in table order |
| Preprocessing.RewrittenType | preprocessing.py:55-74 | the dtype after the rewrite: object when `to_numeric` failed, a number dtype when it succeeded, unchanged for a column that was not object |
| Preprocessing.RewriteObjectColumns | preprocessing.py:55-74 | each object column is replaced by its rewrite and stays object-typed iff its conversion failed, and becomes a number column otherwise; other columns, datetime and bool ones included, are unchanged |
| Preprocessing.CleanData | preprocessing.py:20-76 | drop the all-missing columns, filter "/0" rows on the original text, then rewrite the object columns |
| Preprocessing.CountMissing | preprocessing.py:106 | the missing count never exceeds the column length |
| Preprocessing.MissingPlusPresent | preprocessing.py:106-107 | the missing count plus the present count equals the number of rows |
| Preprocessing.Minimum | preprocessing.py:104 | the minimum is absent iff no value is present; otherwise it is a present value and no present value is smaller |
| Preprocessing.Maximum | preprocessing.py:105 | the maximum is absent iff no value is present; otherwise it is a present value and no present value is larger |
| Preprocessing.SummariseColumn | preprocessing.py:100-109 | an entry is named after its column |
| Preprocessing.SummaryEntryCounts | preprocessing.py:100-109 | missing plus count equals the row count; distinct values are at most count; min is absent iff count is zero; min does not exceed max |
| Preprocessing.SummarisedColumns | preprocessing.py:95-96 | the summarised positions ascend, and a column is summarised iff it has a number dtype (not object, datetime or bool) and is not excluded |
| Preprocessing.Entries | preprocessing.py:98-109 | one entry per summarised column, in table order |
| Preprocessing.SummarizeKpis | preprocessing.py:80-114 | `None` (the `KeyError` of sorting an empty table) iff no column is summarised; otherwise a permutation of the entries, sorted by missing count with the largest first |
| Preprocessing.SummaryRaisesIff | preprocessing.py:95-112 | there are no entries, so the sort raises, iff no column has a number dtype outside the excluded names |
| Preprocessing.SummaryLength | preprocessing.py:95-112 | the summary has one entry per summarised column |
| Preprocessing.SummaryCoversColumns | preprocessing.py:95-112 | every summarised column has its entry in the summary |
| Preprocessing.SummaryFromColumns | preprocessing.py:95-112 | every entry of the summary is the entry of some summarised column |
| Sequences.Unique | utils.py:33 | the values are distinct, and a value is in the result iff it is in the input |
| Sequences.UniqueKeepsFirstAppearanceOrder | utils.py:33 | the values come in the order of their first appearance |
| Sequences.SortInPlace | graph_generator.py:27 | after the sort the array is ordered by the key and is a permutation of its old contents |
| SiteUtils.FirstPresent | utils.py:14-18 | absent iff no candidate is present; otherwise a candidate that is present |
| SiteUtils.FirstPresentIsFirst | utils.py:14-17 | the earliest present candidate is the one returned |
| SiteUtils.GetSiteColumn | utils.py:4-18 | `None` iff none of the four names is a column; otherwise one of the four and a column of the table |
| SiteUtils.SiteColumnPriority | utils.py:14-17 | candidate k is the site column when it is a column and no earlier candidate is |
| SiteUtils.NonMissing | utils.py:33 | `dropna()` keeps exactly the non-missing cells |
| SiteUtils.GetSitesList | utils.py:21-36 | the column name returned is `get_site_column(df)`, and the list is empty when there is none |
| SiteUtils.SitesListContents | utils.py:31-34 | the list holds every non-missing value of the site column exactly once and nothing else |
| SiteUtils.SitesListOrder | utils.py:33 | the sites come in the order of their first appearance in the column |
| GraphGenerator.SiteSafe | graph_generator.py:50 | the safe site name has the same length and contains no space and no '/' |
| GraphGenerator.SiteSafePointwise | graph_generator.py:50 | each space or '/' becomes '_' and every other character is kept |
| GraphGenerator.KpiSafe | graph_generator.py:51 | the safe KPI name contains no space, '/' or '%' |
| GraphGenerator.KpiSafeLength | graph_generator.py:51 | its length is the KPI's length plus two per '%' |
| GraphGenerator.SiteNamesCollide | graph_generator.py:50 | two sites share a folder iff their names have equal length and differ only where both hold a space, '/' or '_' |
| GraphGenerator.KpiNamesCollide | graph_generator.py:51 | a KPI with '%' where another has "pct" shares its file name |
| GraphGenerator.JoinPath | graph_generator.py:52-54 | the joined path is the second part itself, or the first part followed by the second, or the first part, a '/' and the second |
| GraphGenerator.JoinPathCases | graph_generator.py:52-54 | the joined path always ends with the second part; an absolute second part is the whole result; a relative one follows the first part directly when that is empty or ends in '/', and after an added '/' otherwise |
| GraphGenerator.SavePath | graph_generator.py:52-54 | the path a plot is saved at: the safe KPI name with ".png", joined under the safe site folder under the output folder |
| GraphGenerator.SavePathShape | graph_generator.py:50-54 | the plot is saved at output_dir/site_safe/kpi_safe.png, and the last two components hold no separator |
| GraphGenerator.SiteRows | graph_generator.py:20 | the site filter keeps at most the table's rows |
| GraphGenerator.DateOf | graph_generator.py:26 | the instant `pd.to_datetime` gives a row's date cell, `NaT` for a missing cell |
| GraphGenerator.LatestDate | graph_generator.py:27 | an instant no earlier than any date among the rows |
| GraphGenerator.RankOrderIsDateOrder | graph_generator.py:27 | rows sorted by their dates with `NaT` ranked after every date are in ascending date order with `NaT` last |
| GraphGenerator.PlotSpec | graph_generator.py:20-57 | the outcomes a call may have, checked in order: the site column, an empty site filter, the date column, the KPI column, the site name's type; a plot holds the site's rows in date order, `NaT` last |
| GraphGenerator.PlotKpiTimeSeries | graph_generator.py:5-57 | the checks run in order: the site column, an empty site filter, the date column, the KPI column, then a site name that is not a string. A plot gets the site's rows sorted by date with `NaT` last (a permutation), the KPI column, the threshold and the save path |
| GraphGenerator.SiteRowsNonEmpty | graph_generator.py:20-23 | the site filter is non-empty iff the site is not missing and some row holds it |
| GraphGenerator.PlotRaisesIff | graph_generator.py:20-57 | a call raises iff the site column is missing, or the site has rows and either the date column is missing or the KPI exists while the site name is not a string |
| GraphGenerator.PlottedRowsAreSiteRows | graph_generator.py:20-36 | a plot shows exactly the table's rows for the site, and plots the requested KPI's column |
| GraphGenerator.ThresholdFor | graph_generator.py:72-74 | the threshold of a KPI: the dictionary's value when a non-empty dictionary holds the KPI, else none |
| GraphGenerator.SiteRequests | graph_generator.py:71-74 | one request per KPI in list order, whose threshold is the dictionary's value when a non-empty dictionary holds the KPI, else none |
| GraphGenerator.Schedule | graph_generator.py:69-75 | the requests of the nested loops, site by site and within a site KPI by KPI |
| GraphGenerator.ScheduleLength | graph_generator.py:69-75 | the nested loops make one request per (site, KPI) pair |
| GraphGenerator.ScheduleEntry | graph_generator.py:69-75 | the request for KPI j of site i comes at position i * number of KPIs + j |
| GraphGenerator.AllSites | graph_generator.py:69 | `unique()` of the site column raises exactly when the column is missing |
| GraphGenerator.RunSpec | graph_generator.py:59-75 | the runs the function may have: a `KeyError` iff the site column is missing, otherwise calls following the schedule until the first that raised |
| GraphGenerator.PlotSite | graph_generator.py:71-75 | the inner loop makes the site's requests in KPI order, each ending as a plot call may, and stops at the first that raises |
| GraphGenerator.GenerateAllKpiGraphs | graph_generator.py:59-75 | the run raises before any plot iff the site column is missing; otherwise its calls are a prefix of the schedule, each ending as a plot call may, and a prefix that stops short ends in the call that raised |
| GraphGenerator.PlotDoesNotRaise | graph_generator.py:20-54 | with a date column and site names that are strings no plot call raises |
| GraphGenerator.RunCoversSchedule | graph_generator.py:59-75 | under those conditions the run makes every (site, KPI) call of the schedule, and none raises |
| KpiUtils.GetKpiInfo | kpi_utils.py:4-117 | the lookup is absent iff the name is not an exact key; an entry's category and unit come from the fixed sets |
| KpiUtils.CategorizeKpi | kpi_utils.py:120-124 | "Inconnu" iff the name is not a key; otherwise the entry's category, even when it is empty |
| KpiUtils.EveryCategoryUsed | kpi_utils.py:6-115 | each of the five categories, and the empty one, is used by some entry |
| KpiUtils.CategoryExamples | kpi_utils.py:6-124 | "CDR", "Handover Success Rate" and "DL User throughput" give their categories; "4G PS Traffic" gives the empty string; "RRC_Succes_Rate" gives "Inconnu" |
| KpiUtils.Kpi4GCategory | kpi_utils.py:127-134 | the category of the i-th 4G column name |
| KpiUtils.Kpis4GCategories | kpi_utils.py:120-134 | the category of every 4G column name; eleven of them give "Inconnu" |

## Left out

- Threshold persistence is not modelled. This covers `load_threshold_config` and `save_threshold_config` in `anomaly_detector.py` and `threshold_manager.py`. They are JSON file I/O, whose round trip belongs to the `json` library. A missing file gives `{}`.
- The `kpi_thresholds` constant in `threshold_manager.py` is inert data.
- `dashboard.py` is a Streamlit user interface. Its site-column search repeats `get_site_column` with fewer candidates.
- Work done at import time is not modelled: Excel reads and writes, `print`, the correlation matrix, and the seaborn heatmap with its `savefig` in `preprocessing.py` and `kpi_utils.py`.
- `generate_pdf_report` is not modelled: the reportlab PDF building is rendering and file output.
- Drawing is outside the model: the matplotlib calls, `os.makedirs` and `savefig`. A plot is modelled by its rows, KPI column, threshold and path; title, labels and styling are not.
- Printed messages are not modelled. `NoSiteData` and `KpiNotFound` stand for the two printed-and-returned cases.
- `pd.to_datetime` is the parameter `toTime`, which maps a date cell to an integer instant, or to `None` for `NaT`; a missing cell is `NaT`. Rows without a date are sorted last, as `sort_values` does. The `ValueError` of a date that does not parse, and the converted dates stored back into the rows, are not modelled. Rows are plotted with their original date cells.
- `pd.to_numeric` is the parameter `parse`. Python's `str` of a number is the parameter `show`, and the `:.2f` format is the parameter `fixed2`.
- `strptime`/`strftime` in the bullets are not modelled. A bullet uses the row's date text as it is, assuming the well-formed 'YYYY-MM-DD' dates that survive that round trip. The `ValueError` for other dates is not modelled.
- The `KeyError`s of `generate_anomaly_summary` on a missing KPI or `Date` column are not modelled. Its rows are given as (date, value) pairs.
- IEEE floating point, `sqrt` and pandas' numerical internals are not modelled. Values are reals. The standard deviation is a parameter tied to the sample variance by `IsSampleStd`: absent exactly when the variance is, otherwise the non-negative root of the variance. `AnomalyDetector.FlagIffSquaredDeviation` states the flags without it.
- Preprocessing.SummarizeKpis: the `Std` entry is not part of `KpiSummary`, for the reason just given; `Mean`, `Min`, `Max`, the counts and the distinct count are.
- Preprocessing.SummarizeKpis: the order of entries with equal missing counts is not stated, because pandas' default sort is not stable. The same holds for rows with equal dates in `GraphGenerator.PlotKpiTimeSeries`.
- Preprocessing.NormaliseCellIdempotent is weaker than idempotence for every cell. A missing cell first becomes the text "nan" through `astype(str)`, and a number becomes its `str`.
- Cells holding `None` or `NaT` are not modelled: `astype(str)` would read them `"None"` and `"NaT"`. The only missing value in the loaded tables is NaN, from `read_excel` and `.replace('', np.nan)`.
- Tables with two columns of the same name are not modelled distinctly. A name lookup uses the first such column.
