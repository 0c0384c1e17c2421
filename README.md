# Vesuvius survival statistics in Dafny

This project models the descriptive-statistics core of a small Python
analysis of who survived the eruption of Vesuvius. The data set is a CSV
table with one row per person, an outcome column (`Survived`) and
covariates (sex, age, social status, distance from the volcano, shelter
access, pet ownership, and others). It then proves properties of that model.

Two scripts form the core.

- `main.py` does the following:
  - strips and checks the header (`ensure_cols`);
  - coerces the outcome to numbers and keeps only rows whose outcome is
    exactly 0 or 1;
  - coerces the numeric covariates;
  - draws its figures one after another: global rate, per sex, per age
    band, per status, per distance band, per yes/no feature, and a
    sex × age heat map;
  - assembles a recap dictionary of rates.
- `graphes.py` does the following:
  - finds the outcome column under one of five names;
  - reports the overall survival rate, counting every positive outcome as
    a survivor;
  - computes the survival rate per decade of age and per decade of distance.

Rates are exact rationals (`real`). A pandas frame is a header plus
positional rows of cells. Each cell is `Missing` (NaN), `Text` or `Num`.
Number parsing (`pd.to_numeric(..., errors="coerce")`) is a parameter of
type `string -> Option<real>`. A figure is modelled by what it shows: its
file name, labels and bar heights. A missing bar is `None`, never 0. In a
run of `main`, the first exception ends the run, and the figures saved
before it are part of the outcome.

Modules, one per concern:

| file | module | what it holds |
|---|---|---|
| `results.dfy` | `Results` | `Option`, `Result` |
| `text.dfy` | `Text` | `str.strip`, integer formatting and its round trip |
| `frames.dfy` | `Frames` | cells, frames, column lookup, `to_numeric` |
| `sequences.dfy` | `Sequences` | order-preserving boolean-mask selection |
| `stats.dfy` | `Stats` | sum, mean, `rate`, `nanmax` |
| `grouping.dfy` | `Grouping` | `groupby().mean()`, descending sort, categorical means, `pivot_table` |
| `binning.dfy` | `Binning` | `pd.cut(right=False)`, `cut_bins`, adaptive distance edges, decades |
| `dicts.dfy` | `Dicts` | an insertion-ordered dict and `update` |
| `analysis.dfy` | `SurvivalAnalysis` | `main.py` |
| `graphes.dfy` | `Graphes` | `graphes.py` |

The imperative parts of `main.py` are Dafny methods proved against the
functions that specify them:

- `Binning.BuildLabels` and `Binning.CutBins`: the label loop of
  `cut_bins`, then the cut.
- `SurvivalAnalysis.Prepare`, `SurvivalAnalysis.Convert` and
  `SurvivalAnalysis.CoerceColumns`: the column reassignments of `main`.
- `SurvivalAnalysis.UpdatePrefixed`, `SurvivalAnalysis.UpdateBands` and
  `SurvivalAnalysis.BuildRecap`: the `recap.update` calls.
- `SurvivalAnalysis.Draw` and `SurvivalAnalysis.Analyse`: the sequence of
  figures.

`graphes.py` is expression code and is modelled with functions and lemmas.

Behaviour of the code that the model follows:

- The sex and status tables are sorted by descending rate
  (`sort_values(ascending=False)`), highest rate first.
- `graphes.py` has no 0/1 outcome filter. It counts every positive outcome
  as a survivor (`> 0`), so an outcome of 2 is a survivor there, while
  `main.py` drops the row.
- `graphes.py` binarises the outcome before `dropna`, so an outcome that
  does not parse counts as 0 and its row stays
  (`Graphes.UnparsedOutcomeCounted`).
- The open-ended last age band (`"80+"`) does not work as written: see
  Findings. The model keeps the failing behaviour as an error outcome.
  Behind the flag `corrected`, it also gives the corrected behaviour, with
  its properties proved.
- The "append the maximum if uncovered" guard of the adaptive edges is
  modelled, but in exact arithmetic it never fires: the last edge is always
  at least `mx + 1e-9` (`Binning.DistanceEdgesSpec`).

## Model

| member | source | states |
|---|---|---|
| Text.StripSpec | main.py:242 | `c.strip()` removes exactly the leading and trailing whitespace: the result is a slice of the input, what was removed is whitespace, and the result neither starts nor ends with whitespace |
| Text.IntToStringRoundTrip | main.py:36-39 | the decimal text of `int(a)` in a label parses back to `a` |
| Text.IntToStringInjective | main.py:36-39 | different integers never print the same |
| Frames.IndexOf | main.py:250 | `df[name]` finds the first column called `name`; none exactly when no column has that name |
| Frames.ToNumeric | main.py:250 | `to_numeric(errors="coerce")`: numbers stay, unparseable text becomes NaN, and nothing is left as text |
| Frames.ToNumericIdempotent | main.py:252-253 | coercing a coerced cell again changes nothing |
| Sequences.Filter | main.py:251 | a boolean mask keeps only rows that satisfy it and never adds rows |
| Sequences.KeptIndices | main.py:251 | the kept rows are, in their original order, exactly the rows that satisfy the mask |
| Stats.BinarySumCountsOnes | main.py:27-29 | the sum of a 0/1 column is its number of ones |
| Stats.AverageOfBinary | main.py:27-29 | the mean of a non-empty 0/1 column is the share of ones, in [0, 1] |
| Stats.Rate | main.py:27-29 | `rate` is NaN exactly for an empty column |
| Stats.RateIsPercentOfOnes | main.py:27-29 | `rate` of a non-empty 0/1 column is 100 × ones / length, in [0, 100] |
| Stats.Max | main.py:118 | `nanmax` is a value of the column and bounds every value |
| Grouping.StringLessIsStrictTotalOrder | main.py:64 | Python's `<` on strings, which orders group keys, is a strict total order |
| Grouping.InsertSorted | main.py:64 | inserting a key into an ascending list of distinct keys keeps it ascending |
| Grouping.SortedKeysSorted | main.py:64 | `groupby` lists the distinct keys in strictly ascending order |
| Grouping.SelectBinary | main.py:64 | the outcomes of one group are still 0/1 |
| Grouping.GroupMeansSpec | main.py:64 | `groupby(key).mean()` lists exactly the keys that have rows, ascending, each with the mean outcome of its rows, in [0, 1] for 0/1 outcomes |
| Grouping.Percent | main.py:64 | `100 * table` keeps the keys and scales every rate by 100 |
| Grouping.InsertByRate | main.py:64 | inserting one (label, rate) entry adds exactly that entry to the table and loses none |
| Grouping.InsertByRateDescending | main.py:64 | inserting into a table ordered by descending rate keeps it ordered by descending rate |
| Grouping.SortByRateDescending | main.py:64 | `sort_values(ascending=False)` is a permutation of the table with rates non-increasing |
| Grouping.SortByRateMembers | main.py:64 | sorting keeps the same entries and keys |
| Grouping.RankedRatesSpec | main.py:64 | the ranked rate table holds every key with rows once, highest rate first, each 100 × the mean outcome of its rows, in [0, 100] |
| Grouping.CategoryMeansSpec | main.py:82 | grouping by a binned column: an empty band is NaN, never 0; a band with rows holds its mean, in [0, 1] |
| Grouping.PercentOrMissing | main.py:82 | scaling by 100 keeps NaN as NaN and values as values |
| Grouping.Pivot | main.py:181-182 | the pivot table has one cell per (row label, column) pair |
| Grouping.PivotRowKeys | main.py:181-182 | pivot rows are the sexes present, ascending |
| Grouping.PivotColKeys | main.py:181-182 | pivot columns are the bands present, ascending (all-NaN columns are dropped) |
| Grouping.PivotSpec | main.py:181-182 | a pivot cell is NaN exactly when no row has its (sex, band) pair, otherwise the mean outcome, in [0, 1] |
| Grouping.PivotCells | main.py:181-182 | a cell is empty exactly when its (sex, band) pair occurs in no row; with 0/1 outcomes every filled cell is in [0, 1] |
| Binning.FindInterval | main.py:44 | with `right=False`, a value gets interval `i` only when `bins[i] <= v < bins[i+1]`, and none exactly when no interval holds it |
| Binning.IntervalUnique | main.py:44 | with non-decreasing bins, a value lies in at most one half-open interval |
| Binning.Cut | main.py:44 | `pd.cut` raises exactly when the bins are not monotonic, are duplicated (with more than two edges), the labels are not unique, or the label count is not the interval count; otherwise each value gets the half-open interval that holds it, or NaN |
| Binning.BinLabels | main.py:32-41 | the loop of `cut_bins` makes `len(edges) - 1` labels: `"{a}–{b-1}"`, and `"{a}+"` for the last one when `last_label_plus` |
| Binning.Bins | main.py:43 | the bins are the edges, plus `10**9` when `last_label_plus` |
| Binning.CutBins | main.py:31-44 | the label loop computes `cut_bins`' result, and with `last_label_plus` and at least one edge it raises |
| Binning.BuildLabels | main.py:32-41 | the label loop builds, for each pair of neighbouring edges, the `"a+"` label for the last one under `last_label_plus` and the `"a–(b-1)"` label otherwise |
| Binning.CutBinsWithPlusFails | main.py:31-44 | with `last_label_plus`, every call with at least one edge raises; for increasing edges the error is `len(edges) - 1` labels for `len(edges)` intervals |
| Binning.CutBinsWithoutPlus | main.py:31-44 | without `last_label_plus`, increasing edges give one label per interval and value `v` gets band `i` exactly when `edges[i] <= v < edges[i+1]` |
| Binning.EdgeLabelsDiffer | main.py:36-39 | bands that start at different edges have different labels |
| Binning.BinLabelsDistinct | main.py:32-41 | for increasing edges the labels are pairwise distinct |
| Binning.OpenEndedLabels | main.py:32-41 | corrected labels: one per band, `"{a}–{b-1}"` for closed bands and `"{a}+"` for the open one |
| Binning.OpenEndedLabelsDistinct | main.py:32-41 | the corrected labels are pairwise distinct |
| Binning.CutBinsOpenEndedSpec | main.py:31-44 | corrected `cut_bins` succeeds for increasing edges; band `i` holds exactly the values in `[edges[i], edges[i+1])`, the last band `[edges[-1], 10**9)`; a value gets a band exactly when it is at least `edges[0]` and below `10**9` |
| Binning.CutBinsOpenEndedSucceeds | main.py:31-44 | corrected `cut_bins` with increasing edges succeeds, with one label per edge and one code per value |
| Binning.CutBinsOpenEndedBands | main.py:31-44 | corrected `cut_bins`: value `k` gets band `i` exactly when it is present and lies in `[b[i], b[i+1])` of the edges extended by `10**9` |
| Binning.CutBinsOpenEndedCovers | main.py:31-44 | corrected `cut_bins`: a present value gets some band exactly when it lies in `[edges[0], 10**9)` |
| Binning.BandOf | main.py:44 | a value between the first and last bin lies in some band |
| Binning.RoundHalfEven | main.py:119 | Python's `round` gives the nearest integer, with ties going to the even one |
| Binning.RoundTenth | main.py:119 | `round(x, 1)` is within 0.05 of `x` and never positive for negative `x` |
| Binning.DistanceStep | main.py:119 | the step is 5 above 25, otherwise `max(2, round(mx/8, 1))`, so always at least 2, and exactly 2 up to 16 |
| Binning.Arange | main.py:120 | `np.arange` gives evenly spaced points from `start` |
| Binning.ArangeLength | main.py:120 | `arange(0, c*step + step, step)` has `c + 1` points, or none for negative `c` |
| Binning.ArangeIncreasing | main.py:120 | for a positive step the `np.arange` points are strictly increasing, so they are valid `pd.cut` edges |
| Binning.DistanceEdgesFail | main.py:120-122 | the adaptive edges are empty (so `edges[-1]` raises) exactly when `mx + 1e-9 <= -step` |
| Binning.DistanceEdgesSpec | main.py:120-122 | otherwise the edges start at 0, are spaced by `step`, strictly increase, and the last one is at least `mx + 1e-9` |
| Binning.DistanceEdgesCover | main.py:120-123 | every value in `[0, mx]` falls in an interval of the adaptive edges |
| Binning.Decade | graphes.py:30 | the decade key `(v // 10) * 10` is a multiple of 10 with `d <= v < d + 10` |
| Binning.DecadeUnique | graphes.py:30 | only one multiple of 10 has `v` in its decade |
| Binning.DecadeLabelInjective | graphes.py:32 | different decades never share the label `"{d}-{d+9}"` |
| Dicts.Lookup | main.py:268-282 | reading a key is NaN-free: none exactly when no entry has the key, otherwise an entry's value |
| Dicts.PutLookup | main.py:270 | after `d[k] = v`, `k` reads `v` and every other key reads as before |
| Dicts.PutKeys | main.py:270 | assignment keeps keys distinct and adds an entry exactly when the key is new |
| Dicts.PutAllFresh | main.py:273 | `update` with fresh, distinct keys appends the entries in order |
| Dicts.PutFresh | main.py:270 | assigning a fresh key appends it |
| Dicts.PutAllSnoc | main.py:273 | `update` with one more entry is the shorter `update` followed by one assignment |
| Dicts.ApartAppend | main.py:273-282 | key sets disjoint from a third stay disjoint when concatenated |
| Dicts.DistinctAppend | main.py:273-282 | concatenating key-distinct, mutually disjoint entries keeps keys distinct |
| Dicts.DistinctPrefix | main.py:273-282 | a prefix of key-distinct entries is key-distinct |
| SurvivalAnalysis.StripAll | main.py:242 | every column name is stripped, and the names keep their positions |
| SurvivalAnalysis.MissingNamesSpec | main.py:12 | the missing names are exactly the required names absent from the header, in the order of `required` |
| SurvivalAnalysis.EnsureCols | main.py:11-18 | `ensure_cols` succeeds exactly when every required name is a column; otherwise the error lists exactly the missing names, and at least one |
| SurvivalAnalysis.CoerceColumn | main.py:250 | coercing a column keeps the header and the row count |
| SurvivalAnalysis.GetCoerced | main.py:250-253 | after coercion, a coerced column reads as `to_numeric` of the original cell |
| SurvivalAnalysis.FilterAfterCoercion | main.py:250-251 | coercing the outcome and then filtering keeps exactly the raw rows whose coerced outcome is 0 or 1, in order |
| SurvivalAnalysis.OutcomeStage | main.py:250-251 | the outcome stage of `main`, stated on the frame |
| SurvivalAnalysis.CoerceStage | main.py:252-253 | each pass of the coercion loop coerces one more column of the kept rows |
| SurvivalAnalysis.CoerceColumns | main.py:252-253 | the loop over the six numeric columns leaves the kept rows coerced on every listed column, in order |
| SurvivalAnalysis.Prepare | main.py:242-253 | the header-and-coercion steps of `main` compute the prepared frame |
| SurvivalAnalysis.Convert | main.py:250-253 | the coercion, filter and coercion loop of `main` compute the kept, coerced rows |
| SurvivalAnalysis.PreparedSpec | main.py:242-253 | preparation fails exactly when a required column is missing after stripping, with those names. Otherwise the kept rows are, in file order, exactly the raw rows whose coerced outcome is 0 or 1; every kept outcome is 0 or 1 and no coerced column holds text |
| SurvivalAnalysis.OutcomesBinary | main.py:251 | after preparation every outcome is 0 or 1 |
| SurvivalAnalysis.PairsSound | main.py:61 | each row of `dropna(subset=[col])` comes from a row with a value, with its outcome |
| SurvivalAnalysis.PairsComplete | main.py:61 | every row with a value is kept by `dropna` |
| SurvivalAnalysis.PairsEmpty | main.py:62 | `tmp.empty` exactly when the column is all NaN |
| SurvivalAnalysis.PairsKeys | main.py:64 | a label is a group key exactly when some row carries it |
| SurvivalAnalysis.CodedKeys | main.py:82 | a band has rows in the grouping exactly when some kept row carries its code |
| SurvivalAnalysis.CategoryHeights | main.py:82 | banded bars: one per band, NaN exactly when the band has no row, otherwise a percentage in [0, 100] |
| SurvivalAnalysis.OverallChartSpec | main.py:48-58 | the global bar is 100 × survivors / rows, in [0, 100], and NaN only for an empty frame |
| SurvivalAnalysis.RateTableSpec | main.py:272 | the recap's per-label table holds each text label present once, ascending, with 100 × the mean outcome of its rows, in [0, 100] |
| SurvivalAnalysis.BarsOfTable | main.py:64-66 | the bars drawn from a ranked table keep its order and rates |
| SurvivalAnalysis.RankedChartSpec | main.py:60-74 | sex chart: none when no row has a text sex; else every text sex present once, highest rate first, each bar 100 × the mean outcome of that sex's rows, in [0, 100] |
| SurvivalAnalysis.CutHeights | main.py:123-124 | the bars of a successful cut: one per interval, NaN exactly when no value lies in it |
| SurvivalAnalysis.CodedBand | main.py:82 | band `i` holds a code exactly when some value lies in `[bins[i], bins[i+1])` |
| SurvivalAnalysis.AgeEdgesIncreasing | main.py:80 | the age edges with the `10**9` sentinel increase |
| SurvivalAnalysis.AgeBinsChartAsWritten | main.py:76-82 | the age chart is skipped when no row has an age, and otherwise raises; with `[0, 10, ..., 80]` the error is 8 labels for 9 intervals |
| SurvivalAnalysis.AgeBinsChartCorrected | main.py:76-82 | corrected: the age chart has the open-ended labels and one bar per band, NaN exactly when no age lies in the band |
| SurvivalAnalysis.AgeBinsChartSucceeds | main.py:76-82 | corrected: the age chart never raises, and is drawn exactly when some row has an age |
| SurvivalAnalysis.DistanceChartFailure | main.py:112-124 | the distance chart never fails in `pd.cut`; it fails only with `edges[-1]` on empty edges, which needs every distance at most `-2 - 1e-9` |
| SurvivalAnalysis.DistanceChartCrashes | main.py:118-121 | conversely, when every distance is at most `-2 - 1e-9`, the chart raises |
| SurvivalAnalysis.DistanceChartEdges | main.py:118-126 | a drawn distance chart uses the adaptive edges for `nanmax` and its step, and bars from the cut |
| SurvivalAnalysis.DistanceChartBars | main.py:112-126 | a drawn distance chart has increasing edges from 0 and one bar per interval, NaN exactly when no distance lies in it, otherwise in [0, 100] |
| SurvivalAnalysis.DistanceChartCovers | main.py:118-123 | every non-negative distance lies in some interval of a drawn chart |
| SurvivalAnalysis.FlagCoded | main.py:160-162 | a yes/no category has rows exactly when the column holds that value |
| SurvivalAnalysis.FlagChartSpec | main.py:155-163 | yes/no chart: none when the column is all NaN; else bars "Non" and "Oui", NaN exactly when no row holds 0 or 1 respectively (other values count for neither), otherwise in [0, 100] |
| SurvivalAnalysis.HeatmapAsWritten | main.py:175-180 | the heat map is skipped when no row has a text sex and an age, and otherwise raises; with `[0, 10, ..., 80]` the error is 8 labels for 9 intervals |
| SurvivalAnalysis.BandedRowsSex | main.py:176-181 | corrected: a text sex has a heat-map row exactly when some row of that sex has an age inside the bands |
| SurvivalAnalysis.BandedRowSound | main.py:176-181 | corrected: every heat-map row comes from a row with a sex and an age inside the bands, with the same sex |
| SurvivalAnalysis.BandedRowComplete | main.py:176-181 | corrected: every row with a text sex and an age inside the bands gives a heat-map row with its sex |
| SurvivalAnalysis.BandedRowsBinary | main.py:181 | the pivot's rows carry 0/1 outcomes |
| SurvivalAnalysis.HeatmapValue | main.py:175-184 | corrected: the heat map is the pivot of the banded rows, ×100, drawn when it has a row |
| SurvivalAnalysis.HeatmapDrawn | main.py:175-184 | corrected: the heat map never raises, and is drawn exactly when some row has a text sex and an age inside the bands |
| SurvivalAnalysis.HeatmapCorrected | main.py:181-199 | a drawn corrected heat map: rows are the banded sexes, ascending; the dimensions match; each cell NaN or in [0, 100] |
| SurvivalAnalysis.Prefixed | main.py:273 | each table entry becomes `prefix + key` with its rate |
| SurvivalAnalysis.UpdatePrefixed | main.py:273 | one `update` with the prefixed entries, one assignment at a time |
| SurvivalAnalysis.UpdateBands | main.py:279 | the age `update` with the bands that have a rate |
| SurvivalAnalysis.BuildRecap | main.py:268-282 | filling the recap step by step gives `RecapOf`; as written it always raises for a non-empty edge list, so the recap is never exported |
| SurvivalAnalysis.TaggedApart | main.py:273-282 | keys under different prefixes never meet |
| SurvivalAnalysis.PrefixedKeys | main.py:273 | prefixed keys of an ascending table are distinct and carry the prefix |
| SurvivalAnalysis.BandEntriesSpec | main.py:279 | each age entry is a band with a rate (`dropna`), keyed by its label |
| SurvivalAnalysis.BandEntriesComplete | main.py:279 | every band with a rate has its entry |
| SurvivalAnalysis.BandEntriesKeys | main.py:279 | age entries carry "Age:", and distinct labels give distinct keys |
| SurvivalAnalysis.BandEntriesOrdered | main.py:279 | two age entries never share a key |
| SurvivalAnalysis.RateTableSorted | main.py:272 | the recap's per-label table is in ascending key order |
| SurvivalAnalysis.TableEntriesKeys | main.py:272-273 | the sex and status entries are distinct and tagged |
| SurvivalAnalysis.RecapEntriesDistinct | main.py:268-282 | no two recap entries share a key |
| SurvivalAnalysis.TaggedPartsDistinct | main.py:268-282 | the global, `Sex:`, `Age:` and `Status:` parts, each key-distinct and told apart by their prefixes, concatenate to key-distinct recap entries |
| SurvivalAnalysis.RecapLabelsDistinct | main.py:276-279 | whenever the recap is built, its age labels are distinct |
| SurvivalAnalysis.RecapSpec | main.py:268-282 | every key is new when it is put, so the recap is the global rate, then the sexes, the age bands with a rate and the statuses, in that order, under distinct keys; the global entry is `rate` of the outcome column |
| SurvivalAnalysis.Shown | main.py:62-63 | a figure is saved exactly when its function draws one |
| SurvivalAnalysis.Draw | main.py:256-265 | the figures are drawn in order up to the first exception. Without an exception, the result is every figure that has data, in `main`'s order. As written, any age present stops the run at the age chart with at most the sex chart drawn, and the `[0, ..., 80]` error is 8 labels for 9 intervals. Corrected, only the distance chart can raise |
| SurvivalAnalysis.Analyse | main.py:240-286 | a missing column stops the run before any figure. Otherwise the global figure comes first. The recap is written exactly when no exception occurred, and it is `RecapOf`. As written, with at least one age edge, the recap is never written. Corrected, the run completes exactly when the distance chart does |
| Graphes.FirstPresent | graphes.py:83-84 | the first candidate that is a column; none exactly when no candidate is |
| Graphes.SurvivalColumnSpec | graphes.py:83-86 | the survival column is the most preferred candidate present; the KeyError listing the columns exactly when none is present |
| Graphes.BinariseSpec | graphes.py:91 | `(s > 0).astype(int)` is 1 exactly for a positive value, and 0 for NaN |
| Graphes.BinariseAll | graphes.py:91 | the binarised outcome is 0/1 |
| Graphes.DropnaCounts | graphes.py:88-93 | `dropna` keeps the parsed values, and their binarised ones count the positive values |
| Graphes.CountPresentZero | graphes.py:89 | `s.empty` exactly when no outcome parses |
| Graphes.OverallRateSpec | graphes.py:83-93 | the overall rate is positive outcomes / parsed outcomes, in [0, 1]; it fails with ValueError exactly when no outcome parses, and with the KeyError when there is no survival column |
| Graphes.DecadeRows | graphes.py:24-55 | the rows grouped have a value (non-negative for distance) and a 0/1 outcome, with NaN outcomes counted as 0 |
| Graphes.SelectDecade | graphes.py:31-56 | a decade's group is exactly its rows, and its outcomes sum to its survivors |
| Graphes.SelectDecadeCount | graphes.py:31-56 | a decade's group has one entry per row whose value lies in that decade |
| Graphes.SelectDecadeSum | graphes.py:31-56 | the outcomes of a decade's group add up to the number of its rows with a positive outcome |
| Graphes.DecadeKeys | graphes.py:31-56 | a decade is a group key exactly when some row lies in it |
| Graphes.DecadeTableSpec | graphes.py:21-57 | the per-decade table lists, ascending, exactly the decades with rows (multiples of 10), each with survivors / rows in [0, 1] |
| Graphes.OccupiedDecade | graphes.py:30 | a decade with rows is some row's decade |
| Graphes.DecadeTableFailure | graphes.py:27-53 | with both columns present, the table fails exactly when no row has a value, with the ValueError for that column |
| Graphes.UnparsedOutcomeCounted | graphes.py:24-27 | a row whose outcome does not parse still counts, as a non-survivor, in its decade |
| Graphes.SurvivorsAtMostCount | graphes.py:31 | a decade with a non-survivor has fewer survivors than rows |
| Graphes.SurvivorsBounded | graphes.py:31 | a decade never has more survivors than rows |
| Graphes.NegativeDistancesOnly | graphes.py:51-54 | the non-negative filter runs after the emptiness check, so only negative distances give an empty chart, not an error |
| Graphes.NoNonNegativeDecade | graphes.py:54 | with only negative distances no decade has rows |
| Graphes.AscendingKeys | graphes.py:31 | `sort_index` keys strictly increase |
| Graphes.DecadeLabelsDistinct | graphes.py:32-57 | the tick labels of a per-decade chart are distinct |
| Graphes.RunSpec | graphes.py:83-98 | a run draws both charts exactly when there is an outcome that parses and both columns have a value; a missing `Age` column is the KeyError; every rate reported is in [0, 1] and every chart's labels are distinct |
| Graphes.DecadeChartSound | graphes.py:21-59 | a per-decade chart plots only rates in [0, 1] under distinct tick labels |
| Graphes.RunChartsSound | graphes.py:83-98 | every chart a run saves plots rates in [0, 1] under distinct labels |

## Left out

- Plotting is left out: figure layout, annotation, colour bars, `savefig`,
  `plt.show` and `save_bar_labels`. A figure is reduced to its file name,
  labels and values.
- I/O is left out: `argparse`, `pd.read_csv` (separator, encoding, type
  inference), `os.makedirs`/`mkdir`, the CSV export of the recap, and
  printing. The graphes.py `FileNotFoundError` check is an I/O guard.
- `plot_by_wealth` and `plot_reaction_time` (main.py:137-153, 204-225) are
  not modelled. They bin with `pd.qcut`, whose edges come from pandas'
  floating-point quantile interpolation. So `Figures` and the `Draw` order
  omit figures 06 and 08, and a `qcut` ValueError (main.py:142, main.py:213)
  is not a modelled exit.
- SurvivalAnalysis.RecapOf does not model `round(..., 2)` in the recap;
  rates are exact.
- Binning.DistanceStep models `round(mx / 8, 1)` as round-half-even on
  exact reals, not on binary floats.
- Binning.Arange does not model `np.arange`'s floating-point accumulation;
  the edges are exact multiples of the step.
- Binning.EdgeLabel covers integer edges only. The `"{a}–{b}"` branch for
  non-integer `b` (main.py:41) is never reached by the integer edge lists
  `main` passes.
- Grouping.SortByRateDescending is a stable insertion sort. pandas' default
  quicksort may order equal rates differently, so the contract claims only
  descending order and a permutation.
- Interval labels of the distance chart (pandas `Interval` objects) are
  modelled by the edges.
- SurvivalAnalysis.RankedChart, SurvivalAnalysis.RateTable,
  SurvivalAnalysis.HeatmapChart and SurvivalAnalysis.RecapOf take Sex and
  Status to be text: a numeric label (a `Num` cell) is read as NaN, where
  pandas groups by the number. A Sex column coded 0/1, which `read_csv`
  loads as integers, has no chart, no recap entries and no heat-map rows in
  the model. Numeric labels are not modelled because their text (`"0"` or
  `"0.0"`) and their order (numeric) depend on the column type `read_csv`
  infers, which is left out.
- SurvivalAnalysis.RateTableSpec: "each label present" counts text labels
  only; numeric Sex or Status values form no group.
- SurvivalAnalysis.RankedChartSpec: "no chart when the column has no label"
  also covers a column of numeric labels, which pandas charts.
- SurvivalAnalysis.HeatmapAsWritten: a row with a numeric Sex counts as
  having no sex, so the heat map is skipped where pandas would reach
  `cut_bins` and raise.
- SurvivalAnalysis.BandedRowsSex: a numeric Sex value never gets a heat-map
  row, though pandas pivots on it.
- SurvivalAnalysis.BandedRowComplete: completeness covers rows with a text
  Sex only; rows with a numeric Sex are dropped.
- SurvivalAnalysis.HeatmapDrawn: "drawn exactly when some row has a sex and
  a banded age" counts text sexes only.
- Duplicate column names are not modelled: `Frames.Get` reads the first
  column with the name, where pandas would return a frame.
- `graphes.py`'s `astype(int)` on an infinite value is not modelled;
  parsed values are finite reals.
- `randomForest.py` and `testing.py` are not part of this model. They are
  scikit-learn training with randomness, and a printout.

## Findings

| source | as written | input that shows it | evidently intended | confidence | as-written member | corrected member |
|---|---|---|---|---|---|---|
| main.py:31-44 | with `last_label_plus=True` the loop builds `len(edges) - 1` labels, but the `10**9` sentinel makes `len(edges)` intervals, so `pd.cut` raises "Bin labels must be one fewer than the number of bin edges". This happens at main.py:81 and main.py:180 as soon as one row has an age, and always at main.py:277, so the recap is never written | `edges = [0, 10, ..., 80]`: 8 labels for 9 intervals; any frame with one age | one label per interval, with `"80+"` for `[80, 10**9)` | not executed | Binning.CutBinsWithPlusFails, SurvivalAnalysis.AgeBinsChartAsWritten, SurvivalAnalysis.HeatmapAsWritten | Binning.CutBinsOpenEndedSpec, Binning.OpenEndedLabelsDistinct, SurvivalAnalysis.AgeBinsChartCorrected, SurvivalAnalysis.RecapSpec |
