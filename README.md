# Field sample dashboard: a verified model of its data pipeline

The dashboard compares field sample measurements (`Sample Avg Value`) of the current year with
those of chosen historical years. Each chart shows one sample category over a year-free time
axis made of half-months. This project models the dashboard's data pipeline in Dafny:

- **Loading** (`Loader`). The two sample tables are concatenated. `Date-Time` is parsed, and
  the rows where parsing fails are dropped.
- **Filtering** (`FilterEngine`). There are optional site, category and fuel-type selections.
  An empty selection means no restriction. The month selection is always applied. The filter
  also adds the derived `Month`, `Year` and `AlignDate` columns.
- **Half-month alignment** (`Aligner`). Each date maps to day 1 or day 15 of its month in the
  year 2000.
- **Aggregation** (`Aggregator`). The rows are grouped by (AlignDate, Category) with an
  accumulator map. The current year's rows get a mean per group. The historical years' rows get
  a mean when exactly one historical year is selected, and mean, minimum and maximum otherwise.
  The categories charted are those of the current summary.

It also models the companion utility that produced the two sample tables (`FetchSamples`). That
utility builds the download URL's query string, renames the columns positionally and drops
unparseable dates. It then splits the rows at the 2014/2015 year boundary, with a helper `Year`
column that is dropped again.

Supporting modules:
- `Seqs`: boolean-mask selection (`Filter`), column computation (`Map`), parse-and-drop (`FilterMap`), and lemmas about them.
- `Stats`: sum, mean, minimum and maximum.
- `Dates`: valid calendar dates and the abstract date parser.
- `Samples`: the sample record.
- `Examples`: worked examples, and the whole pipeline as one method.

The pandas steps that rewrite a table become methods that rebind a local sequence. Most source
statements get one statement each, with three exceptions. In `Loader.LoadData`, the parse and
the drop of unparseable rows are one `FilterMap`, and the time-zone stripping has no statement
of its own. In `FilterEngine.FilterData`, the month filter selects on the timestamp's month
directly, and the three derived columns (`Month`, `Year`, `AlignDate`) are added by one `Map`
after it. The source adds `Month` and `Year` before the month filter and `AlignDate` after it;
the resulting rows are the same. The grouping has two forms. `Aggregator.Grouped` is a fold,
and the summaries and `Examples.Dashboard` use it. `Aggregator.GroupStats` is an explicit loop
that updates an accumulator map and is proved equal to the fold. Values are exact reals.

The code and the system's design description disagree in two places; the model follows the
code:
- The description says a selection with every field empty returns the input unchanged. The code
  always applies the month filter, so an empty month selection keeps nothing
  (`FilterEngine.NoMonthsSelectNothing`). Every row is kept only when all twelve months are
  selected (`FilterEngine.UnrestrictedSelectionKeepsAll`).
- The description names the two halves of a month 1 and 2. The code places them at day 1 and
  day 15 of the same month in the year 2000 (`Aligner.ToHalfMonth`).

## Model

| member | source | states |
|---|---|---|
| Samples.CoerceKeepsRow | app.py:17-18 | a row survives coercion exactly when its timestamp parses; the coerced row carries the parsed date and every other column unchanged |
| Loader.LoadData | app.py:14-18 | the loaded frame is the parse-and-drop of source 1 followed by source 2; it equals source 1's surviving rows followed by source 2's |
| Loader.LoadedRows | app.py:16-18 | the loaded rows are, one for one and in order, the input rows whose timestamp parses; they form a subsequence of the concatenation, each parseable row kept exactly as often as it occurs, and no row whose timestamp fails |
| Loader.NoDeduplication | app.py:16 | concatenating a source with itself loads every surviving row twice |
| Loader.UnparseableSourceDropped | app.py:17-18 | a source in which no timestamp parses contributes nothing, and loading does not fail |
| Aligner.BucketOfDate | app.py:48-49 | the bucket is a half-month start of year 2000 in the date's month: day 1 exactly for days 1-14, and day 15 exactly for days 15-31 |
| Aligner.SameBucket | app.py:48-49 | two dates share a bucket if and only if they have the same month and lie in the same half |
| Aligner.YearInvariant | app.py:49 | the bucket does not depend on the year |
| Aligner.BucketsAreFixedPoints | app.py:49 | every half-month start is its own bucket |
| Aligner.AlignIdempotent | app.py:48-50 | aligning an aligned date changes nothing |
| FilterEngine.FilterData | app.py:36-50 | the step-by-step filter gives the derived rows of exactly the admitted rows, in order; each result row is admitted, its month is selected, and its AlignDate is the half-month of its timestamp |
| FilterEngine.AlignedRowsAdmitted | app.py:44-50 | every derived row's sample satisfies all four predicates, its Month is selected, and its AlignDate is the bucket of its timestamp |
| FilterEngine.SiteStep | app.py:37-38 | the conditional site step keeps exactly the rows the site predicate admits |
| FilterEngine.CategoryStep | app.py:39-40 | after the site step, the conditional category step keeps exactly the rows that both predicates admit |
| FilterEngine.FuelTypeStep | app.py:41-42 | after the first two steps, the conditional fuel-type step keeps exactly the rows that all three predicates admit |
| FilterEngine.SelectionPerColumn | app.py:37-42 | an empty site, category or fuel-type selection leaves that column unrestricted; a non-empty one admits only rows whose value is present and selected |
| FilterEngine.SelectedIsSubsequence | app.py:36-46 | the filtered rows are an order-preserving subsequence of the loaded rows |
| FilterEngine.SelectedExactly | app.py:36-46 | every admitted row is kept exactly as often as it occurs, and no other row is kept |
| FilterEngine.SelectedIdempotent | app.py:36-46 | filtering again with the same selection changes nothing |
| FilterEngine.NoMonthsSelectNothing | app.py:44-46 | an empty month selection keeps no row |
| FilterEngine.UnrestrictedSelectionKeepsAll | app.py:36-46 | with no site, category or fuel-type selection and all twelve months selected, every row is kept |
| Aggregator.MembersExist | app.py:61 | a group has member values if and only if some row carries its (AlignDate, Category) key |
| Aggregator.KeysAreGroups | app.py:61 | the groups are exactly the keys of the rows that have a category |
| Aggregator.GroupedMeaning | app.py:61-65 | the accumulator map has an entry exactly for each group with rows; each entry's count, sum, minimum and maximum are those of exactly that group's values |
| Aggregator.AddRowSummarises | app.py:61-65 | one accumulator step keeps the map summarising the rows seen so far, with the new row counted in its own group only |
| Aggregator.GroupStats | app.py:61-65 | the accumulator loop computes the grouped statistics of all rows |
| Aggregator.GroupMeans | app.py:61-63 | the mean table has an entry exactly for each group with rows, equal to the mean of that group's values |
| Aggregator.GroupBands | app.py:65 | the band table has an entry exactly for each group with rows, holding that group's mean, minimum and maximum |
| Aggregator.SelectedGroupExists | app.py:58-59 | after a year selection, a group exists if and only if some selected row carries its key |
| Aggregator.CurrentSummary | app.py:58-61 | there is one entry per group with at least one current-year row; its value is the mean of exactly the current-year values of that group |
| Aggregator.HistoricalSummary | app.py:59-65 | the summary is mean-only if and only if exactly one historical year is selected; it has an entry exactly for each group with a historical row; the entry is the mean, or the (mean, min, max), of exactly that group's historical values |
| Aggregator.Summarize | app.py:55-67 | the result is the no-data report if and only if the filtered rows are empty |
| Aggregator.BandsOrdered | app.py:64-65 | with zero or several historical years, every band satisfies min <= avg <= max |
| Aggregator.EmptyHistory | app.py:59-65 | with no historical rows the historical summary is empty rather than an error: an empty mean table for one year selected, an empty band table otherwise |
| Aggregator.NoHistoricalYears | app.py:62-65 | selecting no historical year gives the band shape with no entries |
| Aggregator.CurrentYearAlsoHistorical | app.py:58-59 | when the current year is also a historical year, every current row is also historical and every current group has a historical entry |
| Aggregator.CurrentCategories | app.py:67 | a category is charted if and only if some current-year row has it |
| Aggregator.ReportedCategories | app.py:55-67 | for non-empty filtered rows the report is a summary whose categories are exactly those of current-year rows, so a historical-only category never appears |
| Aggregator.SingleYearData | app.py:58-65 | when every row is from the current year and no historical year is selected, the band is empty and the current summary covers every group of the data |
| Stats.MinMaxBound | app.py:65 | the minimum and maximum are values of the group and bound all of its values |
| Stats.SumBetween | app.py:65 | n times the minimum <= the sum <= n times the maximum |
| Stats.MeanBetween | app.py:65 | minimum <= mean <= maximum |
| Examples.CurrentMeanExample | app.py:58-61 | values 10 and 20 on 2020-03-05 and 2020-03-12, category A, give the current mean 15 for bucket (March, day 1) |
| Examples.BandExample | app.py:62-65 | values 5 (2018) and 15 (2019) in one group give the band (10, 5, 15) for two historical years, and the mean-only shape for one |
| Examples.Dashboard | app.py:14-67 | the pipeline's report is the summary of the derived rows of the selected loaded rows; it is the no-data report exactly when no loaded row is selected |
| Examples.SingleYearRoundTrip | app.py:14-65 | loading single-year data with an unrestricted selection and summarising with that year and no historical year gives an empty band and a current entry for every group of the loaded data |
| FetchSamples.SplitJoin | fetch_fuel_samples.py:23 | splitting a join by its separator gives the parts back, when no part contains the separator |
| FetchSamples.JoinSplit | fetch_fuel_samples.py:23 | joining the pieces of a split gives the string back |
| FetchSamples.QueryRoundTrip | fetch_fuel_samples.py:23 | the query string is the unencoded `key=value` parts in parameter order joined by `&`; it reads back as exactly the parameter list |
| FetchSamples.FullUrlOfParams | fetch_fuel_samples.py:5-24 | the URL is the base URL, then `?`, then a query string that reads back as the thirteen parameters in insertion order |
| FetchSamples.ColumnsDistinct | fetch_fuel_samples.py:27-30 | the ten canonical names are distinct: each is found at its own position |
| FetchSamples.RenameIsPositional | fetch_fuel_samples.py:27-30 | after the rename, the column named `COLUMNS[j]` holds the downloaded table's j-th column |
| FetchSamples.CoerceKeepsOtherCells | fetch_fuel_samples.py:31 | parsing `Date-Time` changes no other cell and keeps the row's length |
| FetchSamples.RetainedRows | fetch_fuel_samples.py:31-32 | the kept rows are exactly the rows whose `Date-Time` parses, in their original order and with the date parsed; every kept row has a timestamp |
| FetchSamples.RetainedRectangular | fetch_fuel_samples.py:31-32 | the kept rows keep one cell per column |
| FetchSamples.YearNotCanonical | fetch_fuel_samples.py:27-33 | `Year` is not a canonical column, so it sits after the ten canonical columns |
| FetchSamples.YearMasksAgree | fetch_fuel_samples.py:33-37 | on a kept row, the masks on the `Year` cell agree with the timestamp's year |
| FetchSamples.SplitCovers | fetch_fuel_samples.py:36-37 | `recent` and `older` together hold every kept row, as often as it is kept |
| FetchSamples.SplitDisjoint | fetch_fuel_samples.py:36-37 | no row is in both `recent` and `older` |
| FetchSamples.SplitPartitions | fetch_fuel_samples.py:33-37 | `recent` holds the rows from 2015 on and `older` those up to 2014; they are disjoint, they cover the kept rows, and each preserves order |
| FetchSamples.DropYearColumn | fetch_fuel_samples.py:36-37 | dropping `Year` leaves the canonical columns and removes each row's last cell |
| FetchSamples.SubsetUndone | fetch_fuel_samples.py:33-37 | appending the `Year` cell and dropping it again gives every kept row back |
| FetchSamples.RecentRowsAre | fetch_fuel_samples.py:33-36 | the filter-and-drop step for `recent` gives exactly the kept rows from 2015 on |
| FetchSamples.OlderRowsAre | fetch_fuel_samples.py:33-37 | the filter-and-drop step for `older` gives exactly the kept rows up to 2014 |
| FetchSamples.KeptRowsShape | fetch_fuel_samples.py:31-33 | every kept row has a parsed timestamp and one cell per canonical column |
| FetchSamples.SplitFramesAre | fetch_fuel_samples.py:33-37 | after the `Year` column is added, split on and dropped, the two frames are the recent and older rows under the canonical columns |
| FetchSamples.YearColumnDropped | fetch_fuel_samples.py:33-37 | the helper `Year` column is in neither output; each output row has exactly the ten canonical cells |
| FetchSamples.SplitByYear | fetch_fuel_samples.py:27-37 | a column count other than ten is the rename's length-mismatch error and the only failure; otherwise the results are the canonical-column frames of the rows from 2015 on and of the rows up to 2014 |

## Left out

- Reading the CSV files and the HTTP download (`pd.read_csv`), writing the split files (`to_csv`), the printed messages, and the `st.cache_data` memoisation are not modelled. The downloaded or loaded tables are parameters, and the split frames are results.
- The Streamlit widgets and their defaults (app.py:25-33) are not modelled. The selections are parameters of the model.
- The plotting, the colour palette, the axis formatting and the download buttons (app.py:68-114) are not modelled. These are presentation only.
- Timestamp parsing (`pd.to_datetime`) and `tz_localize(None)` are an abstract parser parameter, `DateParser`, that yields calendar dates. The time of day and the UTC offset are not represented, because only the year, month and day take part in any computation.
- `DateParser` is applied to one cell at a time. Without a `format`, pandas infers one format for the whole concatenated column, so whether a row of source 2 parses can depend on the rows of source 1. The second ensures of `Loader.LoadData` and `Loader.UnparseableSourceDropped` rely on parsing cell by cell.
- FetchSamples.ToDatetime: a parsed `Date-Time` cell holds only the calendar date. The utility never strips the time zone, so its `recent` and `older` frames keep each timestamp's time of day and offset; the model drops both. The year split reads the wall-clock year and is unaffected.
- Pandas timestamps cover only about the years 1677 to 2262. The model places no bound on the year.
- `Sample Avg Value` is an exact real. IEEE rounding of the mean is not modelled, and neither are NaN values, which pandas would skip in `mean`, `min` and `max`.
- Stats.MeanBetween: states min <= mean <= max for exact reals only. With floating-point rounding the computed mean could in principle fall just outside the band.
- The order of rows in the grouped outputs (pandas sorts them by key) and the order of `categories_used` (first appearance) are not modelled. The summaries are maps and the category list is a set.
- Rows with a missing `Category` belong to no group (`Aggregator.KeyOf`), matching groupby's dropping of null keys. A missing `Site Name`, `Fuel Type` or `Category` never matches a non-empty selection (`FilterEngine.IsIn`).
- FetchSamples.ToDatetime: a cell that is neither text nor a timestamp becomes NaT, whereas pandas would read a number as an epoch offset. The cell types of `pd.read_csv`'s inference are not modelled: every downloaded cell is text or empty.
- FetchSamples.SplitByYear: requires every downloaded row to have one cell per column. The CSV reader guarantees this shape; ragged input is its concern and is not modelled.
- FetchSamples.DropColumn: requires the dropped column to exist (pandas raises otherwise). The utility only drops the `Year` column it has just added.
