# Shanghai help-request dashboard: the aggregation core in Dafny

The dashboard loads a spreadsheet of help requests, one row per request. Each row has a
timestamp (`createdAt`), a county, an urgency (`helpLevel`), a request type (`type`), free-text
tags and the message (`contentText`). From these rows it drives four views:

- **Map.** A choropleth of Shanghai's counties, animated over 12-hour steps, with each frame
  showing the running number of requests per county. Two radio selectors (level and type)
  filter what the map shows.
- **Table.** The requests themselves, filtered by the same two selectors.
- **Trend.** A 15-minute request count over the rows the table currently shows.
- **Histograms and tags.** Per-county and per-level histograms of those rows, plus the tag text
  handed to a word cloud.

This project models the data logic behind those views and proves its properties:

- **Cleaning** (`Cleaning`). County aliases are rewritten. Rows outside the known regions are
  dropped, and so are rows without a timestamp. `Clean` is a loop proved against the
  specification function `Cleaned`.
- **One-hot expansion** (`Expansion`). Every observed value `v` of `helpLevel` and `type`
  becomes a 0/1 indicator column `field_v`. The two categorical columns go, and `total = 1` is
  added. `Preprocess` is the nested loop of the source, proved against the specification
  function `Expand`.
- **Selector filters** (`Filters`). The map filters on indicator columns. The table filters on
  the original values by splitting the selector at `_`. The word `全部` ("all") marks the
  sentinel selector that keeps every row.
- **County × time grid** (`Buckets`, `Grid`). The steps are:
  1. build a scaffold from the distinct counties and distinct dates;
  2. left-join the rows onto it, with zero rows for missing pairs;
  3. put each county's rows into 12-hour buckets and sum them;
  4. take the running sum per county.

  Buckets are left-closed and labelled by their start. The origin is midnight of the earliest
  date's day.
- **Table summaries** (`Trend`). 15-minute counts, histograms, and the joined tag text.
- **Wiring** (`Dashboard`). Start-up state, the map callback up to its figure, and two
  agreements between views:
  - for every radio choice, the map and the table filter the same rows;
  - the map's final frame matches the county histogram of the same rows. The map's series come
    in the same order as the histogram's bars only because the model lists both in
    first-appearance order; pandas sorts the grid's counties (see "## Left out").

Timestamps are integers (minutes since the epoch). A 12-hour bucket is 720 minutes and a day is
1440. Row order is kept everywhere. Grid cells are labelled with the bucket's start minute.

## Model

| member | source | states |
|---|---|---|
| Cleaning.Rename | src/app.py:35-36 | the corrected name is never itself an alias; a name that is not an alias is unchanged |
| Cleaning.AliasTargets | src/app.py:35-36 | `浦东区` becomes `浦东新区` and `闸北区区` becomes `闸北区`; the corrected names stay as they are |
| Cleaning.Cleaned | src/app.py:34-38 | no more rows than the input; every surviving row's county is in the region list |
| Cleaning.CleanedRows | src/app.py:36-38 | row k of the output is the renamed k-th surviving input row; surviving positions ascend (relative order kept); every row whose renamed county is a region and whose timestamp is present survives |
| Cleaning.DroppedRows | src/app.py:37-38 | a dropped row has no timestamp, or its renamed county is not a region |
| Cleaning.Clean | src/app.py:32-40 | the row-by-row loop computes exactly `Cleaned` |
| Records.IndicatorInjective | src/app.py:48 | `field_value` names are distinct for distinct (field, value) pairs |
| Records.OwnIndicator | src/app.py:48 | `field_value` is one of a row's own indicators exactly when the row's field equals the value |
| Expansion.AddFieldIndicators | src/app.py:47-48 | the inner loop appends one column per distinct value of the field, in first-seen order, and sets it on every row |
| Expansion.Preprocess | src/app.py:42-53 | the nested loop, followed by `total = 1`, computes exactly `Expand` |
| Expansion.Expand | src/app.py:42-53 | the frame has one row per cleaned row, row i carrying row i's date and county, `total` 1 and one cell per indicator column; `ExpandOneHot`, `FieldTotal` and `ColumnsDistinct` give its values |
| Expansion.ColumnsDistinct | src/app.py:46-48 | the indicator columns are pairwise distinct |
| Expansion.FieldColumnsObserved | src/app.py:46-48 | every row's own value has a column, and every column comes from an observed value |
| Expansion.ExpandOneHot | src/app.py:46-51 | on each row, `total` is 1 and for each field exactly the row's own indicator is 1 and the others are 0; the frame is 0/1 throughout |
| Expansion.IndicatorColumnTotal | src/app.py:48 | the column `field_v`, summed over the rows, counts the rows whose field is `v` |
| Expansion.FieldTotal | src/app.py:46-51 | one field's indicator columns, summed over all rows, add up to the number of rows |
| Filters.Keep | src/app.py:165-168 | the indicator filter does not add rows |
| Filters.KeepMembership | src/app.py:165-168 | a row is kept iff it is an input row whose indicator is 1 |
| Filters.KeepAppend | src/app.py:165-168 | the filter distributes over concatenation, so kept rows keep their order |
| Filters.KeepIdempotent | src/app.py:165-168 | filtering twice on one indicator equals filtering once |
| Filters.KeepCommute | src/app.py:165-168 | two indicator filters commute |
| Filters.KeepCount | src/app.py:165-168 | on 0/1 rows, the number of kept rows is the input's column sum of the selector |
| Filters.SelectRows | src/app.py:165-168 | one selector keeps the frame's columns and adds no rows; `KeepMembership` says which rows it keeps |
| Filters.MapFilter | src/app.py:165-168 | the two steps fail exactly when a non-"all" selector names a column the frame lacks; otherwise the rows are filtered by each non-"all" selector in turn, and the columns are kept |
| Filters.SelectIdempotent | src/app.py:165-168 | a selector applied twice gives what it gives once, including the sentinel and the missing-column failure |
| Filters.SelectCommute | src/app.py:165-168 | the level and type selectors commute, including where they fail |
| Filters.Matching | src/app.py:232-234 | the table filter adds no rows and keeps only rows whose field equals the value; `MatchingMembership` and `MatchingAppend` give the rest |
| Filters.MatchingMembership | src/app.py:232-234 | a row is shown iff it is an input row whose field equals the value |
| Filters.MatchingAppend | src/app.py:232-234 | the table filter distributes over concatenation, so shown rows keep their order and their repeats |
| Filters.DisplaySelect | src/app.py:230-234 | one table step adds no rows; `SelectorsAgree` gives what it keeps for a `field_value` selector |
| Filters.TableFilter | src/app.py:230-234 | the two table steps add no rows; `Dashboard.ViewsAgree` shows they always answer for the radio options |
| Filters.SplitSelector | src/app.py:232-234 | `field_value` splits at `_` back into field and value when the value has no `_` |
| Filters.KeepExpanded | src/app.py:165-168 | keeping `field_value` on expanded rows gives the expanded form of the rows whose field is the value |
| Filters.SelectorsAgree | src/app.py:230-234 | the table step keeps the rows whose field is the value; where that indicator exists, the map step keeps their expanded form; where it does not, the map step fails and no row matches |
| Filters.MatchingSubset | src/app.py:232-234 | each shown row is an input row whose field equals the value (the converse is `MatchingMembership`) |
| Text.Split | src/app.py:232 | `split` never returns an empty list; `SplitPieces`, `SplitAround` and `SplitJoin` characterise the pieces |
| Text.Join | src/app.py:271 | `",".join`: no contract of its own; `SplitJoin` and `SplitJoinRoundTrip` characterise it through `Split` |
| Text.SplitPieces | src/app.py:232 | no piece contains the separator |
| Text.SplitJoin | src/app.py:271 | splitting a join gives the pieces of every part, in order |
| Text.SplitAround | src/app.py:232 | splitting `a + sep + b` gives the pieces of `a`, then the pieces of `b` |
| Text.SplitJoinRoundTrip | src/app.py:271 | splitting a join recovers the parts when no part contains the separator |
| Buckets.DayStart | src/app.py:174 | the day start is a multiple of 1440 and at most `t`, with `t` less than a day after it |
| Buckets.BucketInterval | src/app.py:174 | `t` is in bucket `b` iff `origin + b*width <= t < origin + (b+1)*width` (left-closed) |
| Buckets.BucketMonotone | src/app.py:174 | later timestamps never fall in earlier buckets |
| Buckets.AxisOf | src/app.py:174 | origin is midnight of the earliest day; the axis runs from the earliest timestamp's bucket to the latest's, and every timestamp's bucket is on it |
| Grid.Scaffold | src/app.py:170-171 | the scaffold has one pair per distinct county and distinct date; `ScaffoldSpec` gives its members |
| Grid.PairsMembers | src/app.py:170-171 | the cross product holds exactly the (county, date) pairs with both parts among the inputs |
| Grid.PairsNoDup | src/app.py:170-171 | distinct counties and distinct dates give distinct pairs |
| Grid.PairsLength | src/app.py:170-171 | the cross product has one pair per county and date |
| Grid.ScaffoldSpec | src/app.py:170-171 | the scaffold has no repeated pair, holds every row's key, and is exactly the counties × dates of the filtered rows |
| Grid.Merge | src/app.py:173 | the left join gives at least one row per scaffold pair; `MergeKeys` and `MergeSum` give its keys and sums |
| Grid.MatchesKey | src/app.py:173 | the rows joined to a pair carry that pair's key, and a pair that some row carries is joined to at least one row |
| Grid.MergeKeys | src/app.py:173 | every merged row has a scaffold key, and every scaffold pair has at least one merged row |
| Grid.JoinPairSum | src/app.py:173 | joining one pair adds the sum of that pair's rows (the zero row adds nothing) |
| Grid.MergeSum | src/app.py:173 | summing over the left join equals summing over the rows whose key is in the scaffold |
| Grid.MergeSlot | src/app.py:173 | scaffolding and merging leave every (county, bucket) sum as it is on the filtered rows |
| Grid.SeriesOfMerge | src/app.py:173-174 | the per-bucket series of the merged rows equals that of the filtered rows |
| Grid.SlotInterval | src/app.py:174 | a row is in a county's bucket iff the county matches and its date lies in that left-closed 12-hour interval |
| Grid.SeriesSum | src/app.py:174 | a county's bucket sums add up to the sum over the covered buckets |
| Grid.SumAtCounts | src/app.py:173-174 | with `total = 1`, a bucket's `total` sum is its number of rows of that county |
| Grid.SeriesCounts | src/app.py:173-174 | the per-bucket (pre-cumsum) `total` equals the county's number of rows in that bucket |
| Grid.BuildGrid | src/app.py:170-174 | one series per distinct county of the filtered rows; `GridShape`, `GridCell`, `GridMonotone` and `GridFinal` give the cells |
| Grid.GridShape | src/app.py:170-174 | the grid has one series per county present in the filtered rows and none for absent ones; each series has one cell per 12-hour bucket from the earliest to the latest, carrying county, bucket index and bucket start |
| Grid.GridCell | src/app.py:174 | a cell's `total` and each indicator are the running sums of its county's bucket sums over the filtered rows, and its indicator keys are the frame's columns |
| Grid.RunningCount | src/app.py:173-174 | bucket by bucket, the running `total` grows by the county's number of rows in that left-closed bucket |
| Grid.GridMonotone | src/app.py:174 | running `total` and every indicator never decrease along a county's series |
| Grid.SeriesFinal | src/app.py:174 | the last running sum is the county's total over all filtered rows |
| Grid.GridFinal | src/app.py:174 | at the last bucket, `total` is the county's number of filtered rows and each indicator is its column sum for the county |
| Trend.TrendPoints | src/app.py:255 | the trend is empty exactly when there are no rows; `TrendShape`, `TrendBucketCount` and `TrendTotal` give its points |
| Trend.CountBucket | src/app.py:255 | the number of timestamps given bucket `b` is the number in that bucket's left-closed 15-minute interval |
| Trend.TrendShape | src/app.py:255 | empty input gives no points; otherwise one point per bucket from the earliest timestamp's to the latest's, labelled by the bucket start, 15 minutes apart |
| Trend.TrendPointAt | src/app.py:255 | point k is the k-th bucket's start and the multiplicity of that bucket index |
| Trend.TrendBucketCount | src/app.py:255 | every point's count is the number of rows in `[start, start + 15)` |
| Trend.TrendTotal | src/app.py:255 | the 15-minute counts sum to the number of rows |
| Trend.HistogramOf | src/app.py:258-259 | one count per bar; `HistogramSpec` gives the bars and their heights |
| Trend.HistogramSpec | src/app.py:258-259 | the bars are the distinct observed values, each with its positive occurrence count, and the counts sum to the number of rows |
| Trend.PresentTags | src/app.py:271 | no more tags than rows; `PresentTagsAppend` and `PresentTagsOne` fix the result, order and repeats included |
| Trend.TagText | src/app.py:271 | the joined tag text: no contract of its own; `TagTextEmpty` and `TagTextTerms` characterise it |
| Trend.PresentTagsAppend | src/app.py:271 | filtering tags distributes over concatenation, so kept tags keep their order and their repeats |
| Trend.PresentTagsOne | src/app.py:271 | a single tag is kept once when it is present and non-empty, and dropped otherwise |
| Trend.PresentTagsSpec | src/app.py:271 | every kept tag is a non-empty input tag, and every present, non-empty input tag is kept |
| Trend.TagTextEmpty | src/app.py:271 | when every tag is missing or empty, the text is empty |
| Trend.TagTextTerms | src/app.py:271 | splitting the text at `,` gives the pieces of the kept tags in order, and exactly the kept tags when none contains a comma |
| Trend.UpdateHistogram | src/app.py:244-271 | the callback fails exactly on an empty table; each histogram has at most one bar per row |
| Trend.SummaryTotals | src/app.py:244-259 | the callback fails exactly on an empty table; otherwise trend, county histogram and level histogram each count every row once |
| Dashboard.LoadState | src/app.py:57-61 | the table rows are the cleaned rows; the frame is their expansion, row i of it built from row i of the table, and it is 0/1 throughout |
| Dashboard.DisplayChoropleth | src/app.py:158-174 | the map fails exactly when a non-"all" selector names a column the frame lacks; otherwise it is the grid of the frame's rows filtered by each non-"all" selector |
| Dashboard.ChoicesHaveNoUnderscore | src/app.py:71-81 | no radio option's value part contains `_` |
| Dashboard.StepAgrees | src/app.py:230-234 | for one radio option, the table step always answers; where the map step fails, it keeps nothing; otherwise the map step keeps the expanded form of the rows the table step keeps |
| Dashboard.ViewsAgree | src/app.py:230-234 | for every pair of radio choices, the table always answers; where the map fails, the table is empty; otherwise the map is drawn from the expanded form of exactly the table's rows |
| Dashboard.GridMatchesHistogram | src/app.py:174 | on the same non-empty rows, the grid has one series per county bar in the same order, and each series ends at that bar's height |
| Dashboard.MapMatchesHistogram | src/app.py:174 | for every pair of radio choices with a non-empty table, the map answers, and its final frame matches the county histogram of the table's rows |

## Left out

- Spreadsheet and boundary-file reading (`read_geojson`, `pd.read_excel`) is not modelled. These are file I/O, so the region list and the raw rows are parameters.
- The Dash layout, the callback registration, the server, and the table's own sort, filter and paging are not modelled. The table filter is modelled only through the two radio selectors.
- Plotly figure construction is not modelled: the choropleth, the subplots, the scatter and histogram traces, and the animation settings. The model stops at the numbers those figures consume.
- The colour value `log2(total + 1)` and the colour range `[5, log2(total).max()]` are not modelled, because they are floating point. They are also not symmetric: the range's upper end has no `+ 1`, so the largest colour value can exceed it.
- `plotly_wordcloud` is not modelled, because `src/util_wcloud` is not part of this model. The model stops at the joined string it receives.
- Timestamp parsing (`pd.to_datetime`) and the date-to-string cast of the grid labels are abstracted. Timestamps are integer minutes and labels are bucket-start minutes.
- The in-place mutation of the caller's frame is not modelled. `preprocess` adds columns to the frame it is given. The model returns new values instead, which loses no observable effect, because the shown table is cut back to its display columns.
- Grid.BuildGrid: counties appear in first-appearance order, whereas pandas `groupby` sorts the keys. Only the order of the series differs.
- Trend.HistogramOf: bars appear in first-appearance order. Plotly's own bar ordering is a rendering choice and is not modelled.
- Missing county, level or type cells (`NaN`) are not modelled. Those values are plain strings in the model, and a missing tag is `None`.
- The selector split takes pieces 0 and 1 of `sel.split("_")`. A selector naming a column other than `helpLevel` or `type` is modelled as a failure (`None`); the radio options never produce one.
- An empty filtered set gives an empty grid. What pandas would then draw is not modelled.
- The model follows the code in these places, even where a plain reading of the dashboard suggests otherwise:
  - Buckets are left-closed. An event exactly at a bucket boundary counts in the later bucket.
  - Only counties present in the filtered rows get a series.
  - The table callback on an empty table fails with `KeyError`, because an empty frame has no `createdAt` column. It is modelled as `None`, not as an empty summary.
  - The map callback fails with `KeyError` when the chosen indicator column was never created, while the table then simply shows no rows. `Dashboard.ViewsAgree` states exactly this.
