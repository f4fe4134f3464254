# Bicycle rental dashboard: the row-level pipeline

A model, in Dafny, of the data pipeline inside the Streamlit dashboard
`app.py` of the bicycle-rental analysis. The script loads a daily table (one
row per date) and an hourly table (one row per date and hour), lets the user
pick a start and an end date and then, on every run:

1. keeps the daily rows dated between the two bounds, both included;
2. keeps the hourly rows whose date is one of those days, through an inner
   `merge` on `dteday`;
3. adds label columns: the season name, the calendar year, the day category
   (`categorize_day`: holiday, weekend or working day, in that priority) and
   the weather description;
4. computes what the charts draw: the mean rental count per hour, the casual
   and registered totals, the mean per day category and per season (the bar
   charts' mean estimator), the mean per (rush hour, weather label) and the
   mean per (year code, season label) with the year code relabelled 2011/2012.

Everything is modelled as pure functions over sequences of rows:

- `wrappers.dfy` (`Wrappers`): `Option`, whose `None` plays the part of a
  pandas NaN label.
- `tables.dfy` (`Tables`): boolean-mask selection, column sums, column
  minimum and maximum, with their laws.
- `records.dfy` (`Records`): the two row types, the earliest and the latest
  date (the date pickers' bounds and defaults).
- `datefilter.dfy` (`DateFilter`): the date filter and the inner merge.
- `labels.dfy` (`Labels`): the label dictionaries, `categorize_day` and the
  enrichment of both tables.
- `grouping.dfy` (`Grouping`): `groupby(...)[col].mean()` with exact means
  and pandas' default dropping of rows whose key is missing.
- `aggregates.dfy` (`Aggregates`): the aggregation behind each chart.
- `dashboard.dfy` (`Dashboard`): one complete run with the two dates as
  inputs, and the end-to-end properties (empty ranges, default range).

Representation choices:

- Dates are day ordinals (`int`), compared as Python `date`s are.
- A mean is the exact pair `Mean(sum, count)`; `Value()` is the real
  quotient `sum / count`. No floating point.
- A code outside a label dictionary gives `None`; the row is kept.
- A grouped result is a `map` from the group key to its mean.
- The inner merge keeps the hourly table's order and repeats an hourly row
  once for each daily row with its date, as pandas 2.2 and later does. When the daily table
  has one row per date (true of the loaded data), the merge is a plain
  selection (`JoinIsSelection`).
- With `start > end` the source shows an error in the sidebar and filters
  with those bounds anyway. The model does the same, so the result is empty
  (`InvertedRangeIsEmpty`).

## Model

| member | source | states |
|---|---|---|
| `Records.MinDate` | app.py:28 | the earliest daily date: present exactly when the table is non-empty, one of its dates, and no later than any row's date |
| `Records.MaxDate` | app.py:29 | the latest daily date: present exactly when the table is non-empty, one of its dates, and no earlier than any row's date |
| `DateFilter.FilterByDate` | app.py:60-62 | a daily row is in the result iff it is in the table and `start <= dteday <= end`; never more rows than the table; empty when `start > end` |
| `DateFilter.FilterByDateKeepsOrder` | app.py:60-62 | filtering a concatenation is the concatenation of the filtered parts, so surviving rows keep their relative order |
| `DateFilter.FilterByDateMultiplicity` | app.py:60-62 | an in-range row occurs in the result as often as in the table, any other row never: no row is invented or duplicated |
| `DateFilter.DefaultRangeIsIdentity` | app.py:28-62 | with start and end at the pickers' defaults (earliest and latest date) the filter returns the table unchanged |
| `DateFilter.MatchesPositive` | app.py:63-65 | the number of daily rows an hourly date matches is positive iff the date is among the daily dates, and at most the daily row count |
| `DateFilter.InnerJoinOnDate` | app.py:63-65 | every merged row is an hourly row whose date is a daily date; no daily rows give no merged rows (membership both ways in `JoinMembership`, counts in `JoinMultiplicity`, order in `JoinKeepsOrder`) |
| `DateFilter.JoinMembership` | app.py:63-65 | an hourly row is in the merge iff it is in the hourly table and its date is a daily date; an empty set of daily dates gives an empty merge |
| `DateFilter.JoinMultiplicity` | app.py:63-65 | each hourly row occurs in the merge (its occurrences in the hourly table) times (the daily rows with its date) times |
| `DateFilter.DistinctMatchesAtMostOne` | app.py:63-65 | with one daily row per date, an hourly date matches at most one daily row |
| `DateFilter.JoinIsSelection` | app.py:63-65 | with one daily row per date the merge equals selecting, in order, the hourly rows whose date is a daily date |
| `DateFilter.SelectedCopies` | app.py:63-65 | with one daily row per date an hourly row is copied once when its date is present and not at all otherwise |
| `DateFilter.JoinCountBound` | app.py:63-65 | with one daily row per date the merge has no more rows than the hourly table |
| `DateFilter.JoinKeepsOrder` | app.py:63-65 | merging a concatenation of hourly tables concatenates the merged parts: the hourly order is kept |
| `DateFilter.FilterKeepsDistinctDates` | app.py:60-62 | a selection of a daily table with one row per date still has one row per date |
| `Labels.SeasonLabel` | app.py:72-73 | a season code gets a label iff it is 1..4, and the label's code is the given code (1 Spring, 2 Summer, 3 Fall, 4 Winter) |
| `Labels.SeasonCodeRoundTrip` | app.py:72 | every season is the label of its own code |
| `Labels.YearLabel` | app.py:76 | a `yr` code gets a year iff it is 0 or 1, and that year is 2011 + code |
| `Labels.WeatherLabel` | app.py:89-95 | a `weathersit` code gets a label iff it is 1..4, and the label's code is the given code |
| `Labels.WeatherCodeRoundTrip` | app.py:89-94 | every weather label is the label of its own code |
| `Labels.LabelNamesDistinct` | app.py:72-94 | distinct season, weather or day-category labels are distinct strings, so grouping by label string is grouping by label |
| `Labels.CategorizeDay` | app.py:79-85 | Holiday iff `holiday == 1` (whatever `workingday` is); Weekend iff `holiday != 1` and `workingday == 0`; Workday iff `holiday != 1` and `workingday != 0` |
| `Labels.EnrichDays` | app.py:72-86 | same number of rows, each row's original columns unchanged, plus its season label, year and day category |
| `Labels.EnrichHours` | app.py:89-95 | same number of rows, each row's original columns unchanged, plus its weather label |
| `Labels.EnrichDaysRoundTrip` | app.py:73-86 | dropping the added columns gives back the daily table |
| `Labels.EnrichHoursRoundTrip` | app.py:95 | dropping the added column gives back the hourly table |
| `Labels.EnrichDaysConcat` | app.py:73-86 | enrichment is row by row: enriching a concatenation concatenates the enriched parts |
| `Grouping.GroupKeys` | app.py:143 | a key is present iff some row has it; rows with a missing key contribute none |
| `Grouping.Members` | app.py:143 | a row is in group `k` iff it is in the table and its key is `k` |
| `Grouping.GroupMean` | app.py:101 | one entry per key present, its count the (positive) number of rows of the group and its sum the sum of the column over them |
| `Grouping.MeanValueBetween` | app.py:101 | a mean whose count times `lo` and `hi` brackets its sum has its value between `lo` and `hi` |
| `Grouping.GroupMeanBetween` | app.py:101 | every group mean lies between the values of two rows of that group, the group's smallest and largest |
| `Grouping.GroupExtremes` | app.py:101 | gives two rows of the group whose values are the group's smallest and largest, and which bracket the group mean |
| `Grouping.GroupCountBound` | app.py:143 | there are never more groups than rows |
| `Aggregates.HourlyAverage` | app.py:101 | an entry exactly for each `hr` present; its count is the number of rows of that hour and its sum their total `cnt` |
| `Aggregates.HourlyAverageBetween` | app.py:101 | gives the rows of an hour with the smallest and the largest `cnt`; the hour's mean lies between them |
| `Aggregates.HourNineExample` | app.py:101 | three 09:00 rows with counts 10, 20, 30 give mean 60/3 = 20 |
| `Aggregates.UserSplit` | app.py:115-116 | the casual and registered totals; both 0 for an empty table, a single day's own `casual` and `registered` for a one-row table (with `UserSplitConcat` this fixes both totals) |
| `Aggregates.UserSplitConcat` | app.py:115-116 | totals over a concatenation are the sums of the parts' totals |
| `Aggregates.UserSplitCoversCnt` | app.py:115-118 | when each day's `cnt` is casual plus registered, the two pie slices add up to the total `cnt` |
| `Aggregates.DayCategoryMeans` | app.py:129-130 | an entry exactly for each day category present; its count is the (positive) number of days of that category and its sum their total `cnt` |
| `Aggregates.RushRows` | app.py:141-142 | an hourly row is kept iff it is in the table and its `hr` is 7, 8, 9, 16, 17 or 18; never more rows |
| `Aggregates.HourWeatherMeans` | app.py:143 | an entry for (h, w) iff some row has hour h and weather label w; rows without a label contribute none; each entry's count and sum are those of its group's rows |
| `Aggregates.RushWeatherMeans` | app.py:141-143 | every key's hour is a rush hour; each entry's count and sum are those of the rush-hour rows with its hour and label (keys in `RushWeatherKeys`, bounds in `RushWeatherMeanBetween`) |
| `Aggregates.RushWeatherKeys` | app.py:141-143 | (h, w) is in the rush-hour table iff h is a rush hour and some hourly row at h has label w |
| `Aggregates.UnlabelledWeatherDropped` | app.py:143 | a row with a missing weather label is in no rush-hour group |
| `Aggregates.RushWeatherMeanBetween` | app.py:141-143 | gives the rows with that hour and label of smallest and largest `cnt`; the group's mean lies between them |
| `Aggregates.SeasonMeans` | app.py:158-159 | an entry exactly for each season label present; its count is the (positive) number of days with that label and its sum their total `cnt` |
| `Aggregates.SeasonYearMeans` | app.py:168-169 | a row for (y, s) iff some day has `yr` y and season label s; each row carries its keys, the count and `cnt` total of its days and the year label of y |
| `Aggregates.SeasonYearKeysInPairs` | app.py:168 | with every `yr` 0 or 1, every key is one of the eight (year code, season) pairs |
| `Aggregates.SeasonYearAtMostEight` | app.py:168-169 | with every `yr` 0 or 1 there are at most 8 rows, each with year 2011 + `yr` |
| `Aggregates.SeasonYearCoversPairs` | app.py:168 | when all eight pairs occur among the days, each is a key |
| `Aggregates.SeasonYearExactlyEight` | app.py:168 | two years covering all four seasons give exactly 8 rows |
| `Dashboard.Render` | app.py:60-169 | a run's daily rows are exactly the loaded rows dated in [start, end]; its hourly rows exactly the loaded rows whose date is such a day's date |
| `Dashboard.RangeOutsideDataIsEmpty` | app.py:60-169 | a range holding no loaded date gives empty tables, no groups and zero totals |
| `Dashboard.InvertedRangeIsEmpty` | app.py:54-62 | a start after the end only warns, and the run is empty |
| `Dashboard.DefaultRangeKeepsAll` | app.py:41-65 | with the default dates every daily row is kept in order, the row count is unchanged, and the hourly rows are the merge with the whole daily table |
| `Dashboard.HoursAreSelection` | app.py:60-65 | with one daily row per date a run's hourly rows are an in-order selection of the hourly table, never more rows |

## Left out

- Page setup, sidebar widgets, spacers and the error banner (app.py:9-10, 34-55): user interface. The two picked dates are inputs of `Dashboard.Render`; the pickers' bounds only restrict what a user can pick and are not preconditions.
- Reading the CSV files and parsing dates (app.py:16-25): file I/O and library parsing. The parsed tables are inputs; dates are day ordinals. Columns the script never reads are not modelled.
- All plotting (lineplots, barplots, the pie chart, ticks, labels, colours): presentation through foreign libraries. This includes the pie's percentage formatting, so the user-type split stops at the two totals.
- The bar charts' estimator (app.py:129, 158) is modelled only as the exact group mean (`DayCategoryMeans`, `SeasonMeans`); the confidence intervals seaborn draws are left out.
- Floating-point means: a mean is the exact pair (sum, count) with a real value, so rounding is not modelled.
- Group order: pandas sorts group keys and seaborn orders categories; a grouped result here is a map, so row order of `hourly_avg`, `grouped` and `season_year_df` is not modelled.
- The float type pandas gives a column with missing labels (NaN) is not modelled; a missing label is `None`.
- A full-year-range variant of the dashboard is not part of this model; only `app.py` is.
