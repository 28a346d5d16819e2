# Flight delay aggregation, modelled in Dafny

This project models the batch core of a flight-delay analytics repository.

**The yearly aggregation pipeline** (`aggregation.py`) reads one file of flight records per year and does four things:
- It normalises the records in place: it fills missing values from a fixed table, adds a month bucket and an hour bucket, and joins state and coordinates from an airport reference by IATA code.
- It derives seventeen named views by grouping and reducing.
- It writes each view to `<output base>/<year>/<name>.csv`.
- A driver runs this for every `.csv` file of the input directory, taking the year from the file name.

**The cross-year derivations of the time-series page** (`pages/time-series.py`) cover:
- the year-tagged concatenation of one view over 2009–2018;
- the origin/year pivot of average departure delay, its melt, clip and top-10 bar data;
- the per-row average taxi time;
- the yearly flight count per state, its year-over-year difference and the change category;
- the year-transition labels and their parsing;
- the top-10 routes.

## Modules

| file | module | what it holds |
|---|---|---|
| `nullable.dfy` | `Nullable` | `Option` (a possibly missing cell) and `Result` |
| `groupby.dfy` | `GroupBy` | `groupby(...).size()`, `value_counts()`, `mean()` and `sum()` over a key column of `Option<K>` and a value column of `Option<real>` |
| `ranking.dfy` | `Ranking` | descending sort with missing scores last (`sort_values(ascending=False)`), and the first `n` (`head(n)`, `nlargest(n)`) |
| `flights.dfy` | `Flights` | raw and normalised records, the fill table, the buckets, the airport lookups, the normalisation of a row |
| `normalizer.dfy` | `Normalizer` | class `FlightFrame`: the in-place normalisation, step by step |
| `views.dfy` | `Views` | the seventeen views, and the named list the writer iterates over |
| `view_laws.dfy` | `ViewLaws` | what the views promise: keys, counts that add up, ranges, order, dropped rows |
| `text.dfy` | `Text` | `split`, decimal rendering and parsing, `os.path.join` |
| `materializer.dfy` | `Materializer` | class `OutputStore` (directories and files), `process_yearly_data`'s write loop, the driver loop |
| `timeseries.dfy` | `TimeSeries` | `load_data`, the pivot and bar data, average taxi time, class `YearlyStateFrame`, `change_category`, year transitions, class `TaxiFrame`, top routes |

## Conventions

- A mean is `Option<real>`: the sum over the count of the group's present values, in exact arithmetic. It is `None`, pandas' NaN, when every value of the group is missing.
- pandas drops every row whose grouping key, or any part of a tuple key, is missing before it forms groups. The model does the same: such a row joins no group.
- A view whose row order does not matter is a `map` from its key to its values. `airlines_most_delays`, the bar data and the top routes are sequences of `(key, score)` rows, because their order does matter.
- Python's `//` by 100 floors. Dafny's `/` is Euclidean. The two agree for the positive divisor 100, and `HourBucket` states the floor property.

Four behaviours of the code that a reader might not expect, and that the model follows:
- **Unknown states are dropped.** A row whose airport code is not in the reference has a missing state. pandas drops such rows from `state_flight_counts`, `origin_state_data` and `destination_state_data` (`ViewLaws.UnknownOriginStateDropped`, `ViewLaws.UnknownDestStateDropped`).
- **The cancellation fill value is `"None"`**, the string, with a capital N (`Flights.CancellationFill`).
- **One unreadable file ends the run.** The driver loop has no error handling, so an exception while reading one year stops every later year. The model takes reading as a total function (see Left out).
- **A carrier whose values are all missing keeps its group.** It appears in a mean view with an undefined mean, since pandas keeps the group. `GroupBy.MeanBy` keeps it too.

## Model

| member | source | states |
|---|---|---|
| GroupBy.KeySet | aggregation.py:50 | a group exists for exactly the keys present, non-missing, in the key column |
| GroupBy.Size | aggregation.py:50 | `size()`/`value_counts()` has one entry per present key, each counting between 1 and all of the rows |
| GroupBy.SizesAddUp | aggregation.py:50 | the group sizes add up to the number of rows whose key is present |
| GroupBy.CountInMatches | aggregation.py:66 | a group's count is the number of rows carrying its key |
| GroupBy.MissingKeyDropped | aggregation.py:50 | a row with a missing key changes neither the sizes nor the means |
| GroupBy.KeySetAppendMissing | aggregation.py:50 | a row with a missing key creates no group |
| GroupBy.GroupAppendMissing | aggregation.py:50 | a row with a missing key changes no single group's row count or mean |
| GroupBy.GroupMean | aggregation.py:62 | a group's mean is undefined exactly when all of its values are missing |
| GroupBy.MeanBy | aggregation.py:62 | `groupby(...).mean()` has one entry per present key, including keys whose values are all missing |
| GroupBy.MeanSkipsMissing | aggregation.py:62 | a row with a missing value joins its group (its count grows) without changing the group's mean |
| GroupBy.MeanInUnitInterval | aggregation.py:75 | the mean of values in [0, 1] lies in [0, 1] |
| GroupBy.MeanByInUnitInterval | aggregation.py:75 | every group mean of a column of values in [0, 1] with none missing is defined and lies in [0, 1] |
| GroupBy.SumBy | pages/time-series.py:257 | `groupby(...).sum()` has one entry per present key |
| GroupBy.GroupSumAppend | pages/time-series.py:332 | one more row adds its value to its own group's sum and leaves every other group's sum alone |
| GroupBy.GroupSumAbsent | pages/time-series.py:332 | a group with no row sums to 0 |
| Ranking.SortDesc | aggregation.py:77 | the result is sorted in descending order, missing scores last, and is a permutation of the input |
| Ranking.SortDescEntries | aggregation.py:77 | sorting keeps every row and no other, keeps the key set, and keeps distinct keys distinct |
| Ranking.SameRowsSameKeys | aggregation.py:77 | two rankings holding the same rows have the same keys |
| Ranking.TopN | pages/time-series.py:76 | `sort_values(...).head(n)`: min(n, size) rows, sorted, taken from the input, each ahead of every row left out |
| Ranking.SortedPrefix | pages/time-series.py:76 | the first `m` rows of a sorted reordering are sorted, come from the input and are ahead of every row left out |
| Ranking.TopNKeepsLargest | pages/time-series.py:332 | over distinct keys, the kept rows have distinct keys from the input, and each is ahead of every row whose key was left out |
| Ranking.TopOfRanked | pages/time-series.py:332 | the top `n` of `(key, value)` rows over distinct keys have distinct keys, each with its own value |
| Ranking.RankedValues | pages/time-series.py:72 | each `(key, value)` row built from a map holds its key's value |
| Ranking.TopOfRankedBelow | pages/time-series.py:332 | no key left out of the top `n` has a value above a kept row's |
| Flights.FillRowSpec | aggregation.py:9-18 | after the fill every listed column is present; present values are kept; missing CANCELLATION_CODE becomes "None"; the five delay causes and both taxi columns become 0; DEP_DELAY, ARR_DELAY, DISTANCE and the key columns are unchanged |
| Flights.FillRowIdempotent | aggregation.py:32 | filling a second time changes nothing |
| Flights.NormalizedRowsFilled | aggregation.py:32 | after normalisation no cell of the fill table is missing in any row |
| Flights.HourBucket | aggregation.py:37 | Hour is the floor of CRS_DEP_TIME / 100: `h*100 <= t < h*100 + 100`, with no range check |
| Flights.HourBucketExamples | aggregation.py:37 | 1347 is hour 13, 5 is hour 0, 2400 is hour 24, and -30 is hour -1 |
| Flights.MonthOfSameMonth | aggregation.py:36 | two flight dates fall in the same Month bucket exactly when they share year and month |
| Flights.NormalizeAll | aggregation.py:32-43 | normalisation keeps the row count, and each row's raw part is that row filled |
| Flights.JoinMissKeepsRow | aggregation.py:40-43 | a row with an unknown origin code is kept in place, with missing ORIGIN_STATE, LATITUDE and LONGITUDE |
| Normalizer.FlightFrame.constructor | aggregation.py:29 | the frame as read holds the raw rows and no added column |
| Normalizer.FlightFrame.FillMissing | aggregation.py:32 | `fillna(inplace=True)` replaces each row by its filled row and changes no other column |
| Normalizer.FlightFrame.AddDateBuckets | aggregation.py:35-37 | adds Month and Hour with one cell per row, each derived from that row, and changes no other column |
| Normalizer.FlightFrame.JoinAirports | aggregation.py:40-43 | adds ORIGIN_STATE, DEST_STATE, LATITUDE and LONGITUDE, each an exact-code lookup per row, and changes no other column |
| Normalizer.FlightFrame.Rows | aggregation.py:32-43 | reading the frame row by row keeps each row's raw part and its Hour |
| Normalizer.Normalize | aggregation.py:32-43 | the in-place steps in source order produce exactly the row-wise normalisation `NormalizeAll` |
| Views.CarrierDelays | aggregation.py:46-48 | carrier_delays has one entry per carrier present |
| Views.MonthlyAggregates | aggregation.py:50 | monthly_aggregates has one entry per month present |
| Views.OriginDestCounts | aggregation.py:55-59 | origin_dest_counts has one entry per (ORIGIN, DEST) pair present |
| Views.StateFlightCounts | aggregation.py:52 | state_flight_counts has one entry per known origin state present, each counting between one and all of the rows |
| Views.AirportDelays | aggregation.py:62 | airport_delays has one entry per ORIGIN present |
| Views.DailyDelayTrend | aggregation.py:64 | daily_delay_trend has one entry per flight date present |
| Views.CancellationReasons | aggregation.py:66-67 | cancellation_reasons has one entry per cancellation code present, each counting between one and all of the rows |
| Views.DistanceVsDelay | aggregation.py:69 | distance_vs_delay has one entry per (DISTANCE, ARR_DELAY, OP_CARRIER) triple whose parts are all present, each counting between one and all of the rows |
| Views.AirportBubbleMap | aggregation.py:71 | airport_bubble_map has one entry per (ORIGIN, LATITUDE, LONGITUDE) triple whose parts are all present |
| Views.DepartureDelayByHour | aggregation.py:73 | departure_delay_by_hour has one entry per Hour bucket present |
| Views.CancellationRateByCarrier | aggregation.py:75 | cancellation_percentage_by_carrier has one entry per carrier present |
| Views.AirlinesMostDelays | aggregation.py:77 | airlines_most_delays holds each carrier present exactly once, in descending order of mean ARR_DELAY |
| Views.OriginStateData | aggregation.py:84-86 | origin_state_data has one entry per known origin state present, each with between one and all of the rows as its origin count |
| Views.DestinationStateData | aggregation.py:88-90 | destination_state_data has one entry per known destination state present, each with between one and all of the rows as its destination count |
| Views.CarrierList | aggregation.py:77 | the carriers of the year, each once |
| Views.CarrierArrivalMeans | aggregation.py:77 | one row per carrier present, each holding its mean ARR_DELAY |
| Views.TaxiTimes | aggregation.py:79 | taxi_times has one entry per carrier present |
| Views.TaxiHourly | aggregation.py:80 | taxi_hourly has one entry per Hour bucket present |
| Views.StateAirportCount | aggregation.py:82 | state_airport_count has one entry per state of the reference |
| Views.MergeAirportCount | aggregation.py:86 | the left merge keeps exactly the counted states, no more and no fewer |
| Views.ViewCount | aggregation.py:93-111 | there are exactly seventeen view names |
| Views.ViewNamesDistinct | aggregation.py:93-111 | there are seventeen view names and they are pairwise distinct |
| Views.Tables | aggregation.py:93-111 | there are exactly seventeen tables, in the dictionary's order |
| Views.AllViews | aggregation.py:93-111 | each of the seventeen names is paired with its own table |
| ViewLaws.CarrierGroups | aggregation.py:46-48 | a carrier is a group exactly when some row of the year flew it |
| ViewLaws.CarrierViewsShareKeys | aggregation.py:46-48 | carrier_delays, cancellation_percentage_by_carrier and taxi_times have the same keys, exactly the carriers flown |
| ViewLaws.AirlinesMostDelaysSpec | aggregation.py:77 | airlines_most_delays is sorted by mean ARR_DELAY in descending order with missing means last; it has one row per carrier of carrier_delays, each holding its mean |
| ViewLaws.StateCountsAddUp | aggregation.py:84-86 | the state counts add up to the rows whose ORIGIN_STATE is known (all rows when every state is known); origin_state_data has the same states and counts |
| ViewLaws.RouteCountsAddUp | aggregation.py:55 | origin_dest_counts' counts are the pair sizes, and they add up to the number of rows |
| ViewLaws.FilledCancellationCodes | aggregation.py:32 | after normalisation a row's CANCELLATION_CODE is its own code, or "None" where it was missing |
| ViewLaws.CancellationReasonsAddUp | aggregation.py:66-67 | the cancellation_reasons counts add up to the number of rows; "None" is a reason exactly when some row's code was missing or "None" |
| ViewLaws.NoneReasonCount | aggregation.py:66 | the "None" reason counts exactly the rows whose code was missing or already read "None" |
| ViewLaws.CancellationRatesInUnitInterval | aggregation.py:75 | with CANCELLED a 0/1 flag, every carrier's cancellation rate is defined and lies in [0, 1] |
| ViewLaws.MonthlyCancellationInUnitInterval | aggregation.py:50 | with CANCELLED a 0/1 flag, every month's cancellation mean is defined and lies in [0, 1] |
| ViewLaws.SameMonthGroup | aggregation.py:50 | two rows fall in the same monthly_aggregates group exactly when their flight dates share year and month |
| ViewLaws.DistanceVsDelayAddsUp | aggregation.py:69 | the distance_vs_delay counts add up to the rows whose DISTANCE and ARR_DELAY are both present; they equal the row count exactly when no row lacks one |
| ViewLaws.UnknownOriginStateDropped | aggregation.py:52 | a row with an unknown origin state changes neither state_flight_counts nor origin_state_data |
| ViewLaws.UnknownDestStateDropped | aggregation.py:88 | a row with an unknown destination state does not change destination_state_data |
| ViewLaws.UnlocatedRowDropped | aggregation.py:71 | a row without coordinates changes nothing in airport_bubble_map |
| ViewLaws.OriginStatesHaveAirports | aggregation.py:82-86 | every state in origin_state_data has an airport count of at least 1, because its state comes from the reference |
| ViewLaws.MeanSkipsMissingExample | aggregation.py:77 | carrier AA with arrival delays 10, 20 and one missing has mean 15 |
| Text.Split | aggregation.py:126 | `split` gives at least one part, and no part contains the separator |
| Text.JoinSplit | pages/time-series.py:280 | joining the parts of a split gives back the string |
| Text.SplitJoin | pages/time-series.py:280 | splitting a join of separator-free parts gives back the parts |
| Text.IndexOfAfterPiece | pages/time-series.py:280 | in a piece without separator followed by a separator, the first separator is right after the piece |
| Text.FirstPiece | aggregation.py:126 | the first part is the prefix before the first separator |
| Text.ShowNat | pages/time-series.py:277 | a decimal rendering is non-empty, all digits, with no leading zero |
| Text.ParseNat | pages/time-series.py:280 | `int()` on a plain decimal string succeeds exactly when the string is a non-empty run of digits |
| Text.ParseShow | pages/time-series.py:280 | parsing a rendered number gives the number back |
| Text.ShowNatHasNoSeparator | pages/time-series.py:277 | a rendered number contains no non-digit character, so not the separator '-' |
| Text.PathJoinShape | aggregation.py:119 | a joined path ends with its second part; for a relative second part it starts with the first part and adds at most one character between them, and that character is '/' |
| Materializer.YearOf | aggregation.py:126 | the year is the prefix of the file name before the first '.', or the whole name when it has no '.' |
| Materializer.YearOfFirstDot | aggregation.py:126 | a name whose first '.' is at position n has its first n characters as its year, so "2009.csv" and "2009.backup.csv" both give "2009" |
| Materializer.OutputStore.MakeDirs | aggregation.py:115 | `makedirs(exist_ok=True)` adds the directory, is no error when it already exists, and leaves the files alone |
| Materializer.OutputStore.WriteCsv | aggregation.py:120 | writing into an existing directory puts the table at `<dir>/<name>.csv`, replacing any file already there |
| Materializer.WriteAll | aggregation.py:118-121 | the write loop leaves the old files plus exactly the written paths |
| Materializer.WriteAllOverrides | aggregation.py:118-121 | writing replaces the written paths and leaves every other file as it was |
| Materializer.WriteAllIdempotent | aggregation.py:118-121 | writing the same views again changes nothing |
| Materializer.OutputPathInjective | aggregation.py:119 | two different relative view names never share an output path |
| Materializer.WriteAllStores | aggregation.py:118-121 | views with distinct relative names each end up in their own file |
| Materializer.ViewNamesRelative | aggregation.py:93-111 | every view name is a non-empty relative file name |
| Materializer.WriteNamedTables | aggregation.py:118-121 | writing the seventeen named tables puts each in its own file, adds exactly the year's seventeen paths, and touches no other file |
| Materializer.WriteDistinctNames | aggregation.py:118-121 | writing views with distinct relative names puts each in its own file and touches no other file |
| Materializer.NamedDistinct | aggregation.py:118-121 | the seventeen view names are relative and distinct |
| Materializer.NamedPaths | aggregation.py:118-121 | the paths of the seventeen named tables are the year directory's seventeen paths |
| Materializer.YearOutputHoldsViews | aggregation.py:113-121 | after processing a year, each `<base>/<year>/<name>.csv` holds that view of the year's normalised data, and every other file is unchanged |
| Materializer.YearRerunIdempotent | aggregation.py:113-121 | processing the same year twice leaves the same files as processing it once |
| Materializer.ProcessYearlyData | aggregation.py:27-121 | the method leaves exactly the year's output and creates the year directory |
| Materializer.SeventeenFiles | aggregation.py:93-121 | a year directory receives exactly seventeen files |
| Materializer.Run | aggregation.py:124-128 | the driver leaves exactly the output of processing the listing's CSV files in listing order, and creates one directory per CSV file |
| Materializer.RunStep | aggregation.py:124-128 | one more listed name adds its year's output when it ends in ".csv", and nothing otherwise |
| Materializer.RunDirsStep | aggregation.py:124-128 | one more listed name adds its year directory when it ends in ".csv", and nothing otherwise |
| Materializer.NonCsvIgnored | aggregation.py:125 | a name not ending in ".csv" changes neither the files nor the directories |
| Materializer.OutputPathExample | aggregation.py:114-119 | the 2009 carrier_delays view goes to `../datasets/AGG_Datasets/2009/carrier_delays.csv` |
| TimeSeries.Tagged | pages/time-series.py:39 | setting the Year column keeps each row and tags it with the year |
| TimeSeries.LoadData | pages/time-series.py:34-41 | the loop's result is the year-tagged concatenation `Loaded`, or the first path that cannot be read |
| TimeSeries.LoadedFailureSticks | pages/time-series.py:34-41 | once a file is missing, loading further years does not recover |
| TimeSeries.LoadedSucceeds | pages/time-series.py:34-41 | loading succeeds exactly when every year's file exists |
| TimeSeries.LoadedRows | pages/time-series.py:34-41 | a successful load has as many rows as the years' tables together, each tagged with a year of the range |
| TimeSeries.LoadedFailure | pages/time-series.py:34-41 | a failed load names the missing file of a year of the range |
| TimeSeries.LoadedSpec | pages/time-series.py:34-41 | loading succeeds exactly when every year's file exists; it then has as many rows as the years' tables together, each tagged with a year of the range; a failure names a missing file of the range |
| TimeSeries.LoadedInYearOrder | pages/time-series.py:34-41 | with the years ascending, as by default, the rows come year by year |
| TimeSeries.DefaultYearsSpec | pages/time-series.py:34 | the default range is the ten years 2009 to 2018, ascending |
| TimeSeries.LoadedDefaultInYearOrder | pages/time-series.py:34-41 | loading the default range gives the rows year by year, 2009 first |
| TimeSeries.ChangeCategory | pages/time-series.py:263-269 | the category is one of the three labels |
| TimeSeries.ChangeCategorySpec | pages/time-series.py:263-269 | 'Positive Change' iff the change is present and above 0; 'Negative Change' iff present and below 0; 'Constant Change' iff zero or missing |
| TimeSeries.MaxOf | pages/time-series.py:260 | the greatest element of a non-empty set of years |
| TimeSeries.EarlierYears | pages/time-series.py:260 | the years before `year` that have a row for the state |
| TimeSeries.PreviousYear | pages/time-series.py:260 | the previous row of a state is its latest earlier year; there is none exactly when the state has no earlier year |
| TimeSeries.FlightCountChange | pages/time-series.py:260 | `diff()` is missing exactly for a state's first row, and otherwise is the count minus the count of the state's previous year |
| TimeSeries.YearlyStateFrame.constructor | pages/time-series.py:257 | `yearly_data` holds the summed Flight Count per (Year, ORIGIN_STATE) |
| TimeSeries.YearlyStateFrame.AddChange | pages/time-series.py:260 | adds 'Flight Count Change' for every (Year, ORIGIN_STATE) row and changes no other column |
| TimeSeries.YearlyStateFrame.AddCategory | pages/time-series.py:271 | adds 'Change Category' for every row, from its change, and changes no other column |
| TimeSeries.FirstYearIsConstant | pages/time-series.py:257-271 | a state's first year has a missing change and is 'Constant Change' |
| TimeSeries.GrowthIsPositive | pages/time-series.py:257-271 | a state whose count grew since its previous year is 'Positive Change' |
| TimeSeries.YearPairsSpec | pages/time-series.py:274 | exactly nine pairs (y, y+1), from (2009, 2010) to (2017, 2018), each starting where the previous one ends |
| TimeSeries.TransitionLabels | pages/time-series.py:277 | one label per year pair |
| TimeSeries.ParseTransition | pages/time-series.py:280 | unpacking succeeds only when the label splits into exactly two parts on '-' |
| TimeSeries.ParseTransitionLabel | pages/time-series.py:277-280 | the label "a-b" of two non-negative years parses back to (a, b) |
| TimeSeries.TransitionLabelsRoundTrip | pages/time-series.py:274-280 | every offered label parses back to its own year pair |
| TimeSeries.CellsSpec | pages/time-series.py:51-57 | an (ORIGIN, Year) cell of the pivot is defined exactly when some row of that origin and year has a delay |
| TimeSeries.Clip | pages/time-series.py:65 | `clip(lower=0)`: a negative value becomes 0, any other value is kept |
| TimeSeries.Grid | pages/time-series.py:60-62 | a pair is in the grid exactly when its origin and its year are |
| TimeSeries.MeltedCell | pages/time-series.py:51-65 | a melted value is at least 0; it is 0 where the pivot has no cell, and the clipped mean where it has one |
| TimeSeries.Melted | pages/time-series.py:60-62 | the melted table holds every (origin, year) combination of the pivot's index and columns |
| TimeSeries.MeltedHasCells | pages/time-series.py:51-62 | every defined cell is a pair of the melted table |
| TimeSeries.DelayedOrigins | pages/time-series.py:51-57 | the pivot's origins, each once |
| TimeSeries.YearColumn | pages/time-series.py:72 | the year's melted values, one per origin of the pivot |
| TimeSeries.YearRowsSpec | pages/time-series.py:72 | the rows of the selected year are one per pivot origin, each with its melted value |
| TimeSeries.YearColumnCovers | pages/time-series.py:72 | every origin of the pivot has a value in each year's column |
| TimeSeries.BarDataSpec | pages/time-series.py:76 | the bar data has exactly min(10, number of pivot origins) rows for a year of the pivot, sorted by Average Delay in descending order, one per origin; it is empty for a year the pivot lacks |
| TimeSeries.BarDataValues | pages/time-series.py:65-76 | each bar is a pivot origin with its clipped melted value for the year, which is at least 0 |
| TimeSeries.BarDataKeepsLargest | pages/time-series.py:76 | an origin left out of the bars has a value no higher than any bar's |
| TimeSeries.RowMeanSpec | pages/time-series.py:218 | the row mean of TAXI_IN and TAXI_OUT is missing only when both are; it is the one present value when only one is; with both present it lies between them, equally far from each |
| TimeSeries.TaxiFrame.constructor | pages/time-series.py:44 | the frame holds the loaded rows and no added column |
| TimeSeries.TaxiFrame.AddAverageTaxiTime | pages/time-series.py:218 | adds 'Average Taxi Time' with one cell per row, that row's mean, and keeps the rows |
| TimeSeries.RouteTotals | pages/time-series.py:332 | the route totals have one entry per (ORIGIN, DEST) pair present |
| TimeSeries.RouteOrder | pages/time-series.py:332 | every route, each once |
| TimeSeries.RouteTotalsAppend | pages/time-series.py:332 | summing across years: one more row adds its Flight Count to its route's total (starting from 0 for a new route) and leaves every other total alone |
| TimeSeries.TopRoutesSpec | pages/time-series.py:332 | the top routes are min(10, number of routes) rows, sorted by total in descending order, one per route, each holding its total |
| TimeSeries.TopRoutesKeepLargest | pages/time-series.py:332 | every route left out of the top ten has a total no higher than any kept route's |

## Left out

- File I/O is not modelled. `read_csv`, `to_csv`, `os.listdir` and the CSV headers and column layouts are all outside the model. A year's input is a sequence of records. The listing is a sequence of names, and reading is a function from path to records. The output is a map from path to view. `load_data` reads from a map from path to table.
- Reading never fails in the aggregation model. In the code, an unreadable file or a missing column raises an exception, and that ends the whole driver loop. In `load_data` the first missing file is modelled, as a `Failure` naming its path.
- The `print` calls are progress messages only. `st.*` widgets, Plotly charts and everything in Home.py, viznew.py, viz.py, app/viz.py and api/streamlit.py are presentation or process plumbing, so they are left out.
- Date parsing (`pd.to_datetime`) is not modelled: FL_DATE arrives as an already-parsed (year, month, day).
- Floating point is not modelled: means, sums and clipping use exact `real` arithmetic.
- The raw columns FL_DATE, OP_CARRIER, ORIGIN, DEST, CRS_DEP_TIME and CANCELLED are taken as never missing. The other columns may be missing.
- `os.makedirs` creates missing parent directories. The model records only the year directory.
- Two model choices concern the airport reference:
  - It is a map, so IATA codes are unique. pandas' `Series.map` requires that as well.
  - LATITUDE and LONGITUDE are looked up with the origin code only, as in the code.
- Row order is not modelled in these places:
  - The row order of the groupby views, which are maps in the model. pandas orders groupby output by key.
  - The row order of cancellation_reasons, origin_state_data and destination_state_data. They come from `value_counts()`, which sorts by count, highest first, and the left merges keep that order. The model keeps only each key's count.
  - The position among ties of equal score in `airlines_most_delays`.
  - The order of the driver's listing. `os.listdir` gives an arbitrary order, and the model processes the sequence it is given.
- TopRoutes: ties across the tenth place can change which rows are kept, not only their order. The model breaks ties by first appearance in the frame (`RouteOrder`). pandas' `nlargest(10)` with `keep='first'` keeps the first in frame order, which after the groupby is key order, so with a tie at the cut a different route may be kept.
- BarData: ties across the tenth place can likewise change which origins are kept. The model breaks them by first appearance of the origin (`DelayedOrigins`). pandas sorts the melted rows, which are in origin order, with `sort_values`' default quicksort, which is not stable, so a tie at the cut may keep a different origin.
- Materializer.RunOutput: idempotence of re-running the whole listing is proved only per year (`YearRerunIdempotent`). It is not proved for the whole listing.
- ParseTransition: `int()` also accepts surrounding whitespace, a sign and underscores. The model accepts only plain decimal digits. That covers every label the page offers.
- TopRoutes: `groupby(['ORIGIN', 'DEST']).sum()` also sums the other columns: Year, and string concatenation of ORIGIN_STATE and DEST_STATE. Only Flight Count, which `nlargest` uses, is modelled.
- BarData: the year slider offers every integer between the smallest and the largest pivot year. A year between them with no column selects nothing, and the model returns no rows for it.
- The origin and year dimensions of the pivot are the origins and years that have at least one defined mean. pandas drops an all-NaN column or row before filling with 0.
- The page's header and selection logic is not modelled: choosing the metric, the slider bounds and filtering the two selected years for the map are widget handling.
