# SGD grid data checks, in Dafny

This project models the date-driven core of a set of batch scripts. The scripts
download, audit and convert the daily and hourly standard-grid (SGD) netCDF files
of the Korea Meteorological Administration API hub, for 2020 and 2021. The core
decides four things:

- which grid files a time range should produce (`get_time_range`, the
  `sfc_grid_{var}_{YYYYMMDDHHMM}.nc` names and the `{base}/org/sgd/{YYYY}/{MM}/{DD}/`
  tree);
- which files are missing, too small or abnormal. This covers the download queue
  and its retries, the missing-timestamp report with its monthly table, the
  per-variable counters, and the size and `du -h` checks;
- how a grid's values are summarised. This covers the -9990 sentinel, zero and
  negative ratios, outliers, and value classes;
- how a grid becomes the 17 station values of an OBS table and a height-corrected
  MK-PRISM grid.

Modelling choices:

- **File system.** A finite map from path to size in bytes. Where a script opens
  files, a second map gives their contents. A path outside the map does not exist.
- **Network.** Each download is an oracle value: the request fails, or it writes a
  file of a given size.
- **Prompts and random values.** Prompt answers are parameters. So are the heights
  drawn by `np.random.uniform`.
- **Pools.** `Pool.map`, `imap` and the executor are sequential maps in list order.
  The executor's `as_completed` order is left free: only the multiset of results
  is fixed. In the SGD conversion runs `pool.map` is split into its chunks: a day
  that raises ends its own chunk, and the whole run aborts once every chunk is done.
- **Floating point.** Values are `real`. A division by a zero `data_scale` gives
  IEEE infinities or NaN, as the `Values.Float` type spells out. A zero scale is
  +0, so an infinity divided by it keeps its sign.
- **Dates.** Gregorian dates with leap years. A time stamp is a date plus an hour
  and a minute. Only the whole hours and days the scripts produce occur.

The modules follow the scripts:

- `Calendar`, `TimeRange`: dates and `get_time_range`;
- `DownloadQueue`: the two download scripts;
- `MissingDates`: get_excluded_date_4.py;
- `FileAudit`, `AuditStats`: check_data_file_test.py;
- `ZeroFilled`: check_0_filled_files_3.py;
- `SizeCheck`: check_sgd_file_size_1.py and `format_size`;
- `DuSizes`: check_data_file_2.py;
- `DataCheck`: deprecated/check_data.py;
- `Grid`, `Conversion`: the four SGD conversion scripts;
- shared helpers: `Text`, `Tally`, `Ordering`, `Options` and `Values`.

Loops in the scripts are methods with loop invariants. Each method is proved equal
to a specification function, and the lemmas state the scripts' promises about those
functions.

## Model

| member | source | states |
|---|---|---|
| Calendar.DaysInMonth | RMSE_TEST_2/PROG/create_data/create_data.py:52 | a month has 28 to 31 days; February has 29 exactly in leap years |
| Calendar.NextDay | RMSE_TEST_2/PROG/create_data/create_data.py:52 | `+ timedelta(days=1)` on a date gives a valid date whose day number is one more |
| Calendar.AddHour | RMSE_TEST_2/PROG/create_data/create_data.py:56 | `+ timedelta(hours=1)` gives a valid stamp exactly 60 minutes later |
| Calendar.AddDay | RMSE_TEST_2/PROG/create_data/create_data.py:61 | `+ timedelta(days=1)` gives a valid stamp 1440 minutes later with the same hour and minute |
| Calendar.DayNumberMonotone | RMSE_TEST_2/PROG/create_data/create_data.py:59 | an earlier calendar date has a smaller day number, so `<=` on dates is the order of days |
| Calendar.InstantMonotone | RMSE_TEST_2/PROG/create_data/create_data.py:54 | a stamp earlier by (date, hour, minute) is earlier in minutes |
| Calendar.InstantInjective | RMSE_TEST_2/PROG/create_data/create_data.py:54 | two valid stamps at the same minute are equal |
| Calendar.DashedTextInjective | RMSE_TEST/create_data/check_data_file_test.py:56 | different dates have different `%Y-%m-%d` texts |
| Calendar.ParseStampText | RMSE_TEST/create_data/get_excluded_date_4.py:36 | a parsed `%Y%m%d%H%M` text is 12 digits and denotes a valid stamp |
| Calendar.ParseStampTextRoundTrip | RMSE_TEST/create_data/check_0_filled_files_3.py:18 | for years 1000-9999 the 12-digit text of a stamp parses back to that stamp |
| Calendar.StampTextOfParse | RMSE_TEST/create_data/check_0_filled_files_3.py:31 | re-rendering a parsed text without a leading zero gives the text back |
| Ordering.StampTextOrder | RMSE_TEST/create_data/check_0_filled_files_3.py:88 | for four-digit years, comparing 12-digit stamp texts as strings is comparing the instants |
| TimeRange.FreqOf | RMSE_TEST_2/PROG/create_data/create_data.py:47 | the mode is hourly exactly for `'hour'`; anything else is the daily branch |
| TimeRange.Step | RMSE_TEST_2/PROG/create_data/create_data.py:56 | one step of either mode moves exactly one hour or one day forward |
| TimeRange.StepsLength | RMSE_TEST_2/PROG/create_data/create_data.py:54-56 | the while loop yields (last - first) / step + 1 stamps, or none when the first is after the last |
| TimeRange.StepsAt | RMSE_TEST_2/PROG/create_data/create_data.py:54-56 | the i-th stamp lies i steps after the first |
| TimeRange.StepsConsecutive | RMSE_TEST_2/PROG/create_data/create_data.py:56 | consecutive stamps differ by exactly one step |
| TimeRange.StepsAtBounds | RMSE_TEST_2/PROG/create_data/create_data.py:54 | every stamp lies between the first and the bound, a whole number of steps from the first |
| TimeRange.StepsMembership | RMSE_TEST_2/PROG/create_data/create_data.py:54-56 | a stamp is enumerated iff it is valid, within the bounds and a whole number of steps from the first |
| TimeRange.StepsIncreasingAll | RMSE_TEST_2/PROG/create_data/create_data.py:54-56 | the enumeration is strictly increasing in time |
| TimeRange.EnumerationIncreasing | RMSE_TEST_2/PROG/create_data/create_data.py:43-63 | both modes of `get_time_range` are strictly increasing, hence free of duplicates |
| TimeRange.GetTimeRange | RMSE_TEST_2/PROG/create_data/create_data.py:43-63 | the loop returns exactly the hourly or daily enumeration |
| TimeRange.DailyRangeShape | RMSE_TEST_2/PROG/create_data/create_data.py:57-61 | daily mode has one midnight stamp per day from start to end inclusive, in order, and is empty when start is after end |
| TimeRange.DailyRangeAt | RMSE_TEST/create_data/create_data_0.py:42-46 | the i-th daily stamp is midnight of the start day plus i days |
| TimeRange.DailyRangeLength | RMSE_TEST/create_data/create_data_0.py:44 | daily mode has end - start + 1 entries, or none |
| TimeRange.HourlyRangeShape | RMSE_TEST_2/PROG/create_data/create_data.py:47-56 | hourly mode runs from the start day at 01:00 to the day after the end at 00:00, with 24 stamps per day |
| TimeRange.HourlyRangeSteps | RMSE_TEST/create_data/create_data_0.py:39-41 | consecutive hourly stamps are one hour apart |
| TimeRange.DailyRangeSteps | RMSE_TEST/create_data/create_data_0.py:44-46 | consecutive daily stamps are one day apart |
| TimeRange.DayList | RMSE_TEST_2/PROG/create_data/convert_sgd_to_obs_mkprism.py:44-48 | the date-list loop returns the daily range from start to end |
| TimeRange.ConversionDatesCount | RMSE_TEST_2/PROG/create_data/convert_sgd_to_obs_mkprism.py:41-48 | 2020-01-01 to 2021-12-31 is 731 days (2020 is a leap year) |
| DownloadQueue.FileStamp | RMSE_TEST_2/PROG/create_data/create_data.py:74-80 | a file name keeps the stamp's date and hour with zero minutes; daily names are at midnight |
| DownloadQueue.GridFileNameStamp | RMSE_TEST_2/PROG/create_data/create_data.py:74-80 | the name is `sfc_grid_{var}_` + the 12-digit file stamp + `.nc` in both modes |
| DownloadQueue.SavePathSuffixParses | RMSE_TEST_2/PROG/create_data/create_data.py:85 | the suffix get_excluded_date_4.py cuts from a saved path parses back to the file stamp |
| DownloadQueue.Selected | RMSE_TEST_2/PROG/create_data/create_data.py:88-89 | the queued stamps are a subsequence of the range |
| DownloadQueue.SelectedMembership | RMSE_TEST_2/PROG/create_data/create_data.py:88 | a stamp is queued iff its path is absent or smaller than `min_file_size` |
| DownloadQueue.SelectedIncreasing | RMSE_TEST_2/PROG/create_data/create_data.py:72-89 | the queue keeps the increasing enumeration order |
| DownloadQueue.Pending | RMSE_TEST_2/PROG/create_data/create_data.py:65-91 | the queue of a date range is increasing and holds exactly the enumerated stamps whose file needs downloading |
| DownloadQueue.Entries | RMSE_TEST_2/PROG/create_data/create_data.py:89 | each create_data.py entry is the `%Y%m%d` text and the save path of its stamp |
| DownloadQueue.Items | RMSE_TEST/create_data/create_data_0.py:74-77 | each create_data_0.py entry keeps the full stamp and the save path |
| DownloadQueue.QueueEntries | RMSE_TEST_2/PROG/create_data/create_data.py:72-91 | the scan loop returns the entries of the selected stamps |
| DownloadQueue.ScanFiles | RMSE_TEST_2/PROG/create_data/create_data.py:65-91 | `scan_files` returns the entries of the pending stamps |
| DownloadQueue.QueueItems | RMSE_TEST/create_data/create_data_0.py:57-79 | the scan loop returns the items of the selected stamps |
| DownloadQueue.ScanItems | RMSE_TEST/create_data/create_data_0.py:50-79 | `scan_files` returns the items of the pending stamps |
| DownloadQueue.HourlyTaskTimeIgnoresHour | RMSE_TEST_2/PROG/create_data/create_data.py:115-121 | two hours of one day have different save paths but the same hourly URL |
| DownloadQueue.HourlyCollisionExample | RMSE_TEST_2/PROG/create_data/create_data.py:117 | 2020-01-01 01:00 and 02:00 both request `tm=20200101H00` |
| DownloadQueue.RequestTimeInjective | RMSE_TEST/create_data/create_data_0.py:107-110 | the `tm` text is the 12-digit file stamp; different file stamps give different requests |
| DownloadQueue.BuildTasks | RMSE_TEST_2/PROG/create_data/create_data.py:115-122 | one task per queue entry, in order, with `tm` = `{YYYYMMDD}H00` hourly and `{YYYYMMDD}0000` daily |
| DownloadQueue.Store | RMSE_TEST_2/PROG/create_data/create_data.py:29-31 | writing a response changes no path but the target |
| DownloadQueue.DownloadOkMeansStored | RMSE_TEST/create_data/create_data_0.py:18-23 | `download_file` is true iff the written file exists with at least `min_file_size` bytes |
| DownloadQueue.DownloadFile | RMSE_TEST_2/PROG/create_data/create_data.py:18-41 | the result is None iff the file ends with at least the minimum size, else the task itself; an adequate file is skipped untouched; other paths are unchanged |
| DownloadQueue.RunTasks | RMSE_TEST_2/PROG/create_data/create_data.py:128-129 | `pool.imap` yields one result per task |
| DownloadQueue.RunTasksOutcome | RMSE_TEST_2/PROG/create_data/create_data.py:128-129 | with distinct paths, task i's result is None iff its file ends adequate, else the task |
| Options.SomesMembership | RMSE_TEST_2/PROG/create_data/create_data.py:132 | a value is kept by the `is not None` filter iff it occurs as a present result; a task is thus in the failed list iff some result reports it |
| DownloadQueue.DownloadAll | RMSE_TEST_2/PROG/create_data/create_data.py:127-132 | the download loop ends in the run's file system and the non-None results, in task order |
| DownloadQueue.DownloadStep | RMSE_TEST_2/PROG/create_data/create_data.py:18-41 | the step method computes `download_file` |
| DownloadQueue.AttemptCount | RMSE_TEST/create_data/create_data_0.py:115-117 | an item gets one attempt, or a second exactly when the first fails |
| DownloadQueue.SavePathInjective | RMSE_TEST_2/PROG/create_data/create_data.py:74-85 | two whole-hour stamps (midnights in daily mode) with four-digit years share a save path iff they are equal |
| DownloadQueue.EnumerationOnGrid | RMSE_TEST_2/PROG/create_data/create_data.py:43-63 | for years 1000 to 9998, every enumerated stamp is a file-name stamp with a four-digit year |
| DownloadQueue.IncreasingDistinctSavePaths | RMSE_TEST_2/PROG/create_data/create_data.py:85 | increasing file-name stamps have pairwise different save paths |
| DownloadQueue.PendingDistinctPaths | RMSE_TEST_2/PROG/create_data/create_data.py:65-91 | for years 1000 to 9998 and a variable without `/`, both scripts' queues name every file once |
| DownloadQueue.RunTasksFailures | RMSE_TEST_2/PROG/create_data/create_data.py:128-132 | with distinct paths, a task is in the failure list iff its file does not end with at least the minimum size |
| DownloadQueue.CreateData | RMSE_TEST_2/PROG/create_data/create_data.py:106-132 | `main` builds one task per pending file in order; under those conditions the task paths are distinct and a task is reported failed iff its file ends inadequate |
| DownloadQueue.CreateDataRetrying | RMSE_TEST/create_data/create_data_0.py:94-123 | `main` queues the pending items; under those conditions an item is recorded as failed iff both its attempts fail |
| DownloadQueue.FailedItemsMembership | RMSE_TEST/create_data/create_data_0.py:118-122 | with distinct paths, an item is recorded iff both attempts fail |
| DownloadQueue.FailedItemsPaths | RMSE_TEST/create_data/create_data_0.py:119-122 | every failure record names a queued path |
| DownloadQueue.RetryDownloads | RMSE_TEST/create_data/create_data_0.py:102-123 | the retry loop records each doubly failed item once, in queue order, and makes at most two calls per item, stopping at the first success |
| MissingDates.Suffixes | RMSE_TEST/create_data/get_excluded_date_4.py:30-31 | one suffix per file: the basename after the last `_` and before the first `.` |
| MissingDates.KeptMembership | RMSE_TEST/create_data/get_excluded_date_4.py:32-33 | a suffix is kept iff it has exactly 12 characters |
| MissingDates.KeptSnoc | RMSE_TEST/create_data/get_excluded_date_4.py:29-33 | each loop step appends the suffix when it has 12 characters |
| MissingDates.ExistingDates | RMSE_TEST/create_data/get_excluded_date_4.py:28-33 | the suffix loop returns the 12-character suffixes in listing order |
| MissingDates.ToDatetime | RMSE_TEST/create_data/get_excluded_date_4.py:36 | `to_datetime` succeeds exactly on parsable texts within pandas' range |
| MissingDates.ParseAll | RMSE_TEST/create_data/get_excluded_date_4.py:36 | the list converts iff every text does, element by element |
| MissingDates.LastBad | RMSE_TEST/create_data/get_excluded_date_4.py:36 | a failing list has an index whose text does not convert |
| MissingDates.Earliest | RMSE_TEST/create_data/get_excluded_date_4.py:42 | `min()` is an observed stamp no later than any other |
| MissingDates.Latest | RMSE_TEST/create_data/get_excluded_date_4.py:42 | `max()` is an observed stamp no earlier than any other |
| MissingDates.ExcludedFreqOf | RMSE_TEST/create_data/get_excluded_date_4.py:39 | the step is daily iff the lower-cased text is `day`, hourly otherwise |
| MissingDates.AbsentMembership | RMSE_TEST/create_data/get_excluded_date_4.py:45 | `difference` keeps exactly the expected stamps that were not observed |
| MissingDates.AbsentIncreasing | RMSE_TEST/create_data/get_excluded_date_4.py:45 | the difference of an increasing range stays increasing |
| MissingDates.MissingStampsMembership | RMSE_TEST/create_data/get_excluded_date_4.py:42-45 | a stamp is missing iff it is unobserved, between the earliest and the latest observation, on the step grid |
| MissingDates.MissingStampsIncreasing | RMSE_TEST/create_data/get_excluded_date_4.py:45 | the missing stamps are sorted and free of duplicates |
| MissingDates.MissingWithinObserved | RMSE_TEST/create_data/get_excluded_date_4.py:42 | every missing stamp has an observation before it and one after it |
| MissingDates.Row | RMSE_TEST/create_data/get_excluded_date_4.py:46-49 | a row's year, month and day columns are its stamp's components |
| MissingDates.Rows | RMSE_TEST/create_data/get_excluded_date_4.py:46 | one row per missing stamp, in order |
| MissingDates.ScanMissingDates | RMSE_TEST/create_data/get_excluded_date_4.py:10-51 | raises iff a kept suffix does not convert or none is kept; otherwise one row per missing stamp, in order |
| MissingDates.Present | RMSE_TEST/create_data/get_excluded_date_4.py:72 | the group keys in a bounded interval, strictly increasing |
| MissingDates.Monthly | RMSE_TEST/create_data/get_excluded_date_4.py:72 | `groupby(["year", "month"]).size().unstack(fill_value=0)`: sorted years and months, each cell the count of its (year, month) |
| MissingDates.MonthlyYears | RMSE_TEST/create_data/get_excluded_date_4.py:72 | the table's years are exactly the years of the rows |
| MissingDates.MonthlyMonths | RMSE_TEST/create_data/get_excluded_date_4.py:72 | the table's months are exactly the months of the rows |
| MissingDates.MonthlyCell | RMSE_TEST/create_data/get_excluded_date_4.py:72 | cell (y, m) counts the rows of that month, 0 if none |
| MissingDates.MonthlyKeysCover | RMSE_TEST/create_data/get_excluded_date_4.py:72 | every row's (year, month) has a cell |
| MissingDates.MonthlyTotal | RMSE_TEST/create_data/get_excluded_date_4.py:72 | the cells sum to the number of missing rows |
| MissingDates.Answer | RMSE_TEST/create_data/get_excluded_date_4.py:86-87 | the answer is the stripped text, or the default when stripping leaves nothing |
| MissingDates.Report | RMSE_TEST/create_data/get_excluded_date_4.py:78-102 | the run is rejected iff the answer (default `hour`) is neither `hour` nor `day`; otherwise it aborts iff the scan raises, reports no missing dates iff the scan finds none, and saves iff the scan finds some, saving exactly the scanned rows with their `Monthly` table for the answered variable (default `ta`) |
| MissingDates.ReportFrequency | RMSE_TEST/create_data/get_excluded_date_4.py:89-95 | an accepted answer reaches the scan as the step it names |
| FileAudit.AuditTail | RMSE_TEST/create_data/check_data_file_test.py:24 | the template fills to `org/sgd/{YYYY}/{MM}/{DD}/` + the daily grid file name |
| FileAudit.DailySavePath | RMSE_TEST_2/PROG/create_data/create_data.py:85 | a daily save path is the base, `/`, then the same tail |
| FileAudit.AuditPathIsSavePath | RMSE_TEST/create_data/check_data_file_test.py:24 | the audited path of a day is where create_data.py saves that day's file |
| FileAudit.MissingOf | RMSE_TEST/create_data/check_data_file_test.py:54-56 | a variable yields a row on a day iff its expected path is absent |
| FileAudit.DayRows | RMSE_TEST/create_data/check_data_file_test.py:45-58 | a day yields at most one row per variable |
| FileAudit.DayRowsMembership | RMSE_TEST/create_data/check_data_file_test.py:54-56 | a day's row is `[var, YYYY-MM-DD, path]` exactly for listed variables whose path is absent |
| FileAudit.MissingRowsMembership | RMSE_TEST/create_data/check_data_file_test.py:43-60 | over the range, a row is emitted iff the variable is listed, the day is in range and the path is absent |
| FileAudit.MissingRowsShape | RMSE_TEST/create_data/check_data_file_test.py:56 | each row names a listed variable and an absent expected path of some day in the range |
| FileAudit.MissingCountBound | RMSE_TEST/create_data/check_data_file_test.py:55-56 | a variable has at most (days × occurrences in the list) rows |
| FileAudit.ZeroCounters | RMSE_TEST/create_data/check_data_file_test.py:38-40 | the three counter dicts start with every variable |
| FileAudit.BumpGet | RMSE_TEST/create_data/check_data_file_test.py:53-58 | one check adds 1 to the variable's total and 1 to missing or valid, as the path is absent or present |
| FileAudit.DayTotal | RMSE_TEST/create_data/check_data_file_test.py:53 | a day adds the variable's list occurrences to its total |
| FileAudit.DayMissing | RMSE_TEST/create_data/check_data_file_test.py:55 | a day adds to missing exactly the variable's rows of that day |
| FileAudit.DayValid | RMSE_TEST/create_data/check_data_file_test.py:54-58 | a day adds to valid + missing what it adds to total |
| FileAudit.CountersTotal | RMSE_TEST/create_data/check_data_file_test.py:43-60 | a variable's total is the number of days times its occurrences in the list |
| FileAudit.CountersMissing | RMSE_TEST/create_data/check_data_file_test.py:55-56 | the missing counter equals the variable's row count in the CSV |
| FileAudit.CountersValid | RMSE_TEST/create_data/check_data_file_test.py:53-58 | valid + missing = total for every variable |
| FileAudit.AllPresentNoneMissing | RMSE_TEST/create_data/check_data_file_test.py:54-58 | if every expected path exists, missing is 0 and valid = total |
| FileAudit.CountVariablePositive | RMSE_TEST/create_data/check_data_file_test.py:56 | a positive row count points at a row of that variable |
| FileAudit.ScanDay | RMSE_TEST/create_data/check_data_file_test.py:45-58 | the inner loop appends the day's rows and updates the counters by the day's checks |
| FileAudit.FindMissingFiles | RMSE_TEST/create_data/check_data_file_test.py:36-60 | `find_missing_files` returns the rows and counters of the whole daily range |
| AuditStats.PathsOf | RMSE_TEST/create_data/check_data_file_test.py:82-89 | one expected path per day |
| AuditStats.PathsAt | RMSE_TEST/create_data/check_data_file_test.py:83-89 | the k-th path is the template filled with the k-th day |
| AuditStats.ExistingSizesMembership | RMSE_TEST/create_data/check_data_file_test.py:90-91 | a size is collected iff some expected path exists with that size |
| AuditStats.ExistingSizesEmpty | RMSE_TEST/create_data/check_data_file_test.py:94 | no sizes are collected iff no expected path exists |
| AuditStats.StatsOf | RMSE_TEST/create_data/check_data_file_test.py:99-100 | a statistics row names its variable and has min ≤ max |
| AuditStats.StatsBounds | RMSE_TEST/create_data/check_data_file_test.py:99-100 | min and max are collected sizes bounding all others, and the mean lies between them |
| AuditStats.StatsRowsRows | RMSE_TEST/create_data/check_data_file_test.py:94-111 | every row belongs to a listed variable with sizes, and holds that variable's statistics |
| AuditStats.StatsRowsHasRow | RMSE_TEST/create_data/check_data_file_test.py:94-111 | every listed variable with sizes gets its row |
| AuditStats.SizeTableRows | RMSE_TEST/create_data/check_data_file_test.py:94-111 | each row of the size table is the statistics of a variable's existing files |
| AuditStats.SizeTableHasRow | RMSE_TEST/create_data/check_data_file_test.py:94-96 | a variable is skipped only when none of its files exists |
| AuditStats.CollectSizes | RMSE_TEST/create_data/check_data_file_test.py:80-92 | the date loop collects the sizes of the existing expected files, in date order |
| AuditStats.AnalyzeFileSizes | RMSE_TEST/create_data/check_data_file_test.py:75-111 | the variable loop builds the size table |
| AuditStats.CountValues | RMSE_TEST/create_data/check_data_file_test.py:156-158 | the three counts sum to the number of values read |
| AuditStats.CountValuesAgree | RMSE_TEST/create_data/check_data_file_test.py:156-157 | the sentinel and zero counts are the number of -9990 and 0 values |
| AuditStats.CountValuesAppend | RMSE_TEST/create_data/check_data_file_test.py:156-158 | counting two files adds their counts |
| AuditStats.DistributionSnoc | RMSE_TEST/create_data/check_data_file_test.py:150-162 | a loadable file adds its counts and one file; any other day adds nothing |
| AuditStats.LoadedPaths | RMSE_TEST/create_data/check_data_file_test.py:150-160 | the loaded files are the expected paths that exist and open |
| AuditStats.DistributionCountsLoaded | RMSE_TEST/create_data/check_data_file_test.py:156-158 | the counts are those of the loaded files' values and sum to their number |
| AuditStats.DistributionFiles | RMSE_TEST/create_data/check_data_file_test.py:160 | `total_files` is the number of loaded files |
| AuditStats.ScanValues | RMSE_TEST/create_data/check_data_file_test.py:137-164 | the date loop computes the variable's distribution |
| AuditStats.ValueRowsAt | RMSE_TEST/create_data/check_data_file_test.py:175 | row i is variable i with its counts |
| AuditStats.ValueTableAt | RMSE_TEST/create_data/check_data_file_test.py:136-175 | each variable's row holds the counts of its loaded files |
| AuditStats.AnalyzeValueDistribution | RMSE_TEST/create_data/check_data_file_test.py:131-175 | the variable loop builds one row per variable, in order |
| SizeCheck.UnitIndex | RMSE_TEST/create_data/check_sgd_file_size_1.py:7-10 | the unit index is the smallest k < 4 with size / 1024^k < 1024, else 4 |
| SizeCheck.DivideAgain | RMSE_TEST/create_data/check_sgd_file_size_1.py:10 | dividing by 1024 again is dividing by the next power |
| SizeCheck.FormatSize | RMSE_TEST/create_data/check_sgd_file_size_1.py:5-11 | the loop returns size / 1024^k with unit `''`, `K`, `M`, `G` for that k, or `TB` |
| SizeCheck.FormatSizeRange | RMSE_TEST/create_data/check_data_file_test.py:27-33 | bytes are kept below 1024; a scaled value is at least 1 and, below TB, under 1024 |
| SizeCheck.Record | RMSE_TEST/create_data/check_sgd_file_size_1.py:28-35 | a record keeps the path, its basename and its size |
| SizeCheck.Partition | RMSE_TEST/create_data/check_sgd_file_size_1.py:41-47 | abnormal = size < `min_size`, normal = size ≥ `min_size`; every record is in one, and the counts add up |
| SizeCheck.CheckFileSizes | RMSE_TEST/create_data/check_sgd_file_size_1.py:19-42 | no report iff the glob is empty; otherwise one record per file in list order, and the abnormal and normal tables split from them |
| DuSizes.ParseFloat | RMSE_TEST/create_data/check_data_file_2.py:11 | `float` accepts exactly decimal literals after stripping |
| DuSizes.ConvertSizeToBytes | RMSE_TEST/create_data/check_data_file_2.py:8-17 | a value comes back iff the text ends in `K` or `M` or is all digits; otherwise None |
| DuSizes.ConvertKilobytes | RMSE_TEST/create_data/check_data_file_2.py:10-11 | `nK` gives n × 1024 |
| DuSizes.ConvertMegabytes | RMSE_TEST/create_data/check_data_file_2.py:12-13 | `nM` gives n × 1048576 |
| DuSizes.ConvertBytes | RMSE_TEST/create_data/check_data_file_2.py:14-15 | an all-digit text gives its own value |
| DuSizes.IsDecimalOfDigits | RMSE_TEST/create_data/check_data_file_2.py:14-15 | `float` of an all-digit text is its value |
| DuSizes.MegabyteExample | RMSE_TEST/create_data/check_data_file_2.py:12-13 | `2.5M` is 2621440 bytes |
| DuSizes.UnparsableExample | RMSE_TEST/create_data/check_data_file_2.py:16-17 | an unparsable number before `K` gives 0 |
| DuSizes.FallThroughExamples | RMSE_TEST/create_data/check_data_file_2.py:8-17 | `1.2G`, `1.5` and the empty text match no branch and give None |
| DuSizes.SplitAtTab | RMSE_TEST/create_data/check_data_file_2.py:24 | the split is at the first tab; the path keeps any later tabs |
| DuSizes.ParseLines | RMSE_TEST/create_data/check_data_file_2.py:21-26 | at most one entry per line |
| DuSizes.LineEntries | RMSE_TEST/create_data/check_data_file_2.py:23-25 | one slot per line: nothing for a line without a tab, otherwise the converted size and the path split off its stripped text |
| DuSizes.ParseLinesStep | RMSE_TEST/create_data/check_data_file_2.py:22-26 | one more line raises iff it has a tab but its stripped text has none; otherwise it appends its entry, if it has one |
| DuSizes.AnyBadSnoc | RMSE_TEST/create_data/check_data_file_2.py:22-24 | a list with one more line holds a bad line iff the shorter list does or the new line is bad |
| DuSizes.ParseLinesSpec | RMSE_TEST/create_data/check_data_file_2.py:20-26 | reading raises iff some line has a tab but none after stripping; otherwise the list holds one entry per tab line, in file order |
| DuSizes.TabFreeLineSkipped | RMSE_TEST/create_data/check_data_file_2.py:23 | a line without a tab adds nothing |
| DuSizes.SplitAtTabOf | RMSE_TEST/create_data/check_data_file_2.py:24 | `split('\t', 1)` of `size + tab + path` with a tab-free size gives back the size and the path |
| DuSizes.LineEntryOfSplit | RMSE_TEST/create_data/check_data_file_2.py:23-25 | a line stripping to `size + tab + path` is not bad and gives the entry (converted size, path) |
| DuSizes.TabLineAppended | RMSE_TEST/create_data/check_data_file_2.py:23-26 | such a line appends exactly that entry to the list read so far |
| DuSizes.TabOnlyAtEndsRaises | RMSE_TEST/create_data/check_data_file_2.py:23-24 | a line whose tabs all sit at its ends stops the script |
| DuSizes.ParseLinesRaisedExtends | RMSE_TEST/create_data/check_data_file_2.py:21-26 | after an error, later lines do not matter |
| DuSizes.ReadSizes | RMSE_TEST/create_data/check_data_file_2.py:20-26 | the reading loop raises iff some line has a tab but none after stripping; otherwise it returns one entry per tab line, in file order |
| DuSizes.AbnormalMembership | RMSE_TEST/create_data/check_data_file_2.py:32-38 | an entry is abnormal iff its size is known and below 350 × 1024 |
| DuSizes.NormalCount | RMSE_TEST/create_data/check_data_file_2.py:41 | total - abnormal counts the entries that are not abnormal |
| DuSizes.Paths | RMSE_TEST/create_data/check_data_file_2.py:45 | one path per abnormal entry, in order |
| DuSizes.RemoveFiles | RMSE_TEST/create_data/check_data_file_2.py:44-50 | a filesystem side effect beside the parsing core, modelled on a path-to-size map: exactly the existing listed paths are deleted; the other listed paths fail; nothing else changes |
| DuSizes.AbnormalPathsMembership | RMSE_TEST/create_data/check_data_file_2.py:38-45 | a path is up for deletion iff an abnormal entry names it |
| DuSizes.DeleteAbnormal | RMSE_TEST/create_data/check_data_file_2.py:38-50 | the deletion loop over the abnormal rows: a file is deleted iff it exists and an abnormal entry names it; other files keep their sizes; every abnormal row is either deleted or a failure |
| DataCheck.VarName | RMSE_TEST_2/PROG/create_data/deprecated/check_data.py:40 | `temperature` exactly for OBS and MKPRISE, `data` otherwise |
| DataCheck.Converted | RMSE_TEST_2/PROG/create_data/deprecated/check_data.py:45-54 | the conversion keeps one value per value read; a value is NaN iff it was read as NaN or it is an SGD zero over a zero `data_scale` |
| DataCheck.ConvertedUnscaled | RMSE_TEST_2/PROG/create_data/deprecated/check_data.py:48-50 | without an SGD scale other than 1, the values are the raw values |
| DataCheck.ScaledSentinelNotMissing | RMSE_TEST_2/PROG/create_data/deprecated/check_data.py:50-57 | with a scale other than 1, a scaled -9990 is not counted as missing |
| DataCheck.MissingAreOutliers | RMSE_TEST_2/PROG/create_data/deprecated/check_data.py:57-60 | missing_count ≤ outlier_count |
| DataCheck.OutliersFinite | RMSE_TEST_2/PROG/create_data/deprecated/check_data.py:60 | outliers are the values strictly below -100 plus those strictly above 100 |
| DataCheck.ProcessFile | RMSE_TEST_2/PROG/create_data/deprecated/check_data.py:32-69 | a result exists iff the file opens and has the variable; it holds size/1024, the converted values, and missing ≤ outliers ≤ number of values |
| DataCheck.NcEntries | RMSE_TEST_2/PROG/create_data/deprecated/check_data.py:76 | the listing filtered to names ending in `.nc` |
| DataCheck.SortByName | RMSE_TEST_2/PROG/create_data/deprecated/check_data.py:76 | `sorted` is an ordered permutation by name |
| DataCheck.Outputs | RMSE_TEST_2/PROG/create_data/deprecated/check_data.py:84-87 | `pool.map` gives each file's result, in list order |
| DataCheck.Aggregate | RMSE_TEST_2/PROG/create_data/deprecated/check_data.py:93-96 | one size, missing and outlier count per surviving result, in order, and all values concatenated |
| DataCheck.AggregateMissingOutliers | RMSE_TEST_2/PROG/create_data/deprecated/check_data.py:90-95 | each aggregated missing count is at most its outlier count |
| DataCheck.FlattenLength | RMSE_TEST_2/PROG/create_data/deprecated/check_data.py:96 | concatenation keeps every value |
| DataCheck.CheckFiles | RMSE_TEST_2/PROG/create_data/deprecated/check_data.py:78-126 | no files skips the dataset; the run stops iff no result survives (`np.concatenate([])`) or the concatenated values hold NaN or an infinity (`plt.hist`); otherwise the aggregate, all finite |
| DataCheck.CheckDataset | RMSE_TEST_2/PROG/create_data/deprecated/check_data.py:72-96 | a dataset is skipped iff it has no `.nc` file; checked datasets aggregate the sorted files |
| DataCheck.CheckDatasetAborts | RMSE_TEST_2/PROG/create_data/deprecated/check_data.py:90-126 | the run stops at a dataset iff it has `.nc` files and either none gives a result or some result holds a non-finite value |
| DataCheck.FlattenFinite | RMSE_TEST_2/PROG/create_data/deprecated/check_data.py:96 | the concatenation is all finite iff every part is |
| DataCheck.AggregateFinite | RMSE_TEST_2/PROG/create_data/deprecated/check_data.py:90-96 | the aggregated values are all finite iff every surviving file's values are |
| DataCheck.MaskedCellStopsDataset | RMSE_TEST_2/PROG/create_data/deprecated/check_data.py:126 | an OBS file holding one NaN stops the run at the histogram |
| DataCheck.RunChecks | RMSE_TEST_2/PROG/create_data/deprecated/check_data.py:72 | the i-th outcome is the check of the i-th dataset |
| DataCheck.RunAbortsLast | RMSE_TEST_2/PROG/create_data/deprecated/check_data.py:96 | only the last outcome can be an abort |
| DataCheck.RunStopsOnAbort | RMSE_TEST_2/PROG/create_data/deprecated/check_data.py:72-96 | a run that ends early ends with an abort |
| DataCheck.CheckAll | RMSE_TEST_2/PROG/create_data/deprecated/check_data.py:72-126 | the dataset loop computes the run, which stops at the first dataset with no result or a non-finite value |
| ZeroFilled.Summary | RMSE_TEST/create_data/check_0_filled_files_3.py:26-62 | no valid data iff all values are -9990, with null min/max, zero ratios and the reason; otherwise min ≤ max, both non-sentinel values of the data, and the two ratios are the `Share` of zeros and of negatives among the non-sentinel values |
| ZeroFilled.Share | RMSE_TEST/create_data/check_0_filled_files_3.py:50-51 | the ratio times the number of valid values gives back the count |
| ZeroFilled.ShareAtLeastThreshold | RMSE_TEST/create_data/check_0_filled_files_3.py:90 | a share reaches 0.3 iff ten times the count is at least three times the whole |
| ZeroFilled.SummaryHighZero | RMSE_TEST/create_data/check_0_filled_files_3.py:47-51 | a file's zero ratio reaches 0.3 iff it has valid values and at least 30% of them are exactly zero |
| ZeroFilled.SummaryBounds | RMSE_TEST/create_data/check_0_filled_files_3.py:43-45 | every non-sentinel value lies between min and max |
| ZeroFilled.SummaryRatios | RMSE_TEST/create_data/check_0_filled_files_3.py:47-51 | both ratios lie in [0, 1] and their sum is at most 1 |
| ZeroFilled.SummaryExample | RMSE_TEST/create_data/check_0_filled_files_3.py:26-62 | `[-9990, 0, 0, 5, -3, -9990]` gives min -3, max 5, ratios 0.5 and 0.25 |
| ZeroFilled.ProcessFile | RMSE_TEST/create_data/check_0_filled_files_3.py:10-67 | no record for a suffix that is not 12 characters; a record iff the suffix parses and the file loads, summarising its values |
| ZeroFilled.ProcessFileDate | RMSE_TEST/create_data/check_0_filled_files_3.py:18-31 | the record's date is the suffix itself |
| ZeroFilled.Outputs | RMSE_TEST/create_data/check_0_filled_files_3.py:84 | one result per file |
| ZeroFilled.Results | RMSE_TEST/create_data/check_0_filled_files_3.py:85 | the non-None results |
| ZeroFilled.SortByDate | RMSE_TEST/create_data/check_0_filled_files_3.py:88 | the in-place sort orders the table by date text and permutes it |
| ZeroFilled.DateOrderedChronological | RMSE_TEST/create_data/check_0_filled_files_3.py:88 | order by the 12-digit date text is chronological order |
| ZeroFilled.HighZeroMembership | RMSE_TEST/create_data/check_0_filled_files_3.py:90 | the high-zero subset is exactly the records with zero_ratio ≥ 0.3 |
| ZeroFilled.AllInvalidNotHighZero | RMSE_TEST/create_data/check_0_filled_files_3.py:37 | an all-sentinel record is never high-zero |
| ZeroFilled.HighZeroOrdered | RMSE_TEST/create_data/check_0_filled_files_3.py:90 | the filter keeps date order |
| ZeroFilled.FirstSeen | RMSE_TEST/create_data/check_0_filled_files_3.py:104 | the distinct months, each once |
| ZeroFilled.MonthlyCounts | RMSE_TEST/create_data/check_0_filled_files_3.py:103-105 | one `YYYY-MM` row per month present, counting its records |
| ZeroFilled.MonthlyCountsTotal | RMSE_TEST/create_data/check_0_filled_files_3.py:103-104 | the monthly counts are positive and sum to the subset's size |
| ZeroFilled.MonthlyCountsSorted | RMSE_TEST/create_data/check_0_filled_files_3.py:104 | months come out in increasing order |
| ZeroFilled.Dates | RMSE_TEST/create_data/check_0_filled_files_3.py:103 | the `date` column, row by row |
| ZeroFilled.MonthlyStep | RMSE_TEST/create_data/check_0_filled_files_3.py:103-105 | the conversion raises iff some high-zero date is not a stamp pandas can hold; otherwise the result is the monthly counts |
| ZeroFilled.MonthlyStepOutOfRange | RMSE_TEST/create_data/check_0_filled_files_3.py:103 | a high-zero file dated outside 1677-09-21 .. 2262-04-11 makes the monthly step raise |
| ZeroFilled.MonthlyStepInRange | RMSE_TEST/create_data/check_0_filled_files_3.py:103-104 | when every high-zero date renders a stamp in pandas' range, the monthly counts are produced |
| ZeroFilled.Year3000OutOfRange | RMSE_TEST/create_data/check_0_filled_files_3.py:103 | 3000-01-01 00:00 is a valid stamp outside pandas' range |
| ZeroFilled.Analyze | RMSE_TEST/create_data/check_0_filled_files_3.py:69-107 | nothing for no files; failure when no file gives a record; otherwise the sorted permutation of the records, its high-zero subset, and the monthly step on that subset (its counts, or the conversion error raised after both CSV tables are written) |
| Values.Divide | RMSE_TEST_2/PROG/create_data/convert_sgd_to_obs_mkprism.py:69 | division by a nonzero scale is exact; by zero it gives +inf, -inf or NaN for a positive, negative or zero numerator |
| Values.NonMissingMembership | RMSE_TEST/create_data/check_0_filled_files_3.py:26-43 | the valid values are exactly the non-sentinel values |
| Values.NonMissingCount | RMSE_TEST/create_data/check_0_filled_files_3.py:26-27 | valid count + sentinel count = number of values |
| Values.ZerosAndNegatives | RMSE_TEST/create_data/check_0_filled_files_3.py:47-48 | zeros and negatives are disjoint, so their counts add up to at most the number of values |
| Values.MinOf | RMSE_TEST/create_data/check_0_filled_files_3.py:44 | `np.min` is an element no greater than any other |
| Values.MaxOf | RMSE_TEST/create_data/check_0_filled_files_3.py:45 | `np.max` is an element no smaller than any other |
| Grid.MaskCell | RMSE_TEST_2/PROG/create_data/sgd_to_mkprism.py:15 | a cell becomes NaN iff it is -9990 (or already NaN); other cells are kept |
| Grid.ScaleCell | RMSE_TEST_2/PROG/create_data/sgd_to_mkprism.py:16 | the result is NaN iff the cell is NaN or is 0 over a zero scale; a finite cell gives its IEEE quotient; an infinity stays infinite and keeps its sign iff the scale is not negative |
| Grid.MaskThenScale | RMSE_TEST_2/PROG/create_data/sgd_to_obs_test.py:38-39 | a raw -9990 ends as NaN; every other cell is divided by the scale |
| Grid.MaskedHasNoFill | RMSE_TEST_2/PROG/create_data/sgd_to_mkprism.py:15 | no -9990 survives masking, and masking twice is masking once |
| Grid.ScaledRoundTrip | RMSE_TEST_2/PROG/create_data/sgd_to_mkprism.py:16 | inverse of the modelled division (a property of the model, not a promise of the script): a scaled valid cell times the scale is the raw value |
| Grid.MaskAndScale | RMSE_TEST_2/PROG/create_data/sgd_to_mkprism.py:14-16 | the in-place mask and division leave the scaled masked grid |
| Grid.Linspace | RMSE_TEST_2/PROG/create_data/convert_sgd_to_obs_mkprism.py:78 | n points from start to stop |
| Grid.LinspaceSpaced | RMSE_TEST_2/PROG/create_data/sgd_to_obs_test.py:49-50 | point i is start + i × grid_size |
| Grid.Axis | RMSE_TEST_2/PROG/create_data/sgd_to_obs_test.py:49-50 | the axis has n centres spaced by grid_size |
| Grid.MeshAt | RMSE_TEST_2/PROG/create_data/sgd_to_obs_test.py:51-54 | flat cell k is (lats[k div nx], lons[k mod nx]) |
| Grid.GridMesh | RMSE_TEST_2/PROG/create_data/convert_sgd_to_obs_mkprism.py:78-83 | nx × ny cell centres |
| Grid.MeshCell | RMSE_TEST_2/PROG/create_data/convert_sgd_to_obs_mkprism.py:78-83 | cell k is at (slat + (k div nx)·size, slon + (k mod nx)·size) |
| Grid.Dist2 | RMSE_TEST_2/PROG/create_data/convert_sgd_to_obs_mkprism.py:85 | squared distances are non-negative and zero at the point itself |
| Grid.Nearest | RMSE_TEST_2/PROG/create_data/sgd_to_obs_test.py:56 | the query returns an index of minimal distance (the first such) |
| Grid.NearestExact | RMSE_TEST_2/PROG/create_data/sgd_to_obs_test.py:56 | a station on a cell centre gets distance 0 |
| Grid.StationsDistinct | RMSE_TEST_2/PROG/create_data/convert_sgd_to_obs_mkprism.py:20-38 | 17 stations with distinct names |
| Grid.StationValues | RMSE_TEST_2/PROG/create_data/sgd_to_obs_test.py:54-59 | one value per station when every nearest index is in the data; `IndexError` otherwise |
| Grid.StationValueNearest | RMSE_TEST_2/PROG/create_data/sgd_to_obs_test.py:59 | each station's value is a grid element at a minimal-distance cell |
| Grid.StationValuesDefined | RMSE_TEST_2/PROG/create_data/sgd_to_obs_test.py:54-59 | a non-empty grid with one value per cell gives every station a value |
| Grid.LapseOffset | RMSE_TEST_2/PROG/create_data/sgd_to_mkprism.py:22-23 | no offset at 500 m, cooling above, warming below |
| Grid.LapseOffsetBound | RMSE_TEST_2/PROG/create_data/sgd_to_mkprism.py:20-23 | heights in [400, 600] give offsets within ±0.65 |
| Grid.LapseOffsetMirror | RMSE_TEST_2/PROG/create_data/sgd_to_mkprism.py:23 | a property of the modelled formula, not a promise of the script: heights mirrored about 500 m give opposite offsets |
| Grid.AddCell | RMSE_TEST_2/PROG/create_data/sgd_to_mkprism.py:23 | a value is moved by the offset; NaN stays NaN |
| Grid.Corrected | RMSE_TEST_2/PROG/create_data/sgd_to_mkprism.py:23 | each cell is corrected by its own height, the length kept |
| Grid.CorrectedKeepsMissing | RMSE_TEST_2/PROG/create_data/sgd_to_mkprism.py:15-23 | a cell is missing after the correction iff it was before |
| Grid.CorrectedAtReference | RMSE_TEST_2/PROG/create_data/sgd_to_mkprism.py:23 | with every height 500 m the grid is unchanged |
| Grid.CorrectedBound | RMSE_TEST_2/PROG/create_data/convert_sgd_to_obs_mkprism.py:99-101 | a drawn height in [400, 600] moves a value by at most 0.65 |
| Grid.CorrectedRoundTrip | RMSE_TEST_2/PROG/create_data/sgd_to_mkprism.py:23 | inverse of the modelled correction (a property of the model, not a promise of the script): correcting again with mirrored heights restores the grid |
| Conversion.DayFile | RMSE_TEST_2/PROG/create_data/convert_sgd_to_obs_mkprism.py:52-55 | the day's place below the base is non-empty and starts with a digit of its year |
| Conversion.InputPath | RMSE_TEST_2/PROG/create_data/convert_sgd_to_obs_mkprism.py:56 | the input path ends with `sfc_grid_ta_{YYYYMMDD}0000.nc` |
| Conversion.InputPathIsJoin | RMSE_TEST_2/PROG/create_data/convert_sgd_to_obs_mkprism.py:56 | the input path is `os.path.join(base, year, month, day, filename)` |
| Conversion.InputPathSlashes | RMSE_TEST_2/PROG/create_data/deprecated/sgd_to_mkprism_test.py:28-32 | the path is `{base}/{YYYY}/{MM}/{DD}/sfc_grid_ta_{YYYYMMDD}0000.nc` |
| Conversion.InputIsDownload | RMSE_TEST_2/PROG/create_data/convert_sgd_to_obs_mkprism.py:17 | the conversion reads the daily `ta` files where create_data.py saves them |
| Conversion.NamesShareStamp | RMSE_TEST_2/PROG/create_data/convert_sgd_to_obs_mkprism.py:93-107 | the input and both outputs carry the day's midnight stamp, which parses back to the day |
| Conversion.ScaledGrid | RMSE_TEST_2/PROG/create_data/convert_sgd_to_obs_mkprism.py:67-69 | `KeyError` iff `data_scale` is absent; otherwise one value per cell |
| Conversion.StationLabels | RMSE_TEST_2/PROG/create_data/convert_sgd_to_obs_mkprism.py:91 | the labels are the station names in dictionary order |
| Conversion.ObsTable | RMSE_TEST_2/PROG/create_data/sgd_to_obs_test.py:62-65 | the OBS table has a label and a value for each of the 17 stations |
| Conversion.ObsTableNearest | RMSE_TEST_2/PROG/create_data/convert_sgd_to_obs_mkprism.py:83-87 | station i's value is the scaled grid at a cell of minimal distance to it |
| Conversion.ObsTableDefined | RMSE_TEST_2/PROG/create_data/convert_sgd_to_obs_mkprism.py:83-92 | a scaled grid with one value per mesh cell always gives a table |
| Conversion.MkprismGrid | RMSE_TEST_2/PROG/create_data/sgd_to_mkprism.py:26-29 | the corrected grid keeps the input's (ny, nx) shape and cell count; for a well-shaped file it holds ny × nx values |
| Conversion.MkprismCell | RMSE_TEST_2/PROG/create_data/convert_sgd_to_obs_mkprism.py:68-101 | a -9990 cell is NaN in the output; any other is its scaled value plus the height offset |
| Conversion.Convert | RMSE_TEST_2/PROG/create_data/convert_sgd_to_obs_mkprism.py:51-109 | the day is skipped iff its input is absent; a written day has two outputs |
| Conversion.ConvertWritten | RMSE_TEST_2/PROG/create_data/convert_sgd_to_obs_mkprism.py:89-108 | an existing day is written iff the OBS table builds; it writes `obs_ta_…` then `mkprism_ta_…` |
| Conversion.ConvertMkprismOnly | RMSE_TEST_2/PROG/create_data/deprecated/sgd_to_mkprism_test.py:27-59 | skipped iff the input is absent; a written day has one output |
| Conversion.MkprismOnlyAgrees | RMSE_TEST_2/PROG/create_data/deprecated/sgd_to_mkprism_test.py:47-58 | on the same file the MK-PRISM-only script writes the same grid under the same name, and it still writes when the station lookup fails with `IndexError` |
| Conversion.ProcessSgdFile | RMSE_TEST_2/PROG/create_data/convert_sgd_to_obs_mkprism.py:51-109 | the in-place processing computes `Convert` |
| Conversion.ProcessMkprismOnly | RMSE_TEST_2/PROG/create_data/deprecated/sgd_to_mkprism_test.py:27-59 | the in-place processing computes `ConvertMkprismOnly` |
| Conversion.OutcomesAt | RMSE_TEST_2/PROG/create_data/convert_sgd_to_obs_mkprism.py:116-117 | in one worker's chunk the i-th result is the step on day i, and only the last result can be a raise |
| Conversion.OutcomesFailure | RMSE_TEST_2/PROG/create_data/convert_sgd_to_obs_mkprism.py:116-117 | a chunk's results hold a raise iff one of its days raises; otherwise there is one result per day, in order |
| Conversion.ProcessDays | RMSE_TEST_2/PROG/create_data/convert_sgd_to_obs_mkprism.py:51-117 | one worker's loop over its chunk gives exactly the chunk's results, stopping after the first raising day |
| Conversion.ChunkSize | RMSE_TEST_2/PROG/create_data/convert_sgd_to_obs_mkprism.py:116-117 | `pool.map`'s chunk size is the length over four times the workers, rounded up, and positive for a non-empty list |
| Conversion.ConversionChunkSize | RMSE_TEST_2/PROG/create_data/convert_sgd_to_obs_mkprism.py:116-117 | four processes take the 731 days in chunks of 46 |
| Conversion.HasFailureAppend | RMSE_TEST_2/PROG/create_data/convert_sgd_to_obs_mkprism.py:116-117 | the gathered results of two chunks hold a raise iff one of them does |
| Conversion.ChunkedFailure | RMSE_TEST_2/PROG/create_data/convert_sgd_to_obs_mkprism.py:116-117 | the gathered results hold a raise iff some day of the list raises; otherwise they are the step on every day, in order |
| Conversion.ChunkFrom | RMSE_TEST_2/PROG/create_data/convert_sgd_to_obs_mkprism.py:116-117 | the results from a chunk boundary on are that chunk's results followed by the later chunks' |
| Conversion.PoolMap | RMSE_TEST_2/PROG/create_data/convert_sgd_to_obs_mkprism.py:116-117 | the run aborts iff some day raises; a finished run holds the step's result for every day, in order |
| Conversion.MapChunks | RMSE_TEST_2/PROG/create_data/convert_sgd_to_obs_mkprism.py:116-117 | the chunk loop gathers exactly the chunked results |
| Conversion.Workers | RMSE_TEST_2/PROG/create_data/convert_sgd_to_obs_mkprism.py:113 | `min(cpu_count(), 4)` processes: between 1 and 4 |
| Conversion.ConvertAll | RMSE_TEST_2/PROG/create_data/convert_sgd_to_obs_mkprism.py:41-117 | `pool.map` over the 731 days of 2020-2021; the run finishes, with one outcome per day in order, iff no day raises |
| Conversion.ProcessDaysMkprismOnly | RMSE_TEST_2/PROG/create_data/deprecated/sgd_to_mkprism_test.py:66-67 | one worker's MK-PRISM-only loop over its chunk, stopping after the first raising day |
| Conversion.MapChunksMkprismOnly | RMSE_TEST_2/PROG/create_data/deprecated/sgd_to_mkprism_test.py:66-67 | the chunk loop gathers exactly the chunked results |
| Conversion.ConvertAllMkprismOnly | RMSE_TEST_2/PROG/create_data/deprecated/sgd_to_mkprism_test.py:17-67 | the same run for the MK-PRISM-only script: finished, with one outcome per day, iff no day raises |
| Conversion.FirstDayNames | RMSE_TEST_2/PROG/create_data/sgd_to_obs_test.py:33-66 | 2020-01-01 gives `sfc_grid_ta_202001010000.nc`, `obs_ta_202001010000.nc` and `mkprism_ta_202001010000.nc` |
| Conversion.OneShotPath | RMSE_TEST_2/PROG/create_data/sgd_to_mkprism.py:10 | the one-shot input is `{base}/2020/01/01/sfc_grid_ta_202001010000.nc` |

## Left out

- Network access, `requests` errors and timeouts: each download is a given outcome (failed, or a file of some size).
- Multiprocessing pools, `tqdm`, `print`, `time.sleep` and the API key: pools are sequential maps in list order. The SGD conversion runs keep `pool.map`'s chunks: each chunk stops at its first raise, and the run aborts once all chunks are done.
- Conversion.PoolMap: when several days raise, which exception `pool.map` re-raises depends on the order the chunks complete in. The model says only that the run aborts.
- netCDF reading and writing: a grid is an input record and each output is a returned value.
- DownloadQueue.PendingDistinctPaths: stated for start and end years from 1000 to 9998 and a variable name without `/` (both scripts use 2020 to 2021 and `ta` or `rn_day`); outside that, the `%Y` text or the file name no longer parses back to one stamp.
- Plotting: the histograms, scatter plots and pie charts are not drawn; only the `ValueError` that `plt.hist` raises on NaN or infinite values in check_data.py is modelled, as an abort.
- CSV writing: each table is returned. The saved file names, which use `datetime.now()`, are left out.
- `glob` and `os.listdir`: the file lists are inputs, and their order is the listing's.
- Interactive prompts: answers are parameters. The `int(input())` retry loop of check_sgd_file_size_1.py is left out; its `min_size` is a parameter.
- Floating point: values are exact reals. `float32` rounding, `np.linspace` rounding, `.1f` rendering and NaN in comparisons other than the -9990 tests are left out.
- AuditStats.StatsOf: the mean, median and standard deviation of file sizes are not stated; only the row's variable and min ≤ max are. Median and standard deviation need floating-point sorting and square roots.
- Grid.Dist2: only non-negativity and zero at the point are stated, not the Euclidean formula's other properties.
- Grid.Nearest: picks the first index of minimal distance. cKDTree's tie rule is unspecified, so only the minimal-distance property should be relied on.
- The random heights of `np.random.uniform(400, 600)` are an input; their distribution is not modelled.
- Missing grid attributes (`grid_size`, `grid_nx` and the others) and the `int()` truncation of `grid_nx`/`grid_ny`: the attributes are given as naturals.
- Dates: only whole hours and days occur. Years before 1000 render unpadded, so round trips need four-digit years. The `OverflowError` after 9999-12-31 and strptime's acceptance of space-padded fields are not modelled.
- get_excluded_date_4.py raises when no suffix is kept (`min()` of an empty index). The model follows the code here: `MissingDates.ScanMissingDates` returns an error, where the documented behaviour would report every date as missing.
- `float()` is modelled on decimal literals only. Exponents, `inf`, `nan` and underscores are not, and `isdigit` is ASCII-only.
- The `KeyboardInterrupt` and generic exception handlers around the download loops, and the failed-downloads CSV they write.
- SizeCheck.Record: the contract states the path, basename and byte size. The human-readable size comes from the definition, and the contract does not restate it; FormatSize states that value.
- RMSE_TEST/plot_test/plot_test.py and RMSE_TEST_2/PROG/create_data/test.py are not part of this model.

## Findings

| source | as written | input that shows it | evidently intended | confidence | as-written member | corrected member |
|---|---|---|---|---|---|---|
| RMSE_TEST_2/PROG/create_data/create_data.py:115-117 | the queue keeps only `%Y%m%d`, so every hourly request has `tm={YYYYMMDD}H00`, with no hour | hourly mode, 2020-01-01 01:00 and 02:00: two files, one request `tm=20200101H00` | `tm={YYYYMMDD}{HH}00`, as create_data_0.py:108 builds it | high (not executed) | DownloadQueue.HourlyCollisionExample | DownloadQueue.RequestTimeInjective |
