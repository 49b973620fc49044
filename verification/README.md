# WeatherRadarML decision rules in Dafny

WeatherRadarML downloads NEXRAD Level 2 radar files from the public AWS
bucket, converts them to netCDF with the NOAA Weather and Climate Toolkit
(`wct-export`), and watches the conversion. It also reads the NCDC ASOS
station table and the National Weather Service watch/warning (VTEC)
shapefile records. All of this runs across processes, threads and queues.
Under that plumbing sit sequential decision rules, and this project models
those rules as pure functions over immutable data and proves properties of
them.

- `AwsDownload` covers the download. It enumerates the station-days from
  the day loop, the suffix filters and the time window. It routes each
  station-day round-robin to a download queue, followed by its sentinel. A
  worker folds over its queue: a sentinel resets the station accounting, a
  present file is skipped, and a download is retried until it has the
  expected size. The run then sums the worker reports with the summation
  loop as written, which loses the failure count.
- `Level2ToNc` covers conversion planning. Files are selected into
  per-station statistics. Each input becomes one batch-file line. The lines
  are partitioned into `concurrency` batch files, and the overall status is
  read from the exit codes.
- `ConvertMonitors` holds the two progress monitors. They are state
  machines that move a station record from the in-flight map to the done
  map. The model also covers the station-name rules and the rule for
  waiting until a cache file's size has settled.
- `WctExport` covers two parts of the `wct-export` wrapper: how it groups
  output lines into log messages, and how it builds the command from the
  script's shebang line.
- `Level2Directory` builds the local directory layout from a date and
  station IDs.
- `AsosInfo` holds the fixed-width station table parser and its queries.
- `WwaVtec` and `Vtec` cover the VTEC lookup tables and how a warning
  record's geometry and properties are decoded.
- `SquareExtent` is the bounding-box script: extents and a strict
  containment test.
- `Common` holds the Python string and path operations the rules need.
  `Calendar` holds `datetime` arithmetic and fixed-width
  `strftime`/`strptime`.

External effects are parameters of the model. These are:

- the S3 listing;
- the local directory listings;
- the glob that finds existing files;
- download attempt outcomes;
- file sizes;
- exit codes of the `wct-export` processes;
- queue contents.

A worker or a monitor is modelled as a fold over the finite sequence of
inputs it sees. A Python exception that escapes an operation appears as the
`Err` side of a `Result`, named by its exception class.

## Model

| member | source | states |
|---|---|---|
| AwsDownload.WorkerCount | WeatherRadarML/nexrad/nexrad_level2_aws_download.py:180 | A concurrency above 10 becomes 10; any other value is kept. |
| AwsDownload.KeyPrefix | WeatherRadarML/nexrad/nexrad_level2_aws_download.py:219-224 | The listing prefix is the day as `YYYY/MM/DD/` followed by the station ID. |
| AwsDownload.DayPrefixRoundTrip | WeatherRadarML/nexrad/nexrad_level2_aws_download.py:219 | Parsing the day part of a prefix gives back midnight of that day, for any four-digit-year date. |
| AwsDownload.FileTime | WeatherRadarML/nexrad/nexrad_level2_aws_download.py:230 | A name yields a time only when it has at least 19 characters, and that time is a valid date-time. |
| AwsDownload.Classify | WeatherRadarML/nexrad/nexrad_level2_aws_download.py:227-231 | A name excluded by a suffix filter is dropped. An object is unreadable iff it passes the filters and its name has no parsable time, and a kept object always has a time. |
| AwsDownload.ClassifyMeaning | WeatherRadarML/nexrad/nexrad_level2_aws_download.py:227-231 | An object is kept iff no active suffix filter (`MDM`, `tar`) excludes its base name and its time lies in the closed window [date1, date2]. It is unreadable iff it passes the filters and its name has no parsable time. |
| AwsDownload.TaskFor | WeatherRadarML/nexrad/nexrad_level2_aws_download.py:232-235 | A task carries the object's station, key and size, and its local file ends with the key's base name. |
| AwsDownload.SelectTasksSpec | WeatherRadarML/nexrad/nexrad_level2_aws_download.py:226-236 | One listing fails with `ValueError` iff some object in it is unreadable. Otherwise it yields exactly the kept objects' tasks, in listing order. |
| AwsDownload.SelectTasks | WeatherRadarML/nexrad/nexrad_level2_aws_download.py:226-236 | A listing fails only with `ValueError`. Otherwise it yields at most one task per listed object, each a download task of the listing's station. |
| AwsDownload.EnqueuedIffKept | WeatherRadarML/nexrad/nexrad_level2_aws_download.py:226-236 | A listed object is put on a queue iff it is kept. |
| AwsDownload.StationDayItems | WeatherRadarML/nexrad/nexrad_level2_aws_download.py:234-238 | A station-day fails only with `ValueError`. Otherwise its items are the kept objects' tasks followed by exactly one sentinel, even when there are no tasks. |
| AwsDownload.EnumerationOrder | WeatherRadarML/nexrad/nexrad_level2_aws_download.py:217-241 | Station-day number `d * nStations + i` of a successful enumeration is station `i` of day `d`. |
| AwsDownload.Route | WeatherRadarML/nexrad/nexrad_level2_aws_download.py:216-239 | The scheduler loop's queues equal the reference routing: station-day `k` goes whole to queue `k mod n`, so the queue advances once per station-day. |
| AwsDownload.ModNext | WeatherRadarML/nexrad/nexrad_level2_aws_download.py:239 | Adding one to the queue index modulo `n` keeps it equal to the station-day counter modulo `n`. |
| AwsDownload.RoutingConservesTasks | WeatherRadarML/nexrad/nexrad_level2_aws_download.py:234-239 | All queues together hold exactly the enumerated tasks. Routing loses nothing and duplicates nothing. |
| AwsDownload.RetryOutcome | WeatherRadarML/nexrad/nexrad_level2_aws_download.py:93-109 | A download succeeds iff one of the first `attempts` attempts completes with the expected size. Zero attempts always fail; a negative limit skips the loop and leaves the counter off the limit, so it counts as a success. |
| AwsDownload.AttemptLoop | WeatherRadarML/nexrad/nexrad_level2_aws_download.py:93-109 | The retry loop ends with the counter at the limit iff it starts at or below the limit and none of the remaining attempts completes with the expected size. |
| AwsDownload.Step | WeatherRadarML/nexrad/nexrad_level2_aws_download.py:74-119 | A sentinel adds no success and no failure, and it resets the station size. Every task adds exactly one success or one failure, and a success adds that task's size to both totals. |
| AwsDownload.PresentFileSkipsDownload | WeatherRadarML/nexrad/nexrad_level2_aws_download.py:84-89 | When the glob finds the local file and clobber is off, that task is a success that adds its size, whatever the download attempts would give. |
| AwsDownload.WorkerCounts | WeatherRadarML/nexrad/nexrad_level2_aws_download.py:84-119 | For a worker, `nSuccess` counts the succeeded tasks and `nSuccess + nFail` counts every task on its queue. `totSize` is the sum of the sizes of the succeeded tasks. |
| AwsDownload.RunWorker | WeatherRadarML/nexrad/nexrad_level2_aws_download.py:74-119 | Every task on a worker's queue is counted once, as a success or a failure, and the worker deletes one local file per failure. |
| AwsDownload.WorkerRemovals | WeatherRadarML/nexrad/nexrad_level2_aws_download.py:109-115 | A worker removes exactly the local files of its failed tasks, in queue order. |
| AwsDownload.WorkerStationSize | WeatherRadarML/nexrad/nexrad_level2_aws_download.py:80-89 | The running station size is the sum of the succeeded tasks' sizes since the last sentinel. |
| AwsDownload.AggregateAsWritten | WeatherRadarML/nexrad/nexrad_level2_aws_download.py:244-253 | As written, summing the reports gives a failure total of 0, whatever the workers report. |
| AwsDownload.AsWrittenLosesAFailure | WeatherRadarML/nexrad/nexrad_level2_aws_download.py:252 | One worker that reports one failure still yields an aggregate of zero failures. |
| AwsDownload.QueueSuccessesBounded | WeatherRadarML/nexrad/nexrad_level2_aws_download.py:84-119 | No more tasks succeed than the queues hold. |
| AwsDownload.AsWrittenTotals | WeatherRadarML/nexrad/nexrad_level2_aws_download.py:247-253 | The as-written summation still totals the successes and sizes that the workers report. |
| AwsDownload.Aggregate | WeatherRadarML/nexrad/nexrad_level2_aws_download.py:244-253 | The corrected summation totals each count over the workers. Its success and size totals equal those of the as-written loop. |
| AwsDownload.AggregateCoversQueues | WeatherRadarML/nexrad/nexrad_level2_aws_download.py:247-253 | When every worker reports as many successes plus failures as its queue has tasks, the corrected totals add up to all enumerated tasks. |
| AwsDownload.WindowEnd | WeatherRadarML/nexrad/nexrad_level2_aws_download.py:212-214 | The window ends at `date2` when it is given, and otherwise at the midnight after `date1`'s day. |
| AwsDownload.DefaultWindowIsOneDay | WeatherRadarML/nexrad/nexrad_level2_aws_download.py:212-217 | Without `date2`, exactly one day is enumerated: `date1`'s. |
| AwsDownload.BatchesFailWithValueError | WeatherRadarML/nexrad/nexrad_level2_aws_download.py:230 | The only way enumeration can fail is the `ValueError` of an unreadable name. |
| AwsDownload.FirstStop | WeatherRadarML/nexrad/nexrad_level2_aws_download.py:226-236 | The scan stops at the first object that is not dropped, and the result is that object's verdict. The result is "dropped" iff every object is dropped. |
| AwsDownload.NoQueueError | WeatherRadarML/nexrad/nexrad_level2_aws_download.py:204 | With no queue, a run that has a station-day fails. It fails with `ValueError` when an unreadable name comes before any kept object, and otherwise with the `IndexError` of the first put (line 234 or 238). |
| AwsDownload.RunWorkers | WeatherRadarML/nexrad/nexrad_level2_aws_download.py:247-249 | There is one report per queue, in queue order. In each report, successes plus failures equal the number of queued tasks, and the size is the sum of the succeeded tasks' sizes. |
| AwsDownload.Download | WeatherRadarML/nexrad/nexrad_level2_aws_download.py:179-253 | A run with no queue succeeds iff there is no day or no station, with an all-zero report, and otherwise fails with `NoQueueError`. With at least one queue, the run succeeds iff the enumeration succeeds, and an enumeration failure gives `ValueError`. On success the failure total is 0, as the summation is written. The success count and the size are those of the succeeded tasks over all queues, and the success count is at most the number of enumerated tasks. |
| Level2ToNc.OutDir | WeatherRadarML/nexrad/convert/nexrad_level2_to_nc.py:54 | For a relative station ID, the output directory is `<tmpRoot>/netcdf/<station>`. |
| Level2ToNc.InitialStats | WeatherRadarML/nexrad/convert/nexrad_level2_to_nc.py:46-53 | Exactly the listed stations have records, each with all four counters at 0; a station listed twice has one record. |
| Level2ToNc.FileStamp | WeatherRadarML/nexrad/convert/nexrad_level2_to_nc.py:80 | A name yields a time only when it has at least 17 characters, and that time is a valid date-time with seconds 0. |
| Level2ToNc.Judge | WeatherRadarML/nexrad/convert/nexrad_level2_to_nc.py:80-81 | A file is kept iff its time lies in the closed window [date0, date1]. A name without a readable time is a `ValueError`. |
| Level2ToNc.AddEntryStats | WeatherRadarML/nexrad/convert/nexrad_level2_to_nc.py:82-89 | Selecting a file adds one to its own station's files to convert and its size to that station's compressed size. No other counter changes. |
| Level2ToNc.KeptEntriesMembers | WeatherRadarML/nexrad/convert/nexrad_level2_to_nc.py:78-89 | An entry is kept iff it was found and judged to be kept. |
| Level2ToNc.SelectFails | WeatherRadarML/nexrad/convert/nexrad_level2_to_nc.py:78-81 | Selection fails with `ValueError` iff some found name is unreadable. |
| Level2ToNc.SelectFiles | WeatherRadarML/nexrad/convert/nexrad_level2_to_nc.py:82-83 | A successful selection appends exactly the kept files, in order, each paired with its station's output directory. |
| Level2ToNc.SelectTotals | WeatherRadarML/nexrad/convert/nexrad_level2_to_nc.py:85-87 | `numConvert` is the number of kept files and equals the number of input files. `compressedSize` is the sum of their sizes. |
| Level2ToNc.SelectStats | WeatherRadarML/nexrad/convert/nexrad_level2_to_nc.py:88-89 | Each station gains one file to convert and that file's size for each kept file of its own. Its other counters are unchanged. |
| Level2ToNc.Select | WeatherRadarML/nexrad/convert/nexrad_level2_to_nc.py:78-89 | Selection fails only with `ValueError`, and it keeps the set of stations that have statistics. |
| Level2ToNc.PlanOf | WeatherRadarML/nexrad/convert/nexrad_level2_to_nc.py:46-89 | A plan from the found files fails only with `ValueError`. Otherwise it has statistics for exactly the given stations. |
| Level2ToNc.Days | WeatherRadarML/nexrad/convert/nexrad_level2_to_nc.py:63-65 | Days are the consecutive midnights from `date0`'s day while `date1 >= day`, so the window is inclusive. |
| Level2ToNc.Entries | WeatherRadarML/nexrad/convert/nexrad_level2_to_nc.py:65-77 | Every found file is tagged with one of the requested stations. |
| Level2ToNc.ConvertPlan | WeatherRadarML/nexrad/convert/nexrad_level2_to_nc.py:35-90 | A plan fails only with `TypeError` or `ValueError`. It fails with `TypeError` iff the temporary root is missing and there is a station, or the Level 2 root is missing and there is a day. A successful plan has statistics for exactly the stations, a scalar station counting as one. |
| Level2ToNc.ReturnedNamesInWindow | WeatherRadarML/nexrad/convert/nexrad_level2_to_nc.py:119 | The returned base names are those of the selected files, in selection order. Each carries a time inside [date0, date1], and there are exactly as many as files counted for conversion. |
| Level2ToNc.PlanStationStats | WeatherRadarML/nexrad/convert/nexrad_level2_to_nc.py:49-53 | In a successful plan each station has nothing converted yet. It has one file to convert, and that file's size, for each of its selected files. |
| Level2ToNc.BatchLineFields | WeatherRadarML/nexrad/convert/nexrad_level2_to_nc.py:171 | A batch line splits on commas back into input file, output directory and configuration when none of them contains a comma. |
| Level2ToNc.BatchLines | WeatherRadarML/nexrad/convert/nexrad_level2_to_nc.py:169-171 | There is one line per input file, in input order. Too few output directories give `IndexError`. |
| Level2ToNc.BatchFileRoundTrip | WeatherRadarML/nexrad/convert/nexrad_level2_to_nc.py:217-219 | Reading a written batch file back line by line gives its lines, then end of file. |
| Level2ToNc.Chunk | WeatherRadarML/nexrad/convert/nexrad_level2_to_nc.py:210-211 | Lines per batch is the floor quotient, raised to 1 when it is 0. |
| Level2ToNc.BoundsAsWritten | WeatherRadarML/nexrad/convert/nexrad_level2_to_nc.py:212-213 | There are `concurrency + 1` boundaries. |
| Level2ToNc.Fill | WeatherRadarML/nexrad/convert/nexrad_level2_to_nc.py:214-219 | Writing the batch files fails only with `IndexError`. Otherwise there is one batch file per pair of consecutive boundaries. |
| Level2ToNc.PartitionAsWritten | WeatherRadarML/nexrad/convert/nexrad_level2_to_nc.py:209-219 | The partition as written fails with `ZeroDivisionError` iff the concurrency is 0, and with `IndexError` for a negative one. Otherwise it fails only with `IndexError`, and on success it writes exactly `concurrency` batch files. |
| Level2ToNc.PartitionAsWrittenOverruns | WeatherRadarML/nexrad/convert/nexrad_level2_to_nc.py:209-219 | With `0 < nLines < concurrency`, the boundaries run past the end and writing fails with `IndexError`. |
| Level2ToNc.OneLineTwoFiles | WeatherRadarML/nexrad/convert/nexrad_level2_to_nc.py:209-219 | One line and two batch files give the boundaries [0, 1, 2], and writing fails with `IndexError`. |
| Level2ToNc.FillWithinBounds | WeatherRadarML/nexrad/convert/nexrad_level2_to_nc.py:214-219 | Within bounds, writing never fails and writes exactly the slices between boundaries. |
| Level2ToNc.SlicesCover | WeatherRadarML/nexrad/convert/nexrad_level2_to_nc.py:218 | Consecutive slices put back together are the lines between the first and last boundary, each once and in order. |
| Level2ToNc.Partition | WeatherRadarML/nexrad/convert/nexrad_level2_to_nc.py:209-219 | The corrected partition has `concurrency` batch files whose lines, put back together, are all the lines, each once and in order. |
| Level2ToNc.PartitionsAgree | WeatherRadarML/nexrad/convert/nexrad_level2_to_nc.py:209-219 | When `nLines >= concurrency >= 1`, the as-written and corrected partitions are the same. |
| Level2ToNc.BatchSizes | WeatherRadarML/nexrad/convert/nexrad_level2_to_nc.py:210-213 | When `nLines >= concurrency`, each batch but the last has the floor quotient of lines, and the last also takes the remainder. |
| Level2ToNc.AllClean | WeatherRadarML/nexrad/convert/nexrad_level2_to_nc.py:242 | This is true iff every exit code is 0. |
| Level2ToNc.WctConvert | WeatherRadarML/nexrad/convert/nexrad_level2_to_nc.py:169-246 | With no lines the result is true. Too few output directories give `IndexError`, and a zero concurrency gives `ZeroDivisionError`. With fewer lines than batch files, or a negative concurrency, writing the batch files fails with `IndexError`. Otherwise the result is true iff each of the `concurrency` exports exits with 0. |
| ConvertMonitors.Bump | WeatherRadarML/nexrad/convert/convert_monitors.py:95 | One more file is counted for that station, and nothing else changes. That the step keeps the monitor invariant is stated by `SettleKeepsConsistent` and `AcceptKeepsConsistent`. |
| ConvertMonitors.Credit | WeatherRadarML/nexrad/convert/convert_monitors.py:100 | That station's converted size grows by the given amount, and nothing else changes. That the step keeps the monitor invariant is stated by `SettleKeepsConsistent` and `AcceptKeepsConsistent`. |
| ConvertMonitors.Settle | WeatherRadarML/nexrad/convert/convert_monitors.py:101-104 | When the counts match, the record moves from in flight to done and its size joins the global total. Otherwise nothing changes. That the step keeps the monitor invariant is stated by `SettleKeepsConsistent` and `AcceptKeepsConsistent`. |
| ConvertMonitors.AcceptKeepsConsistent | WeatherRadarML/nexrad/convert/convert_monitors.py:95-104 | After accepting a file, every station is still in exactly one map and the global total still equals its start plus the sizes of the done stations. |
| ConvertMonitors.Accept | WeatherRadarML/nexrad/convert/convert_monitors.py:95-104 | A counted file raises the station's count and size. The station moves to the done map, and its size to the global total, iff the count then reaches the target; otherwise it stays in flight with the new record. |
| ConvertMonitors.MergeRestoresStations | WeatherRadarML/nexrad/convert/convert_monitors.py:110 | Merging a consistent monitor's maps gives every station exactly once. |
| ConvertMonitors.FinishSound | WeatherRadarML/nexrad/convert/convert_monitors.py:66 | Ending a consistent monitor for any reason keeps the invariant. A normal exit hands back every station. |
| ConvertMonitors.PyartStation | WeatherRadarML/nexrad/convert/convert_monitors.py:92 | The station is the base name's first four characters, or the whole base name when it is shorter. |
| ConvertMonitors.PyartIgnoresUnknown | WeatherRadarML/nexrad/convert/convert_monitors.py:94 | A result whose station is unknown or already done changes nothing. |
| ConvertMonitors.PyartCredit | WeatherRadarML/nexrad/convert/convert_monitors.py:95-100 | An accepted result counts one file. It adds its size only when the conversion succeeded, and 0 otherwise. |
| ConvertMonitors.PyartKeepsConsistent | WeatherRadarML/nexrad/convert/convert_monitors.py:87-110 | Whatever the results, the pyart monitor keeps the invariant. On a normal exit the merged statistics hold every station once. |
| ConvertMonitors.PyartZeroTarget | WeatherRadarML/nexrad/convert/convert_monitors.py:95-101 | A station already at its target when a file is counted never completes, so the pyart monitor never ends with every station done. |
| ConvertMonitors.PyartLoop | WeatherRadarML/nexrad/convert/convert_monitors.py:87-110 | The pyart monitor ends with every station done only when none is left in flight. Otherwise it is blocked, stopped by the `None` marker, or crashed with `TypeError` on a result without an output path. |
| ConvertMonitors.StabilizeSpec | WeatherRadarML/nexrad/convert/convert_monitors.py:43-51 | The wait ends exactly at the first positive reading equal to the previous positive reading, and reports it. With no such reading it never ends. |
| ConvertMonitors.Stabilize | WeatherRadarML/nexrad/convert/convert_monitors.py:43-51 | When the wait ends, it reports a positive size that was one of the readings. |
| ConvertMonitors.ZeroIgnored | WeatherRadarML/nexrad/convert/convert_monitors.py:47 | A zero reading anywhere does not change the outcome. |
| ConvertMonitors.CacheStation | WeatherRadarML/nexrad/convert/convert_monitors.py:40 | The station is the second-to-last piece of the path split on `%2F`. A path with no `%2F` gives `IndexError`. |
| ConvertMonitors.NoaaPollDeletes | WeatherRadarML/nexrad/convert/convert_monitors.py:39-52 | The files a poll schedules for deletion are distinct, and each is one of the poll's own files. Files already scheduled are skipped. |
| ConvertMonitors.NoaaPollKeepsConsistent | WeatherRadarML/nexrad/convert/convert_monitors.py:38-57 | One poll keeps the monitor invariant, whether or not it finishes. |
| ConvertMonitors.NoaaKeepsConsistent | WeatherRadarML/nexrad/convert/convert_monitors.py:25-66 | The wct-export monitor keeps the invariant over all polls. A normal exit hands back every station once. |
| ConvertMonitors.NoaaZeroTarget | WeatherRadarML/nexrad/convert/convert_monitors.py:42-54 | The count is raised before the comparison, so a station with nothing to convert never completes. The monitor then ends only through the event or a failure. |
| ConvertMonitors.NoaaPoll | WeatherRadarML/nexrad/convert/convert_monitors.py:38-57 | A poll stops early only when blocked, or crashed with `IndexError` or `TypeError`. |
| ConvertMonitors.NoaaLoop | WeatherRadarML/nexrad/convert/convert_monitors.py:25-66 | The wct-export monitor ends with every station done only when none is left in flight. |
| WctExport.Stream | WeatherRadarML/nexrad/convert/wct_export.py:37-38 | The handler sees the lines read before the first empty read (end of file), in order. |
| WctExport.HeadLength | WeatherRadarML/nexrad/convert/wct_export.py:39-47 | A line without `PROCESSING` is a group of its own. A `PROCESSING` line opens a group that runs through the first line containing `100%`, which may be the opening line itself. |
| WctExport.GroupsCover | WeatherRadarML/nexrad/convert/wct_export.py:38-48 | The groups put back together are a prefix of the lines read, with nothing repeated or reordered, and are all of them unless the handler is stuck in an unfinished `PROCESSING` block, whose lines are read but never logged. |
| WctExport.GroupsWellFormed | WeatherRadarML/nexrad/convert/wct_export.py:39-47 | Every group is a single plain line, or a block from a `PROCESSING` line through the first `100%` line. |
| WctExport.Groups | WeatherRadarML/nexrad/convert/wct_export.py:38-48 | The handler forms at most one group per line, and every group holds at least one line. |
| WctExport.BlockedAt | WeatherRadarML/nexrad/convert/wct_export.py:40-42 | When end of file falls inside a block, the handler is stuck at that block's opening line. No later line reports `100%`. |
| WctExport.PlainLines | WeatherRadarML/nexrad/convert/wct_export.py:46-47 | Lines without `PROCESSING` are logged one message per line, each with its trailing whitespace stripped. |
| WctExport.FindShebang | WeatherRadarML/nexrad/convert/wct_export.py:106-109 | The shebang line is the first script line that contains `#!`. With none, the search never ends. |
| WctExport.ShebangShell | WeatherRadarML/nexrad/convert/wct_export.py:111 | For a line `#!` followed by a path without `#`, the shell is that path. |
| WctExport.CommandShell | WeatherRadarML/nexrad/convert/wct_export.py:82-83 | The command is the shell from the first shebang line, then the exporter script, the batch file and the output format. |
| WctExport.Command | WeatherRadarML/nexrad/convert/wct_export.py:82-83 | There is no command iff no script line holds `#!`. Otherwise the command has four parts: the shell, then the exporter script, the batch file and the output format. |
| WctExport.ForcedOptionsIgnoreCaller | WeatherRadarML/nexrad/convert/wct_export.py:78-80 | `stdout`, `stderr` and `universal_newlines` are always set to the pipe, stdout and true. Callers who differ only in those options get the same options. |
| Level2Directory.Directories | WeatherRadarML/nexrad/utils/nexrad_level2_directory.py:32-41 | The root is `<root>/NEXRAD/level2` and the parent is `<root>/NEXRAD/level2/YYYY/YYYYMM/YYYYMMDD/`. There is one directory per station, in order, each being `parent + station + "/"` for a relative station ID. |
| Level2Directory.StationDirs | WeatherRadarML/nexrad/utils/nexrad_level2_directory.py:41 | There is one directory per station ID, in input order, each under the parent with a trailing separator. |
| Level2Directory.ParentIsPrefix | WeatherRadarML/nexrad/utils/nexrad_level2_directory.py:41 | The day's parent directory is a prefix of every relative station directory. |
| Level2Directory.DateComponentWidths | WeatherRadarML/nexrad/utils/nexrad_level2_directory.py:32-34 | With a four-digit year, the three date components have widths 4, 6 and 8. |
| Level2Directory.StationDir | WeatherRadarML/nexrad/utils/nexrad_level2_directory.py:41 | A relative station ID gives `parent/station/`. |
| AsosInfo.WordsKeepInk | WeatherRadarML/ASOSInfo.py:83 | Splitting on whitespace drops exactly the whitespace. The words put back together are the line's non-whitespace characters, in order. |
| AsosInfo.Words | WeatherRadarML/ASOSInfo.py:83 | Splitting a line gives non-empty words without whitespace. |
| AsosInfo.WordsOfJoin | WeatherRadarML/ASOSInfo.py:83 | Splitting a line of non-empty words joined by whitespace, with whitespace before and after, gives back exactly those words, so each word is one maximal run. |
| AsosInfo.WidthsOfRule | WeatherRadarML/ASOSInfo.py:83-84 | A separator line of runs separated by whitespace gives one column per run, as wide as that run. |
| AsosInfo.Widths | WeatherRadarML/ASOSInfo.py:83 | There is one width per word of the separator line, each at least 1 and equal to that word's length. |
| AsosInfo.ConvertMeaning | WeatherRadarML/ASOSInfo.py:105-113 | A date comes only from the date column. Digits give a whole number of that value. Text is kept only when it is neither digits nor a float literal. |
| AsosInfo.Convert | WeatherRadarML/ASOSInfo.py:105-113 | A cell fails iff it is in the date column, is not the header text and is not a date, and then it fails with `ValueError`. |
| AsosInfo.ConvertDigits | WeatherRadarML/ASOSInfo.py:107-108 | An all-digit cell becomes its integer value, leading zeros included. |
| AsosInfo.ConvertSignedDecimal | WeatherRadarML/ASOSInfo.py:110-111 | A signed decimal such as `-97.5` becomes a float. |
| AsosInfo.ConvertExponent | WeatherRadarML/ASOSInfo.py:110-111 | A number with an exponent becomes a float. |
| AsosInfo.ConvertIdentifier | WeatherRadarML/ASOSInfo.py:112-113 | A station identifier that is not a number stays text. |
| AsosInfo.BlankStrips | WeatherRadarML/ASOSInfo.py:104 | A cell of whitespace strips to the empty text. |
| AsosInfo.ColumnsSpec | WeatherRadarML/ASOSInfo.py:102-116 | Column `i` starts at the sum of `w_j + 1` over the earlier columns. A successful line has one field per column, each being that column's converted cell. |
| AsosInfo.ColumnsFail | WeatherRadarML/ASOSInfo.py:101-117 | A line fails iff one of its columns fails. |
| AsosInfo.Columns | WeatherRadarML/ASOSInfo.py:101-117 | A line that parses has exactly one field for each remaining column. |
| AsosInfo.ShortLineCell | WeatherRadarML/ASOSInfo.py:104 | A column that starts past the end of the line reads as empty text, or fails with `ValueError` when it is the date column. |
| AsosInfo.StationLineErrors | WeatherRadarML/ASOSInfo.py:105-106 | With as many keys as columns, a station line can fail only on its date, and then with `ValueError`. |
| AsosInfo.HeaderKeys | WeatherRadarML/ASOSInfo.py:84 | The header is parsed with no keys, so it always succeeds, with one field per column. |
| AsosInfo.RecordLastWins | WeatherRadarML/ASOSInfo.py:140 | Zipping pairs keys with values up to the shorter list. Each key maps to the value at its last position. |
| AsosInfo.RowsAt | WeatherRadarML/ASOSInfo.py:138-141 | There is one record per station line, in file order. Each pairs the column names with that line's fields. |
| AsosInfo.ParseFileErrors | WeatherRadarML/ASOSInfo.py:133-142 | Parsing the file fails only on a bad begin date. |
| AsosInfo.ParseFile | WeatherRadarML/ASOSInfo.py:133-142 | A parsed table takes its keys from the header line cut at the separator widths, and has one record per station line. |
| AsosInfo.RowsFirstError | WeatherRadarML/ASOSInfo.py:138-141 | The file's error is that of the first line that fails. |
| AsosInfo.BlankLineFailsFile | WeatherRadarML/ASOSInfo.py:105-106 | A blank station line fails in the date column, so it makes the whole parse fail. |
| AsosInfo.IncreasingUnique | WeatherRadarML/ASOSInfo.py:33 | An increasing list that holds a given set of values is that set's unique ordering. |
| AsosInfo.SortedUnique | WeatherRadarML/ASOSInfo.py:33 | The result is strictly increasing, so it has no duplicates, and it holds exactly the values given. |
| AsosInfo.SortedUniqueIgnoresOrder | WeatherRadarML/ASOSInfo.py:33 | The order in which stations are listed does not change the result. |
| AsosInfo.Countries | WeatherRadarML/ASOSInfo.py:33 | This fails iff some record lacks COUNTRY or holds a non-text value there. Otherwise it is strictly increasing and holds exactly the COUNTRY values. |
| AsosInfo.States | WeatherRadarML/ASOSInfo.py:48 | This fails iff some record lacks ST or holds a non-text value there. Otherwise it is strictly increasing and holds exactly the ST values. |
| AsosInfo.InStateSpec | WeatherRadarML/ASOSInfo.py:67 | Exactly the records whose ST equals the code are kept, each as often as it occurs and in its order: the kept records are the records at the ascending indices of the matching records. |
| AsosInfo.MatchingIndices | WeatherRadarML/ASOSInfo.py:67 | The reference filter lists, in ascending order, exactly the indices of the records whose ST equals the code. |
| AsosInfo.GetState | WeatherRadarML/ASOSInfo.py:63-67 | A code whose length is not 2 gives no stations. Otherwise a record without ST gives `KeyError`, and the result is the records whose ST is the upper-cased code, in table order and with repeats kept. |
| AsosInfo.GetStateIgnoresCase | WeatherRadarML/ASOSInfo.py:66 | Lower-case and upper-case codes find the same stations. |
| Vtec.PhenomEntry | WeatherRadarML/vtec.py:31-65 | Only FF, MA, SV and TO have a colour: green, orange, gold and red. |
| Vtec.ParsePhenomText | WeatherRadarML/vtec.py:17-77 | Each phenomenon's two-character code decodes back to that phenomenon. |
| Vtec.ParsePhenomNone | WeatherRadarML/vtec.py:17-77 | A text decodes to nothing iff it is no phenomenon's code. |
| Vtec.ParseSigText | WeatherRadarML/vtec.py:80-88 | The significance table has exactly the seven codes W, A, Y, S, F, O and N, and decoding inverts them. |
| Vtec.ParseGTypeText | WeatherRadarML/vtec.py:91-94 | Exactly P and C decode, to Polygon and County/zone/parish. |
| Vtec.TableNamed | WeatherRadarML/wwaVTEC.py:27-28 | Exactly the names PHENOM, SIG and GTYPE refer to a table. |
| Vtec.Lookup | WeatherRadarML/wwaVTEC.py:29 | A lookup succeeds iff the code is in that table, and otherwise fails with `KeyError`. |
| Vtec.LookupText | WeatherRadarML/wwaVTEC.py:29 | Looking up a code's own text gives that code's entry. |
| Vtec.TornadoIsRed | WeatherRadarML/vtec.py:65 | TO is Tornado, drawn in red. |
| WwaVtec.First | WeatherRadarML/wwaVTEC.py:18-20 | Indexing `[0]` gives `TypeError` on a leaf, `IndexError` on an empty array, and otherwise the first item. |
| WwaVtec.Exteriors | WeatherRadarML/wwaVTEC.py:20 | This gives one exterior per part, each being the part's first item. The first part without one gives its error. |
| WwaVtec.PolygonCount | WeatherRadarML/wwaVTEC.py:16-20 | A `Polygon` yields exactly one polygon. Any other type yields one polygon per part of its coordinates. |
| WwaVtec.StoredName | WeatherRadarML/wwaVTEC.py:26 | `TYPE` is stored as `PHENOM`, and every other key keeps its name. |
| WwaVtec.Decode | WeatherRadarML/wwaVTEC.py:23-31 | ISSUED and EXPIRED are read as `%Y%m%d%H%M`, with `ValueError` otherwise. Table names give the table entry, or `KeyError`. Every other key keeps its text. |
| WwaVtec.DecodeTimeText | WeatherRadarML/wwaVTEC.py:23-24 | A printed minute decodes back to that time under either time key. |
| WwaVtec.DecodeCodeText | WeatherRadarML/wwaVTEC.py:26-29 | A table code decodes to its entry. A phenomenon code decodes to its entry under `PHENOM`, whether the key is `TYPE` or `PHENOM`. |
| WwaVtec.PropertiesFail | WeatherRadarML/wwaVTEC.py:22-31 | The property loop fails iff some property fails to decode, and then with the first such property's exception. |
| WwaVtec.PropertiesNames | WeatherRadarML/wwaVTEC.py:22-31 | After the loop, the attribute names are the stored names of the keys, added to those set before. |
| WwaVtec.PropertiesLastWins | WeatherRadarML/wwaVTEC.py:22-31 | A property whose stored name no later key shares leaves its decoded value as the attribute. |
| WwaVtec.PhenomFromLaterKey | WeatherRadarML/wwaVTEC.py:26-29 | A record with both `TYPE` and `PHENOM` keeps the phenomenon of whichever comes last. |
| WwaVtec.FoldKeepsUnset | WeatherRadarML/wwaVTEC.py:22-31 | A name that no property sets keeps the value it had before the loop. |
| WwaVtec.BuildNames | WeatherRadarML/wwaVTEC.py:16-31 | A built record's attributes are named by the stored names of its keys. |
| SquareExtent.Sweep | WeatherRadar.py:17-31 | The sweep's results bound every value in the list and the starting values, and each result is attained by a starting value or a list value. |
| SquareExtent.ExtentsAreMaxMin | WeatherRadar.py:7-31 | `right = max(0, max x)` and `left = min(0, min x)`, and the same holds for up and down with y. |
| SquareExtent.BoundaryIsOutside | WeatherRadar.py:38-41 | A point on any side of the box is reported as not within. |
| SquareExtent.GivenSquare | WeatherRadar.py:4-15 | The script's square has extents 5, 0, 5 and 0. It contains (2, 2) and not its corner (5, 5). |
| Calendar.DayLoopSteps | WeatherRadarML/nexrad/convert/nexrad_level2_to_nc.py:63-90 | The day loop steps one day at a time from its start and stops at the first day past the end. |
| Calendar.OneDayWindow | WeatherRadarML/nexrad/nexrad_level2_aws_download.py:212-217 | Going from a midnight to the next midnight, with a strict bound, visits exactly one day. |
| Calendar.BeforeIsLexicographic | WeatherRadarML/nexrad/convert/nexrad_level2_to_nc.py:81 | The date-time order is the field-by-field order `datetime` compares with. |
| Calendar.ScanTimeRoundTrip | WeatherRadarML/nexrad/nexrad_level2_aws_download.py:230 | Parsing a printed `%Y%m%d_%H%M%S` time gives that time back. |
| Calendar.CompactMinuteRoundTrip | WeatherRadarML/wwaVTEC.py:24 | Parsing a printed `%Y%m%d%H%M` time gives that time back when its seconds are 0. |
| Calendar.DateRoundTrip | WeatherRadarML/ASOSInfo.py:106 | Parsing a printed `%Y%m%d` date gives back that day's midnight. |
| Calendar.ParseNeedsExactWidth | WeatherRadarML/nexrad/convert/nexrad_level2_to_nc.py:80 | A text of the wrong length never parses. |
| Common.PySlice | WeatherRadarML/ASOSInfo.py:104 | A slice clamps both bounds to the length and keeps the characters in between. |
| Common.JoinSplit | WeatherRadarML/nexrad/convert/convert_monitors.py:40 | Joining the split pieces with the separator gives the text back. |
| Common.PathJoin | WeatherRadarML/nexrad/utils/nexrad_level2_directory.py:36-37 | An absolute second part replaces the first, and otherwise exactly one separator is inserted. |

## Left out

- Processes, threads, queues and events are not modelled. This covers
  queue and join timeouts, the log handler thread and sleeps. Each worker
  and each monitor is a sequential fold over its inputs, and the monitors'
  `event` is the end of their input.
- S3 access (listing, `download_file`) and the local file system (`os.walk`,
  `stat`, `glob`, `remove`, `makedirs`, `chmod`, `rmtree`) are oracle
  parameters. So are `Popen`, `communicate` and exit codes, and the calls
  that create, remove or clean directories are left out.
- The directory walk in the conversion tests the bare base name
  (`os.path.isfile(file)`, nexrad_level2_to_nc.py line 74). Its result
  depends on the working directory, so the found files are an input.
- Floating-point reporting is left out: download rates, MB and GB figures,
  the `_colFMT` lines and log text.
- The pyart conversion, the batch file's random name and the cache
  directory's name are left out. The pyart monitor takes the results as
  given.
- Shapely polygon construction and validation is left out. A polygon is the
  exterior item taken from the coordinates.
- `strptime` is modelled only for fixed-width, zero-padded digit fields.
  Python also accepts some shorter fields; the model rejects them.
- Years above 9999, where `datetime` raises `OverflowError`, are not
  modelled.
- Text is a sequence of characters. Whitespace is Python's `str.isspace`
  set, including the Unicode spaces. Case is ASCII only, and Unicode digits
  and case rules are not modelled.
- `float()` is modelled as a recognizer of decimal literals,
  `inf`/`infinity`/`nan`, an optional sign and an exponent. Digit
  separators (`_`) are not modelled, and the value is not computed.
- A `vtec` module attribute other than the three tables (a module dunder
  name such as `__name__`) is truthy for `getattr` but is not modelled. Such
  property keys are kept as text.
- Property values that are not strings are not modelled.
- The ASOS table's `download_data`, `_parse_page` and `get_stations` (the
  network and float coordinates) are not part of this model.
- The top-level `ASOSInfo.py` is a stale copy of the package parser and is
  not part of this model.
- Plotting, `readWarnings.py`, `getWWAZips.py`, the nearest-radar and
  nearest-pixel utilities and `setup.py` are not part of this model.
- `WeatherRadarML/nexrad/convert/nexrad_level2_to_nc.py` line 42 closes a
  parenthesis that was never opened, so the module does not compile as
  written. The model follows each statement as its authors evidently meant
  it.
- AsosInfo.Distinct: any value that is not text gives `TypeError`. Python
  sorts a column of numbers without complaint and fails only on a mix of
  numbers and text. Those columns are not modelled, because COUNTRY and ST
  hold text.
- AwsDownload.FileTime: the time is parsed only in the fixed-width form.
  Names whose slice Python would still accept with shorter fields are
  treated as unreadable.

## Findings

| source | as written | input that shows it | evidently intended | confidence | as-written member | corrected member |
|---|---|---|---|---|---|---|
| WeatherRadarML/nexrad/nexrad_level2_aws_download.py:252 | `nFail += nFail` adds the running total to itself, starting from 0 | one worker reporting `(0, 1, 0)`: the run reports 0 failures | `nFail += nF`, the sum of the workers' failures | high, not executed | AwsDownload.AsWrittenLosesAFailure | AwsDownload.Aggregate |
| WeatherRadarML/nexrad/convert/nexrad_level2_to_nc.py:209-219 | the boundaries `i * max(1, nLines // c)` are capped only at the last one | one line and `concurrency = 2`: boundaries [0, 1, 2], so batch file 1 reads `lines[1]` and raises `IndexError` | every boundary capped at `nLines`, so extra batch files are empty | high, not executed | Level2ToNc.PartitionAsWrittenOverruns | Level2ToNc.Partition |
