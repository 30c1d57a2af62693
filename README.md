# NJ Transit departure-board logger, modelled in Dafny

`scraper.py` polls the DepartureVision boards of five NJ Transit stations,
turns every departure entry on a board into a flat record (timestamp,
station, destination, line, train number, departure time, status, track and
five car-occupancy counters) and appends the records of one run to a CSV
file per *service day*. A service day starts at 04:00 local time, so a
reading taken after midnight but before 04:00 still goes into the previous
day's file.

This project models that core on values:

- `Occupancy` — `parse_occupancy`: the occupancy block of an entry is absent
  or a list of car sections, each a list of indicator dots (their `style`
  strings). `ParseOccupancy` is the source's nested counting loop, proved
  equal to the specification function `Summary`.
- `Departures` — `scrape_departures`: an entry is the set of lookups the
  extraction performs (destination, line, time and status elements, the
  entry's text nodes, its occupancy block). `ExtractEntry` gives the outcome
  of one entry (kept, filtered out, failed); `ScrapeDepartures` is the loop
  over a board, proved equal to `Scraped`.
- `Calendar` — the proleptic Gregorian calendar of Python's `datetime`
  (years 1 to 9999), the service day of a clock reading, and the
  `%Y-%m-%d` and `%Y-%m-%d %H:%M:%S` formats.
- `Paths` — `posixpath.join`, `dirname` and `basename`, as far as the writer
  uses them.
- `DailyLog` — `get_current_file_date` and `save_to_csv`: the disk is a set of
  directories and a map from file paths to lines (a header or one record).
- `Runner` — `run`: the station table, the display name of a station key,
  and the loop that scrapes the stations in table order and saves once.
- `Text` — the string operations the source relies on (`in`, `lower`,
  `strip`, `replace`, `title`).
- `WorkedCases` — concrete instances of the text rules: the train-number
  scan on a sample entry and the destination filter on sample destinations.

Two behaviours of the code are easy to misread; the model follows the code:

- The four level counters of the occupancy summary count **dots**, summed
  over all sections, while `total_sections` counts **sections**. The
  counters therefore add up to the number of sections only when every
  section has exactly one dot (`CountersMatchSectionsForSingleDots`,
  `CountersMayExceedSections`).
- `get_current_file_date` returns `departures/<YYYY-MM-DD>`, but
  `save_to_csv` splits it again: the file is
  `departures/departures_<YYYY-MM-DD>.csv`, directly inside `departures/`,
  not inside a per-day subdirectory (`OutputLocation`).

## Model

| member | source | states |
|---|---|---|
| Text.Contains | scraper.py:75 | the substring test holds exactly when the pattern occurs at some index of the text |
| Text.Lower | scraper.py:75 | same length; each character is lower-cased (ASCII letters mapped, everything else kept) |
| Text.LowerIdempotent | scraper.py:75 | lower-casing twice is lower-casing once |
| Text.Strip | scraper.py:73 | the result is a contiguous slice of the input with no leading or trailing whitespace, and everything cut off is whitespace |
| Text.StripKeepsOccurrence | scraper.py:83 | stripping never cuts into an occurrence of a label that neither starts nor ends with whitespace |
| Text.StripAt | scraper.py:83 | a slice with whitespace everywhere outside it and non-blank ends is exactly what stripping returns |
| Text.StripLabelled | scraper.py:83 | stripping leading whitespace, a label with non-blank ends and a tail keeps the label and strips only the tail's right end |
| Text.StripOfStripRight | scraper.py:83 | stripping a text already stripped on the right gives the same as stripping it directly |
| Text.RemoveLeadingLabel | scraper.py:83 | removing a label from a text that starts with it and has no other occurrence leaves the rest |
| Text.RemoveAll | scraper.py:83 | removing a pattern never lengthens the text, leaves a text without the pattern unchanged, and removes at least one pattern's length from a text that contains it |
| Text.ReplaceChar | scraper.py:154 | same length; each occurrence of the old character becomes the new one, every other character is kept |
| Text.Title | scraper.py:154 | same length; each character is upper-cased when it starts a run of letters and lower-cased otherwise |
| Calendar.DaysInMonth | scraper.py:28 | every month has 28 to 31 days, and February has 29 exactly in leap years |
| Calendar.PrevDay | scraper.py:26-28 | subtracting one day from a valid date other than 0001-01-01 gives a valid, earlier date whose successor is the original date |
| Calendar.PrevOfNext | scraper.py:28 | going forward one day and back again returns the starting date |
| Calendar.PrevDayIsImmediate | scraper.py:28 | no valid date lies strictly between a date and the day before it |
| Calendar.PrevDayBoundaries | scraper.py:28 | the day before 1 January is 31 December of the previous year, and the day before 1 March is 29 February in leap years and 28 February otherwise |
| Calendar.ServiceDay | scraper.py:23-28 | from 04:00 on, the service day is the calendar date; before 04:00 it is the previous day, and there is none (the date arithmetic overflows) on 0001-01-01 |
| Calendar.FourAmBoundary | scraper.py:26-28 | on any date but the first, 03:59 belongs to the previous day and 04:00 to the date itself, and 03:mm and 04:mm fall in consecutive service days |
| Calendar.FormatDate | scraper.py:29 | the date text is ten characters, digits with dashes at positions 4 and 7 |
| Calendar.DateRoundTrip | scraper.py:29 | parsing the formatted date gives the date back |
| Calendar.FormatDateInjective | scraper.py:29 | different dates give different date texts, so different service days never share a file |
| Calendar.FormatTimestamp | scraper.py:100 | the timestamp is 19 characters: the date text (which reads back to the date), a space, then hour, minute and second as two digits each, separated by colons, each reading back to its field |
| Paths.Basename | scraper.py:135 | the last component is the suffix of the path that starts right after its last separator (the whole path when there is none), and holds no separator |
| Paths.Dirname | scraper.py:134 | the directory part is empty without a separator; otherwise it is the path up to its last separator, with the trailing separators removed unless that part consists of separators only |
| Paths.Join | scraper.py:29 | an absolute second part replaces the first; a second part is appended directly to an empty first part or one ending in a separator, and otherwise after exactly one separator |
| Paths.SplitJoin | scraper.py:133-135 | splitting a joined path whose last part has no separator gives both parts back |
| Occupancy.ParseOccupancy | scraper.py:31-61 | the nested loop computes the summary: all zeros without a block, otherwise the section count and, per level, the number of dots of that level |
| Occupancy.LevelsPartitionDots | scraper.py:50-59 | every dot is counted under exactly one level |
| Occupancy.CountersSumToDots | scraper.py:45-59 | the four counters add up to the number of dots in the block |
| Occupancy.CountersMatchSectionsForSingleDots | scraper.py:45-59 | the counters add up to the section count when every section has one dot |
| Occupancy.CountersMayExceedSections | scraper.py:45-59 | one section with a light and a heavy dot gives a section count of 1 and counters adding up to 2 |
| Occupancy.Classify | scraper.py:51-59 | light wins over medium and heavy, medium over heavy, heavy is chosen exactly when only the heavy colour is present, and "no data" is exactly the absence of all three colours |
| Departures.KeepDestinationMeaning | scraper.py:75 | a filter keeps a destination exactly when the filter occurs in it, character by character with ASCII letter case ignored; the empty filter occurs everywhere |
| Departures.FirstContaining | scraper.py:82 | the scan yields nothing exactly when no text node contains the marker, and otherwise the first one that does |
| Departures.LabelValue | scraper.py:82-95 | the value is empty when no text node carries the label, never starts or ends with whitespace, and is shorter than the first text node carrying the label by at least the label's length |
| Departures.FirstContainingAt | scraper.py:82 | the scan returns the text node at a given position when it contains the marker and no earlier one does |
| Departures.LabelValueOfLabelledText | scraper.py:82-83 | when the first text node carrying the label is leading whitespace, the label, and a tail without a second label, the value is exactly the tail with whitespace stripped from both ends |
| Departures.ExtractEntry | scraper.py:72-116 | an entry fails exactly when its destination is missing, or it passes the filter and its line is missing; it is filtered out exactly when its stripped destination fails the filter; a kept entry carries the station, the capture timestamp, the stripped texts, "" for a missing time, status, train or track, and the occupancy summary |
| Departures.ScrapeDepartures | scraper.py:63-126 | the loop yields the records of the kept entries in board order, nothing for a failed fetch, and at most one record per entry |
| Departures.ExtractAllBound | scraper.py:71-116 | a board never yields more records than it has entries |
| Departures.ExtractAllAppend | scraper.py:71-120 | the records of two consecutive runs of entries are the records of the first followed by those of the second |
| Departures.SkippedEntryLeavesSiblings | scraper.py:118-120 | an entry that fails or is filtered out leaves the records of the entries before and after it unchanged |
| Departures.RecordsComeFromKeptEntries | scraper.py:102-116 | every record is the departure of some kept entry of the board |
| Departures.KeptEntriesGiveRecords | scraper.py:102-116 | every kept entry's departure is among the records |
| Departures.RecordsMatchStationAndFilter | scraper.py:75-105 | every record carries the station name, the capture timestamp, and a destination that passes the filter |
| Departures.AllWellFormedKept | scraper.py:71-116 | without a filter, a board whose entries all have a destination and a line yields one record per entry |
| Departures.FilterBeforeLine | scraper.py:73-79 | an entry rejected by the filter is filtered out even when its line element is missing |
| Departures.NoOccupancyStillKept | scraper.py:41-43 | an entry without an occupancy block is still kept, with all five counters zero |
| Departures.MissingTrackIsEmpty | scraper.py:94-95 | when no text node mentions the track, the track is the empty string |
| Departures.FilterIgnoresCase | scraper.py:75 | a filter and its lower-cased form keep the same destinations, a destination and its lower-cased form are kept alike, and the empty filter keeps everything, like no filter |
| Departures.EmptyBoardYieldsNothing | scraper.py:124-126 | a failed fetch and an empty board both yield no records |
| Departures.RecordCountersSumToDots | scraper.py:98-116 | a kept record's level counters add up to the number of dots of its entry's occupancy block |
| DailyLog.BucketPath | scraper.py:23-29 | the bucket is `departures/` followed by the service day's date text, and is missing exactly when the service day is |
| DailyLog.OutputLocation | scraper.py:133-135 | the directory created is `departures` and the file is `departures/departures_<date>.csv` |
| DailyLog.RowsAppend | scraper.py:140-146 | the rows of two lists of records joined are the rows of the first followed by those of the second |
| DailyLog.Save | scraper.py:128-146 | no records leave the disk unchanged; with records, the save fails exactly when the service day overflows; a save never removes a directory or a file |
| DailyLog.SaveEffect | scraper.py:128-146 | no records, no change; otherwise `departures` exists afterwards, the service day's file holds its old lines (or a header when it was new) followed by the records, and no other file changes; a date overflow fails |
| DailyLog.WellFormedLogHasOneHeader | scraper.py:142-146 | a log as the writer keeps it holds exactly one header |
| DailyLog.SavePreservesLogs | scraper.py:142-146 | a save keeps every log on the disk well formed |
| DailyLog.TwoSavesOneHeader | scraper.py:142-146 | two saves in the same service day, starting without its file, give one file with one header followed by the first save's rows and then the second's |
| Runner.StationName | scraper.py:154 | the display name has the key's length; underscores become spaces, letters that start a word are upper-cased and the others lower-cased |
| Runner.SecaucusUpperName | scraper.py:12 | the first station of the table, key `secaucus_upper`, is shown as "Secaucus Upper" |
| Runner.SecaucusLowerName | scraper.py:13 | the second station of the table, key `secaucus_lower`, is shown as "Secaucus Lower" |
| Runner.NewarkName | scraper.py:14 | the third station of the table, key `newark`, is shown as "Newark" |
| Runner.WatsessingName | scraper.py:15 | the fourth station of the table, key `watsessing`, is shown as "Watsessing" |
| Runner.MaplewoodName | scraper.py:16 | the fifth station of the table, key `maplewood`, is shown as "Maplewood" |
| Runner.PerStationPrefix | scraper.py:153-156 | the records of the first stations depend only on those stations' own fetches |
| Runner.Concat | scraper.py:156 | a record is in the joined list exactly when it is in one of the stations' lists |
| Runner.ConcatAppend | scraper.py:156 | concatenating two runs of station lists is concatenating each and joining the results |
| Runner.ConcatSplit | scraper.py:156 | a station's records sit unchanged between those of the stations before it and those after it |
| Runner.FailedStationIsIsolated | scraper.py:124-126 | a station whose fetch fails contributes nothing and leaves the other stations' records as they were |
| Runner.Run | scraper.py:149-158 | the run's list is the stations' records concatenated in table order, it is saved once, and an empty list leaves the disk unchanged |
| WorkedCases.StripCases | scraper.py:83 | stripping removes the blanks around "Train 7" and around "7" |
| WorkedCases.RemoveAllCases | scraper.py:83 | removing "Train" from "Train 7" leaves " 7", and from "TrTrainain" leaves "Train", because occurrences are removed in one left-to-right pass |
| WorkedCases.LabelScanCase | scraper.py:82-83 | on the texts "NEC", " Train 7", "Track 2" the train number is "7" |
| WorkedCases.LowerCases | scraper.py:75 | "Newark" and "newark" both lower-case to "newark" |
| WorkedCases.NewarkFilterCase | scraper.py:75-76 | the filters "Newark" and "newark" both keep "Newark Penn Station" and drop "Hoboken" |

## Left out

- Fetching a board (`requests.get`, `raise_for_status`) is a `Fetch` value given to the model; every transport or HTTP error is one failure value.
- Parsing HTML with BeautifulSoup is left out. An entry is the result of its lookups, and the exact tag, class and `data-v-*` selectors are not modelled.
- CSV rendering by pandas is left out: quoting, escaping and number formatting. A line of a file is a header or a record value, and the columns are listed in order in `DailyLog.Columns`.
- Failures of `os.makedirs` and of file writes are not modelled, including a directory sitting at the file's path. The directory creation itself is modelled: a save adds `departures` to the disk's directories.
- The wall clock and the `America/New_York` time zone (pytz, DST transitions) are not modelled. Clock readings are `LocalTime` parameters.
- The timestamp of each record is the capture time of its fetch. The source reads the clock once per entry, so two records of one board can differ by a second or more.
- The save reads the clock once more, independently, so a run that straddles 04:00 can file its records under the later service day. The model shows this only because the save time `now` is a separate parameter.
- Text.Lower: maps ASCII letters only. Python's `str.lower` also maps non-ASCII letters.
- Text.Title: treats ASCII letters as cased characters. Python's `str.title` treats every cased Unicode character as cased.
- Runner.StationName: inherits the ASCII restriction of `Text.Title`. The station keys are all ASCII.
- Text.RemoveAll: its contract bounds the result's length and states that a text without the pattern is unchanged, not the exact result. Python's `str.replace` removes occurrences in one left-to-right pass, so a removal can create a new occurrence. `WorkedCases.RemoveAllCases` shows that pass on concrete inputs.
- Departures.LabelValue: the exact value is proved only when the first text node carrying the label is leading whitespace, the label, and a tail without a second label (`Departures.LabelValueOfLabelledText`). For any other labelled text, such as "NEC Train 7", only the bounds in its contract are stated: empty when no text node carries the label, no whitespace at either end, and the length bound. This is because the exact result of `Text.RemoveAll` is not specified.
- Paths follow POSIX `os.path` (`posixpath`). On Windows, `os.path` is `ntpath`, which joins with a backslash and also splits on it, so the directory text reads `departures\<date>`. The file still lands in the same place.
- `Calendar.FormatDate` always pads the year to four digits. Some C libraries' `strftime('%Y')` do not pad years below 1000.
- The `print` diagnostics on a failed entry or fetch are left out.
- The command line (`argparse`, `main`) is reduced to the `filter` parameter, where `None` means no `--destination`.
- `NJTransitScraper.__init__` is not modelled. It only stores the filter and the time zone.
- Departures.ExtractEntry: the only extraction failures modelled are a missing destination or line element. These are the lookups whose absence raises in the source.
