# Greyhound scraper: a Dafny model of its data shaping

This project models the parts of the greyhound racing scraper that decide
*what* gets collected and written. The browser, the clock and the file
system are turned into plain inputs. What is modelled:

- **Race list** (`race_list.dfy`, module `RaceList`):
  - reading the `-YYYYMMDD/` date token from a race URL;
  - rendering today's date;
  - tokenising race links into race number and start time;
  - the tracks a tab reports;
  - the loop over date tabs, which keeps the first tab dated today, flattens it and stops.
- **Results** (`results.dfy`, module `Results`):
  - picking today's meeting section and its track links;
  - mapping table rows with at least twelve cells to fourteen-field records labelled `Race i+1`;
  - the loop over tracks and their tabs, which keeps earlier rows when a track fails;
  - writing the file only when rows were collected.
- **Odds grid** (`odds.dfy`, module `Odds`): shared by both details scrapers.
  - Cell normalisation to a number or `'-'`.
  - The thirteen bookmaker columns read with `cells[k] || '-'`, so a zero price is `'-'`.
  - Runner-name cleaning and the `Runner i+1` fallback.
- **Stand-alone details scraper** (`test_details.dfy`, module `TestDetails`):
  - Win records, then Place records;
  - the Place grid is read even when no Place button exists;
  - the CSV is saved only when non-empty.
- **Hourly details scraper** (`race_details.dfy`, module `RaceDetails`):
  - per-race records, with per-race failure isolation;
  - test mode;
  - the `race-details-HH-MM.csv` snapshot name, written even when empty.
- **Scheduler** (`scheduler.dfy`, module `Scheduler`):
  - the two cron expressions;
  - the inclusive 9–23 hour window;
  - error containment.
- **API server** (`api_server.dfy`, module `ApiServer`):
  - missing-file fallbacks;
  - CSV stream collection;
  - newest-snapshot selection;
  - the default scheduler status;
  - the ordering of the manual trigger.
- **Helpers**:
  - `common.dfy` (module `Common`): JavaScript `trim`, `split(/\s|\n/)`, `replace(/\s+/g, ' ')`, `String(n)` and `padStart(2, '0')`.
  - `seqs.dfy` (module `Seqs`): `flatMap`, `filter`, and map-then-filter.

How the outside world is modelled:

- **Pages.** A page is a datatype. A navigation or selector timeout is an explicit constructor (`TabFailed`, `Unreachable`, `RaceUnavailable`, `PlaceTimedOut`, ...). A site is a function from URL to page.
- **Clocks.** The current date, hour and minute, and the results heading, are parameters.
- **File writes.** A write is a returned `Written(path, records)` value.
- **Operations.**
  - Each loop in the source is a `method` whose `ensures` ties its result to a specification function.
  - Lemmas beside the specification functions state what the source relies on: membership in both directions, order where the source keeps one, failure isolation, and round-trips where an inverse exists. Where a contract is weaker than the source, the member is named under "## Left out".

Where the code and its description differ, the model follows the code:

- With no Place button, the "Place" rows repeat the Win rows (`TestDetails.NoButtonRepeatsWin`).
- There is no retry, no single-flight guard, no status ledger writer and no batching.
- The details snapshot goes to `exports/details/`, but `/api/race-details` lists `exports/<date>/`. So the endpoint never serves what the details scraper writes (`ApiServer.SnapshotsWrittenElsewhere`).

## Model

| member | source | states |
|---|---|---|
| Common.Trim | src/greyhoundRaceListScraper.js:40 | `trim` gives the slice of the input between its first and last non-white-space character: everything before and after the slice is white space, the result has none at either end, and a string with no white space is unchanged |
| Common.TrimKeepsText | src/greyhoundRaceListScraper.js:40 | trimming removes white space only: the non-white-space characters are kept, in order |
| Common.SplitWhitespace | src/greyhoundRaceListScraper.js:41 | `split(/\s\|\n/)` gives at least one part, and no part contains white space |
| Common.SplitWhitespaceRoundTrip | src/greyhoundRaceListScraper.js:41 | the parts joined back with the white-space characters cut at give the input again, so there is one part more than there are white-space characters |
| Common.CollapseWhitespace | test/testDetailsScraper.js:23 | `replace(/\s+/g, ' ')` leaves only single plain spaces, keeps every non-white-space character in order, empties only the empty string and keeps whether the text starts with white space; where the spaces go is stated by `CollapseKeepsWords` |
| Common.WordsShape | src/greyhoundRaceListScraper.js:41 | the words of a text (the non-empty parts of `split(/\s\|\n/)`) are non-empty and hold no white space |
| Common.CollapseKeepsWords | test/testDetailsScraper.js:23 | each maximal run of white space becomes one space: the collapsed text has exactly the words of the input, in order, so no two words are merged and none is split |
| Common.WordsTrim | test/testDetailsScraper.js:22-23 | `trim` keeps the words of a text, in order |
| Common.CleanIsUnwords | test/testDetailsScraper.js:22-23 | a single-spaced text with no white space at either end is its words joined by one space (`words.join(' ')`) |
| Common.CollapseLast | test/testDetailsScraper.js:23 | collapsing keeps whether the text ends with white space |
| Common.NatToStringValue | src/greyhoundRaceListScraper.js:18-20 | the digits `String(n)` renders read back as `n` |
| Common.Pad2Digits | src/greyhoundRaceListScraper.js:19-20 | `String(n).padStart(2, '0')` for n < 100 is exactly two digits reading back as n |
| Common.Pad2Injective | src/raceDetailsScraper.js:76 | distinct values below 100 pad to distinct strings |
| RaceList.FindDateToken | src/greyhoundRaceListScraper.js:8 | the leftmost `-dddddddd/` at or after a position, or none when there is none |
| RaceList.ExtractDateFromUrl | src/greyhoundRaceListScraper.js:7-14 | `Unknown` exactly when the URL has no date token; otherwise `YYYY-MM-DD` built from the first token's digits |
| RaceList.TodayDateString | src/greyhoundRaceListScraper.js:16-22 | year, `-`, padded month + 1, `-`, padded day; for 4-digit years a `YYYY-MM-DD` whose fields read back as year, month + 1 and day |
| RaceList.UnknownIsNeverToday | src/greyhoundRaceListScraper.js:121-128 | `Unknown` never equals today's string, so a tab without a dated first race URL is always skipped |
| RaceList.UrlDateMatchesToday | src/greyhoundRaceListScraper.js:7-22 | a URL `prefix + -yyyymmdd/ + rest` carrying a day's token, with no earlier token starting in the prefix (as in `https://www.odds.com.au/greyhounds/sale-20250413/...`), decodes to exactly that day's `getTodayDateString` |
| RaceList.ExtractOfToken | src/greyhoundRaceListScraper.js:7-14 | when the first date token of a URL starts at position i, the extracted date is the digits of that token as `YYYY-MM-DD` |
| RaceList.RaceFromTokens | src/greyhoundRaceListScraper.js:41-51 | a race exists iff some token matches `^R\d+$`/i and some matches `^\d{1,2}:\d{2}$`; it uses the first of each and `baseUrl + href` |
| RaceList.RowRaces | src/greyhoundRaceListScraper.js:38-52 | a row gives at most one race per link |
| RaceList.RowRacesExact | src/greyhoundRaceListScraper.js:38-52 | a race is listed iff some link of the row parses to it; a single link gives its own race or nothing; the races of earlier links come before those of later ones |
| RaceList.TrackEntryShape | src/greyhoundRaceListScraper.js:34-59 | a row is reported iff its paired name is non-empty and one of its links parses, and then with that name and all of the row's races |
| RaceList.TabTracks | src/greyhoundRaceListScraper.js:33-60 | at most one entry per row; every entry has a non-empty name and at least one race |
| RaceList.TabTracksExact | src/greyhoundRaceListScraper.js:33-60 | an entry is reported iff some row gives it |
| RaceList.TabTracksOrder | src/greyhoundRaceListScraper.js:33-60 | row order is kept: the entries of the first j rows are a prefix of the tab's entries, and every later entry comes from a row at j or after |
| RaceList.ScrapeTab | src/greyhoundRaceListScraper.js:24-63 | the nested `forEach`/`push` loops build exactly `TabTracks` |
| RaceList.ScrapeRow | src/greyhoundRaceListScraper.js:38-51 | the inner loop over one row's links keeps exactly the links that parse, in order (`RowRaces`) |
| RaceList.FlatTrack | src/greyhoundRaceListScraper.js:131-141 | one row per race of the track, in race order, carrying the tab date and the track name |
| RaceList.FlatTab | src/greyhoundRaceListScraper.js:130-142 | every flattened row carries the tab's date |
| RaceList.FlatTabContents | src/greyhoundRaceListScraper.js:130-142 | membership both ways: every flattened row is a race of one of the tab's tracks, with that track's name, and every race of every track appears as a row |
| RaceList.FlatTabLength | src/greyhoundRaceListScraper.js:130-142 | there are exactly as many rows as races in the tab's tracks |
| RaceList.FlattenTab | src/greyhoundRaceListScraper.js:130-142 | the push loop builds exactly `FlatTab` |
| RaceList.ScanTabs | src/greyhoundRaceListScraper.js:96-128 | the tab loop's first stop: a match or an abort lies at or after the start; `ScanTabsResult` states what stops it |
| RaceList.Skipped | src/greyhoundRaceListScraper.js:98-128 | computes whether the loop `continue`s past a tab (missing, no tracks, or not dated today); `ScanSkips` and `ScanStops` state its effect |
| RaceList.FirstRaceUrl | src/greyhoundRaceListScraper.js:121 | computes `raceData[0].races[0]?.raceURL \|\| ''`; `ScanTabsResult` states that a matched tab's date read from it is today |
| RaceList.RaceListOutcome | src/greyhoundRaceListScraper.js:81-156 | computes the run's rows and write; `RaceListRowsAreToday`, `RaceListFromFirstMatchingTab`, `RaceListEmptyAfterFailure` and `RaceListEmptyWithoutMatch` state its properties |
| RaceList.ScanTabsResult | src/greyhoundRaceListScraper.js:96-128 | a match is a loaded tab with tracks whose URL date is today, and an abort is a failing tab; both lie at or after the scan start |
| RaceList.ScrapeGreyhoundRaceList | src/greyhoundRaceListScraper.js:81-156 | the tab loop with `continue`/`break`/`catch` produces exactly `RaceListOutcome` |
| RaceList.RaceListRowsAreToday | src/greyhoundRaceListScraper.js:125-145 | every returned row is dated today, and the file written is today's race list holding exactly the returned rows |
| RaceList.ScanReaches | src/greyhoundRaceListScraper.js:96-128 | scanning from `from` gives the same result as scanning from i when all tabs in between are skipped |
| RaceList.ScanSkips | src/greyhoundRaceListScraper.js:96-128 | a skipped tab hands the scan on to the next tab unchanged |
| RaceList.ScanStops | src/greyhoundRaceListScraper.js:96-128 | a failing tab aborts the scan there; a loaded tab dated today with tracks matches there |
| RaceList.RaceListFromFirstMatchingTab | src/greyhoundRaceListScraper.js:116-145 | the rows are the flattening of the first tab dated today, and a file is written |
| RaceList.RaceListEmptyAfterFailure | src/greyhoundRaceListScraper.js:151-155 | a throw before a match gives `[]` and no file, whatever later tabs hold |
| RaceList.RaceListEmptyWithoutMatch | src/greyhoundRaceListScraper.js:116-150 | when no tab matches: `[]`, nothing written |
| Results.FindSection | src/greyhoundResultsScraper.js:44-48 | the first section whose trimmed heading equals the target, or none exactly when no section matches |
| Results.RowLink | src/greyhoundResultsScraper.js:60-64 | a row gives a link iff it has a non-empty trimmed title and an anchor; the link holds that title and the href |
| Results.MeetingLinks | src/greyhoundResultsScraper.js:58-65 | at most one link per row |
| Results.MeetingLinksExact | src/greyhoundResultsScraper.js:58-65 | a link is collected iff some row gives it; every collected link has a non-empty track; links keep row order, the links of earlier rows before those of later rows |
| Results.CollectLinks | src/greyhoundResultsScraper.js:58-65 | the `forEach`/`push` loop builds exactly `MeetingLinks` |
| Results.RaceLabelInjective | src/greyhoundResultsScraper.js:102 | different tabs get different `Race i+1` labels |
| Results.FromFields | src/greyhoundResultsScraper.js:100-115 | the record's twelve cell fields are the given texts in column order (place … sp), with track and race as given |
| Results.TrimmedCells | src/greyhoundResultsScraper.js:103-114 | exactly twelve fields; field k is cell k trimmed |
| Results.RowRecord | src/greyhoundResultsScraper.js:97-117 | a record iff the row has ≥ 12 cells; it is tagged with the track and label and its fields are cells 0..11 trimmed |
| Results.LongRows | src/greyhoundResultsScraper.js:99 | the rows kept are exactly the rows of the table with at least twelve cells: every kept row is one, and every such row is kept |
| Results.TabRows | src/greyhoundResultsScraper.js:96-119 | computes a tab's records; `TabRowsAreLongRows` and `TabRowsTagged` state its properties |
| Results.TabRowsAreLongRows | src/greyhoundResultsScraper.js:96-119 | a tab gives exactly one record per row with ≥ 12 cells, in table order, each that row's `RowRecord` |
| Results.TabRowsTagged | src/greyhoundResultsScraper.js:100-102 | every record of tab i carries the track and `Race i+1` |
| Results.TabsRead | src/greyhoundResultsScraper.js:87-94 | all tabs are read when no click fails; otherwise exactly the tabs before the failing one |
| Results.TracksTabRowsLabels | src/greyhoundResultsScraper.js:89-123 | every record of a track carries its name and the label of a tab that was read |
| Results.FailedTracks | src/greyhoundResultsScraper.js:124-125 | at most one failure noted per link |
| Results.FailedTracksExact | src/greyhoundResultsScraper.js:79-131 | a track is noted as failed iff the visit of one of its links fails; one link is noted alone or not at all; notes keep link order |
| Results.TrackRows | src/greyhoundResultsScraper.js:80-130 | computes one track's records; `TracksTabRowsLabels` and `FailedTrackKeepsEarlierTabs` state its properties |
| Results.AllRows | src/greyhoundResultsScraper.js:77-131 | computes the records of all tracks in link order; `TrackIsolation` states its properties |
| Results.ResultsOutcome | src/greyhoundResultsScraper.js:18-148 | computes the run's records, failures and write; `ResultsSavedIffRows` and `NoHeadingNoResults` state its properties |
| Results.TrackIsolation | src/greyhoundResultsScraper.js:79-131 | each track's rows sit between those of the tracks before and after it, and depend only on its own visit |
| Results.ScrapeTrack | src/greyhoundResultsScraper.js:80-130 | the tab loop yields exactly the rows of the tabs read and reports failure exactly when the visit throws |
| Results.ScrapeTracks | src/greyhoundResultsScraper.js:77-131 | the link loop accumulates exactly `AllRows` and `FailedTracks` |
| Results.ScrapeResults | src/greyhoundResultsScraper.js:18-148 | the whole run produces exactly `ResultsOutcome` |
| Results.ResultsSavedIffRows | src/greyhoundResultsScraper.js:133-142 | `results.csv` under the results date is written iff rows were collected, and holds exactly those rows |
| Results.NoHeadingNoResults | src/greyhoundResultsScraper.js:44-75 | when no heading matches, nothing is collected or written, whatever the track pages hold |
| Results.FailedTrackKeepsEarlierTabs | src/greyhoundResultsScraper.js:89-130 | a track failing at tab k still contributes tabs 0..k-1 and is reported failed |
| Odds.NormaliseCell | test/testDetailsScraper.js:33-40 | a number iff the value element exists and its text parses; it is then the parsed number |
| Odds.OrDash | test/testDetailsScraper.js:47-59 | `cells[k] \|\| '-'` is a price iff the cell exists and is a non-zero price, and then equals it |
| Odds.RowOdds | src/raceDetailsScraper.js:33-59 | thirteen fields; field k is a price iff cell k has a value element parsing to a non-zero number, and then equals that number |
| Odds.BlankRowAllDashes | src/raceDetailsScraper.js:36-40 | a row with no parseable values gives `'-'` in all thirteen columns |
| Odds.NormaliseName | test/testDetailsScraper.js:22-24 | a cleaned name is single-spaced, keeps every non-white-space character of the text in order, and is empty iff the text is all white space; where the spaces go is stated by `NormaliseNameJoinsWords` |
| Odds.NormaliseNameJoinsWords | test/testDetailsScraper.js:22-24 | `trim().replace(/\s+/g, ' ')` is the text's words joined by single spaces: each maximal run of white space between words becomes one space and the runs at the ends go |
| Odds.NormaliseNameEnds | test/testDetailsScraper.js:22-24 | a cleaned name has no white space at either end |
| Odds.RunnerName | test/testDetailsScraper.js:46 | never empty; the row's name when it has a non-empty one, otherwise `Runner i+1` |
| Odds.FallbackNameInjective | test/testDetailsScraper.js:46 | different rows never share a fallback name |
| Odds.RunnerNames | test/testDetailsScraper.js:22-24 | one cleaned name per name element, in order |
| TestDetails.GridRecords | test/testDetailsScraper.js:26-64 | one record per grid row; record i carries the track, the race number, runner name i (or its fallback) and the bookmaker fields of row i |
| TestDetails.GridRecordsShape | test/testDetailsScraper.js:43-60 | every record keeps the caller's track and race number; its runner name is the row's own when non-empty, otherwise `Runner i+1`; field k is a price iff cell k offers one, and then equals that cell's number |
| TestDetails.PlaceGrid | test/testDetailsScraper.js:69-86 | computes the grid read after toggling to Place; `NoButtonRepeatsWin` and `PlaceTimeoutLosesWin` state its effect |
| TestDetails.RaceDetails | test/testDetailsScraper.js:14-101 | computes what `scrapeRaceDetails` returns; `WinThenPlace`, `NoButtonRepeatsWin` and `PlaceTimeoutLosesWin` state its properties |
| TestDetails.ExtractOdds | test/testDetailsScraper.js:26-64 | the row loop builds exactly `GridRecords` |
| TestDetails.Tagged | test/testDetailsScraper.js:89-90 | same length; every record kept and given the bet type |
| TestDetails.TagBetType | test/testDetailsScraper.js:89-90 | the `forEach` tagging loop builds exactly `Tagged` |
| TestDetails.ScrapeRaceDetails | test/testDetailsScraper.js:14-101 | the scrape produces exactly `RaceDetails` |
| TestDetails.WinThenPlace | test/testDetailsScraper.js:86-92 | length is \|win\| + \|place\|; Win records first, then Place; all keep track and race number |
| TestDetails.NoButtonRepeatsWin | test/testDetailsScraper.js:69-86 | without a Place button the Place half repeats the Win records row by row |
| TestDetails.PlaceTimeoutLosesWin | test/testDetailsScraper.js:80-100 | a timeout after clicking Place yields `[]`, discarding the Win rows too |
| TestDetails.RunTest | test/testDetailsScraper.js:114-123 | the CSV is saved iff the result is non-empty, under `exports/<date>/test-race-details.csv`, with exactly the result |
| RaceDetails.PageRunners | src/raceDetailsScraper.js:14-72 | nothing for a page that throws; one record per grid row otherwise |
| RaceDetails.PageRunnersShape | src/raceDetailsScraper.js:44-60 | record i carries the page title, `RunnerName(names, i)` (the cleaned name or its `Runner i+1` fallback) and `RowOdds` of grid row i, field k a price iff the cell offers one |
| RaceDetails.PageRunnerAt | src/raceDetailsScraper.js:44-60 | record i of a loaded page is the record of grid row i: its title, name i and the fields of row i |
| RaceDetails.ScrapeRaceDetails | src/raceDetailsScraper.js:14-72 | the row loop builds exactly `PageRunners` |
| RaceDetails.SnapshotFileName | src/raceDetailsScraper.js:75-80 | `race-details-HH-MM.csv`: 22 characters, right prefix and suffix, and two-digit fields reading back as hour and minute |
| RaceDetails.SnapshotFileNameInjective | src/raceDetailsScraper.js:76-80 | different hour/minute pairs give different file names |
| RaceDetails.RaceUrls | src/raceDetailsScraper.js:95-105 | test mode visits only `TEST_URL`; otherwise each race-list row's URL, in order |
| RaceDetails.ScrapeAll | src/raceDetailsScraper.js:100-105 | the sequential loop accumulates exactly `AllRaceDetails` |
| RaceDetails.RunRaceDetailsScraper | src/raceDetailsScraper.js:90-110 | always writes `exports/details/race-details-HH-MM.csv` holding everything collected |
| RaceDetails.AllRaceDetails | src/raceDetailsScraper.js:100-105 | computes every visited page's records in visit order; `RaceIsolation` and `AllRaceDetailsLength` state its properties |
| RaceDetails.RaceIsolation | src/raceDetailsScraper.js:101-105 | each race's records sit between those of the races before and after it, and depend on its own page only |
| RaceDetails.TestModeOnlyTestRace | src/raceDetailsScraper.js:95-98 | in test mode the output is the test race's records, whatever the race list |
| RaceDetails.AllFailingWritesEmpty | src/raceDetailsScraper.js:100-109 | when every page throws, the snapshot is written with no records |
| RaceDetails.AllRaceDetailsLength | src/raceDetailsScraper.js:100-105 | the number of records is the total number of grid rows of the pages that loaded |
| RaceDetails.SnapshotDirIsNotADateDir | src/raceDetailsScraper.js:77-80 | the snapshot folder is never a dated `exports/YYYY-MM-DD/` folder |
| Scheduler.ParseCron | src/scheduler.js:13 | an expression parses iff it splits into exactly five fields that each parse, and then the schedule holds those fields in order |
| Scheduler.ParseField | src/scheduler.js:13 | a cron field is `*` iff written `*`; a number field is all digits with that value |
| Scheduler.RaceListCronParses | src/scheduler.js:13 | `0 9 * * *` parses to minute 0 of hour 9, every day |
| Scheduler.DetailsCronParses | src/scheduler.js:27 | `0 * * * *` parses to minute 0 of every hour |
| Scheduler.RaceListFiresAtNine | src/scheduler.js:12-24 | the race-list expression fires exactly at 9:00 |
| Scheduler.DetailsFiresHourly | src/scheduler.js:26-27 | the details expression fires exactly on the hour |
| Scheduler.Contain | src/scheduler.js:16-21 | a completed job is logged as success, a thrown one as a failure carrying its message; nothing propagates |
| Scheduler.DetailsRunsIffInWindow | src/scheduler.js:27-40 | the details scraper starts iff minute is 0 and 9 ≤ hour ≤ 23 |
| Scheduler.RaceListRunsAtNine | src/scheduler.js:13-24 | the race-list scraper starts iff it is 9:00 |
| Scheduler.ErrorsAreContained | src/scheduler.js:16-37 | a throwing job ends as nothing, a skip or a logged failure with its message |
| Scheduler.RaceListTick | src/scheduler.js:13-24 | computes the intended race-list tick, with the hour used directly; `RaceListRunsAtNine` states when it starts the scraper |
| Scheduler.DetailsTick | src/scheduler.js:27-43 | computes the intended details tick, with the hour used directly; `DetailsRunsIffInWindow` states when it starts the scraper |
| Scheduler.ReparsedHour | src/scheduler.js:8-10 | `getAESTTime` keeps the hour iff the day of month is 1 to 12; otherwise the date is invalid |
| Scheduler.RaceListTickAsWritten | src/scheduler.js:13-21 | computes the race-list tick as written: an invalid date makes `toISOString` throw before the `try` |
| Scheduler.DetailsTickAsWritten | src/scheduler.js:27-40 | computes the details tick as written: a `NaN` hour is skipped |
| Scheduler.AsWrittenIdleFromThirteenth | src/scheduler.js:8-40 | as written, neither scraper is started from the 13th of a month on, and the race-list tick throws before its `try` |
| Scheduler.AsWrittenMissesSixteenth | src/scheduler.js:8-40 | on the 16th at 9:00 and 10:00 the intended ticks start the scrapers and the ticks as written do not |
| Scheduler.AsWrittenAgreesToTwelfth | src/scheduler.js:8-40 | on days 1 to 12 the ticks as written equal the intended ones |
| ApiServer.CsvResponse | apiServer.js:27-31 | no answer exactly when the stream never ends or errs |
| ApiServer.CsvResponseOfCleanStream | apiServer.js:29-30 | rows followed by `end` are answered with exactly those rows in order |
| ApiServer.CsvResponseOfFailedStream | apiServer.js:31 | an error before the end answers `[]`, discarding rows already pushed |
| ApiServer.CollectCsv | apiServer.js:45-49 | the `data`/`end`/`error` callbacks produce exactly `CsvResponse` |
| ApiServer.FileRows | apiServer.js:26-31 | a missing file answers `[]`; a present one answers what its stream gives |
| ApiServer.RaceListEndpoint | apiServer.js:22-32 | a missing race-list file for today answers `[]` |
| ApiServer.ResultsEndpoint | apiServer.js:53-63 | a missing results file for today answers `[]` |
| ApiServer.EndpointsReadScraperPaths | apiServer.js:22-63 | given one date string for both sides, the endpoints read exactly the paths the race-list and results scrapers write for that date |
| ApiServer.RaceListEndpointMissesLocalDate | apiServer.js:16-24 | when the UTC date differs from the local date the race-list scraper names its folder by, the endpoint reads a different path from the one written |
| ApiServer.FirstLatest | apiServer.js:41-43 | the first entry of a stable descending sort by mtime: maximal mtime, and every earlier entry strictly older |
| ApiServer.LatestSnapshot | apiServer.js:39-43 | the served file is a listed `race-details-*.csv`; none exactly when no entry has such a name |
| ApiServer.LatestSnapshotIsNewest | apiServer.js:41-43 | no listed snapshot is newer than the one served |
| ApiServer.RaceDetailsEndpoint | apiServer.js:35-50 | a missing folder or a folder with no snapshot answers `[]`; otherwise the answer is the rows of the newest snapshot in today's folder |
| ApiServer.SnapshotNamesAreCandidates | apiServer.js:39-40 | every name the details scraper writes passes the prefix/suffix filter |
| ApiServer.SnapshotsWrittenElsewhere | apiServer.js:36-37 | the path the endpoint reads is never a path the details scraper writes |
| ApiServer.SchedulerStatus | apiServer.js:66-81 | no file gives the default; a parseable file gives its content; unparseable JSON is a server error |
| ApiServer.DefaultStatusShape | apiServer.js:71-79 | the default: not running, null run times, `No status yet` for both jobs |
| ApiServer.TriggerScrape | apiServer.js:83-96 | the race list starts first; details start iff it completed; 200 iff both completed, else 500, with the matching message |

## Left out

- **Browser automation.** Puppeteer launch, user agent, viewport, the stealth plugin, sleeps and `page.evaluate` are not modelled. Page content is input data, and a timeout is an explicit constructor of the page datatype.
- **File writes and CSV serialisation.** `json2csv`, `csv-parser`, directory creation and the debug HTML dumps are not modelled. A write is the returned `Written(path, records)` value, and a failing write is not modelled. A CSV file read by the server is its stream of parsed events.
- **Clocks and time zones.** `new Date()`, `toISOString` and `toLocaleDateString` are not modelled. The dates, hours, minutes and heading they yield are parameters. The re-parse in `getAESTTime` is modelled only as far as `Scheduler.ReparsedHour` says: the hour survives on days 1 to 12 and is lost from the 13th on. Daylight-saving gaps in the machine's own zone are not modelled.
- Scheduler.DetailsRunsIffInWindow and Scheduler.RaceListRunsAtNine: they hold of the intended ticks, which use the Brisbane hour directly. As written, `getAESTTime` loses the hour from the 13th of each month on, and the ticks as written start nothing then. See `Scheduler.AsWrittenIdleFromThirteenth` and "## Findings".
- RaceDetails.RaceIsolation, RaceDetails.AllFailingWritesEmpty, TestDetails.PlaceTimeoutLosesWin and Results.TrackIsolation: they assume that `page.content()` and the debug dump in each `catch` succeed. In `src/raceDetailsScraper.js:66-68` the dump goes to `exports/details/`, which only `saveRaceDetailsCSV` creates (lines 77-78). `test/testDetailsScraper.js:95-97` writes into that folder and never creates it. A throw there leaves the scraper and, in the hourly scraper, aborts the race loop before the snapshot is written. In `src/greyhoundResultsScraper.js:126-128` such a throw reaches the outer `catch` at line 143, and nothing is written.
- ApiServer.EndpointsReadScraperPaths: it takes one date for both sides. The race-list scraper names its folder by the machine's local date (`src/greyhoundRaceListScraper.js:16-22`), while the server uses the UTC date (`apiServer.js:16-19`). On a machine east of UTC they differ between local midnight and UTC midnight (00:00 to 10:00 on a Brisbane machine), and `/api/race-list` then reads another day's folder (`ApiServer.RaceListEndpointMissesLocalDate`). The results half holds as stated: both ends use the UTC date.
- **Floating point.** `parseFloat` is an input: `Cell.Value(parsed)` holds the parsed number, or `None` for `NaN`. Numbers are `real`. `Infinity` is not represented, and `-0` is covered by the zero test.
- **Runner records as JavaScript objects.** A record is a datatype with the thirteen bookmaker fields as a sequence indexed in `Odds.Bookmakers` order. Setting `betType` in place is modelled as building tagged copies, because nothing else holds the untagged records.
- RaceList.RaceFromTokens: `raceNumber.trim()` and `startTime.trim()` are not applied, because tokens from the white-space split contain no white space, so trimming cannot change them.
- Results.RowLink: an anchor without an `href` (giving `null`) is not distinguished from one with an `href`; an anchor is modelled as its `href` string.
- **Scheduler.** `node-cron` itself is reduced to matching the five fields at a moment, and the time zone option is taken as given. The log messages are reduced to the outcome kinds.
- **Broken module wiring.** `src/raceDetailsScraper.js` imports `scrapeGreyhoundRaceList` from `src/index.js`, which does not export it. `src/raceDetailsScraper.js` exports nothing, yet `src/scheduler.js` and `apiServer.js` import from it. Modules also run themselves on import. The model wires the modules as evidently intended: the details scraper's race list is a parameter of `RaceDetails.RunRaceDetailsScraper`.
- **Not in this model:** `src/index.js`, `src/test.js`, `test/test_scraper.js`, the loggers, the dashboard components and `src/Dashboard.jsx`. Express routing, CORS and the duplicate empty `/api/race-list` handler are also left out.
- **No status writer.** Nothing in the repository writes the scheduler status file. `ApiServer.SchedulerStatus` takes the file's presence and content as input.
- **Stream errors on the file read itself.** These are not forwarded to the parser's `error` handler. The model treats the parser's event stream as the whole story.

## Findings

| source | as written | input that shows it | evidently intended | confidence | as-written member | corrected member |
|---|---|---|---|---|---|---|
| src/scheduler.js:8-10 | `new Date(new Date().toLocaleString('en-AU', ...))` re-parses a day/month/year string as month/day/year, so from the 13th of a month the date is invalid: the details tick sees a `NaN` hour and skips, and the race-list tick throws in `toISOString` (line 15) before its `try` | Brisbane 16 October, 9:00 and 10:00 | the Brisbane hour used as is: race list at 9:00, details at minute 0 of hours 9 to 23, every day | not executed; depends on the engine's date parser | Scheduler.RaceListTickAsWritten, Scheduler.DetailsTickAsWritten, Scheduler.AsWrittenMissesSixteenth | Scheduler.RaceListTick, Scheduler.DetailsTick, Scheduler.RaceListRunsAtNine, Scheduler.DetailsRunsIffInWindow |
