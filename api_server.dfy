/** The API server (apiServer.js): the three CSV endpoints read today's files
    under `exports/<YYYY-MM-DD>/` (the UTC date, an input here) and answer
    `[]` when a file or folder is missing; the race-details endpoint picks
    the most recently modified `race-details-*.csv`; the status endpoint
    falls back to a fixed default; a manual trigger runs the race-list
    scraper and then the details scraper. The file system is given as
    functions from paths to what is there. */
module ApiServer {
  import opened Common
  import opened Seqs
  import RaceList
  import Results
  import RaceDetails
  import Scheduler

  // ---------------------------------------------------------------------------
  // Reading a CSV file

  /** A parsed CSV row: column name to cell text. */
  type CsvRow = map<string, string>

  /** What the CSV parser stream emits: a row, the end, or an error. */
  datatype StreamEvent = Data(row: CsvRow) | End | Failed

  predicate IsTerminal(e: StreamEvent)
  {
    !e.Data?
  }

  /** The answer a stream gives: every row before the first end, or `[]` if
      an error comes first; no answer at all if neither ever comes. */
  function CsvResponse(events: seq<StreamEvent>): (r: Option<seq<CsvRow>>)
    ensures r.None? <==> forall j :: 0 <= j < |events| ==> events[j].Data?
  {
    match FirstIndex(events, IsTerminal)
    case None => None
    case Some(i) =>
      if events[i].End? then Some(seq(i, k requires 0 <= k < i => events[k].row)) else Some([])
  }

  /** When the stream ends cleanly after `n` rows, the answer is exactly those rows, in order. */
  lemma CsvResponseOfCleanStream(rows: seq<CsvRow>, rest: seq<StreamEvent>)
    ensures CsvResponse(seq(|rows|, k requires 0 <= k < |rows| => Data(rows[k])) + [End] + rest) == Some(rows)
  {
    var events := seq(|rows|, k requires 0 <= k < |rows| => Data(rows[k])) + [End] + rest;
    assert IsTerminal(events[|rows|]);
    assert forall j :: 0 <= j < |rows| ==> !IsTerminal(events[j]);
    assert seq(|rows|, k requires 0 <= k < |rows| => events[k].row) == rows;
  }

  /** An error before the end gives `[]`, whatever rows came first. */
  lemma CsvResponseOfFailedStream(rows: seq<CsvRow>, rest: seq<StreamEvent>)
    ensures CsvResponse(seq(|rows|, k requires 0 <= k < |rows| => Data(rows[k])) + [Failed] + rest) == Some([])
  {
    var events := seq(|rows|, k requires 0 <= k < |rows| => Data(rows[k])) + [Failed] + rest;
    assert IsTerminal(events[|rows|]);
    assert forall j :: 0 <= j < |rows| ==> !IsTerminal(events[j]);
  }

  /** The `data`/`end`/`error` callbacks: push each row, answer with the
      rows on `end` and with `[]` on `error`. */
  method CollectCsv(events: seq<StreamEvent>) returns (response: Option<seq<CsvRow>>)
    ensures response == CsvResponse(events)
  {
    var results: seq<CsvRow> := [];
    var i := 0;
    while i < |events|
      invariant 0 <= i <= |events|
      invariant forall j :: 0 <= j < i ==> events[j].Data?
      invariant results == seq(i, k requires 0 <= k < i => events[k].row)
    {
      if events[i].End? {
        assert FirstIndex(events, IsTerminal) == Some(i);
        return Some(results);
      } else if events[i].Failed? {
        assert FirstIndex(events, IsTerminal) == Some(i);
        return Some([]);
      }
      results := results + [events[i].row];
      i := i + 1;
    }
    response := None;
  }

  /** A file as the server finds it. */
  datatype CsvFile = Missing | Present(events: seq<StreamEvent>)

  /** A missing file answers `[]` at once; a present one is streamed. */
  function FileRows(f: CsvFile): (r: Option<seq<CsvRow>>)
    ensures f.Missing? ==> r == Some([])
    ensures f.Present? ==> r == CsvResponse(f.events)
  {
    match f
    case Missing => Some([])
    case Present(events) => CsvResponse(events)
  }

  function DateDir(today: string): string
  {
    "exports/" + today
  }

  /** `GET /api/race-list`: today's race-list file, the one the race-list
      scraper writes for that date. */
  function RaceListEndpoint(today: string, files: string -> CsvFile): (r: Option<seq<CsvRow>>)
    ensures files(RaceList.RaceListPath(today)).Missing? ==> r == Some([])
  {
    FileRows(files(DateDir(today) + "/greyhound-races.csv"))
  }

  /** `GET /api/results`: today's results file, the one the results scraper
      writes for that date. */
  function ResultsEndpoint(today: string, files: string -> CsvFile): (r: Option<seq<CsvRow>>)
    ensures files(Results.ResultsPath(today)).Missing? ==> r == Some([])
  {
    FileRows(files(DateDir(today) + "/results.csv"))
  }

  /** On a day when the server's date is the one the scrapers wrote under,
      the two endpoints read exactly the paths the scrapers write. */
  lemma EndpointsReadScraperPaths(today: string, files: string -> CsvFile)
    ensures RaceListEndpoint(today, files) == FileRows(files(RaceList.RaceListPath(today)))
    ensures ResultsEndpoint(today, files) == FileRows(files(Results.ResultsPath(today)))
  {
    assert DateDir(today) + "/greyhound-races.csv" == RaceList.RaceListPath(today);
    assert DateDir(today) + "/results.csv" == Results.ResultsPath(today);
  }

  /** The server names the folder by the UTC date, the race-list scraper by
      the machine's local date: whenever the two differ, the race-list
      endpoint reads a path other than the one the scraper wrote. */
  lemma RaceListEndpointMissesLocalDate(utcToday: string, localToday: string)
    requires utcToday != localToday
    ensures DateDir(utcToday) + "/greyhound-races.csv" != RaceList.RaceListPath(localToday)
  {
    var suffix := "/greyhound-races.csv";
    var read, written := utcToday + suffix, localToday + suffix;
    assert DateDir(utcToday) + suffix == "exports/" + read;
    assert RaceList.RaceListPath(localToday) == "exports/" + written;
    assert read[..|utcToday|] == utcToday && written[..|localToday|] == localToday;
    if "exports/" + read == "exports/" + written {
      SamePrefixSameRest("exports/", read, written);
    }
  }

  // ---------------------------------------------------------------------------
  // The latest snapshot

  /** A directory entry: its name and its modification time in milliseconds. */
  datatype FileEntry = FileEntry(name: string, mtime: int)

  predicate IsSnapshotName(name: string)
  {
    StartsWith(name, "race-details-") && EndsWith(name, ".csv")
  }

  predicate IsSnapshot(e: FileEntry)
  {
    IsSnapshotName(e.name)
  }

  /** The position of the first entry with the greatest modification time:
      what a stable sort by descending `mtime` puts first. */
  function FirstLatest(files: seq<FileEntry>): (r: Option<nat>)
    ensures r.None? <==> files == []
    ensures r.Some? ==> r.value < |files|
    ensures r.Some? ==> forall j :: 0 <= j < |files| ==> files[j].mtime <= files[r.value].mtime
    ensures r.Some? ==> forall j :: 0 <= j < r.value ==> files[j].mtime < files[r.value].mtime
  {
    if files == [] then None
    else
      var init := files[..|files| - 1];
      match FirstLatest(init)
      case None => Some(|files| - 1)
      case Some(best) =>
        if files[|files| - 1].mtime > init[best].mtime then Some(|files| - 1) else Some(best)
  }

  /** The snapshot `/api/race-details` serves from a directory listing:
      among the `race-details-*.csv` entries, the one modified last, the
      earliest listed among equals; none when there is no such entry. */
  function LatestSnapshot(entries: seq<FileEntry>): (r: Option<FileEntry>)
    ensures r.Some? ==> r.value in entries && IsSnapshotName(r.value.name)
    ensures r.None? <==> forall e :: e in entries ==> !IsSnapshotName(e.name)
  {
    var files := Filter(entries, IsSnapshot);
    FilterComplete(entries, IsSnapshot);
    match FirstLatest(files)
    case None => None
    case Some(i) => Some(files[i])
  }

  /** No snapshot in the listing was modified after the one served. */
  lemma LatestSnapshotIsNewest(entries: seq<FileEntry>)
    requires LatestSnapshot(entries).Some?
    ensures forall e :: e in entries && IsSnapshotName(e.name) ==> e.mtime <= LatestSnapshot(entries).value.mtime
  {
    var files := Filter(entries, IsSnapshot);
    FilterComplete(entries, IsSnapshot);
    var i := FirstLatest(files).value;
    forall e | e in entries && IsSnapshotName(e.name)
      ensures e.mtime <= files[i].mtime
    {
      var j :| 0 <= j < |files| && files[j] == e;
    }
  }

  /** `GET /api/race-details`: `[]` when today's folder is missing or holds
      no snapshot, otherwise the newest snapshot's rows. */
  function RaceDetailsEndpoint(today: string, listing: string -> Option<seq<FileEntry>>, files: string -> CsvFile)
    : (r: Option<seq<CsvRow>>)
    ensures listing(DateDir(today)).None? ==> r == Some([])
    ensures listing(DateDir(today)).Some? && LatestSnapshot(listing(DateDir(today)).value).None? ==> r == Some([])
    ensures listing(DateDir(today)).Some? && LatestSnapshot(listing(DateDir(today)).value).Some? ==>
      r == FileRows(files(DateDir(today) + "/" + LatestSnapshot(listing(DateDir(today)).value).value.name))
  {
    var dir := DateDir(today);
    match listing(dir)
    case None => Some([])
    case Some(entries) =>
      match LatestSnapshot(entries)
      case None => Some([])
      case Some(e) => FileRows(files(dir + "/" + e.name))
  }

  /** Every snapshot name the details scraper produces passes the filter. */
  lemma SnapshotNamesAreCandidates(hour: nat, minute: nat)
    requires hour < 24 && minute < 60
    ensures IsSnapshotName(RaceDetails.SnapshotFileName(hour, minute))
  {
  }

  /** The details scraper writes under `exports/details/`, never into the
      dated folder this endpoint lists, so its snapshots are not the ones
      served. */
  lemma SnapshotsWrittenElsewhere(today: string, name: string, hour: nat, minute: nat)
    requires RaceList.IsoDateShape(today) && hour < 24 && minute < 60
    ensures DateDir(today) + "/" + name != RaceDetails.DetailsDir + RaceDetails.SnapshotFileName(hour, minute)
  {
    var read := DateDir(today) + "/" + name;
    var written := RaceDetails.DetailsDir + RaceDetails.SnapshotFileName(hour, minute);
    assert read[8] == today[0] && IsDigit(today[0]);
    assert written[8] == 'd';
  }

  // ---------------------------------------------------------------------------
  // Scheduler status

  /** The status object: `None` stands for `null`. */
  datatype Status = Status(
    running: bool,
    raceListLastRun: Option<string>, raceListNextRun: Option<string>, raceListLastError: Option<string>,
    detailsLastRun: Option<string>, detailsNextRun: Option<string>, detailsLastError: Option<string>)

  const DefaultStatus := Status(false, None, None, Some("No status yet"), None, None, Some("No status yet"))

  /** The status file: absent, or present with its content parsed as a
      status (`None` when the JSON does not parse). */
  datatype StatusFile = NoStatusFile | StatusText(parsed: Option<Status>)

  datatype StatusResponse = StatusOk(status: Status) | ServerError

  /** `GET /api/scheduler-status`: the file's content, the default when there
      is no file, and Express's 500 when parsing throws. */
  function SchedulerStatus(f: StatusFile): (r: StatusResponse)
    ensures f.NoStatusFile? ==> r == StatusOk(DefaultStatus)
    ensures r.ServerError? <==> f == StatusText(None)
    ensures f.StatusText? && f.parsed.Some? ==> r == StatusOk(f.parsed.value)
  {
    match f
    case NoStatusFile => StatusOk(DefaultStatus)
    case StatusText(parsed) => if parsed.Some? then StatusOk(parsed.value) else ServerError
  }

  /** The default says the scheduler is not running, has no run times and
      reports no status for either job. */
  lemma DefaultStatusShape()
    ensures !DefaultStatus.running
    ensures DefaultStatus.raceListLastRun.None? && DefaultStatus.raceListNextRun.None?
    ensures DefaultStatus.detailsLastRun.None? && DefaultStatus.detailsNextRun.None?
    ensures DefaultStatus.raceListLastError == DefaultStatus.detailsLastError == Some("No status yet")
  {
  }

  // ---------------------------------------------------------------------------
  // Manual trigger

  datatype Job = RaceListJob | DetailsJob

  /** The jobs started, in order, and the HTTP status and message of the answer. */
  datatype TriggerResponse = TriggerResponse(started: seq<Job>, status: nat, message: string)

  const TriggerOk := "Manual scrape (race list + details) completed successfully."
  const TriggerFailed := "Failed to trigger manual scrape."

  /** `POST /api/trigger-scrape`: awaits the race-list scraper, then the
      details scraper; a throw from either skips the rest and answers 500. */
  function TriggerScrape(raceList: Scheduler.JobResult, details: Scheduler.JobResult): (r: TriggerResponse)
    ensures |r.started| >= 1 && r.started[0] == RaceListJob
    ensures DetailsJob in r.started <==> raceList.Completed?
    ensures r.status == 200 <==> raceList.Completed? && details.Completed?
    ensures r.status == 200 || r.status == 500
    ensures r.message == (if r.status == 200 then TriggerOk else TriggerFailed)
  {
    if raceList.Threw? then TriggerResponse([RaceListJob], 500, TriggerFailed)
    else if details.Threw? then TriggerResponse([RaceListJob, DetailsJob], 500, TriggerFailed)
    else TriggerResponse([RaceListJob, DetailsJob], 200, TriggerOk)
  }
}
