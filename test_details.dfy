/** The stand-alone odds scraper for one race (test/testDetailsScraper.js).
    It reads the Win grid, clicks the Place button when the page has one,
    reads the grid again, tags the two readings `Win` and `Place`, and saves
    them under today's folder when anything was read. */
module TestDetails {
  import opened Common
  import opened Odds

  const TestUrl := "https://www.odds.com.au/greyhounds/sale-20250420/national-greyhound-adoption-month-race-1/"
  const TestTrack := "Sale"
  const TestRaceNumber := "R1"

  /** A record as `extractOdds` pushes it: the caller's track and race
      number, the runner's name and the thirteen bookmaker fields. */
  datatype OddsRecord = OddsRecord(track: string, raceNumber: string, runnerName: string, odds: seq<Odds>)

  datatype BetType = Win | Place

  /** A record once `betType` has been set on it. */
  datatype TaggedRecord = TaggedRecord(record: OddsRecord, betType: BetType)

  /** What happens when the Place button is looked for: there is none (the
      grid stays as it was), or it is clicked and the grid it then shows is
      read, or the wait for that grid times out. */
  datatype PlaceToggle = NoPlaceButton | PlaceShown(grid: seq<OddsRow>) | PlaceTimedOut

  /** The race page: navigation or the first wait for the grid throws, or it
      loads with the texts of its `.competitor-details a` elements, the Win
      grid and what the Place toggle does. */
  datatype DetailsPage =
    | DetailsUnavailable
    | DetailsLoaded(nameTexts: seq<string>, winGrid: seq<OddsRow>, toggle: PlaceToggle)

  /** The record for row `i` of a grid. */
  function GridRecord(track: string, raceNumber: string, names: seq<string>, grid: seq<OddsRow>, i: nat): OddsRecord
    requires i < |grid|
  {
    OddsRecord(track, raceNumber, RunnerName(names, i), RowOdds(grid[i]))
  }

  /** What `extractOdds` returns: one record per grid row, in row order. */
  function GridRecords(track: string, raceNumber: string, names: seq<string>, grid: seq<OddsRow>): (rs: seq<OddsRecord>)
    ensures |rs| == |grid|
    ensures forall i :: 0 <= i < |rs| ==>
      && rs[i].track == track && rs[i].raceNumber == raceNumber
      && rs[i].runnerName == RunnerName(names, i)
      && rs[i].odds == RowOdds(grid[i])
  {
    seq(|grid|, i requires 0 <= i < |grid| => GridRecord(track, raceNumber, names, grid, i))
  }

  /** Every record of a grid carries the caller's track and race number
      unchanged, a non-empty runner name (the row's own name when there is
      one, otherwise `Runner i+1`) and thirteen bookmaker fields, the `k`-th
      a price exactly when cell `k` of its row offers a non-zero number, and
      then that number. */
  lemma GridRecordsShape(track: string, raceNumber: string, names: seq<string>, grid: seq<OddsRow>)
    ensures forall i :: 0 <= i < |grid| ==>
      var r := GridRecords(track, raceNumber, names, grid)[i];
      && r.track == track && r.raceNumber == raceNumber
      && r.runnerName != ""
      && (i < |names| && names[i] != "" ==> r.runnerName == names[i])
      && (!(i < |names| && names[i] != "") ==> r.runnerName == "Runner " + NatToString(i + 1))
      && |r.odds| == |Bookmakers|
      && (forall k :: 0 <= k < |Bookmakers| ==> (r.odds[k].Price? <==> OffersPrice(grid[i], k)))
      && (forall k :: 0 <= k < |Bookmakers| && OffersPrice(grid[i], k) ==> r.odds[k].value == grid[i][k].parsed.value)
  {
  }

  /** `extractOdds`: the loop over the grid rows pushing one record each. */
  method ExtractOdds(track: string, raceNumber: string, names: seq<string>, grid: seq<OddsRow>)
    returns (result: seq<OddsRecord>)
    ensures result == GridRecords(track, raceNumber, names, grid)
  {
    result := [];
    var i := 0;
    while i < |grid|
      invariant 0 <= i <= |grid|
      invariant result == GridRecords(track, raceNumber, names, grid)[..i]
    {
      result := result + [OddsRecord(track, raceNumber, RunnerName(names, i), RowOdds(grid[i]))];
      i := i + 1;
    }
  }

  /** `data.forEach(r => r.betType = t)`: every record, in order, given `t`. */
  function Tagged(rs: seq<OddsRecord>, t: BetType): (ts: seq<TaggedRecord>)
    ensures |ts| == |rs|
    ensures forall i :: 0 <= i < |ts| ==> ts[i].record == rs[i] && ts[i].betType == t
  {
    seq(|rs|, i requires 0 <= i < |rs| => TaggedRecord(rs[i], t))
  }

  /** The in-place tagging loop. */
  method TagBetType(rs: seq<OddsRecord>, t: BetType) returns (ts: seq<TaggedRecord>)
    ensures ts == Tagged(rs, t)
  {
    ts := [];
    var i := 0;
    while i < |rs|
      invariant 0 <= i <= |rs|
      invariant ts == Tagged(rs, t)[..i]
    {
      ts := ts + [TaggedRecord(rs[i], t)];
      i := i + 1;
    }
  }

  /** The grid read the second time: the one the Place button shows, or the
      unchanged Win grid when there is no button; none when the wait after
      the click times out. */
  function PlaceGrid(winGrid: seq<OddsRow>, toggle: PlaceToggle): Option<seq<OddsRow>>
  {
    match toggle
    case NoPlaceButton => Some(winGrid)
    case PlaceShown(grid) => Some(grid)
    case PlaceTimedOut => None
  }

  /** What `scrapeRaceDetails` returns for a page: all Win records then all
      Place records; nothing when the page or the Place wait throws. */
  function RaceDetails(page: DetailsPage, track: string, raceNumber: string): seq<TaggedRecord>
  {
    match page
    case DetailsUnavailable => []
    case DetailsLoaded(texts, winGrid, toggle) =>
      match PlaceGrid(winGrid, toggle)
      case None => []
      case Some(placeGrid) =>
        var names := RunnerNames(texts);
        Tagged(GridRecords(track, raceNumber, names, winGrid), Win)
          + Tagged(GridRecords(track, raceNumber, names, placeGrid), Place)
  }

  /** `scrapeRaceDetails`: reads the names once, the Win grid, toggles to
      Place, reads the grid again and returns the Win records followed by
      the Place records; any throw gives no records. */
  method ScrapeRaceDetails(page: DetailsPage, track: string, raceNumber: string)
    returns (all: seq<TaggedRecord>)
    ensures all == RaceDetails(page, track, raceNumber)
  {
    if page.DetailsUnavailable? {
      return [];
    }
    var names := RunnerNames(page.nameTexts);
    var winData := ExtractOdds(track, raceNumber, names, page.winGrid);
    var secondGrid := PlaceGrid(page.winGrid, page.toggle);
    if secondGrid.None? {
      return [];
    }
    var placeData := ExtractOdds(track, raceNumber, names, secondGrid.value);
    var winTagged := TagBetType(winData, Win);
    var placeTagged := TagBetType(placeData, Place);
    all := winTagged + placeTagged;
  }

  // ---------------------------------------------------------------------------
  // Properties of one race

  /** The output is one Win record per Win-grid row followed by one Place
      record per row of the grid read second, each tagged accordingly. */
  lemma WinThenPlace(texts: seq<string>, winGrid: seq<OddsRow>, placeGrid: seq<OddsRow>, toggle: PlaceToggle,
                     track: string, raceNumber: string)
    requires PlaceGrid(winGrid, toggle) == Some(placeGrid)
    ensures var all := RaceDetails(DetailsLoaded(texts, winGrid, toggle), track, raceNumber);
      && |all| == |winGrid| + |placeGrid|
      && (forall i :: 0 <= i < |winGrid| ==> all[i].betType == Win)
      && (forall i :: |winGrid| <= i < |all| ==> all[i].betType == Place)
      && (forall i :: 0 <= i < |all| ==> all[i].record.track == track && all[i].record.raceNumber == raceNumber)
  {
    var names := RunnerNames(texts);
    var win := GridRecords(track, raceNumber, names, winGrid);
    var place := GridRecords(track, raceNumber, names, placeGrid);
    assert RaceDetails(DetailsLoaded(texts, winGrid, toggle), track, raceNumber) == Tagged(win, Win) + Tagged(place, Place);
    TaggedHalves(win, place, track, raceNumber);
  }

  /** Win-tagged records followed by Place-tagged ones: the first half is
      `Win`, the second `Place`, and both keep the track and race number. */
  lemma TaggedHalves(win: seq<OddsRecord>, place: seq<OddsRecord>, track: string, raceNumber: string)
    requires forall i :: 0 <= i < |win| ==> win[i].track == track && win[i].raceNumber == raceNumber
    requires forall i :: 0 <= i < |place| ==> place[i].track == track && place[i].raceNumber == raceNumber
    ensures var all := Tagged(win, Win) + Tagged(place, Place);
      && |all| == |win| + |place|
      && (forall i :: 0 <= i < |win| ==> all[i].betType == Win)
      && (forall i :: |win| <= i < |all| ==> all[i].betType == Place)
      && (forall i :: 0 <= i < |all| ==> all[i].record.track == track && all[i].record.raceNumber == raceNumber)
  {
    var all := Tagged(win, Win) + Tagged(place, Place);
    forall i | |win| <= i < |all|
      ensures all[i] == Tagged(place, Place)[i - |win|]
    {
    }
  }

  /** With no Place button the grid is read twice unchanged, so every Place
      record repeats the Win record of the same row. */
  lemma NoButtonRepeatsWin(texts: seq<string>, winGrid: seq<OddsRow>, track: string, raceNumber: string)
    ensures var all := RaceDetails(DetailsLoaded(texts, winGrid, NoPlaceButton), track, raceNumber);
      && |all| == 2 * |winGrid|
      && forall i :: 0 <= i < |winGrid| ==> all[|winGrid| + i].record == all[i].record
  {
    var recs := GridRecords(track, raceNumber, RunnerNames(texts), winGrid);
    assert PlaceGrid(winGrid, NoPlaceButton) == Some(winGrid);
    assert RaceDetails(DetailsLoaded(texts, winGrid, NoPlaceButton), track, raceNumber)
      == Tagged(recs, Win) + Tagged(recs, Place);
    TaggedTwice(recs);
  }

  /** The same records tagged twice: the second copy repeats the first row by row. */
  lemma TaggedTwice(recs: seq<OddsRecord>)
    ensures var all := Tagged(recs, Win) + Tagged(recs, Place);
      && |all| == 2 * |recs|
      && forall i :: 0 <= i < |recs| ==> all[|recs| + i].record == all[i].record
  {
    var all := Tagged(recs, Win) + Tagged(recs, Place);
    forall i | 0 <= i < |recs|
      ensures all[|recs| + i].record == all[i].record
    {
      assert all[|recs| + i] == Tagged(recs, Place)[i];
    }
  }

  /** A timeout after clicking Place loses the Win records too. */
  lemma PlaceTimeoutLosesWin(texts: seq<string>, winGrid: seq<OddsRow>, track: string, raceNumber: string)
    ensures RaceDetails(DetailsLoaded(texts, winGrid, PlaceTimedOut), track, raceNumber) == []
  {
  }

  // ---------------------------------------------------------------------------
  // The test run

  function TestCsvPath(folderDate: string): string
  {
    "exports/" + folderDate + "/test-race-details.csv"
  }

  /** `runTest`: scrapes the fixed race as track `Sale`, race `R1`, and saves
      the records under `folderDate` (the UTC date when saving) only when
      there are some. */
  method RunTest(site: string -> DetailsPage, folderDate: string) returns (saved: Option<Written<TaggedRecord>>)
    ensures saved.Some? <==> RaceDetails(site(TestUrl), TestTrack, TestRaceNumber) != []
    ensures saved.Some? ==> saved.value == Written(TestCsvPath(folderDate), RaceDetails(site(TestUrl), TestTrack, TestRaceNumber))
  {
    var all := ScrapeRaceDetails(site(TestUrl), TestTrack, TestRaceNumber);
    if |all| > 0 {
      saved := Some(Written(TestCsvPath(folderDate), all));
    } else {
      saved := None;
    }
  }
}
