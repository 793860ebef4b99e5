/** The hourly odds scraper (src/raceDetailsScraper.js). It visits every race
    of the race list in turn on one page, or only the fixed test race in test
    mode. Each race gives one record per odds-grid row, tagged with the page
    title; a race that throws gives none. Afterwards it always writes
    everything to `exports/details/race-details-HH-MM.csv`. */
module RaceDetails {
  import opened Common
  import opened Seqs
  import opened Odds
  import RaceList

  const TestUrl := "https://www.odds.com.au/greyhounds/sale-20250413/national-greyhound-adoption-month-race-1/"

  /** A race page: navigation or the wait for the grid throws, or it loads
      with its title, the texts of its `span.competitor-details` elements and
      its odds grid. */
  datatype RacePage =
    | RaceUnavailable
    | RaceLoaded(title: string, nameTexts: seq<string>, grid: seq<OddsRow>)

  /** A runner record: the page title, the runner's name and the thirteen
      bookmaker fields in CSV column order. */
  datatype RaceRunner = RaceRunner(raceTitle: string, runnerName: string, odds: seq<Odds>)

  /** The record of grid row `i`. */
  function RunnerAt(title: string, names: seq<string>, grid: seq<OddsRow>, i: nat): RaceRunner
    requires i < |grid|
  {
    RaceRunner(title, RunnerName(names, i), RowOdds(grid[i]))
  }

  /** What `scrapeRaceDetails` returns for a page: one record per grid row,
      in row order; nothing when the page throws. */
  function PageRunners(page: RacePage): (runners: seq<RaceRunner>)
    ensures page.RaceUnavailable? ==> runners == []
    ensures page.RaceLoaded? ==> |runners| == |page.grid|
  {
    match page
    case RaceUnavailable => []
    case RaceLoaded(title, texts, grid) =>
      var names := RunnerNames(texts);
      seq(|grid|, i requires 0 <= i < |grid| => RunnerAt(title, names, grid, i))
  }

  /** Every record of a loaded page carries its title, the cleaned name of
      its row (or the `Runner i+1` fallback) and the thirteen bookmaker
      fields of its row, the `k`-th a price exactly when that cell offers one. */
  lemma PageRunnersShape(title: string, texts: seq<string>, grid: seq<OddsRow>)
    ensures forall i :: 0 <= i < |grid| ==>
      var r := PageRunners(RaceLoaded(title, texts, grid))[i];
      && r.raceTitle == title && r.runnerName != ""
      && r.runnerName == RunnerName(RunnerNames(texts), i)
      && r.odds == RowOdds(grid[i])
      && |r.odds| == |Bookmakers|
      && forall k :: 0 <= k < |Bookmakers| ==> (r.odds[k].Price? <==> OffersPrice(grid[i], k))
  {
  }

  /** `scrapeRaceDetails`: reads the title and names, then loops over the
      grid rows pushing one record each. */
  method ScrapeRaceDetails(page: RacePage) returns (runners: seq<RaceRunner>)
    ensures runners == PageRunners(page)
  {
    if page.RaceUnavailable? {
      return [];
    }
    var title, texts, grid := page.title, page.nameTexts, page.grid;
    var names := RunnerNames(texts);
    ghost var all := PageRunners(page);
    runners := [];
    var i := 0;
    while i < |grid|
      invariant 0 <= i <= |grid|
      invariant runners == all[..i]
    {
      var runner := RunnerAt(title, names, grid, i);
      PageRunnerAt(page, i);
      PrefixSnoc(all, i);
      runners := runners + [runner];
      i := i + 1;
    }
    assert all[..i] == all;
  }

  /** Record `i` of a loaded page is that of grid row `i`. */
  lemma PageRunnerAt(page: RacePage, i: nat)
    requires page.RaceLoaded? && i < |page.grid|
    ensures PageRunners(page)[i] == RunnerAt(page.title, RunnerNames(page.nameTexts), page.grid, i)
  {
  }

  // ---------------------------------------------------------------------------
  // The snapshot file

  /** `race-details-HH-MM.csv`, hour and minute padded to two digits. */
  function SnapshotFileName(hour: nat, minute: nat): (name: string)
    requires hour < 24 && minute < 60
    ensures |name| == 22
    ensures StartsWith(name, "race-details-") && EndsWith(name, ".csv")
    ensures AllDigits(name[13..15]) && name[15] == '-' && AllDigits(name[16..18])
    ensures DecimalValue(name[13..15]) == hour && DecimalValue(name[16..18]) == minute
  {
    Pad2Digits(hour);
    Pad2Digits(minute);
    var name := "race-details-" + Pad2(hour) + "-" + Pad2(minute) + ".csv";
    assert name[13..15] == Pad2(hour) && name[16..18] == Pad2(minute);
    name
  }

  /** Runs at different minutes of the day write different files. */
  lemma SnapshotFileNameInjective(h1: nat, m1: nat, h2: nat, m2: nat)
    requires h1 < 24 && m1 < 60 && h2 < 24 && m2 < 60
    requires SnapshotFileName(h1, m1) == SnapshotFileName(h2, m2)
    ensures h1 == h2 && m1 == m2
  {
  }

  const DetailsDir := "exports/details/"

  // ---------------------------------------------------------------------------
  // The run

  /** The pages visited: the test race alone in test mode, otherwise each
      race of the race list by its URL, in list order. */
  function RaceUrls(testMode: bool, raceList: seq<RaceList.FlatRace>): (urls: seq<string>)
    ensures testMode ==> urls == [TestUrl]
    ensures !testMode ==> |urls| == |raceList| && forall i :: 0 <= i < |urls| ==> urls[i] == raceList[i].raceUrl
  {
    if testMode then [TestUrl] else seq(|raceList|, i requires 0 <= i < |raceList| => raceList[i].raceUrl)
  }

  /** Everything collected: each visited page's records, in visit order. */
  function AllRaceDetails(urls: seq<string>, site: string -> RacePage): seq<RaceRunner>
  {
    FlatMap(urls, (u: string) => PageRunners(site(u)))
  }

  /** The sequential loop: visit each page in turn and append its records. */
  method ScrapeAll(urls: seq<string>, site: string -> RacePage) returns (all: seq<RaceRunner>)
    ensures all == AllRaceDetails(urls, site)
  {
    all := [];
    var k := 0;
    while k < |urls|
      invariant 0 <= k <= |urls|
      invariant all == AllRaceDetails(urls[..k], site)
    {
      assert urls[..k + 1][..k] == urls[..k];
      var raceDetails := ScrapeRaceDetails(site(urls[k]));
      all := all + raceDetails;
      k := k + 1;
    }
    assert urls[..k] == urls;
  }

  /** `runRaceDetailsScraper`: the race list (an input here) or the test
      race, every page in turn, then the snapshot named after the hour and
      minute of saving, written even when nothing was collected. */
  method RunRaceDetailsScraper(testMode: bool, raceList: seq<RaceList.FlatRace>, site: string -> RacePage,
                               hour: nat, minute: nat)
    returns (written: Written<RaceRunner>)
    requires hour < 24 && minute < 60
    ensures written.path == DetailsDir + SnapshotFileName(hour, minute)
    ensures written.records == AllRaceDetails(RaceUrls(testMode, raceList), site)
  {
    var allRaceDetails := ScrapeAll(RaceUrls(testMode, raceList), site);
    written := Written(DetailsDir + SnapshotFileName(hour, minute), allRaceDetails);
  }

  // ---------------------------------------------------------------------------
  // Properties of a run

  /** Failure isolation: race `j`'s records sit between those of the races
      before and after it and depend on its own page only; a page that
      throws contributes nothing and removes nothing else. */
  lemma RaceIsolation(urls: seq<string>, site: string -> RacePage, j: nat)
    requires j < |urls|
    ensures AllRaceDetails(urls, site) ==
      AllRaceDetails(urls[..j], site) + PageRunners(site(urls[j])) + AllRaceDetails(urls[j + 1..], site)
  {
    FlatMapAt(urls, (u: string) => PageRunners(site(u)), j);
  }

  /** In test mode only the test race is visited, whatever the race list holds. */
  lemma TestModeOnlyTestRace(raceList: seq<RaceList.FlatRace>, site: string -> RacePage)
    ensures AllRaceDetails(RaceUrls(true, raceList), site) == PageRunners(site(TestUrl))
  {
    var urls := [TestUrl];
    assert urls[..|urls| - 1] == [];
    assert FlatMap(urls, (u: string) => PageRunners(site(u))) == [] + PageRunners(site(TestUrl));
  }

  /** When every page throws, the snapshot is still written, with no records. */
  lemma {:induction false} AllFailingWritesEmpty(urls: seq<string>, site: string -> RacePage)
    requires forall u :: u in urls ==> site(u).RaceUnavailable?
    ensures AllRaceDetails(urls, site) == []
  {
    if urls != [] {
      AllFailingWritesEmpty(urls[..|urls| - 1], site);
    }
  }

  /** The records collected number the grid rows of all loaded pages together. */
  function LoadedRows(urls: seq<string>, site: string -> RacePage): nat
  {
    if urls == [] then 0
    else
      var page := site(urls[|urls| - 1]);
      LoadedRows(urls[..|urls| - 1], site) + (if page.RaceLoaded? then |page.grid| else 0)
  }

  lemma {:induction false} AllRaceDetailsLength(urls: seq<string>, site: string -> RacePage)
    ensures |AllRaceDetails(urls, site)| == LoadedRows(urls, site)
  {
    if urls != [] {
      AllRaceDetailsLength(urls[..|urls| - 1], site);
    }
  }

  /** The snapshot folder is never the dated folder `exports/<YYYY-MM-DD>/`
      that the race-list and results files go to. */
  lemma SnapshotDirIsNotADateDir(date: string)
    requires RaceList.IsoDateShape(date)
    ensures DetailsDir != "exports/" + date + "/"
  {
  }
}
