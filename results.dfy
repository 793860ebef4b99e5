/** The results scraper (src/greyhoundResultsScraper.js). The results index
    is given as its meeting sections; each track's results page as the tables
    its race tabs show and the point, if any, where the visit throws. The run
    picks the section headed with today's heading, collects a link per meeting
    row that has both a title and an anchor, reads every race tab of every
    track (a failing track is logged and skipped, keeping what it already
    gave), and writes the rows to that day's results file when there are any. */
module Results {
  import opened Common
  import opened Seqs

  // ---------------------------------------------------------------------------
  // The index page: sections and links

  /** A `.meeting-row`: the text of its title element and the `href` of its
      first link, each absent when the element is. */
  datatype MeetingRow = MeetingRow(title: Option<string>, anchor: Option<string>)

  /** A `.meeting-list` section: the text of its `h2` title, if it has one, and its rows. */
  datatype Section = Section(heading: Option<string>, rows: seq<MeetingRow>)

  datatype ResultLink = ResultLink(track: string, url: string)

  /** The section's trimmed heading is exactly `heading`. */
  predicate HeadingMatches(section: Section, heading: string)
  {
    section.heading.Some? && Trim(section.heading.value) == heading
  }

  /** The first section whose heading matches, as `sections.find` picks it. */
  function FindSection(sections: seq<Section>, heading: string): (r: Option<nat>)
    ensures r.Some? ==> r.value < |sections| && HeadingMatches(sections[r.value], heading)
    ensures r.Some? ==> forall j :: 0 <= j < r.value ==> !HeadingMatches(sections[j], heading)
    ensures r.None? <==> forall j :: 0 <= j < |sections| ==> !HeadingMatches(sections[j], heading)
  {
    FirstIndex(sections, s => HeadingMatches(s, heading))
  }

  /** The link a meeting row yields: only when its trimmed title is non-empty
      and it has an anchor. */
  function RowLink(row: MeetingRow): (r: Option<ResultLink>)
    ensures r.Some? <==> row.title.Some? && Trim(row.title.value) != "" && row.anchor.Some?
    ensures r.Some? ==> r.value.track == Trim(row.title.value) && r.value.url == row.anchor.value
  {
    if row.title.Some? && Trim(row.title.value) != "" && row.anchor.Some? then
      Some(ResultLink(Trim(row.title.value), row.anchor.value))
    else
      None
  }

  /** The links of a section's rows, in row order. */
  function MeetingLinks(rows: seq<MeetingRow>): (links: seq<ResultLink>)
    ensures |links| <= |rows|
  {
    FilterMap(rows, RowLink)
  }

  /** A link is collected exactly when some row of the section gives it, and
      the links keep row order: those of earlier rows come first. */
  lemma MeetingLinksExact(rows: seq<MeetingRow>)
    ensures forall l :: l in MeetingLinks(rows) ==> l.track != "" && exists row :: row in rows && RowLink(row) == Some(l)
    ensures forall row :: row in rows && RowLink(row).Some? ==> RowLink(row).value in MeetingLinks(rows)
    ensures forall j :: 0 <= j <= |rows| ==> MeetingLinks(rows) == MeetingLinks(rows[..j]) + MeetingLinks(rows[j..])
  {
    FilterMapMembers(rows, RowLink);
    forall j | 0 <= j <= |rows| ensures MeetingLinks(rows) == MeetingLinks(rows[..j]) + MeetingLinks(rows[j..]) {
      assert rows[..j] + rows[j..] == rows;
      FilterMapAppend(rows[..j], rows[j..], RowLink);
    }
  }

  /** The loop over the rows of the matching section, pushing each link. */
  method CollectLinks(rows: seq<MeetingRow>) returns (links: seq<ResultLink>)
    ensures links == MeetingLinks(rows)
  {
    links := [];
    var k := 0;
    while k < |rows|
      invariant 0 <= k <= |rows|
      invariant links == MeetingLinks(rows[..k])
    {
      assert rows[..k + 1][..k] == rows[..k];
      var link := RowLink(rows[k]);
      if link.Some? {
        links := links + [link.value];
      }
      k := k + 1;
    }
    assert rows[..k] == rows;
  }

  /** The links under today's heading; none when no section matches. */
  function ResultLinks(sections: seq<Section>, heading: string): seq<ResultLink>
  {
    match FindSection(sections, heading)
    case None => []
    case Some(i) => MeetingLinks(sections[i].rows)
  }

  // ---------------------------------------------------------------------------
  // Result rows

  datatype ResultRecord = ResultRecord(
    track: string, race: string,
    place: string, rug: string, name: string, trainer: string, time: string, margin: string,
    split: string, inRun: string, weight: string, sire: string, dam: string, sp: string)

  /** The twelve fields taken from table cells, in column order. */
  function CellFields(r: ResultRecord): seq<string>
  {
    [r.place, r.rug, r.name, r.trainer, r.time, r.margin, r.split, r.inRun, r.weight, r.sire, r.dam, r.sp]
  }

  /** The label of the race on tab `i`, counted from one. */
  function RaceLabel(i: nat): string
  {
    "Race " + NatToString(i + 1)
  }

  /** Race labels of different tabs differ. */
  lemma RaceLabelInjective(i: nat, j: nat)
    requires RaceLabel(i) == RaceLabel(j)
    ensures i == j
  {
    SamePrefixSameRest("Race ", NatToString(i + 1), NatToString(j + 1));
    NatToStringInjective(i + 1, j + 1);
  }

  /** The record whose cell fields are `f`, in column order. */
  function FromFields(track: string, race: string, f: seq<string>): (r: ResultRecord)
    requires |f| == 12
    ensures CellFields(r) == f && r.track == track && r.race == race
  {
    assert f == [f[0], f[1], f[2], f[3], f[4], f[5], f[6], f[7], f[8], f[9], f[10], f[11]];
    ResultRecord(track, race, f[0], f[1], f[2], f[3], f[4], f[5], f[6], f[7], f[8], f[9], f[10], f[11])
  }

  /** The first twelve cell texts, trimmed. */
  function TrimmedCells(cells: seq<string>): (f: seq<string>)
    requires |cells| >= 12
    ensures |f| == 12 && forall k :: 0 <= k < 12 ==> f[k] == Trim(cells[k])
  {
    seq(12, k requires 0 <= k < 12 => Trim(cells[k]))
  }

  /** A table row's record: only rows with at least twelve cells give one,
      their first twelve cells trimmed into the fields in column order. */
  function RowRecord(track: string, race: string, cells: seq<string>): (r: Option<ResultRecord>)
    ensures r.Some? <==> |cells| >= 12
    ensures r.Some? ==> r.value.track == track && r.value.race == race
    ensures r.Some? ==> CellFields(r.value) == TrimmedCells(cells)
  {
    if |cells| >= 12 then Some(FromFields(track, race, TrimmedCells(cells))) else None
  }

  /** The rows of the results table (each a sequence of cell texts). */
  type Table = seq<seq<string>>

  predicate IsLongRow(cells: seq<string>)
  {
    |cells| >= 12
  }

  /** The rows with at least twelve cells, in table order. */
  function LongRows(table: Table): (long: Table)
    ensures |long| <= |table|
    ensures forall row :: row in long ==> row in table && |row| >= 12
    ensures forall row :: row in table && |row| >= 12 ==> row in long
  {
    FilterComplete(table, IsLongRow);
    Filter(table, IsLongRow)
  }

  /** The records read from tab `i`'s table: `map` to a record or null, then
      `filter(Boolean)`. */
  function TabRows(track: string, i: nat, table: Table): seq<ResultRecord>
  {
    FilterMap(table, (cells: seq<string>) => RowRecord(track, RaceLabel(i), cells))
  }

  /** Tab `i` gives one record per row with at least twelve cells, in table
      order, each tagged with the track and `Race i+1`. */
  lemma TabRowsAreLongRows(track: string, i: nat, table: Table)
    ensures |TabRows(track, i, table)| == |LongRows(table)|
    ensures forall k :: 0 <= k < |LongRows(table)| ==>
      Some(TabRows(track, i, table)[k]) == RowRecord(track, RaceLabel(i), LongRows(table)[k])
  {
    FilterMapOfFilter(table, (cells: seq<string>) => RowRecord(track, RaceLabel(i), cells), IsLongRow);
  }

  /** Every record of tab `i` carries the track and `Race i+1`. */
  lemma TabRowsTagged(track: string, i: nat, table: Table)
    ensures forall r :: r in TabRows(track, i, table) ==> r.track == track && r.race == RaceLabel(i)
  {
    FilterMapMembers(table, (cells: seq<string>) => RowRecord(track, RaceLabel(i), cells));
  }

  // ---------------------------------------------------------------------------
  // Track pages

  /** A track's results page as the visit meets it: navigation or the first
      table wait throws, or the page loads with one table per race tab; then
      `clickFails`, if it names a tab other than the first, is where clicking
      that tab or waiting for its table throws. */
  datatype TrackVisit =
    | Unreachable
    | Loaded(tables: seq<Table>, clickFails: Option<nat>)

  /** The visit ends in an exception (caught, logged and dumped). */
  predicate VisitFails(v: TrackVisit)
  {
    v.Unreachable? || (v.clickFails.Some? && 1 <= v.clickFails.value < |v.tables|)
  }

  /** How many tabs are read before the visit ends. */
  function TabsRead(v: TrackVisit): (n: nat)
    ensures v.Loaded? ==> n <= |v.tables|
    ensures v.Loaded? && !VisitFails(v) ==> n == |v.tables|
    ensures v.Loaded? && VisitFails(v) ==> n == v.clickFails.value
  {
    match v
    case Unreachable => 0
    case Loaded(tables, clickFails) =>
      if clickFails.Some? && 1 <= clickFails.value < |tables| then clickFails.value else |tables|
  }

  /** The records of the first `n` tabs, tab after tab. */
  function TracksTabRows(track: string, tables: seq<Table>, n: nat): seq<ResultRecord>
    requires n <= |tables|
  {
    if n == 0 then [] else TracksTabRows(track, tables, n - 1) + TabRows(track, n - 1, tables[n - 1])
  }

  /** What one track contributes: the records of every tab read, including
      those read before a failure. */
  function TrackRows(link: ResultLink, v: TrackVisit): seq<ResultRecord>
  {
    match v
    case Unreachable => []
    case Loaded(tables, _) => TracksTabRows(link.track, tables, TabsRead(v))
  }

  /** Every record of a track carries that track's name and the label of a tab that was read. */
  lemma {:induction false} TracksTabRowsLabels(track: string, tables: seq<Table>, n: nat)
    requires n <= |tables|
    ensures forall r :: r in TracksTabRows(track, tables, n) ==>
      r.track == track && exists i :: 0 <= i < n && r.race == RaceLabel(i)
  {
    if n > 0 {
      var init := TracksTabRows(track, tables, n - 1);
      var last := TabRows(track, n - 1, tables[n - 1]);
      assert TracksTabRows(track, tables, n) == init + last;
      TracksTabRowsLabels(track, tables, n - 1);
      TabRowsTagged(track, n - 1, tables[n - 1]);
      forall r: ResultRecord | r in init + last
        ensures r.track == track && exists i :: 0 <= i < n && r.race == RaceLabel(i)
      {
        if r in last {
          assert r.track == track && r.race == RaceLabel(n - 1);
        } else {
          assert r in init;
        }
      }
    }
  }

  // ---------------------------------------------------------------------------
  // The whole run

  /** The records of all tracks, in link order. */
  function AllRows(links: seq<ResultLink>, visit: string -> TrackVisit): seq<ResultRecord>
  {
    FlatMap(links, (l: ResultLink) => TrackRows(l, visit(l.url)))
  }

  /** The name a link's track is noted under when its visit fails. */
  function FailureNote(visit: string -> TrackVisit, link: ResultLink): Option<string>
  {
    if VisitFails(visit(link.url)) then Some(link.track) else None
  }

  /** The tracks whose visit failed, in link order. */
  function FailedTracks(links: seq<ResultLink>, visit: string -> TrackVisit): (failed: seq<string>)
    ensures |failed| <= |links|
  {
    FilterMap(links, (l: ResultLink) => FailureNote(visit, l))
  }

  /** A track is noted as failed iff the visit of one of its links fails; one
      link is noted alone or not at all, and the notes keep link order. */
  lemma FailedTracksExact(links: seq<ResultLink>, visit: string -> TrackVisit)
    ensures forall name :: name in FailedTracks(links, visit) <==>
      exists k :: 0 <= k < |links| && links[k].track == name && VisitFails(visit(links[k].url))
    ensures forall j :: 0 <= j <= |links| ==>
      FailedTracks(links, visit) == FailedTracks(links[..j], visit) + FailedTracks(links[j..], visit)
    ensures forall link :: FailedTracks([link], visit) == if VisitFails(visit(link.url)) then [link.track] else []
  {
    var note := (l: ResultLink) => FailureNote(visit, l);
    FilterMapMembers(links, note);
    forall name | name in FailedTracks(links, visit)
      ensures exists k :: 0 <= k < |links| && links[k].track == name && VisitFails(visit(links[k].url))
    {
      var link :| link in links && note(link) == Some(name);
      var k :| 0 <= k < |links| && links[k] == link;
    }
    forall k | 0 <= k < |links| && VisitFails(visit(links[k].url)) ensures links[k].track in FailedTracks(links, visit) {
      assert note(links[k]) == Some(links[k].track);
    }
    forall j | 0 <= j <= |links|
      ensures FailedTracks(links, visit) == FailedTracks(links[..j], visit) + FailedTracks(links[j..], visit)
    {
      assert links[..j] + links[j..] == links;
      FilterMapAppend(links[..j], links[j..], note);
    }
    forall link ensures FailedTracks([link], visit) == if VisitFails(visit(link.url)) then [link.track] else [] {
      assert [link][..0] == [];
    }
  }

  /** Failure isolation: each track's contribution sits between those of the
      tracks before and after it and depends on its own visit only, so a
      failing track removes nothing that other tracks give. */
  lemma TrackIsolation(links: seq<ResultLink>, visit: string -> TrackVisit, j: nat)
    requires j < |links|
    ensures AllRows(links, visit) ==
      AllRows(links[..j], visit) + TrackRows(links[j], visit(links[j].url)) + AllRows(links[j + 1..], visit)
  {
    FlatMapAt(links, (l: ResultLink) => TrackRows(l, visit(l.url)), j);
  }

  /** The results index: it never loaded, or the meeting sections it lists. */
  datatype ResultsPage = IndexUnavailable | Index(sections: seq<Section>)

  datatype ResultsRun = ResultsRun(records: seq<ResultRecord>, failedTracks: seq<string>, saved: Option<Written<ResultRecord>>)

  function ResultsPath(resultsDate: string): string
  {
    "exports/" + resultsDate + "/results.csv"
  }

  /** What `scrapeResults` does for an index page, a date and a heading. */
  function ResultsOutcome(index: ResultsPage, resultsDate: string, heading: string, visit: string -> TrackVisit): ResultsRun
  {
    match index
    case IndexUnavailable => ResultsRun([], [], None)
    case Index(sections) =>
      var links := ResultLinks(sections, heading);
      if links == [] then ResultsRun([], [], None)
      else
        var rows := AllRows(links, visit);
        ResultsRun(rows, FailedTracks(links, visit),
          if rows == [] then None else Some(Written(ResultsPath(resultsDate), rows)))
  }

  /** One track: visits it, then reads tab 0 as loaded and each later tab
      after clicking it, until the tabs run out or a click or wait throws. */
  method ScrapeTrack(link: ResultLink, v: TrackVisit) returns (rows: seq<ResultRecord>, failed: bool)
    ensures rows == TrackRows(link, v)
    ensures failed == VisitFails(v)
  {
    rows := [];
    if v.Unreachable? {
      return rows, true;
    }
    var tables := v.tables;
    var i := 0;
    while i < |tables|
      invariant 0 <= i <= |tables| && i <= TabsRead(v)
      invariant rows == TracksTabRows(link.track, tables, i)
    {
      if i != 0 && v.clickFails == Some(i) {
        return rows, true;
      }
      rows := rows + TabRows(link.track, i, tables[i]);
      i := i + 1;
    }
    failed := false;
  }

  /** The loop over the links: each track in turn, its rows appended and,
      when its visit failed, its name noted. */
  method ScrapeTracks(links: seq<ResultLink>, visit: string -> TrackVisit)
    returns (allResults: seq<ResultRecord>, failedTracks: seq<string>)
    ensures allResults == AllRows(links, visit)
    ensures failedTracks == FailedTracks(links, visit)
  {
    allResults, failedTracks := [], [];
    var j := 0;
    while j < |links|
      invariant 0 <= j <= |links|
      invariant allResults == AllRows(links[..j], visit)
      invariant failedTracks == FailedTracks(links[..j], visit)
    {
      var link := links[j];
      var rows, failed := ScrapeTrack(link, visit(link.url));
      FlatMapSnoc(links, (l: ResultLink) => TrackRows(l, visit(l.url)), j);
      FilterMapSnoc(links, (l: ResultLink) => FailureNote(visit, l), j);
      allResults := allResults + rows;
      if failed {
        failedTracks := failedTracks + [link.track];
      }
      j := j + 1;
    }
    assert links[..j] == links;
  }

  /** `scrapeResults`: finds the links under today's heading, returns early
      when there are none, then scrapes the tracks in order, keeping what each
      gives even when it fails, and writes the results file only when rows
      were collected. */
  method ScrapeResults(index: ResultsPage, resultsDate: string, heading: string, visit: string -> TrackVisit)
    returns (run: ResultsRun)
    ensures run == ResultsOutcome(index, resultsDate, heading, visit)
  {
    if index.IndexUnavailable? {
      return ResultsRun([], [], None);
    }
    var resultLinks: seq<ResultLink> := [];
    var found := FindSection(index.sections, heading);
    if found.Some? {
      resultLinks := CollectLinks(index.sections[found.value].rows);
    }
    if |resultLinks| == 0 {
      return ResultsRun([], [], None);
    }
    var allResults, failedTracks := ScrapeTracks(resultLinks, visit);
    if |allResults| > 0 {
      run := ResultsRun(allResults, failedTracks, Some(Written(ResultsPath(resultsDate), allResults)));
    } else {
      run := ResultsRun(allResults, failedTracks, None);
    }
  }

  // ---------------------------------------------------------------------------
  // Properties of a run

  /** The results file is written exactly when some row was collected, under
      the results date, holding exactly the collected rows. */
  lemma ResultsSavedIffRows(index: ResultsPage, resultsDate: string, heading: string, visit: string -> TrackVisit)
    ensures var run := ResultsOutcome(index, resultsDate, heading, visit);
      && (run.saved.Some? <==> run.records != [])
      && (run.saved.Some? ==> run.saved.value == Written(ResultsPath(resultsDate), run.records))
  {
  }

  /** When no section carries today's heading the run yields nothing and
      writes nothing, whatever the track pages hold. */
  lemma NoHeadingNoResults(sections: seq<Section>, resultsDate: string, heading: string, visit: string -> TrackVisit)
    requires forall j :: 0 <= j < |sections| ==> !HeadingMatches(sections[j], heading)
    ensures ResultsOutcome(Index(sections), resultsDate, heading, visit) == ResultsRun([], [], None)
  {
  }

  /** A track whose tab `k` fails after tabs `0..k-1` were read still
      contributes the rows of those tabs, and is reported as failed. */
  lemma FailedTrackKeepsEarlierTabs(link: ResultLink, tables: seq<Table>, k: nat)
    requires 1 <= k < |tables|
    ensures TrackRows(link, Loaded(tables, Some(k))) == TracksTabRows(link.track, tables, k)
    ensures VisitFails(Loaded(tables, Some(k)))
  {
  }
}
