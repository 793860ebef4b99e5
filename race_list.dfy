/** The race-list scraper (src/greyhoundRaceListScraper.js). The listing page is
    given as data: a sequence of date tabs, each either missing when looked up
    again, failing (a selector wait that times out) or loaded with its track
    names and, per track row, the race links it holds. The run keeps the first
    tab whose date, read from the first race URL, is today's, flattens its
    tracks and races into rows and writes them to that day's race-list file. */
module RaceList {
  import opened Common
  import opened Seqs

  const BaseUrl := "https://www.odds.com.au"

  // ---------------------------------------------------------------------------
  // Dates

  /** A `-`, eight digits and a `/` start at position `i` of `url`
      (a match of `/-(\d{8})\//`). */
  predicate DateTokenAt(url: string, i: nat)
  {
    i + 10 <= |url| && url[i] == '-' && AllDigits(url[i + 1..i + 9]) && url[i + 9] == '/'
  }

  /** `YYYY-MM-DD`: ten characters, digits around two dashes. */
  predicate IsoDateShape(s: string)
  {
    && |s| == 10 && s[4] == '-' && s[7] == '-'
    && AllDigits(s[..4]) && AllDigits(s[5..7]) && AllDigits(s[8..])
  }

  /** The leftmost date token at or after `from`, as the regular expression finds it. */
  function FindDateToken(url: string, from: nat): (r: Option<nat>)
    ensures r.Some? ==> from <= r.value && DateTokenAt(url, r.value)
    ensures r.Some? ==> forall j :: from <= j < r.value ==> !DateTokenAt(url, j)
    ensures r.None? ==> forall j :: from <= j ==> !DateTokenAt(url, j)
    decreases |url| - from
  {
    if from + 10 > |url| then None
    else if DateTokenAt(url, from) then Some(from)
    else FindDateToken(url, from + 1)
  }

  /** `extractDateFromURL`: the eight digits of the first date token rendered
      as `YYYY-MM-DD`, or `Unknown` when the URL holds no such token. */
  function ExtractDateFromUrl(url: string): (date: string)
    ensures date == "Unknown" <==> forall j: nat :: !DateTokenAt(url, j)
    ensures date != "Unknown" ==> IsoDateShape(date)
    ensures FindDateToken(url, 0).Some? ==>
      var i := FindDateToken(url, 0).value;
      date == url[i + 1..i + 5] + "-" + url[i + 5..i + 7] + "-" + url[i + 7..i + 9]
  {
    match FindDateToken(url, 0)
    case None => "Unknown"
    case Some(i) =>
      var raw := url[i + 1..i + 9];
      TokenFields(url, i);
      FormatDate(raw)
  }

  /** The digits `yyyymmdd` as `yyyy-mm-dd`. */
  function FormatDate(raw: string): (date: string)
    requires |raw| == 8 && AllDigits(raw)
    ensures IsoDateShape(date) && date != "Unknown"
    ensures date == raw[0..4] + "-" + raw[4..6] + "-" + raw[6..8]
  {
    var date := raw[0..4] + "-" + raw[4..6] + "-" + raw[6..8];
    assert date[..4] == raw[0..4] && date[5..7] == raw[4..6] && date[8..] == raw[6..8];
    assert date[4] == '-';
    date
  }

  /** The year, month and day digits of a token, read inside or outside it. */
  lemma TokenFields(url: string, i: nat)
    requires i + 9 <= |url|
    ensures url[i + 1..i + 9][0..4] == url[i + 1..i + 5]
    ensures url[i + 1..i + 9][4..6] == url[i + 5..i + 7]
    ensures url[i + 1..i + 9][6..8] == url[i + 7..i + 9]
  {
    var raw := url[i + 1..i + 9];
    assert forall k :: 0 <= k < 8 ==> raw[k] == url[i + 1 + k];
    assert |raw[0..4]| == 4 && forall k :: 0 <= k < 4 ==> raw[0..4][k] == url[i + 1..i + 5][k];
    assert |raw[4..6]| == 2 && forall k :: 0 <= k < 2 ==> raw[4..6][k] == url[i + 5..i + 7][k];
    assert |raw[6..8]| == 2 && forall k :: 0 <= k < 2 ==> raw[6..8][k] == url[i + 7..i + 9][k];
  }

  /** The calendar fields `new Date()` reports in local time: the full year,
      `getMonth()` (counted from 0) and `getDate()`. */
  datatype LocalDate = LocalDate(year: int, month: nat, day: nat)
  {
    predicate Valid() { month < 12 && 1 <= day <= 31 }
  }

  /** `getTodayDateString`: the year, then month + 1 and day padded to two digits. */
  function TodayDateString(now: LocalDate): (s: string)
    requires now.Valid()
    ensures |s| == |IntToString(now.year)| + 6 && s[|IntToString(now.year)|] == '-'
    ensures 1000 <= now.year < 10000 ==>
      && IsoDateShape(s)
      && DecimalValue(s[..4]) == now.year
      && DecimalValue(s[5..7]) == now.month + 1
      && DecimalValue(s[8..]) == now.day
  {
    var y := IntToString(now.year);
    var s := y + "-" + Pad2(now.month + 1) + "-" + Pad2(now.day);
    Pad2Digits(now.month + 1);
    Pad2Digits(now.day);
    FourDigitYear(now.year);
    assert 1000 <= now.year < 10000 ==>
      s[..4] == y && s[5..7] == Pad2(now.month + 1) && s[8..] == Pad2(now.day);
    s
  }

  /** A year from 1000 to 9999 renders as four digits that read back as the year. */
  lemma FourDigitYear(year: int)
    ensures 1000 <= year < 10000 ==>
      |IntToString(year)| == 4 && AllDigits(IntToString(year)) && DecimalValue(IntToString(year)) == year
  {
    if 1000 <= year < 10000 {
      NatToStringLength(year);
      NatToStringValue(year);
    }
  }

  /** `Unknown` is never today's date, so a tab whose URL carries no date
      token is always skipped. */
  lemma UnknownIsNeverToday(now: LocalDate)
    requires now.Valid()
    ensures TodayDateString(now) != "Unknown"
  {
    var s := TodayDateString(now);
    var n := |IntToString(now.year)|;
    assert s[n] == '-';
    assert forall k :: 0 <= k < |"Unknown"| ==> "Unknown"[k] != '-';
  }

  /** The token `-yyyymmdd/` a race URL carries for the day `now`. */
  function DayToken(now: LocalDate): string
  {
    "-" + IntToString(now.year) + Pad2(now.month + 1) + Pad2(now.day) + "/"
  }

  /** The date token that a race URL carries for a day reads back as that
      day's date string, whatever path comes before and after it, as long as
      no earlier token starts in the part before it: `extractDateFromURL` and
      `getTodayDateString` agree. */
  lemma {:induction false} UrlDateMatchesToday(now: LocalDate, prefix: string, rest: string)
    requires now.Valid() && 1000 <= now.year < 10000
    requires forall j :: 0 <= j < |prefix| ==> !DateTokenAt(prefix + DayToken(now) + rest, j)
    ensures ExtractDateFromUrl(prefix + DayToken(now) + rest) == TodayDateString(now)
  {
    var raw := DayDigits(now);
    DayTokenShape(now);
    DayDigitsFormat(now);
    var url := prefix + DayToken(now) + rest;
    assert url == prefix + ("-" + raw + "/" + rest);
    TokenAfter(prefix, raw, rest);
    ExtractOfToken(url, |prefix|);
  }

  /** The eight digits of the day's token. */
  function DayDigits(now: LocalDate): string
  {
    IntToString(now.year) + Pad2(now.month + 1) + Pad2(now.day)
  }

  /** The day's token is a dash, the day's digits and a slash. */
  lemma DayTokenShape(now: LocalDate)
    ensures DayToken(now) == "-" + DayDigits(now) + "/"
  {
  }

  /** For a four-digit year the day's digits are eight digits that format as
      the day's date string. */
  lemma DayDigitsFormat(now: LocalDate)
    requires now.Valid() && 1000 <= now.year < 10000
    ensures |DayDigits(now)| == 8 && AllDigits(DayDigits(now))
    ensures FormatDate(DayDigits(now)) == TodayDateString(now)
  {
    var y, m, d := IntToString(now.year), Pad2(now.month + 1), Pad2(now.day);
    assert |y| == 4 && AllDigits(y) by { NatToStringLength(now.year); }
    assert |m| == 2 && AllDigits(m) by { Pad2Digits(now.month + 1); }
    assert |d| == 2 && AllDigits(d) by { Pad2Digits(now.day); }
    DigitsFormat(y, m, d);
  }

  /** Four, two and two digits side by side format as the three fields
      joined by dashes. */
  lemma DigitsFormat(y: string, m: string, d: string)
    requires |y| == 4 && |m| == 2 && |d| == 2 && AllDigits(y) && AllDigits(m) && AllDigits(d)
    ensures |y + m + d| == 8 && AllDigits(y + m + d)
    ensures FormatDate(y + m + d) == y + "-" + m + "-" + d
  {
    DigitsParts(y, m, d);
  }

  /** A token written right after `prefix` starts at position `|prefix|`. */
  lemma TokenAfter(prefix: string, raw: string, rest: string)
    requires |raw| == 8 && AllDigits(raw)
    ensures var url := prefix + ("-" + raw + "/" + rest);
      DateTokenAt(url, |prefix|) && url[|prefix| + 1..|prefix| + 9] == raw
  {
    var tail := "-" + raw + "/" + rest;
    var url := prefix + tail;
    var i := |prefix|;
    DateUrlParts(raw, rest);
    assert url[i..] == tail;
    assert url[i + 1..i + 9] == tail[1..9];
  }

  /** Four, two and two digits side by side: eight digits, read back by position. */
  lemma DigitsParts(y: string, m: string, d: string)
    requires |y| == 4 && |m| == 2 && |d| == 2 && AllDigits(y) && AllDigits(m) && AllDigits(d)
    ensures AllDigits(y + m + d)
    ensures (y + m + d)[0..4] == y && (y + m + d)[4..6] == m && (y + m + d)[6..8] == d
  {
    var raw := y + m + d;
    assert forall k :: 0 <= k < 8 ==> raw[k] == (if k < 4 then y[k] else if k < 6 then m[k - 4] else d[k - 6]);
  }

  /** The search from `from` finds the token at `i` when none starts in between. */
  lemma {:induction false} FindFrom(url: string, from: nat, i: nat)
    requires from <= i && DateTokenAt(url, i)
    requires forall j :: from <= j < i ==> !DateTokenAt(url, j)
    ensures FindDateToken(url, from) == Some(i)
    decreases i - from
  {
    if from < i {
      FindFrom(url, from + 1, i);
    }
  }

  /** A URL whose first date token starts at `i` yields that token's date. */
  lemma ExtractOfToken(url: string, i: nat)
    requires DateTokenAt(url, i)
    requires forall j :: 0 <= j < i ==> !DateTokenAt(url, j)
    ensures ExtractDateFromUrl(url) == FormatDate(url[i + 1..i + 9])
  {
    FindFrom(url, 0, i);
    TokenFields(url, i);
  }

  /** A URL that starts with a dash, eight characters and a slash. */
  lemma DateUrlParts(raw: string, rest: string)
    requires |raw| == 8
    ensures ("-" + raw + "/" + rest)[1..9] == raw && ("-" + raw + "/" + rest)[0] == '-'
    ensures ("-" + raw + "/" + rest)[9] == '/' && |"-" + raw + "/" + rest| >= 10
  {
    var url := "-" + raw + "/" + rest;
    assert forall k :: 0 <= k < 8 ==> url[1..9][k] == raw[k];
  }

  // ---------------------------------------------------------------------------
  // One tab: track names and race links

  /** A race anchor: its `href` attribute and its `innerText`. */
  datatype Link = Link(href: string, text: string)

  datatype Race = Race(raceNumber: string, startTime: string, raceUrl: string)

  datatype TrackRaces = TrackRaces(track: string, races: seq<Race>)

  /** `/^R\d+$/i`: an `R` or `r` followed by one or more digits. */
  predicate IsRaceNumberToken(t: string)
  {
    |t| >= 2 && (t[0] == 'R' || t[0] == 'r') && AllDigits(t[1..])
  }

  /** `/^\d{1,2}:\d{2}$/`: one or two digits, a colon, two digits. */
  predicate IsStartTimeToken(t: string)
  {
    || (|t| == 4 && IsDigit(t[0]) && t[1] == ':' && IsDigit(t[2]) && IsDigit(t[3]))
    || (|t| == 5 && IsDigit(t[0]) && IsDigit(t[1]) && t[2] == ':' && IsDigit(t[3]) && IsDigit(t[4]))
  }

  /** The parts of the trimmed link text, split at every white-space character. */
  function LinkTokens(link: Link): seq<string>
  {
    SplitWhitespace(Trim(link.text))
  }

  /** The first part satisfying `p` is `t`. */
  ghost predicate FirstTokenIs(parts: seq<string>, p: string -> bool, t: string)
  {
    exists k :: 0 <= k < |parts| && parts[k] == t && p(t) && forall j :: 0 <= j < k ==> !p(parts[j])
  }

  /** Some part satisfies `p`. */
  ghost predicate HasToken(parts: seq<string>, p: string -> bool)
  {
    exists k :: 0 <= k < |parts| && p(parts[k])
  }

  /** The race described by the parts of a link's text: present exactly when
      they include a race number token and a start time token, built from the
      first of each and the link's address. */
  function RaceFromTokens(parts: seq<string>, href: string): (r: Option<Race>)
    requires forall k :: 0 <= k < |parts| ==> NoWhitespace(parts[k])
    ensures r.Some? <==> HasToken(parts, IsRaceNumberToken) && HasToken(parts, IsStartTimeToken)
    ensures r.Some? ==>
      && FirstTokenIs(parts, IsRaceNumberToken, r.value.raceNumber)
      && FirstTokenIs(parts, IsStartTimeToken, r.value.startTime)
      && r.value.raceUrl == BaseUrl + href
  {
    var raceNumber := FirstIndex(parts, IsRaceNumberToken);
    var startTime := FirstIndex(parts, IsStartTimeToken);
    if raceNumber.Some? && startTime.Some? then
      var rn, st := parts[raceNumber.value], parts[startTime.value];
      // `raceNumber.trim()` and `startTime.trim()` are left out: the parts hold
      // no white space, and `Trim` leaves such a string unchanged
      Some(Race(rn, st, BaseUrl + href))
    else
      None
  }

  /** The race a link describes, if its text names one. */
  function ParseLink(link: Link): Option<Race>
  {
    RaceFromTokens(LinkTokens(link), link.href)
  }

  /** The races of one track row: its links that parse, in order. */
  function RowRaces(links: seq<Link>): (races: seq<Race>)
    ensures |races| <= |links|
  {
    FilterMap(links, ParseLink)
  }

  /** A row's races are exactly what its links parse to, in link order: a race
      is listed iff some link parses to it, a single link gives its own race
      or nothing, and the races of earlier links come before those of later ones. */
  lemma RowRacesExact(links: seq<Link>)
    ensures forall race :: race in RowRaces(links) <==> exists k :: 0 <= k < |links| && ParseLink(links[k]) == Some(race)
    ensures forall j :: 0 <= j <= |links| ==> RowRaces(links) == RowRaces(links[..j]) + RowRaces(links[j..])
    ensures forall link :: RowRaces([link]) == if ParseLink(link).Some? then [ParseLink(link).value] else []
  {
    FilterMapMembers(links, ParseLink);
    forall race | race in RowRaces(links) ensures exists k :: 0 <= k < |links| && ParseLink(links[k]) == Some(race) {
      var link :| link in links && ParseLink(link) == Some(race);
      var k :| 0 <= k < |links| && links[k] == link;
    }
    forall j | 0 <= j <= |links| ensures RowRaces(links) == RowRaces(links[..j]) + RowRaces(links[j..]) {
      assert links[..j] + links[j..] == links;
      FilterMapAppend(links[..j], links[j..], ParseLink);
    }
    forall link ensures RowRaces([link]) == if ParseLink(link).Some? then [ParseLink(link).value] else [] {
      assert [link][..0] == [];
    }
  }

  /** The name paired with row `index`: the trimmed text of the name element at
      that position, or the empty string when there is none. */
  function TrackName(trackNames: seq<string>, index: nat): string
  {
    if index < |trackNames| then Trim(trackNames[index]) else ""
  }

  /** What row `index` contributes to the tab: its paired name and races, when
      the name is non-empty and the row has at least one race. */
  function TrackEntry(trackNames: seq<string>, index: nat, row: seq<Link>): Option<TrackRaces>
  {
    var name := TrackName(trackNames, index);
    var races := RowRaces(row);
    if name != "" && |races| > 0 then Some(TrackRaces(name, races)) else None
  }

  /** A row is reported exactly when its name is non-empty and one of its links
      parses, and then with that name and all of the row's races. */
  lemma TrackEntryShape(trackNames: seq<string>, index: nat, row: seq<Link>)
    ensures TrackEntry(trackNames, index, row).Some? <==>
      TrackName(trackNames, index) != "" && exists k :: 0 <= k < |row| && ParseLink(row[k]).Some?
    ensures TrackEntry(trackNames, index, row).Some? ==>
      TrackEntry(trackNames, index, row).value == TrackRaces(TrackName(trackNames, index), RowRaces(row))
  {
    var races := RowRaces(row);
    FilterMapNonEmpty(row, ParseLink);
    assert |races| > 0 <==> exists k :: 0 <= k < |row| && ParseLink(row[k]).Some?;
    if TrackName(trackNames, index) == "" {
      assert TrackEntry(trackNames, index, row) == None;
    } else if |races| > 0 {
      assert TrackEntry(trackNames, index, row) == Some(TrackRaces(TrackName(trackNames, index), races));
    } else {
      assert TrackEntry(trackNames, index, row) == None;
    }
  }

  /** What the tab reports for its rows: one entry per row whose paired name is
      non-empty and which has at least one race, in row order. */
  function TabTracks(trackNames: seq<string>, rows: seq<seq<Link>>): (data: seq<TrackRaces>)
    ensures |data| <= |rows|
    ensures forall t :: t in data ==> t.track != "" && |t.races| > 0
  {
    var entry := (r: nat, row: seq<Link>) => TrackEntry(trackNames, r, row);
    IndexedFilterMapSound(rows, entry);
    IndexedFilterMap(rows, entry)
  }

  /** The tab reports exactly the entries of its rows: an entry is listed iff
      some row gives it. */
  lemma TabTracksExact(trackNames: seq<string>, rows: seq<seq<Link>>)
    ensures forall t :: t in TabTracks(trackNames, rows) <==>
      exists r :: 0 <= r < |rows| && TrackEntry(trackNames, r, rows[r]) == Some(t)
  {
    IndexedFilterMapExact(rows, (r: nat, row: seq<Link>) => TrackEntry(trackNames, r, row));
  }

  /** Row order is kept: the entries of the first `j` rows are a prefix of the
      tab's entries, and every entry after that prefix comes from a row at `j`
      or later. */
  lemma TabTracksOrder(trackNames: seq<string>, rows: seq<seq<Link>>, j: nat)
    requires j <= |rows|
    ensures TabTracks(trackNames, rows[..j]) <= TabTracks(trackNames, rows)
    ensures forall m :: |TabTracks(trackNames, rows[..j])| <= m < |TabTracks(trackNames, rows)| ==>
      exists r :: j <= r < |rows| && TrackEntry(trackNames, r, rows[r]) == Some(TabTracks(trackNames, rows)[m])
  {
    IndexedFilterMapOrder(rows, (r: nat, row: seq<Link>) => TrackEntry(trackNames, r, row), j);
  }

  /** The inner loop of `scrapeTab`: the races of one row's links. */
  method ScrapeRow(row: seq<Link>) returns (races: seq<Race>)
    ensures races == RowRaces(row)
  {
    races := [];
    var k := 0;
    while k < |row|
      invariant 0 <= k <= |row|
      invariant races == RowRaces(row[..k])
    {
      var race := ParseLink(row[k]);
      FilterMapSnoc(row, ParseLink, k);
      if race.Some? {
        races := races + [race.value];
      }
      k := k + 1;
    }
    assert row[..k] == row;
  }

  /** `scrapeTab`: walks the track rows and their links, collecting the races
      and the tracks that have a name and at least one race. */
  method ScrapeTab(trackNames: seq<string>, rows: seq<seq<Link>>) returns (data: seq<TrackRaces>)
    ensures data == TabTracks(trackNames, rows)
  {
    data := [];
    var index := 0;
    while index < |rows|
      invariant 0 <= index <= |rows|
      invariant data == TabTracks(trackNames, rows[..index])
    {
      var races := ScrapeRow(rows[index]);
      assert rows[..index + 1][..index] == rows[..index];
      var trackName := TrackName(trackNames, index);
      if trackName != "" && |races| > 0 {
        data := data + [TrackRaces(trackName, races)];
      }
      index := index + 1;
    }
    assert rows[..index] == rows;
  }

  // ---------------------------------------------------------------------------
  // Flattening

  datatype FlatRace = FlatRace(date: string, track: string, raceNumber: string, startTime: string, raceUrl: string)

  function FlatRow(date: string, track: string, race: Race): FlatRace
  {
    FlatRace(date, track, race.raceNumber, race.startTime, race.raceUrl)
  }

  /** The rows of one track: one per race, in race order. */
  function FlatTrack(date: string, t: TrackRaces): (rows: seq<FlatRace>)
    ensures |rows| == |t.races|
    ensures forall k :: 0 <= k < |rows| ==> rows[k] == FlatRow(date, t.track, t.races[k])
  {
    seq(|t.races|, k requires 0 <= k < |t.races| => FlatRow(date, t.track, t.races[k]))
  }

  /** The tab's tracks times races, flattened: tracks in order, then races. */
  function FlatTab(date: string, data: seq<TrackRaces>): (rows: seq<FlatRace>)
    ensures forall row :: row in rows ==> row.date == date
  {
    if data == [] then [] else FlatTab(date, data[..|data| - 1]) + FlatTrack(date, data[|data| - 1])
  }

  /** The flattened rows are exactly the races of the tab, each with its
      track's name and the tab's date, their other fields unchanged. */
  lemma {:induction false} FlatTabContents(date: string, data: seq<TrackRaces>)
    ensures forall row :: row in FlatTab(date, data) ==>
      exists t :: t in data && row.track == t.track && Race(row.raceNumber, row.startTime, row.raceUrl) in t.races
    ensures forall t, race :: t in data && race in t.races ==> FlatRow(date, t.track, race) in FlatTab(date, data)
  {
    if data != [] {
      var init, last := data[..|data| - 1], data[|data| - 1];
      FlatTabContents(date, init);
      assert forall t :: t in data ==> t in init || t == last;
      assert forall t :: t in init ==> t in data;
      var tail := FlatTrack(date, last);
      forall row | row in tail
        ensures exists t :: t in data && row.track == t.track && Race(row.raceNumber, row.startTime, row.raceUrl) in last.races
      {
        var k :| 0 <= k < |tail| && tail[k] == row;
        assert last.races[k] == Race(row.raceNumber, row.startTime, row.raceUrl);
      }
      forall race | race in last.races ensures FlatRow(date, last.track, race) in tail {
        var k :| 0 <= k < |last.races| && last.races[k] == race;
        assert tail[k] == FlatRow(date, last.track, race);
      }
    }
  }

  /** How many races the tab's tracks hold together. */
  function RaceCount(data: seq<TrackRaces>): nat
  {
    if data == [] then 0 else RaceCount(data[..|data| - 1]) + |data[|data| - 1].races|
  }

  /** There are exactly as many rows as races in the tab's tracks. */
  lemma {:induction false} FlatTabLength(date: string, data: seq<TrackRaces>)
    ensures |FlatTab(date, data)| == RaceCount(data)
  {
    if data != [] {
      FlatTabLength(date, data[..|data| - 1]);
    }
  }

  /** The flattening loop: pushes one row per race of each track in turn. */
  method FlattenTab(date: string, data: seq<TrackRaces>) returns (rows: seq<FlatRace>)
    ensures rows == FlatTab(date, data)
  {
    rows := [];
    var t := 0;
    while t < |data|
      invariant 0 <= t <= |data|
      invariant rows == FlatTab(date, data[..t])
    {
      var track := data[t];
      var k := 0;
      while k < |track.races|
        invariant 0 <= k <= |track.races|
        invariant rows == FlatTab(date, data[..t]) + FlatTrack(date, track)[..k]
      {
        var race := track.races[k];
        rows := rows + [FlatRace(date, track.track, race.raceNumber, race.startTime, race.raceUrl)];
        assert FlatTrack(date, track)[..k + 1] == FlatTrack(date, track)[..k] + [FlatRow(date, track.track, race)];
        k := k + 1;
      }
      assert data[..t + 1][..t] == data[..t];
      assert FlatTrack(date, track)[..k] == FlatTrack(date, track);
      t := t + 1;
    }
    assert data[..t] == data;
  }

  // ---------------------------------------------------------------------------
  // The run over all tabs

  /** A date tab as the loop meets it: gone when the tabs are looked up again,
      failing while its content is awaited, or loaded with its raw track names
      and, per track row, the race links in it. */
  datatype TabState =
    | TabMissing
    | TabFailed
    | TabLoaded(trackNames: seq<string>, rows: seq<seq<Link>>)

  /** The listing page: its tab bar never became ready, or the tabs it shows. */
  datatype ListingPage = ListingUnavailable | Listing(tabs: seq<TabState>)

  /** `raceData[0].races[0]?.raceURL || ''`. */
  function FirstRaceUrl(data: seq<TrackRaces>): string
    requires |data| > 0
  {
    if |data[0].races| > 0 then data[0].races[0].raceUrl else ""
  }

  /** The date a tab's races are for, read from its first race URL. */
  function TabDate(data: seq<TrackRaces>): string
    requires |data| > 0
  {
    ExtractDateFromUrl(FirstRaceUrl(data))
  }

  /** The loop passes over this tab with `continue`. */
  predicate Skipped(tab: TabState, today: string)
  {
    || tab.TabMissing?
    || (tab.TabLoaded? &&
        var data := TabTracks(tab.trackNames, tab.rows);
        |data| == 0 || TabDate(data) != today)
  }

  datatype TabScan =
    | Matched(index: nat, date: string, data: seq<TrackRaces>)
    | NoMatch
    | Aborted(index: nat)

  /** What the loop over tabs `from` onwards meets first: a tab dated today,
      a failing tab (which ends the whole run), or neither. */
  function ScanTabs(tabs: seq<TabState>, today: string, from: nat): (r: TabScan)
    requires from <= |tabs|
    ensures r.Matched? || r.Aborted? ==> from <= r.index < |tabs|
    decreases |tabs| - from
  {
    if from == |tabs| then NoMatch
    else if Skipped(tabs[from], today) then ScanTabs(tabs, today, from + 1)
    else if tabs[from].TabFailed? then Aborted(from)
    else Matched(from, today, TabTracks(tabs[from].trackNames, tabs[from].rows))
  }

  /** A match is a loaded tab from `from` on with tracks and dated today, and an
      abort is a failing tab from `from` on. */
  lemma {:induction false} ScanTabsResult(tabs: seq<TabState>, today: string, from: nat)
    requires from <= |tabs|
    ensures var r := ScanTabs(tabs, today, from);
      r.Matched? ==>
        && from <= r.index < |tabs| && tabs[r.index].TabLoaded?
        && r.data == TabTracks(tabs[r.index].trackNames, tabs[r.index].rows)
        && |r.data| > 0 && r.date == TabDate(r.data) == today
    ensures var r := ScanTabs(tabs, today, from);
      r.Aborted? ==> from <= r.index < |tabs| && tabs[r.index].TabFailed?
    decreases |tabs| - from
  {
    if from == |tabs| {
    } else if Skipped(tabs[from], today) {
      ScanTabsResult(tabs, today, from + 1);
    } else if tabs[from].TabFailed? {
    } else {
      var data := TabTracks(tabs[from].trackNames, tabs[from].rows);
      assert ScanTabs(tabs, today, from) == Matched(from, today, data);
      assert tabs[from].TabLoaded? && |data| > 0 && TabDate(data) == today;
    }
  }

  /** Every tab the scan passes over before it stops was skipped, and it
      ends without a match exactly when every tab from `from` on is skipped. */
  lemma {:induction false} ScanPassesSkipped(tabs: seq<TabState>, today: string, from: nat)
    requires from <= |tabs|
    ensures var r := ScanTabs(tabs, today, from);
      && (r.Matched? || r.Aborted? ==> from <= r.index < |tabs| && SkippedRun(tabs, today, from, r.index))
      && (r.NoMatch? <==> SkippedRun(tabs, today, from, |tabs|))
    decreases |tabs| - from
  {
    if from < |tabs| {
      if Skipped(tabs[from], today) {
        ScanSkips(tabs, today, from);
        ScanPassesSkipped(tabs, today, from + 1);
      } else {
        ScanStops(tabs, today, from);
      }
    }
  }

  /** Where the race list for `date` is saved. */
  function RaceListPath(date: string): string
  {
    "exports/" + date + "/greyhound-races.csv"
  }

  /** A run's result: the rows it returns and the file it writes, if any. */
  datatype RaceListRun = RaceListRun(rows: seq<FlatRace>, saved: Option<Written<FlatRace>>)

  /** The outcome `scrapeGreyhoundRaceList` produces for a listing page on a day. */
  function RaceListOutcome(page: ListingPage, now: LocalDate): RaceListRun
    requires now.Valid()
  {
    match page
    case ListingUnavailable => RaceListRun([], None)
    case Listing(tabs) =>
      match ScanTabs(tabs, TodayDateString(now), 0)
      case Matched(_, date, data) =>
        var rows := FlatTab(date, data);
        RaceListRun(rows, Some(Written(RaceListPath(date), rows)))
      case _ => RaceListRun([], None)
  }

  /** `scrapeGreyhoundRaceList`: visits the tabs in order, skips missing, empty
      and other-day tabs, stops at the first failing tab with nothing, and on
      the first tab dated today pushes its flattened rows, saves them and stops. */
  method ScrapeGreyhoundRaceList(page: ListingPage, now: LocalDate) returns (run: RaceListRun)
    requires now.Valid()
    ensures run == RaceListOutcome(page, now)
  {
    if page.ListingUnavailable? {
      return RaceListRun([], None);
    }
    var tabs := page.tabs;
    var todayStr := TodayDateString(now);
    var allFlatData: seq<FlatRace> := [];
    var i := 0;
    while i < |tabs|
      invariant 0 <= i <= |tabs|
      invariant ScanTabs(tabs, todayStr, i) == ScanTabs(tabs, todayStr, 0)
      invariant allFlatData == []
    {
      var tab := tabs[i];
      if tab.TabMissing? {
        i := i + 1;
        continue;
      }
      if tab.TabFailed? {
        return RaceListRun([], None);
      }
      var raceData := ScrapeTab(tab.trackNames, tab.rows);
      if |raceData| == 0 {
        i := i + 1;
        continue;
      }
      var actualDate := ExtractDateFromUrl(FirstRaceUrl(raceData));
      if actualDate != todayStr {
        i := i + 1;
        continue;
      }
      allFlatData := FlattenTab(actualDate, raceData);
      return RaceListRun(allFlatData, Some(Written(RaceListPath(actualDate), allFlatData)));
    }
    return RaceListRun(allFlatData, None);
  }

  // ---------------------------------------------------------------------------
  // Properties of a run

  /** Every returned row is dated today, the file written is today's race list
      and holds exactly the returned rows, and nothing is written when no row
      is returned. */
  lemma RaceListRowsAreToday(page: ListingPage, now: LocalDate)
    requires now.Valid()
    ensures var run := RaceListOutcome(page, now);
      && (forall row :: row in run.rows ==> row.date == TodayDateString(now))
      && (run.saved.Some? ==>
            run.saved.value.path == RaceListPath(TodayDateString(now))
            && run.saved.value.records == run.rows)
      && (run.rows == [] ==> run.saved.None? || run.saved.value.records == [])
  {
    if page.Listing? {
      ScanTabsResult(page.tabs, TodayDateString(now), 0);
    }
  }

  /** Tabs `from` up to `i` (exclusive) are all skipped, one after another. */
  predicate SkippedRun(tabs: seq<TabState>, today: string, from: nat, i: nat)
    requires from <= i <= |tabs|
    decreases i - from
  {
    from == i || (Skipped(tabs[from], today) && SkippedRun(tabs, today, from + 1, i))
  }

  /** A skipped run is a range whose every tab is skipped. */
  lemma {:induction false} SkippedRunAll(tabs: seq<TabState>, today: string, from: nat, i: nat)
    requires from <= i <= |tabs|
    ensures SkippedRun(tabs, today, from, i) <==> forall j :: from <= j < i ==> Skipped(tabs[j], today)
    decreases i - from
  {
    if from < i {
      SkippedRunAll(tabs, today, from + 1, i);
    }
  }

  /** Scanning from `from` gives the same result as scanning from `i` when
      every tab in between is skipped. */
  lemma {:induction false} ScanReaches(tabs: seq<TabState>, today: string, from: nat, i: nat)
    requires from <= i <= |tabs|
    requires forall j :: from <= j < i ==> Skipped(tabs[j], today)
    ensures ScanTabs(tabs, today, from) == ScanTabs(tabs, today, i)
  {
    forall j | from <= j < i
      ensures ScanTabs(tabs, today, j) == ScanTabs(tabs, today, j + 1)
    {
      ScanSkips(tabs, today, j);
    }
    StepsEqual((j: nat) => if j <= |tabs| then ScanTabs(tabs, today, j) else NoMatch, from, i);
  }

  /** Values that agree step by step from `from` to `i` agree at both ends. */
  lemma {:induction false} StepsEqual(f: nat -> TabScan, from: nat, i: nat)
    requires from <= i
    requires forall j :: from <= j < i ==> f(j) == f(j + 1)
    ensures f(from) == f(i)
    decreases i - from
  {
    if from < i {
      StepsEqual(f, from + 1, i);
    }
  }

  /** A skipped tab passes the scan on to the next one. */
  lemma ScanSkips(tabs: seq<TabState>, today: string, from: nat)
    requires from < |tabs| && Skipped(tabs[from], today)
    ensures ScanTabs(tabs, today, from) == ScanTabs(tabs, today, from + 1)
  {
  }

  /** A failing tab aborts the scan; a loaded tab that is not skipped matches. */
  lemma ScanStops(tabs: seq<TabState>, today: string, i: nat)
    requires i < |tabs|
    ensures tabs[i].TabFailed? ==> ScanTabs(tabs, today, i) == Aborted(i)
    ensures tabs[i].TabLoaded? && !Skipped(tabs[i], today) ==>
      ScanTabs(tabs, today, i) == Matched(i, today, TabTracks(tabs[i].trackNames, tabs[i].rows))
  {
  }

  /** The rows come from exactly one tab: the first one dated today, provided
      every tab before it was skipped rather than failing. */
  lemma RaceListFromFirstMatchingTab(tabs: seq<TabState>, now: LocalDate, i: nat)
    requires now.Valid() && i < |tabs| && tabs[i].TabLoaded?
    requires forall j :: 0 <= j < i ==> Skipped(tabs[j], TodayDateString(now))
    requires !Skipped(tabs[i], TodayDateString(now))
    ensures var run := RaceListOutcome(Listing(tabs), now);
      && run.saved.Some?
      && run.rows == FlatTab(TodayDateString(now), TabTracks(tabs[i].trackNames, tabs[i].rows))
  {
    ScanReaches(tabs, TodayDateString(now), 0, i);
    ScanStops(tabs, TodayDateString(now), i);
  }

  /** A tab that fails before any tab dated today ends the run with no rows
      and no file, whatever the later tabs hold. */
  lemma RaceListEmptyAfterFailure(tabs: seq<TabState>, now: LocalDate, i: nat)
    requires now.Valid() && i < |tabs| && tabs[i].TabFailed?
    requires forall j :: 0 <= j < i ==> Skipped(tabs[j], TodayDateString(now))
    ensures RaceListOutcome(Listing(tabs), now) == RaceListRun([], None)
  {
    ScanReaches(tabs, TodayDateString(now), 0, i);
    ScanStops(tabs, TodayDateString(now), i);
  }

  /** When every tab is skipped the run returns no rows and writes nothing. */
  lemma RaceListEmptyWithoutMatch(tabs: seq<TabState>, now: LocalDate)
    requires now.Valid()
    requires forall j :: 0 <= j < |tabs| ==> Skipped(tabs[j], TodayDateString(now))
    ensures RaceListOutcome(Listing(tabs), now) == RaceListRun([], None)
  {
    SkippedRunAll(tabs, TodayDateString(now), 0, |tabs|);
    ScanPassesSkipped(tabs, TodayDateString(now), 0);
  }
}
