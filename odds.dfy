/** The odds grid shared by both race-detail scrapers
    (test/testDetailsScraper.js and src/raceDetailsScraper.js): how a grid
    cell becomes a number or `'-'`, how the thirteen bookmaker columns are
    read with `cells[k] || '-'`, and how a runner's name is cleaned and
    defaulted. */
module Odds {
  import opened Common

  /** A `.octd-right__main-cell`: it has no `.octd-right__odds-value-cell`
      element, or it has one and `parsed` is what `parseFloat` makes of the
      element's trimmed text (`None` for `NaN`). */
  datatype Cell = NoValue | Value(parsed: Option<real>)

  /** One row of the odds grid, one runner per row. */
  type OddsRow = seq<Cell>

  /** A bookmaker column as written to the CSV: a price, or the string `'-'`. */
  datatype Odds = Dash | Price(value: real)

  /** The thirteen bookmaker columns, in the order the records and the CSV field list give them. */
  const Bookmakers: seq<string> := [
    "bet365", "ubet", "tabtouch", "betr", "boombet", "sportsbet",
    "betfair_back", "betfair_lay", "picketbet", "ladbrokes", "pointsbet", "neds", "colossal"]

  /** The cell mapper: a parsed number, otherwise `'-'`. */
  function NormaliseCell(c: Cell): (o: Odds)
    ensures o.Price? <==> c.Value? && c.parsed.Some?
    ensures o.Price? ==> o.value == c.parsed.value
  {
    match c
    case NoValue => Dash
    case Value(parsed) => if parsed.Some? then Price(parsed.value) else Dash
  }

  /** `cells[k] || '-'`: an index past the end gives `undefined` and a price
      of zero is falsy, so both become `'-'`; `'-'` itself is kept. */
  function OrDash(cells: seq<Odds>, k: nat): (o: Odds)
    ensures o.Price? <==> k < |cells| && cells[k].Price? && cells[k].value != 0.0
    ensures o.Price? ==> o == cells[k]
  {
    if k < |cells| && cells[k].Price? && cells[k].value != 0.0 then cells[k] else Dash
  }

  /** The price a grid cell offers, stated on the cell itself: only a value
      element whose text parses to a non-zero number gives one. */
  predicate OffersPrice(cells: OddsRow, k: nat)
  {
    k < |cells| && cells[k].Value? && cells[k].parsed.Some? && cells[k].parsed.value != 0.0
  }

  /** The thirteen bookmaker fields of a grid row: normalise every cell, then
      take column `k` or `'-'`. Column `k` is a price exactly when the cell
      offers one, and it is then that cell's number; cells past the
      thirteenth are ignored and missing ones give `'-'`. */
  function RowOdds(cells: OddsRow): (odds: seq<Odds>)
    ensures |odds| == |Bookmakers|
    ensures forall k :: 0 <= k < |odds| ==> (odds[k].Price? <==> OffersPrice(cells, k))
    ensures forall k :: 0 <= k < |odds| && OffersPrice(cells, k) ==> odds[k].value == cells[k].parsed.value
  {
    var normalised := seq(|cells|, i requires 0 <= i < |cells| => NormaliseCell(cells[i]));
    seq(|Bookmakers|, k requires 0 <= k < |Bookmakers| => OrDash(normalised, k))
  }

  /** A row whose cells all lack a number gives `'-'` in every column. */
  lemma BlankRowAllDashes(cells: OddsRow)
    requires forall k :: 0 <= k < |cells| ==> !(cells[k].Value? && cells[k].parsed.Some?)
    ensures RowOdds(cells) == seq(|Bookmakers|, _ => Dash)
  {
    var odds := RowOdds(cells);
    forall k | 0 <= k < |Bookmakers|
      ensures odds[k] == Dash
    {
      assert !OffersPrice(cells, k);
    }
  }

  // ---------------------------------------------------------------------------
  // Runner names

  /** `textContent.trim().replace(/\s+/g, ' ')`: the text's non-white-space
      characters survive in order, and only single plain spaces remain
      between them. */
  function NormaliseName(text: string): (name: string)
    ensures SingleSpaced(name)
    ensures NonWs(name) == NonWs(text)
    ensures name == [] <==> Trim(text) == []
  {
    TrimKeepsText(text);
    CollapseWhitespace(Trim(text))
  }

  /** A cleaned name has no white space at either end. */
  lemma NormaliseNameEnds(text: string)
    ensures var name := NormaliseName(text);
      name != [] ==> !IsWhitespace(name[0]) && !IsWhitespace(name[|name| - 1])
  {
    if Trim(text) != [] {
      CollapseLast(Trim(text));
    }
  }

  /** A cleaned name is the text's words joined by single spaces: every
      maximal run of white space inside the name becomes one space, and the
      runs at the ends go. */
  lemma NormaliseNameJoinsWords(text: string)
    ensures NormaliseName(text) == Unwords(Words(text))
  {
    var trimmed := Trim(text);
    var name := NormaliseName(text);
    NormaliseNameEnds(text);
    assert Clean(name);
    CleanIsUnwords(name);
    CollapseKeepsWords(trimmed);
    WordsTrim(text);
  }

  /** The cleaned runner names, read once per page, before the grid rows. */
  function RunnerNames(texts: seq<string>): (names: seq<string>)
    ensures |names| == |texts|
    ensures forall i :: 0 <= i < |names| ==> names[i] == NormaliseName(texts[i])
  {
    seq(|texts|, i requires 0 <= i < |texts| => NormaliseName(texts[i]))
  }

  /** `runnerNames[i] || \`Runner ${i + 1}\``: the `i`-th name when there is
      one and it is not empty, otherwise a label counting from one. */
  function RunnerName(names: seq<string>, i: nat): (name: string)
    ensures name != ""
    ensures i < |names| && names[i] != "" ==> name == names[i]
    ensures !(i < |names| && names[i] != "") ==> name == FallbackName(i)
  {
    if i < |names| && names[i] != "" then names[i] else FallbackName(i)
  }

  function FallbackName(i: nat): string
  {
    "Runner " + NatToString(i + 1)
  }

  /** Different rows never share a fallback name. */
  lemma FallbackNameInjective(i: nat, j: nat)
    requires FallbackName(i) == FallbackName(j)
    ensures i == j
  {
    SamePrefixSameRest("Runner ", NatToString(i + 1), NatToString(j + 1));
    NatToStringInjective(i + 1, j + 1);
  }
}
