/** The lookups of `ncaafApi.py`: a school's season summary from its reference page, and a
    team's gamelog, which scrapes the season into its database file and reads it back. */
module NcaafApi {
  import opened Values
  import opened Strings
  import opened NcaafData
  import opened NcaafTeams

  // ---------------------------------------------------------------------------
  // get_ncaaf_team_stats

  /** The school's season page: the request raised or answered with an error status, or the
      page, with the texts of the paragraphs of its `meta` block (`None` when it has none). */
  datatype SchoolPage = SchoolUnavailable | SchoolPage(meta: Option<seq<string>>)

  /** The `team_data` dictionary; a key the paragraphs never set is `None`. */
  datatype TeamData = TeamData(team: string, year: int, source: string,
                               record: Option<string>, conference: Option<string>)

  const Source := "sports-reference"

  /** A paragraph that sets the record. */
  predicate RecordLine(p: string) {
    Contains(p, "Record:")
  }

  /** A paragraph that sets the conference: the record test comes first, so a paragraph that
      mentions both sets only the record. */
  predicate ConferenceLine(p: string) {
    !Contains(p, "Record:") && Contains(p, "Conference:")
  }

  /** The stripped text after the last "Record:". */
  function RecordValue(p: string): string {
    Strip(LastPiece(p, "Record:"))
  }

  /** The stripped text after the last "Conference:". */
  function ConferenceValue(p: string): string {
    Strip(LastPiece(p, "Conference:"))
  }

  /** The value the last paragraph accepted by `isLine` gives, or `None` when there is none. */
  function LastLineValue(ps: seq<string>, isLine: string -> bool, value: string -> string): Option<string> {
    if ps == [] then None
    else if isLine(ps[|ps| - 1]) then Some(value(ps[|ps| - 1]))
    else LastLineValue(ps[..|ps| - 1], isLine, value)
  }

  /** What `get_ncaaf_team_stats(team, year)` returns for the page fetched. */
  function TeamStats(team: string, year: int, page: SchoolPage): Option<TeamData> {
    match page
    case SchoolUnavailable => None
    case SchoolPage(meta) =>
      var ps := if meta.Some? then meta.value else [];
      Some(TeamData(Upper(team), year, Source,
                    LastLineValue(ps, RecordLine, RecordValue),
                    LastLineValue(ps, ConferenceLine, ConferenceValue)))
  }

  /** `get_ncaaf_team_stats`: the paragraph loop overwrites the record or the conference each
      time a paragraph mentions it. */
  method GetNcaafTeamStats(team: string, year: int, page: SchoolPage) returns (r: Option<TeamData>)
    ensures r == TeamStats(team, year, page)
  {
    match page {
      case SchoolUnavailable =>
        r := None;
      case SchoolPage(meta) =>
        var record: Option<string> := None;
        var conference: Option<string> := None;
        if meta.Some? {
          var paragraphs := meta.value;
          var i := 0;
          while i < |paragraphs|
            invariant 0 <= i <= |paragraphs|
            invariant record == LastLineValue(paragraphs[..i], RecordLine, RecordValue)
            invariant conference == LastLineValue(paragraphs[..i], ConferenceLine, ConferenceValue)
          {
            assert paragraphs[..i + 1][..i] == paragraphs[..i];
            var text := paragraphs[i];
            if Contains(text, "Record:") {
              record := Some(RecordValue(text));
            } else if Contains(text, "Conference:") {
              conference := Some(ConferenceValue(text));
            }
            i := i + 1;
          }
          assert paragraphs[..i] == paragraphs;
        }
        r := Some(TeamData(Upper(team), year, Source, record, conference));
    }
  }

  /** The value is `None` exactly when no paragraph is accepted, and otherwise comes from the
      last accepted paragraph. */
  lemma {:induction false} LastLineValueIsLastLine(ps: seq<string>, isLine: string -> bool, value: string -> string)
    ensures LastLineValue(ps, isLine, value).None? <==> forall k :: 0 <= k < |ps| ==> !isLine(ps[k])
    ensures forall k :: 0 <= k < |ps| && isLine(ps[k]) && (forall k2 :: k < k2 < |ps| ==> !isLine(ps[k2])) ==>
      LastLineValue(ps, isLine, value) == Some(value(ps[k]))
  {
    if ps != [] {
      var init := ps[..|ps| - 1];
      LastLineValueIsLastLine(init, isLine, value);
      assert forall k :: 0 <= k < |init| ==> init[k] == ps[k];
    }
  }

  /** A fetched page always gives the upper-cased team, the year and the source; the record is
      the one of the last paragraph mentioning "Record:" (absent when none does), and the
      conference the one of the last paragraph mentioning "Conference:" but not "Record:". */
  lemma TeamStatsFields(team: string, year: int, ps: seq<string>)
    ensures var r := TeamStats(team, year, SchoolPage(Some(ps)));
      r.Some? && r.value.team == Upper(team) && r.value.year == year && r.value.source == "sports-reference" &&
      (r.value.record.None? <==> forall k :: 0 <= k < |ps| ==> !Contains(ps[k], "Record:")) &&
      (r.value.conference.None? <==> forall k :: 0 <= k < |ps| ==> !ConferenceLine(ps[k])) &&
      (forall k :: 0 <= k < |ps| && RecordLine(ps[k]) && (forall k2 :: k < k2 < |ps| ==> !RecordLine(ps[k2])) ==>
         r.value.record == Some(RecordValue(ps[k]))) &&
      (forall k :: 0 <= k < |ps| && ConferenceLine(ps[k]) && (forall k2 :: k < k2 < |ps| ==> !ConferenceLine(ps[k2])) ==>
         r.value.conference == Some(ConferenceValue(ps[k])))
  {
    LastLineValueIsLastLine(ps, RecordLine, RecordValue);
    LastLineValueIsLastLine(ps, ConferenceLine, ConferenceValue);
  }

  /** A failed request gives `None`; a page without a `meta` block gives neither a record nor a
      conference. */
  lemma TeamStatsWithoutMeta(team: string, year: int)
    ensures TeamStats(team, year, SchoolUnavailable) == None
    ensures TeamStats(team, year, SchoolPage(None)) == Some(TeamData(Upper(team), year, Source, None, None))
  {
  }

  /** The record is the stripped text that follows the paragraph's last "Record:". */
  lemma RecordFollowsLastMarker(p: string)
    requires RecordLine(p)
    ensures exists m :: (OccursAt(p, "Record:", m) && RecordValue(p) == Strip(p[m + 7..]) &&
                         !Contains(p[m + 7..], "Record:"))
  {
    LastPieceFollowsLastSeparator(p, "Record:");
    var m := |p| - |LastPiece(p, "Record:")| - 7;
    assert p[m + 7..] == LastPiece(p, "Record:");
  }

  /** The conference is the stripped text that follows the paragraph's last "Conference:". */
  lemma ConferenceFollowsLastMarker(p: string)
    requires ConferenceLine(p)
    ensures exists m :: (OccursAt(p, "Conference:", m) && ConferenceValue(p) == Strip(p[m + 11..]) &&
                         !Contains(p[m + 11..], "Conference:"))
  {
    LastPieceFollowsLastSeparator(p, "Conference:");
    var m := |p| - |LastPiece(p, "Conference:")| - 11;
    assert p[m + 11..] == LastPiece(p, "Conference:");
  }

  // ---------------------------------------------------------------------------
  // get_ncaaf_team_gamelog

  /** One entry of the gamelog list. */
  datatype GameEntry = GameEntry(week: string, day: string, date: string, opponent: string,
                                 teamScore: string, opponentScore: string, result: string)

  /** Why a row makes the loop raise: it has fewer than seven values (IndexError), or a score is
      not an integer (ValueError). */
  datatype GameError = ShortRow | BadScore

  /** `int(x or 0)`: an empty value counts as 0. */
  function ScoreValue(s: string): Option<int> {
    if s == "" then Some(0) else ParseInt(s)
  }

  /** The dictionary built from one row; a tie counts as a loss. */
  function GameEntryOf(game: Row): Result<GameEntry, GameError> {
    if |game| < 7 then Err(ShortRow)
    else
      match (ScoreValue(game[5]), ScoreValue(game[6]))
      case (Some(tm), Some(opp)) =>
        Ok(GameEntry(game[0], game[1], game[2], game[4], game[5], game[6], if tm > opp then "W" else "L"))
      case _ => Err(BadScore)
  }

  /** The games of the team's half of the table, or `None` when a row raises. */
  function GamesOf(teamGames: seq<Row>): Option<seq<GameEntry>> {
    match MapAll(GameEntryOf, teamGames)
    case Ok(games) => Some(games)
    case Err(_) => None
  }

  /** What reading a database file gives. */
  function ReadFile(store: Store, name: string): DbRead {
    if name in store then Rows(store[name]) else NoFile
  }

  /** The games of a file read back through `get_stats`: `None` when there is no file, the table
      is empty or a row of its first half raises. */
  function GamesInFile(files: Store, name: string): Option<seq<GameEntry>> {
    match StatsHalves(ReadFile(files, name))
    case None => None
    case Some((teamGames, _)) => GamesOf(teamGames)
  }

  /** The gamelog when the file is read back under the name `fileTeam`: `None` unless the scrape
      stored something, and then the games of the file read. */
  function GamelogReadAs(store: Store, team: string, year: int, page: GamelogPage, fileTeam: string)
    : (Option<seq<GameEntry>>, Store)
  {
    var scraped := StoreGamelog(store, team, year, page);
    (if scraped.0 then GamesInFile(scraped.1, DbFile(fileTeam, year)) else None, scraped.1)
  }

  /** `get_ncaaf_team_gamelog` as written: `get_stats` looks for the file under the team name as
      given, while `ncaafdb` wrote it under the lower-cased name. */
  function TeamGamelogAsWritten(store: Store, team: string, year: int, page: GamelogPage): (Option<seq<GameEntry>>, Store) {
    GamelogReadAs(store, team, year, page, team)
  }

  /** `get_ncaaf_team_gamelog` reading back the file `ncaafdb` wrote. */
  function TeamGamelog(store: Store, team: string, year: int, page: GamelogPage): (Option<seq<GameEntry>>, Store) {
    GamelogReadAs(store, team, year, page, Lower(team))
  }

  /** The loop over the team's games. */
  method CollectGames(teamGames: seq<Row>) returns (games: Option<seq<GameEntry>>)
    ensures games == GamesOf(teamGames)
  {
    var acc: seq<GameEntry> := [];
    var i := 0;
    while i < |teamGames|
      invariant 0 <= i <= |teamGames|
      invariant MapAll(GameEntryOf, teamGames[..i]) == Ok(acc)
    {
      assert teamGames[..i + 1][..i] == teamGames[..i];
      var entry := GameEntryOf(teamGames[i]);
      match entry {
        case Err(_) =>
          MapAllPrefixFailure(GameEntryOf, teamGames, i + 1);
          return None;
        case Ok(g) =>
          acc := acc + [g];
      }
      i := i + 1;
    }
    assert teamGames[..i] == teamGames;
    return Some(acc);
  }

  /** `get_ncaaf_team_gamelog`: scrape into the store, then read the team's file back through a
      fresh `NcaafTeam` and turn its first half into entries. */
  method GetNcaafTeamGamelog(store: Store, team: string, year: int, page: GamelogPage)
    returns (games: Option<seq<GameEntry>>, after: Store)
    ensures (games, after) == TeamGamelog(store, team, year, page)
  {
    var stored;
    stored, after := Ncaafdb(store, team, year, page);
    games := None;
    if stored {
      var ncaafTeam := new NcaafTeam("", []);
      var stats := ncaafTeam.GetStats(ReadFile(after, DbFile(Lower(team), year)));
      if stats.Some? {
        games := CollectGames(stats.value.0);
      }
    }
  }

  /** A row gives an entry exactly when it has seven values and both scores parse; the entry
      copies values 0, 1, 2, 4, 5 and 6, and the result is "W" exactly when the team's score is
      the greater. */
  lemma GameEntryMeaning(game: Row)
    ensures GameEntryOf(game).Ok? <==>
      |game| >= 7 && ScoreValue(game[5]).Some? && ScoreValue(game[6]).Some?
    ensures GameEntryOf(game).Ok? ==>
      var g := GameEntryOf(game).value;
      g.week == game[0] && g.day == game[1] && g.date == game[2] && g.opponent == game[4] &&
      g.teamScore == game[5] && g.opponentScore == game[6] &&
      (g.result == "W" <==> ScoreValue(game[5]).value > ScoreValue(game[6]).value) &&
      (g.result == "W" || g.result == "L")
  {
  }

  /** An empty score reads as 0 and a written-out integer as itself. */
  lemma ScoreValueReadsIntegers(i: int)
    ensures ScoreValue("") == Some(0)
    ensures ScoreValue(IntText(i)) == Some(i)
  {
    IntTextRoundTrip(i);
  }

  /** Nothing stored means no gamelog and no file changed; otherwise the files are those
      `ncaafdb` left. */
  lemma GamelogStoresFirst(store: Store, team: string, year: int, page: GamelogPage)
    ensures TeamGamelog(store, team, year, page).1 == StoreGamelog(store, team, year, page).1
    ensures !StoreGamelog(store, team, year, page).0 ==> TeamGamelog(store, team, year, page) == (None, store)
  {
    StoresOnlyWithEnoughCells(store, team, year, page);
  }

  /** The gamelog has one entry per row of the first half of the team's file, in order. */
  lemma GamelogOneEntryPerGame(store: Store, team: string, year: int, page: GamelogPage)
    requires TeamGamelog(store, team, year, page).0.Some?
    ensures var after := StoreGamelog(store, team, year, page).1;
      var name := DbFile(Lower(team), year);
      name in after &&
      var first := after[name][..|after[name]| / 2];
      var games := TeamGamelog(store, team, year, page).0.value;
      |games| == |first| && forall k :: 0 <= k < |first| ==> GameEntryOf(first[k]) == Ok(games[k])
  {
    var after := StoreGamelog(store, team, year, page).1;
    var name := DbFile(Lower(team), year);
    assert StoreGamelog(store, team, year, page).0;
    assert name in after;
    var rows := after[name];
    assert ReadFile(after, name) == Rows(rows);
    assert StatsHalves(Rows(rows)).Some?;
    var first := rows[..|rows| / 2];
    assert TeamGamelog(store, team, year, page).0 == GamesOf(first);
    MapAllKeepsOrder(GameEntryOf, first);
  }

  /** Names already in lower case are read back from the file written, so both readings agree. */
  lemma LowerCaseNamesAgree(store: Store, team: string, year: int, page: GamelogPage)
    requires Lower(team) == team
    ensures TeamGamelogAsWritten(store, team, year, page) == TeamGamelog(store, team, year, page)
  {
  }

  /** A name with an upper-case letter gives different file names for writing and reading. */
  lemma MixedCaseNamesDiffer(team: string, year: int)
    requires Lower(team) != team
    ensures DbFile(team, year) != DbFile(Lower(team), year)
  {
    var i :| 0 <= i < |team| && team[i] != Lower(team)[i];
    assert DbFile(team, year)[i] == team[i];
    assert DbFile(Lower(team), year)[i] == Lower(team)[i];
  }

  /** As written, a mixed-case team whose file did not exist before gets `None` although its
      games were stored, while reading the file written finds a non-empty table. */
  lemma AsWrittenLosesMixedCaseGamelog(store: Store, team: string, year: int, page: GamelogPage)
    requires Lower(team) != team && DbFile(team, year) !in store
    requires StoreGamelog(store, team, year, page).0
    ensures TeamGamelogAsWritten(store, team, year, page).0 == None
    ensures StatsHalves(ReadFile(StoreGamelog(store, team, year, page).1, DbFile(Lower(team), year))).Some?
  {
    MixedCaseNamesDiffer(team, year);
    StoreAppends(store, team, year, page);
    StoresOnlyWithEnoughCells(store, team, year, page);
    GameRowsLayout(CellTexts(page.th + page.td));
  }

  /** A first scrape of 35 to 37 cells stores a single row, whose first half is empty (a 38th
      cell would start a second `Date` entry). */
  lemma SingleGameHasEmptyFirstHalf(store: Store, team: string, year: int, page: GamelogPage)
    requires DbFile(Lower(team), year) !in store
    requires page.OffenseTable? && StatsPerGame <= |page.th| + |page.td| < StatsPerGame + 3
    ensures TeamGamelog(store, team, year, page).0 == Some([])
  {
    var sample := CellTexts(page.th + page.td);
    var name := DbFile(Lower(team), year);
    var rows := GameRows(sample);
    GameRowsLayout(sample);
    assert |rows| == 1;
    assert TableRows(store, name) == [];
    assert page == OffenseTable(page.th, page.td);
    assert |sample| >= StatsPerGame;
    assert StoreGamelog(store, team, year, page).0;
    var after := StoreGamelog(store, team, year, page).1;
    assert name in after && after[name] == rows;
    assert ReadFile(after, name) == Rows(rows);
    assert rows[..0] == [];
    assert GamesInFile(after, name) == GamesOf([]);
  }

  /** "Alabama" with one game's worth of cells on an empty store: the games are stored, the
      lookup as written returns `None`, and the corrected one returns the (empty) first half. */
  lemma AlabamaGamelogIsLost()
    ensures var page := OffenseTable([], seq(35, k => ""));
      StoreGamelog(map[], "Alabama", 2023, page).0 &&
      TeamGamelogAsWritten(map[], "Alabama", 2023, page).0 == None &&
      TeamGamelog(map[], "Alabama", 2023, page).0 == Some([])
  {
    var page := OffenseTable([], seq(35, k => ""));
    assert Lower("Alabama")[0] == 'a';
    assert Lower("Alabama") != "Alabama";
    StoresOnlyWithEnoughCells(map[], "Alabama", 2023, page);
    AsWrittenLosesMixedCaseGamelog(map[], "Alabama", 2023, page);
    SingleGameHasEmptyFirstHalf(map[], "Alabama", 2023, page);
  }
}
