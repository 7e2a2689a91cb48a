/** `ncaafdb`: the scrape of one team's season gamelog into its SQLite file. The HTML cells
    arrive as text; the directory of database files is a map from file name to the rows of
    its `Stats` table. */
module NcaafData {
  import opened Strings

  /** How many cells one game is taken to span. */
  const StatsPerGame: nat := 35

  /** The columns of the `Stats` table, in order. */
  const StatColumns: seq<string> := [
    "Week", "Day", "Date", "OT", "Opp", "Tm", "Opp2", "Cmp", "Att",
    "PassYds", "PassTD", "Int", "Sk", "SkYds", "PassYA", "PassNYA",
    "CmpPct", "PasserRate", "RushAtt", "RushYds", "RushYA", "RushTD",
    "FGM", "FGA", "XPM", "XPA", "Pnt", "PuntYds", "ThirdDownConv",
    "ThirdDownAtt", "FourthDownConv", "FourthDownAtt", "ToP"]

  /** One row of a `Stats` table. */
  type Row = seq<string>

  /** The database files: file name to the rows of its `Stats` table. */
  type Store = map<string, seq<Row>>

  /** The offset within a game's cells that column `c` is sliced from: cell 3 is never
      read, so the columns from `OT` on read one cell further. */
  function Offset(c: nat): nat {
    if c < 3 then c else c + 1
  }

  /** `s[k::35]`. */
  function Column(s: seq<string>, k: nat): (r: seq<string>)
    ensures |r| == if k < |s| then (|s| - k + 34) / 35 else 0
    ensures forall i :: 0 <= i < |r| ==> k + 35 * i < |s| && r[i] == s[k + 35 * i]
    decreases |s| - k
  {
    if k >= |s| then [] else [s[k]] + Column(s, k + 35)
  }

  /** The page as fetched: the request failed (or raised), there is no `offense` table, or the
      table's header cells and data cells. */
  datatype GamelogPage = FetchFailed | NoOffenseTable | OffenseTable(th: seq<string>, td: seq<string>)

  /** The stripped text of each cell. */
  function CellTexts(cells: seq<string>): (r: seq<string>)
    ensures |r| == |cells|
    ensures forall k :: 0 <= k < |r| ==> r[k] == Strip(cells[k])
  {
    if cells == [] then [] else CellTexts(cells[..|cells| - 1]) + [Strip(cells[|cells| - 1])]
  }

  /** The file `ncaafdb` writes for a (lower-cased) team and a year. */
  function DbFile(team: string, year: int): string {
    team + "-" + IntText(year) + "-stats.db"
  }

  /** The rows already in a file's table; a missing file is created empty. */
  function TableRows(store: Store, name: string): seq<Row> {
    if name in store then store[name] else []
  }

  /** Row `i` of the insert loop: column `c` is its slice's `i`-th value, or '' past its end. */
  function GameRow(sample: seq<string>, i: nat): Row {
    seq(|StatColumns|, (c: int) requires 0 <= c < |StatColumns| =>
      var col := Column(sample, Offset(c));
      if i < |col| then col[i] else "")
  }

  /** The first `n` rows of the insert loop. */
  function GameRowsUpTo(sample: seq<string>, n: nat): (r: seq<Row>)
    ensures |r| == n
    ensures forall k :: 0 <= k < n ==> r[k] == GameRow(sample, k)
  {
    if n == 0 then [] else GameRowsUpTo(sample, n - 1) + [GameRow(sample, n - 1)]
  }

  /** The rows inserted: one per entry of the `Date` slice. */
  function GameRows(sample: seq<string>): seq<Row> {
    GameRowsUpTo(sample, |Column(sample, 2)|)
  }

  /** The return value and the files after `ncaafdb(team, year)`. */
  function StoreGamelog(store: Store, team: string, year: int, page: GamelogPage): (bool, Store) {
    match page
    case FetchFailed => (false, store)
    case NoOffenseTable => (false, store)
    case OffenseTable(th, td) =>
      var sample := CellTexts(th + td);
      if |sample| < StatsPerGame then (false, store)
      else
        var name := DbFile(Lower(team), year);
        (true, store[name := TableRows(store, name) + GameRows(sample)])
  }

  /** The loop that strips each header cell and then each data cell. */
  method CollectCells(th: seq<string>, td: seq<string>) returns (sample: seq<string>)
    ensures sample == CellTexts(th + td)
  {
    var cells := th + td;
    sample := [];
    var i := 0;
    while i < |cells|
      invariant 0 <= i <= |cells|
      invariant sample == CellTexts(cells[..i])
    {
      assert cells[..i + 1][..i] == cells[..i];
      sample := sample + [Strip(cells[i])];
      i := i + 1;
    }
    assert cells[..i] == cells;
  }

  /** The insert loop: one row per entry of the `Date` slice. */
  method InsertRows(sample: seq<string>) returns (rows: seq<Row>)
    ensures rows == GameRows(sample)
  {
    var dates := Column(sample, 2);
    rows := [];
    var i := 0;
    while i < |dates|
      invariant 0 <= i <= |dates|
      invariant rows == GameRowsUpTo(sample, i)
    {
      rows := rows + [GameRow(sample, i)];
      i := i + 1;
    }
  }

  /** `ncaafdb`: the slices by stride 35, then the insert loop over the `Date` slice. */
  method Ncaafdb(store: Store, team: string, year: int, page: GamelogPage) returns (stored: bool, after: Store)
    ensures (stored, after) == StoreGamelog(store, team, year, page)
  {
    match page
    case FetchFailed =>
      stored, after := false, store;
    case NoOffenseTable =>
      stored, after := false, store;
    case OffenseTable(th, td) =>
      var sample := CollectCells(th, td);
      if |sample| < StatsPerGame {
        stored, after := false, store;
      } else {
        var rows := InsertRows(sample);
        var name := DbFile(Lower(team), year);
        stored, after := true, store[name := TableRows(store, name) + rows];
      }
  }

  // ---------------------------------------------------------------------------
  // Properties of the store

  /** A store happens exactly when the table exists and holds at least 35 cells; anything else
      leaves the files as they were. */
  lemma StoresOnlyWithEnoughCells(store: Store, team: string, year: int, page: GamelogPage)
    ensures StoreGamelog(store, team, year, page).0 <==>
      page.OffenseTable? && |page.th| + |page.td| >= StatsPerGame
    ensures !StoreGamelog(store, team, year, page).0 ==> StoreGamelog(store, team, year, page).1 == store
  {
  }

  /** The table grows: the rows already in the file come first and stay, and no other file
      changes. Storing the same page twice therefore holds its games twice. */
  lemma StoreAppends(store: Store, team: string, year: int, page: GamelogPage)
    requires StoreGamelog(store, team, year, page).0
    ensures var name := DbFile(Lower(team), year);
      var after := StoreGamelog(store, team, year, page).1;
      after.Keys == store.Keys + {name} &&
      (forall other :: other in store && other != name ==> after[other] == store[other]) &&
      after[name] == TableRows(store, name) + GameRows(CellTexts(page.th + page.td))
  {
  }

  lemma StoringTwiceDuplicates(store: Store, team: string, year: int, page: GamelogPage)
    requires StoreGamelog(store, team, year, page).0
    ensures var name := DbFile(Lower(team), year);
      var rows := GameRows(CellTexts(page.th + page.td));
      var twice := StoreGamelog(StoreGamelog(store, team, year, page).1, team, year, page);
      twice.0 && twice.1[name] == TableRows(store, name) + rows + rows
  {
  }

  /** A sample of `n >= 35` cells gives `(n + 32) / 35` rows of 33 values; value `c` of row `i`
      is cell `35 * i + Offset(c)` when it exists and '' otherwise. Cells 3 and 34 of a game are
      never read. */
  lemma GameRowsLayout(sample: seq<string>)
    requires |sample| >= StatsPerGame
    ensures |GameRows(sample)| == (|sample| + 32) / 35 >= 1
    ensures forall i :: 0 <= i < |GameRows(sample)| ==> |GameRows(sample)[i]| == |StatColumns|
    ensures forall i, c :: 0 <= i < |GameRows(sample)| && 0 <= c < |StatColumns| ==>
      GameRows(sample)[i][c] == if 35 * i + Offset(c) < |sample| then sample[35 * i + Offset(c)] else ""
    ensures forall c :: 0 <= c < |StatColumns| ==> Offset(c) != 3 && Offset(c) != 34
  {
    forall i, c | 0 <= i < |GameRows(sample)| && 0 <= c < |StatColumns|
      ensures GameRows(sample)[i][c] == if 35 * i + Offset(c) < |sample| then sample[35 * i + Offset(c)] else ""
    {
      GameRowCell(sample, i, c);
    }
  }

  lemma GameRowCell(sample: seq<string>, i: nat, c: nat)
    requires i < |GameRows(sample)| && c < |StatColumns|
    ensures GameRows(sample)[i][c] == if 35 * i + Offset(c) < |sample| then sample[35 * i + Offset(c)] else ""
  {
    var col := Column(sample, Offset(c));
    assert GameRows(sample)[i] == GameRow(sample, i);
    assert GameRow(sample, i)[c] == if i < |col| then col[i] else "";
    ColumnIndex(sample, Offset(c), i);
  }

  /** Index `i` of `s[k::35]` exists exactly when cell `k + 35 * i` does. */
  lemma ColumnIndex(s: seq<string>, k: nat, i: nat)
    ensures i < |Column(s, k)| <==> k + 35 * i < |s|
  {
  }

  /** The first three columns come from cells 0, 1 and 2 of each game, `Opp` from cell 5,
      `Tm` (the team's score) from cell 6 and `Opp2` (the opponent's) from cell 7. */
  lemma ScoreColumnsComeFromCells(sample: seq<string>, i: nat)
    requires |sample| >= StatsPerGame && i < |GameRows(sample)|
    requires 35 * i + 7 < |sample|
    ensures GameRows(sample)[i][0] == sample[35 * i]
    ensures GameRows(sample)[i][4] == sample[35 * i + 5]
    ensures GameRows(sample)[i][5] == sample[35 * i + 6]
    ensures GameRows(sample)[i][6] == sample[35 * i + 7]
  {
    GameRowCell(sample, i, 0);
    GameRowCell(sample, i, 4);
    GameRowCell(sample, i, 5);
    GameRowCell(sample, i, 6);
  }
}
