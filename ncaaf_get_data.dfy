/** `get_team_stats` and `get_player_stats`: the offense table of a gamelog page turned into one
    dictionary per row, keyed by the offense headers, and the reference-site player key. */
module NcaafGetData {
  import opened Values
  import opened Strings

  /** The offense headers, by cell index; several names occur more than once. */
  const OffHeaders: seq<string> := [
    "Date", "Home", "Opp", "Result", "Cmp", "Att", "Pct", "Yds", "TD", "Att", "Yds", "Avg", "TD", "Plays",
    "Yds", "Avg", "Pass", "Rush", "Pen", "Tot", "No", "Yds", "Fum", "Int", "Tot"]

  /** A row's dictionary; a header beyond the row's cells maps to `None`. */
  type RowRecord = map<string, Option<string>>

  function CellAt(cells: seq<string>, idx: nat): Option<string> {
    if idx < |cells| then Some(cells[idx]) else None
  }

  /** The dictionary comprehension over the first `n` of `headers`: a later index of the same
      header overwrites an earlier one. */
  function RecordUpTo(headers: seq<string>, cells: seq<string>, n: nat): RowRecord
    requires n <= |headers|
  {
    if n == 0 then map[] else RecordUpTo(headers, cells, n - 1)[headers[n - 1] := CellAt(cells, n - 1)]
  }

  function RowRecordOf(cells: seq<string>): RowRecord {
    RecordUpTo(OffHeaders, cells, |OffHeaders|)
  }

  /** A table row becomes a record unless it has no data cells, in which case it is skipped. */
  function RowEntry(cells: seq<string>): Option<RowRecord> {
    if cells == [] then None else Some(RowRecordOf(cells))
  }

  /** `soup.find(id='offense')`: `None` when the page has no offense table, else the data-cell
      texts of each of its rows. */
  type OffenseRows = Option<seq<seq<string>>>

  /** The list `get_team_stats` returns, or `None` when the missing table makes it raise. */
  function TeamStats(table: OffenseRows): Option<seq<RowRecord>> {
    match table
    case None => None
    case Some(rows) => Some(Survivors(RowEntry, rows))
  }

  /** The row loop of `get_team_stats`. */
  method GetTeamStats(table: OffenseRows) returns (r: Option<seq<RowRecord>>)
    ensures r == TeamStats(table)
  {
    if table.None? {
      return None;
    }
    var offRows := table.value;
    var allData: seq<RowRecord> := [];
    var i := 0;
    while i < |offRows|
      invariant 0 <= i <= |offRows|
      invariant allData == Survivors(RowEntry, offRows[..i])
    {
      assert offRows[..i + 1][..i] == offRows[..i];
      var cells := offRows[i];
      if cells != [] {
        var data := RowRecordOf(cells);
        allData := allData + [data];
      }
      i := i + 1;
    }
    assert offRows[..i] == offRows;
    return Some(allData);
  }

  // ---------------------------------------------------------------------------
  // Properties of the records

  /** The record's keys are exactly the header names among the first `n`; the value of a header
      is the cell at its last index among them. */
  lemma RecordUpToLastIndex(headers: seq<string>, cells: seq<string>, n: nat)
    requires n <= |headers|
    ensures forall h :: h in RecordUpTo(headers, cells, n) <==> exists idx :: 0 <= idx < n && headers[idx] == h
    ensures forall idx :: 0 <= idx < n && (forall idx2 :: idx < idx2 < n ==> headers[idx2] != headers[idx]) ==>
      RecordUpTo(headers, cells, n)[headers[idx]] == CellAt(cells, idx)
  {
    RecordKeysUpTo(headers, cells, n);
    RecordValuesUpTo(headers, cells, n);
  }

  lemma {:induction false} RecordKeysUpTo(headers: seq<string>, cells: seq<string>, n: nat)
    requires n <= |headers|
    ensures forall h :: h in RecordUpTo(headers, cells, n) <==> exists idx :: 0 <= idx < n && headers[idx] == h
  {
    if n > 0 {
      RecordKeysUpTo(headers, cells, n - 1);
      var last := headers[n - 1];
      assert RecordUpTo(headers, cells, n) == RecordUpTo(headers, cells, n - 1)[last := CellAt(cells, n - 1)];
      forall h ensures h in RecordUpTo(headers, cells, n) <==> exists idx :: 0 <= idx < n && headers[idx] == h {
        if h != last && (exists idx :: 0 <= idx < n && headers[idx] == h) {
          var idx :| 0 <= idx < n && headers[idx] == h;
          assert idx < n - 1;
        }
      }
    }
  }

  lemma {:induction false} RecordValuesUpTo(headers: seq<string>, cells: seq<string>, n: nat)
    requires n <= |headers|
    ensures forall idx :: 0 <= idx < n && (forall idx2 :: idx < idx2 < n ==> headers[idx2] != headers[idx]) ==>
      headers[idx] in RecordUpTo(headers, cells, n) && RecordUpTo(headers, cells, n)[headers[idx]] == CellAt(cells, idx)
  {
    if n > 0 {
      RecordValuesUpTo(headers, cells, n - 1);
      var last := headers[n - 1];
      assert RecordUpTo(headers, cells, n) == RecordUpTo(headers, cells, n - 1)[last := CellAt(cells, n - 1)];
      forall idx | 0 <= idx < n && (forall idx2 :: idx < idx2 < n ==> headers[idx2] != headers[idx])
        ensures headers[idx] in RecordUpTo(headers, cells, n) && RecordUpTo(headers, cells, n)[headers[idx]] == CellAt(cells, idx)
      {
        if idx < n - 1 {
          assert last != headers[idx];
        }
      }
    }
  }

  /** Every header is a key, whatever the row's length, and nothing else is. */
  lemma RecordKeysAreHeaders(cells: seq<string>)
    ensures forall h :: h in RowRecordOf(cells) <==> h in OffHeaders
  {
    RecordUpToLastIndex(OffHeaders, cells, |OffHeaders|);
    forall h | h in OffHeaders ensures h in RowRecordOf(cells) {
      var idx :| 0 <= idx < |OffHeaders| && OffHeaders[idx] == h;
    }
  }

  /** The record's value for header `h` is the cell at `idx` when `idx` is the last index of `h`. */
  lemma LastIndexWins(cells: seq<string>, h: string, idx: nat)
    requires idx < |OffHeaders| && OffHeaders[idx] == h
    requires forall idx2 :: idx < idx2 < |OffHeaders| ==> OffHeaders[idx2] != h
    ensures h in RowRecordOf(cells) && RowRecordOf(cells)[h] == CellAt(cells, idx)
  {
    RecordUpToLastIndex(OffHeaders, cells, |OffHeaders|);
  }

  /** Where a header occurs twice or more, the last cell wins: `Att` is cell 9, `TD` cell 12,
      `Avg` cell 15, `Yds` cell 21 and `Tot` cell 24. */
  lemma DuplicateHeadersKeepLastCell(cells: seq<string>)
    ensures "Att" in RowRecordOf(cells) && RowRecordOf(cells)["Att"] == CellAt(cells, 9)
    ensures "TD" in RowRecordOf(cells) && RowRecordOf(cells)["TD"] == CellAt(cells, 12)
    ensures "Avg" in RowRecordOf(cells) && RowRecordOf(cells)["Avg"] == CellAt(cells, 15)
    ensures "Yds" in RowRecordOf(cells) && RowRecordOf(cells)["Yds"] == CellAt(cells, 21)
    ensures "Tot" in RowRecordOf(cells) && RowRecordOf(cells)["Tot"] == CellAt(cells, 24)
  {
    LastIndexWins(cells, "Att", 9);
    LastIndexWins(cells, "TD", 12);
    LastIndexWins(cells, "Avg", 15);
    LastIndexWins(cells, "Yds", 21);
    LastIndexWins(cells, "Tot", 24);
  }

  /** One record per row that has data cells, in order; with no missing table, nothing else is returned. */
  lemma TeamStatsKeepsRowsWithCells(rows: seq<seq<string>>)
    ensures TeamStats(Some(rows)).Some?
    ensures |TeamStats(Some(rows)).value| <= |rows|
    ensures forall n :: 0 <= n < |TeamStats(Some(rows)).value| ==>
      exists k :: 0 <= k < |rows| && rows[k] != [] && TeamStats(Some(rows)).value[n] == RowRecordOf(rows[k])
    ensures (forall k :: 0 <= k < |rows| ==> rows[k] != []) ==>
      |TeamStats(Some(rows)).value| == |rows| &&
      forall k :: 0 <= k < |rows| ==> TeamStats(Some(rows)).value[k] == RowRecordOf(rows[k])
  {
    SurvivorsComeFromElements(RowEntry, rows);
  }

  // ---------------------------------------------------------------------------
  // The player key

  /** The initial and the id `get_player_stats` computes from "First Last": the lower-cased first
      letter of the last name, and the first five letters of the last name with the first two of
      the first name and "01", lower-cased. `None` when it raises: a name without a space, or an
      empty second word. */
  function PlayerKey(player: string): Option<(char, string)> {
    var parts := SplitOn(player, " ");
    if |parts| < 2 then None
    else
      var fname, lname := parts[0], parts[1];
      if lname == [] then None
      else Some((LowerChar(lname[0]), Lower(Prefix(lname, 5) + Prefix(fname, 2) + "01")))
  }

  /** The key exists exactly when the name has a space followed by a non-empty second word; the
      id starts with the initial, ends in "01" and is at most nine characters long. */
  lemma PlayerKeyShape(player: string)
    ensures PlayerKey(player).Some? <==>
      Contains(player, " ") && SplitOn(player, " ")[1] != []
    ensures PlayerKey(player).Some? ==>
      var (letter, id) := PlayerKey(player).value;
      3 <= |id| <= 9 && id[0] == letter && id[|id| - 2..] == "01"
  {
    SplitPiecesLackSeparator(player, " ");
    if PlayerKey(player).Some? {
      var parts := SplitOn(player, " ");
      var raw := Prefix(parts[1], 5) + Prefix(parts[0], 2) + "01";
      var id := Lower(raw);
      assert raw[|raw| - 2..] == "01";
      assert id[|id| - 2] == LowerChar('0') && id[|id| - 1] == LowerChar('1');
    }
  }

  /** The first word is the text before the first space and the second word the text between the
      first and the second space. */
  lemma PlayerWords(player: string, i: nat)
    requires Find(player, " ") == Some(i)
    ensures SplitOn(player, " ")[0] == player[..i]
    ensures SplitOn(player, " ")[1] == SplitOn(player[i + 1..], " ")[0]
  {
    SplitFirstTwo(player, " ", i);
  }
}
