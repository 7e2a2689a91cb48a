/** `NcaafTeam`: a team object whose attributes are its name, one attribute per stat column
    (the column name lower-cased) and its win/loss counters, filled from the team's gamelog
    database. Reading the `Stats` table is an input: the file is missing, the read raises, or
    it yields the rows. */
module NcaafTeams {
  import opened Values
  import opened Strings
  import opened NcaafData

  /** An attribute value: a text ('' after construction, or a keyword argument's value), or the
      list of one column's values over the recent games. */
  datatype Value = Text(s: string) | Games(values: seq<string>)

  /** The outcome of `SELECT * FROM Stats` on the team's file. */
  datatype DbRead = NoFile | ReadError | Rows(rows: seq<Row>)

  /** The attribute a stat column is stored under. */
  function StatAttr(c: nat): string
    requires c < |StatColumns|
  {
    Lower(StatColumns[c])
  }

  /** The first stat column at or after `c` whose attribute is `key`. */
  function StatIndexFrom(key: string, c: nat): (r: Option<nat>)
    requires c <= |StatColumns|
    ensures r.Some? ==> c <= r.value < |StatColumns| && StatAttr(r.value) == key
    ensures r.None? ==> forall c2 :: c <= c2 < |StatColumns| ==> StatAttr(c2) != key
    decreases |StatColumns| - c
  {
    if c == |StatColumns| then None
    else if StatAttr(c) == key then Some(c)
    else StatIndexFrom(key, c + 1)
  }

  /** The attributes a keyword argument can set. */
  datatype Attr = NameAttr | StatAttrAt(c: nat)

  /** The attribute `key.lower()` names, if the object has one. */
  function AttrOf(key: string): Option<Attr> {
    var k := Lower(key);
    if k == "name" then Some(NameAttr)
    else
      match StatIndexFrom(k, 0)
      case None => None
      case Some(c) => Some(StatAttrAt(c))
  }

  /** The name and stat attributes, as a value. */
  datatype Attrs = Attrs(name: Value, stats: seq<Value>)

  function Get(a: Attrs, t: Attr): Value {
    match t
    case NameAttr => a.name
    case StatAttrAt(c) => if c < |a.stats| then a.stats[c] else Text("")
  }

  /** The attributes right after `self.name = Name` and the loop that blanks every stat. */
  function BaseAttrs(name: string): (r: Attrs)
    ensures |r.stats| == |StatColumns|
    ensures forall c :: 0 <= c < |StatColumns| ==> r.stats[c] == Text("")
  {
    Attrs(Text(name), seq(|StatColumns|, _ => Text("")))
  }

  /** `if hasattr(self, key.lower()): setattr(self, key.lower(), value)`. */
  function SetAttr(a: Attrs, key: string, v: Value): Attrs {
    match AttrOf(key)
    case None => a
    case Some(NameAttr) => a.(name := v)
    case Some(StatAttrAt(c)) => if c < |a.stats| then a.(stats := a.stats[c := v]) else a
  }

  /** The attributes after the constructor's keyword-argument loop. */
  function InitialAttrs(name: string, kwargs: seq<(string, Value)>): (r: Attrs)
    ensures |r.stats| == |StatColumns|
  {
    if kwargs == [] then BaseAttrs(name)
    else
      var (key, v) := kwargs[|kwargs| - 1];
      SetAttr(InitialAttrs(name, kwargs[..|kwargs| - 1]), key, v)
  }

  /** `rows[:len(rows)//2]` and `rows[len(rows)//2:]`, or `None` when there is no file, the read
      raises or the table is empty. */
  function StatsHalves(read: DbRead): Option<(seq<Row>, seq<Row>)> {
    match read
    case NoFile => None
    case ReadError => None
    case Rows(rows) => if rows == [] then None else Some((rows[..|rows| / 2], rows[|rows| / 2..]))
  }

  /** `_get_recent_games` succeeds: the rows were read, there are at least `num` of them, and the
      33 column names can be assigned to the frame. */
  predicate RecentAvailable(read: DbRead, num: nat) {
    read.Rows? && |read.rows| >= num && forall k :: 0 <= k < |read.rows| ==> |read.rows[k]| == |StatColumns|
  }

  /** `recent_games[col].tolist()` for column `c`. */
  function ColumnValues(recent: seq<Row>, c: nat): (r: seq<string>)
    requires forall k :: 0 <= k < |recent| ==> c < |recent[k]|
    ensures |r| == |recent|
    ensures forall k :: 0 <= k < |recent| ==> r[k] == recent[k][c]
  {
    if recent == [] then [] else ColumnValues(recent[..|recent| - 1], c) + [recent[|recent| - 1][c]]
  }

  /** `stats` holds, for each column, its values over the last `num` rows, oldest first. */
  ghost predicate HoldsRecent(stats: seq<Value>, rows: seq<Row>, num: nat)
    requires num <= |rows|
  {
    |stats| == |StatColumns| &&
    forall c :: 0 <= c < |StatColumns| ==>
      stats[c].Games? && |stats[c].values| == num &&
      forall i :: 0 <= i < num ==> c < |rows[|rows| - num + i]| && stats[c].values[i] == rows[|rows| - num + i][c]
  }

  /** A game's score as `calculate_win_loss` reads it: a run of digits, else 0. */
  function Score(s: string): nat {
    if IsDigits(s) then DigitsValue(s) else 0
  }

  /** Rows too short to have both a `Tm` and an `Opp2` value raise a KeyError and are skipped. */
  predicate Scored(row: Row) {
    |row| > 6
  }

  predicate Won(row: Row) {
    Scored(row) && Score(row[5]) > Score(row[6])
  }

  predicate Lost(row: Row) {
    Scored(row) && Score(row[5]) < Score(row[6])
  }

  function Wins(rows: seq<Row>): nat {
    if rows == [] then 0 else Wins(rows[..|rows| - 1]) + (if Won(rows[|rows| - 1]) then 1 else 0)
  }

  function Losses(rows: seq<Row>): nat {
    if rows == [] then 0 else Losses(rows[..|rows| - 1]) + (if Lost(rows[|rows| - 1]) then 1 else 0)
  }

  class NcaafTeam {
    var name: Value
    /** Attribute `StatAttr(c)` is `stats[c]`. */
    var stats: seq<Value>
    var w: int
    var l: int

    function Attributes(): Attrs
      reads this
    {
      Attrs(name, stats)
    }

    /** `NcaafTeam(Name, **kwargs)`: keyword arguments are applied in order and only when they
        name an existing attribute, whatever their case. */
    constructor (Name: string, kwargs: seq<(string, Value)>)
      ensures Attributes() == InitialAttrs(Name, kwargs)
      ensures w == 0 && l == 0
    {
      name := Text(Name);
      var blank: seq<Value> := [];
      var c := 0;
      while c < |StatColumns|
        invariant 0 <= c <= |StatColumns|
        invariant blank == seq(c, _ => Text(""))
      {
        blank := blank + [Text("")];
        c := c + 1;
      }
      stats := blank;
      w, l := 0, 0;
      new;
      var i := 0;
      while i < |kwargs|
        invariant 0 <= i <= |kwargs|
        invariant Attributes() == InitialAttrs(Name, kwargs[..i])
        invariant w == 0 && l == 0
      {
        assert kwargs[..i + 1][..i] == kwargs[..i];
        var (key, v) := kwargs[i];
        ghost var before := Attributes();
        match AttrOf(key) {
          case None =>
          case Some(NameAttr) =>
            name := v;
          case Some(StatAttrAt(c)) =>
            if c < |stats| {
              stats := stats[c := v];
            }
        }
        assert Attributes() == SetAttr(before, key, v);
        i := i + 1;
      }
      assert kwargs[..i] == kwargs;
    }

    /** `get_stats`: resets the counters and returns the two halves of the table. */
    method GetStats(read: DbRead) returns (r: Option<(seq<Row>, seq<Row>)>)
      modifies this
      ensures r == StatsHalves(read)
      ensures w == 0 && l == 0 && Attributes() == old(Attributes())
    {
      w, l := 0, 0;
      if !read.Rows? || read.rows == [] {
        return None;
      }
      var rows := read.rows;
      var midPoint := |rows| / 2;
      r := Some((rows[..midPoint], rows[midPoint..]));
    }

    /** `_get_recent_games`: resets the counters; on success every stat attribute holds its column
        over the last `num` games, and on failure the attributes are left as they were. */
    method RecentGames(read: DbRead, num: nat) returns (ok: bool)
      modifies this
      ensures ok == RecentAvailable(read, num)
      ensures ok ==> HoldsRecent(stats, read.rows, num)
      ensures !ok ==> stats == old(stats)
      ensures w == 0 && l == 0 && name == old(name)
    {
      w, l := 0, 0;
      if !read.Rows? || |read.rows| < num {
        return false;
      }
      var teamStats := read.rows;
      if exists k :: 0 <= k < |teamStats| && |teamStats[k]| != |StatColumns| {
        return false;
      }
      var recent := teamStats[|teamStats| - num..];
      var cols: seq<Value> := [];
      var c := 0;
      while c < |StatColumns|
        invariant 0 <= c <= |StatColumns|
        invariant |cols| == c
        invariant forall c2 :: 0 <= c2 < c ==> cols[c2] == Games(ColumnValues(recent, c2))
      {
        cols := cols + [Games(ColumnValues(recent, c))];
        c := c + 1;
      }
      stats := cols;
      ok := true;
    }

    method Last2(read: DbRead) returns (ok: bool)
      modifies this
      ensures ok == RecentAvailable(read, 2)
      ensures ok ==> HoldsRecent(stats, read.rows, 2)
      ensures !ok ==> stats == old(stats)
      ensures w == 0 && l == 0 && name == old(name)
    {
      ok := RecentGames(read, 2);
    }

    method Last4(read: DbRead) returns (ok: bool)
      modifies this
      ensures ok == RecentAvailable(read, 4)
      ensures ok ==> HoldsRecent(stats, read.rows, 4)
      ensures !ok ==> stats == old(stats)
      ensures w == 0 && l == 0 && name == old(name)
    {
      ok := RecentGames(read, 4);
    }

    method Last8(read: DbRead) returns (ok: bool)
      modifies this
      ensures ok == RecentAvailable(read, 8)
      ensures ok ==> HoldsRecent(stats, read.rows, 8)
      ensures !ok ==> stats == old(stats)
      ensures w == 0 && l == 0 && name == old(name)
    {
      ok := RecentGames(read, 8);
    }

    /** `calculate_win_loss`: counts the games won and lost by score and stores them in `w` and `l`;
        without a readable file it returns (0, 0) and leaves the counters alone. */
    method CalculateWinLoss(read: DbRead) returns (wins: nat, losses: nat)
      modifies this
      ensures read.Rows? ==> wins == Wins(read.rows) && losses == Losses(read.rows) && w == wins && l == losses
      ensures !read.Rows? ==> wins == 0 && losses == 0 && w == old(w) && l == old(l)
      ensures Attributes() == old(Attributes())
    {
      if !read.Rows? {
        return 0, 0;
      }
      var teamStats := read.rows;
      wins, losses := 0, 0;
      var i := 0;
      while i < |teamStats|
        invariant 0 <= i <= |teamStats|
        invariant wins == Wins(teamStats[..i]) && losses == Losses(teamStats[..i])
      {
        assert teamStats[..i + 1][..i] == teamStats[..i];
        var game := teamStats[i];
        if Scored(game) {
          var tmScore := Score(game[5]);
          var oppScore := Score(game[6]);
          if tmScore > oppScore {
            wins := wins + 1;
          } else if tmScore < oppScore {
            losses := losses + 1;
          }
        }
        i := i + 1;
      }
      assert teamStats[..i] == teamStats;
      w, l := wins, losses;
    }
  }

  // ---------------------------------------------------------------------------
  // Properties

  /** The halves are the table split at `len // 2`: together they are all the rows, in order,
      and the second is never shorter than the first by more than zero or longer by more than one. */
  lemma HalvesPartitionRows(read: DbRead)
    ensures StatsHalves(read).None? <==> !read.Rows? || read.rows == []
    ensures StatsHalves(read).Some? ==>
      var (team, opp) := StatsHalves(read).value;
      team + opp == read.rows && |team| == |read.rows| / 2 && |team| <= |opp| <= |team| + 1
  {
    if StatsHalves(read).Some? {
      var rows := read.rows;
      assert rows[..|rows| / 2] + rows[|rows| / 2..] == rows;
    }
  }

  lemma SetAttrStep(a: Attrs, key: string, v: Value, t: Attr)
    requires |a.stats| == |StatColumns|
    requires t.StatAttrAt? ==> t.c < |StatColumns|
    ensures |SetAttr(a, key, v).stats| == |StatColumns|
    ensures Get(SetAttr(a, key, v), t) == if AttrOf(key) == Some(t) then v else Get(a, t)
  {
  }

  /** An attribute no keyword argument names keeps its constructed value. */
  lemma {:induction false} UnnamedAttributeKept(name: string, kwargs: seq<(string, Value)>, t: Attr)
    requires t.StatAttrAt? ==> t.c < |StatColumns|
    requires forall k :: 0 <= k < |kwargs| ==> AttrOf(kwargs[k].0) != Some(t)
    ensures Get(InitialAttrs(name, kwargs), t) == Get(BaseAttrs(name), t)
  {
    if kwargs != [] {
      var init, last := kwargs[..|kwargs| - 1], kwargs[|kwargs| - 1];
      forall k | 0 <= k < |init| ensures AttrOf(init[k].0) != Some(t) {
        assert init[k] == kwargs[k];
      }
      UnnamedAttributeKept(name, init, t);
      SetAttrStep(InitialAttrs(name, init), last.0, last.1, t);
    }
  }

  /** A keyword argument sets the attribute its lower-cased key names, and the last one naming an
      attribute wins. */
  lemma {:induction false} LastKeywordWins(name: string, kwargs: seq<(string, Value)>, t: Attr, k: nat)
    requires t.StatAttrAt? ==> t.c < |StatColumns|
    requires k < |kwargs| && AttrOf(kwargs[k].0) == Some(t)
    requires forall k2 :: k < k2 < |kwargs| ==> AttrOf(kwargs[k2].0) != Some(t)
    ensures Get(InitialAttrs(name, kwargs), t) == kwargs[k].1
  {
    var init, last := kwargs[..|kwargs| - 1], kwargs[|kwargs| - 1];
    SetAttrStep(InitialAttrs(name, init), last.0, last.1, t);
    if k < |kwargs| - 1 {
      assert init[k] == kwargs[k];
      forall k2 | k < k2 < |init| ensures AttrOf(init[k2].0) != Some(t) {
        assert init[k2] == kwargs[k2];
      }
      LastKeywordWins(name, init, t, k);
    }
  }

  /** Keys are matched case-insensitively against the stat columns: `Tm`, `tm` and `TM` all set
      the `tm` attribute, while a key naming no attribute is ignored. */
  lemma KeywordMatching(key: string, c: nat)
    requires c < |StatColumns| && Lower(key) == StatAttr(c) && Lower(key) != "name"
    ensures AttrOf(key).Some? && AttrOf(key).value.StatAttrAt?
    ensures StatAttr(AttrOf(key).value.c) == StatAttr(c)
  {
  }

  /** Each game counts as a win, a loss or neither, so the record never has more games than the table. */
  lemma {:induction false} RecordBounded(rows: seq<Row>)
    ensures Wins(rows) + Losses(rows) <= |rows|
  {
    if rows != [] {
      RecordBounded(rows[..|rows| - 1]);
    }
  }

  /** The team's score and the opponent's, exchanged. */
  function SwapScores(row: Row): Row
    requires Scored(row)
  {
    row[5 := row[6]][6 := row[5]]
  }

  function SwapAll(rows: seq<Row>): (r: seq<Row>)
    ensures |r| == |rows|
  {
    if rows == [] then []
    else SwapAll(rows[..|rows| - 1]) + [if Scored(rows[|rows| - 1]) then SwapScores(rows[|rows| - 1]) else rows[|rows| - 1]]
  }

  /** Wins and losses are symmetric: exchanging the two scores in every game exchanges them. */
  lemma {:induction false} SwappedScoresSwapRecord(rows: seq<Row>)
    ensures Wins(SwapAll(rows)) == Losses(rows)
    ensures Losses(SwapAll(rows)) == Wins(rows)
  {
    if rows != [] {
      var init := rows[..|rows| - 1];
      SwappedScoresSwapRecord(init);
      assert SwapAll(rows)[..|rows| - 1] == SwapAll(init);
    }
  }
}
