/** The ESPN scoreboard adapter: the walk over events, competitions and odds entries that
    flattens the scoreboard JSON into one record per odds entry, and the restructuring of
    each flat record into the gameline shape served to clients (teams from the short name,
    signed spreads, odds defaults). The HTTP fetch and the date formatting are inputs. */
module EspnBets {
  import opened Values
  import opened Strings

  /** The tag every flat record of this adapter carries. */
  const EspnSource := "espn_bets"

  /** The odds this adapter writes for spreads and totals: the feed carries none. */
  const StandardOdds := "-110"

  // ---------------------------------------------------------------------------
  // The scoreboard JSON, as far as the walk reads it

  /** One entry of a competition's `odds` list. `provider`, `homeTeamOdds` and `awayTeamOdds` are
      objects read through `.get(key, {})`: each is missing, null, or present with its `name` or
      `moneyLine` (`None` when absent or null). The flat values read as `None` when absent or null. */
  datatype OddsEntry = OddsEntry(
    provider: Field<Option<string>>,
    overUnder: Option<Num>,
    spread: Option<Num>,
    homeTeamOdds: Field<Option<Num>>,
    awayTeamOdds: Field<Option<Num>>)

  /** A competition; `odds` is empty when the key is missing, null or an empty list. */
  datatype Competition = Competition(id: Option<string>, odds: seq<OddsEntry>)

  /** The event's `date`, already rendered as '%Y-%m-%d' and '%H:%MZ'. */
  datatype EventDate = EventDate(day: string, time: string)

  /** An event; `date` is `None` when the key is missing, null or empty. */
  datatype Event = Event(
    name: Option<string>,
    shortName: Option<string>,
    date: Option<EventDate>,
    competitions: Field<seq<Competition>>)

  /** What the request produced: a failed request (bad status, network, JSON error),
      or the payload, whose `events` key may be missing or null. */
  datatype Scoreboard = FetchFailed | Payload(events: Field<seq<Event>>)

  /** The flat record built for one odds entry: the event's fields merged with the line's. */
  datatype FlatLine = FlatLine(
    gameId: Option<string>,
    name: Option<string>,
    shortName: Option<string>,
    gameDay: string,
    startTime: string,
    source: string,
    provider: Option<string>,
    overUnder: Option<Num>,
    spread: Option<Num>,
    homeMoneyline: Option<Num>,
    awayMoneyline: Option<Num>)

  // ---------------------------------------------------------------------------
  // The walk

  /** `.get(key, {}).get(inner)` on a nested object; a null object raises instead. */
  function Nested<T>(f: Field<Option<T>>): Option<T> {
    if f.Present? then f.value else None
  }

  /** An odds entry with a null nested object: reading it raises `AttributeError`. */
  predicate HasNullObject(o: OddsEntry) {
    o.provider.Null? || o.homeTeamOdds.Null? || o.awayTeamOdds.Null?
  }

  function LineOf(e: Event, c: Competition, o: OddsEntry): FlatLine {
    FlatLine(
      c.id, e.name, e.shortName,
      if e.date.Some? then e.date.value.day else "",
      if e.date.Some? then e.date.value.time else "",
      EspnSource,
      Nested(o.provider), o.overUnder, o.spread, Nested(o.homeTeamOdds), Nested(o.awayTeamOdds))
  }

  /** The records of the odds entries `os` of competition `c`, in order. */
  function OddsLines(e: Event, c: Competition, os: seq<OddsEntry>): seq<FlatLine> {
    if os == [] then [] else OddsLines(e, c, os[..|os| - 1]) + [LineOf(e, c, os[|os| - 1])]
  }

  /** The records of the competitions `cs` of event `e`, in order. */
  function CompetitionLines(e: Event, cs: seq<Competition>): seq<FlatLine> {
    if cs == [] then []
    else CompetitionLines(e, cs[..|cs| - 1]) + OddsLines(e, cs[|cs| - 1], cs[|cs| - 1].odds)
  }

  /** Some odds entry of the competitions `cs` has a null nested object. */
  predicate SomeNullObject(cs: seq<Competition>) {
    exists j, k :: 0 <= j < |cs| && 0 <= k < |cs[j].odds| && HasNullObject(cs[j].odds[k])
  }

  /** The walk's outcome: the records, the `return False`, or the exception a null raises. */
  datatype Walk = Walked(lines: seq<FlatLine>) | WalkedFalse | WalkRaised(failure: Failure)

  /** One event: no `competitions` key returns False, a null one cannot be iterated, and a null
      nested object in one of its odds entries raises; otherwise its records. */
  function EventWalk(e: Event): Walk {
    match e.competitions
    case Missing => WalkedFalse
    case Null => WalkRaised(NotIterable)
    case Present(cs) => if SomeNullObject(cs) then WalkRaised(NullObject) else Walked(CompetitionLines(e, cs))
  }

  /** The events in order; the first event that does not walk ends the walk with its outcome. */
  function WalkEvents(evs: seq<Event>): Walk {
    if evs == [] then Walked([])
    else
      match WalkEvents(evs[..|evs| - 1])
      case Walked(lines) =>
        (match EventWalk(evs[|evs| - 1])
         case Walked(more) => Walked(lines + more)
         case stop => stop)
      case stop => stop
  }

  /** The whole walk: a payload without `events` gives no records, a null `events` cannot be iterated. */
  function Flatten(events: Field<seq<Event>>): Walk {
    match events
    case Missing => Walked([])
    case Null => WalkRaised(NotIterable)
    case Present(evs) => WalkEvents(evs)
  }

  /** The innermost loop: one record per odds entry of competition `c`, or `None` at the first
      entry with a null nested object. */
  method OddsRecords(e: Event, c: Competition) returns (r: Option<seq<FlatLine>>)
    ensures r.None? <==> exists k :: 0 <= k < |c.odds| && HasNullObject(c.odds[k])
    ensures r.Some? ==> r.value == OddsLines(e, c, c.odds)
  {
    var lines := [];
    var k := 0;
    while k < |c.odds|
      invariant 0 <= k <= |c.odds|
      invariant forall m :: 0 <= m < k ==> !HasNullObject(c.odds[m])
      invariant lines == OddsLines(e, c, c.odds[..k])
    {
      assert c.odds[..k + 1][..k] == c.odds[..k];
      var o := c.odds[k];
      if HasNullObject(o) {
        return None;
      }
      lines := lines + [LineOf(e, c, o)];
      k := k + 1;
    }
    assert c.odds[..k] == c.odds;
    return Some(lines);
  }

  /** The loop over an event's competitions; competitions with an empty `odds` list add nothing. */
  method CompetitionRecords(e: Event, cs: seq<Competition>) returns (r: Option<seq<FlatLine>>)
    ensures r.None? <==> SomeNullObject(cs)
    ensures r.Some? ==> r.value == CompetitionLines(e, cs)
  {
    var lines := [];
    var j := 0;
    while j < |cs|
      invariant 0 <= j <= |cs|
      invariant forall j2, k :: 0 <= j2 < j && 0 <= k < |cs[j2].odds| ==> !HasNullObject(cs[j2].odds[k])
      invariant lines == CompetitionLines(e, cs[..j])
    {
      assert cs[..j + 1][..j] == cs[..j];
      if cs[j].odds != [] {
        var more := OddsRecords(e, cs[j]);
        if more.None? {
          var k :| 0 <= k < |cs[j].odds| && HasNullObject(cs[j].odds[k]);
          return None;
        }
        lines := lines + more.value;
      }
      j := j + 1;
    }
    assert cs[..j] == cs;
    return Some(lines);
  }

  /** The outer loop of the scoreboard walk. */
  method WalkScoreboard(events: Field<seq<Event>>) returns (r: Walk)
    ensures r == Flatten(events)
  {
    if events.Missing? {
      return Walked([]);
    }
    if events.Null? {
      return WalkRaised(NotIterable);
    }
    var evs := events.value;
    var lines: seq<FlatLine> := [];
    var i := 0;
    while i < |evs|
      invariant 0 <= i <= |evs|
      invariant WalkEvents(evs[..i]) == Walked(lines)
    {
      assert evs[..i + 1][..i] == evs[..i];
      var e := evs[i];
      if e.competitions.Missing? {
        WalkStopsAtPrefix(evs, i + 1);
        return WalkedFalse;
      }
      if e.competitions.Null? {
        WalkStopsAtPrefix(evs, i + 1);
        return WalkRaised(NotIterable);
      }
      var more := CompetitionRecords(e, e.competitions.value);
      if more.None? {
        WalkStopsAtPrefix(evs, i + 1);
        return WalkRaised(NullObject);
      }
      lines := lines + more.value;
      i := i + 1;
    }
    assert evs[..i] == evs;
    return Walked(lines);
  }

  /** Once a prefix of the events stops the walk, the whole walk stops the same way. */
  lemma {:induction false} WalkStopsAtPrefix(evs: seq<Event>, n: nat)
    requires n <= |evs| && !WalkEvents(evs[..n]).Walked?
    ensures WalkEvents(evs) == WalkEvents(evs[..n])
    decreases |evs| - n
  {
    if n < |evs| {
      assert evs[..n + 1][..n] == evs[..n];
      WalkStopsAtPrefix(evs, n + 1);
    } else {
      assert evs[..n] == evs;
    }
  }

  /** The records of the events, as the walk emits them when nothing stops it. */
  function AllLines(evs: seq<Event>): seq<FlatLine> {
    if evs == [] then []
    else
      AllLines(evs[..|evs| - 1])
      + match evs[|evs| - 1].competitions
        case Present(cs) => CompetitionLines(evs[|evs| - 1], cs)
        case _ => []
  }

  /** The number of odds entries over all competitions of all events. */
  function OddsCount(evs: seq<Event>): nat {
    if evs == [] then 0
    else
      OddsCount(evs[..|evs| - 1])
      + match evs[|evs| - 1].competitions
        case Present(cs) => CompetitionOddsCount(cs)
        case _ => 0
  }

  function CompetitionOddsCount(cs: seq<Competition>): nat {
    if cs == [] then 0 else CompetitionOddsCount(cs[..|cs| - 1]) + |cs[|cs| - 1].odds|
  }

  lemma {:induction false} OddsLinesShape(e: Event, c: Competition, os: seq<OddsEntry>)
    ensures |OddsLines(e, c, os)| == |os|
    ensures forall n :: 0 <= n < |os| ==> OddsLines(e, c, os)[n] == LineOf(e, c, os[n])
  {
    if os != [] {
      OddsLinesShape(e, c, os[..|os| - 1]);
    }
  }

  lemma {:induction false} CompetitionLinesShape(e: Event, cs: seq<Competition>)
    ensures |CompetitionLines(e, cs)| == CompetitionOddsCount(cs)
    ensures forall n :: 0 <= n < |CompetitionLines(e, cs)| ==> CompetitionLines(e, cs)[n].source == EspnSource
  {
    if cs != [] {
      CompetitionLinesShape(e, cs[..|cs| - 1]);
      OddsLinesShape(e, cs[|cs| - 1], cs[|cs| - 1].odds);
    }
  }

  /** The walk emits exactly one record per odds entry, each tagged 'espn_bets'. */
  lemma {:induction false} WalkEmitsOneLinePerOddsEntry(evs: seq<Event>)
    ensures |AllLines(evs)| == OddsCount(evs)
    ensures forall n :: 0 <= n < |AllLines(evs)| ==> AllLines(evs)[n].source == EspnSource
  {
    if evs != [] {
      WalkEmitsOneLinePerOddsEntry(evs[..|evs| - 1]);
      var e := evs[|evs| - 1];
      if e.competitions.Present? {
        CompetitionLinesShape(e, e.competitions.value);
      }
    }
  }

  /** The walk completes exactly when every event walks, and then its records are `AllLines`;
      otherwise its outcome is that of the first event that does not walk. */
  lemma {:induction false} WalkStopsAtFirstEvent(evs: seq<Event>)
    ensures WalkEvents(evs).Walked? <==> forall k :: 0 <= k < |evs| ==> EventWalk(evs[k]).Walked?
    ensures WalkEvents(evs).Walked? ==> WalkEvents(evs).lines == AllLines(evs)
    ensures !WalkEvents(evs).Walked? ==>
      exists k :: 0 <= k < |evs| && WalkEvents(evs) == EventWalk(evs[k]) &&
                  forall m :: 0 <= m < k ==> EventWalk(evs[m]).Walked?
  {
    if evs != [] {
      var init, last := evs[..|evs| - 1], evs[|evs| - 1];
      WalkStopsAtFirstEvent(init);
      assert forall k :: 0 <= k < |init| ==> init[k] == evs[k];
      if WalkEvents(init).Walked? && !WalkEvents(evs).Walked? {
        assert WalkEvents(evs) == EventWalk(evs[|evs| - 1]);
      }
    }
  }

  /** An event without `competitions` makes the walk return False, unless an earlier event raised;
      a null `competitions` or a null nested object raises; a payload without `events` gives no records. */
  lemma WalkAbortsOnEventWithoutCompetitions(events: Field<seq<Event>>)
    ensures Flatten(events) == WalkedFalse <==>
      events.Present? &&
      exists k :: 0 <= k < |events.value| && events.value[k].competitions.Missing? &&
                  forall m :: 0 <= m < k ==> EventWalk(events.value[m]).Walked?
    ensures Flatten(events).WalkRaised? <==>
      events.Null? ||
      (events.Present? &&
       exists k :: 0 <= k < |events.value| &&
                   (events.value[k].competitions.Null? ||
                    (events.value[k].competitions.Present? && SomeNullObject(events.value[k].competitions.value))) &&
                   forall m :: 0 <= m < k ==> EventWalk(events.value[m]).Walked?)
    ensures events.Missing? ==> Flatten(events) == Walked([])
  {
    if events.Present? {
      var evs := events.value;
      WalkStopsAtFirstEvent(evs);
      forall k | 0 <= k < |evs| && !EventWalk(evs[k]).Walked? && forall m :: 0 <= m < k ==> EventWalk(evs[m]).Walked?
        ensures WalkEvents(evs) == EventWalk(evs[k])
      {
        var k' :| 0 <= k' < |evs| && WalkEvents(evs) == EventWalk(evs[k']) &&
                  forall m :: 0 <= m < k' ==> EventWalk(evs[m]).Walked?;
        assert k' == k;
      }
    }
  }

  // ---------------------------------------------------------------------------
  // Restructuring one flat record

  /** The exceptions the adapter can raise: iterating a null list (`TypeError`), `.get` on a null
      object (`AttributeError`), `None.split` (no short name), an index error (no '@' in it), and
      comparing a `None` spread with 0. */
  datatype Failure = NotIterable | NullObject | ShortNameMissing | NoAtSign | SpreadMissing

  /** The gameline shape served to clients. */
  datatype Gameline = Gameline(
    home: string,
    away: string,
    homeMl: Cell,
    awayMl: Cell,
    homeSpread: string,
    awaySpread: string,
    homeSpreadOdds: string,
    awaySpreadOdds: string,
    total: Cell,
    overOdds: string,
    underOdds: string,
    gameDay: string,
    startTime: string,
    source: string)

  /** `(away, home)` from `short_name.split('@')`: the first two pieces, stripped. */
  function Teams(shortName: Option<string>): Result<(string, string), Failure> {
    match shortName
    case None => Err(ShortNameMissing)
    case Some(s) =>
      var names := SplitOn(s, "@");
      if |names| < 2 then Err(NoAtSign) else Ok((Strip(names[0]), Strip(names[1])))
  }

  /** A moneyline read as a number, with a missing one read as 0. */
  function MoneylineValue(ml: Option<Num>): int {
    match ml
    case None => 0
    case Some(n) => Halves(n)
  }

  /** Python's f-string rendering of the spread, which prints a missing one as 'None'. */
  function SpreadText(spread: Option<Num>): string {
    match spread
    case None => "None"
    case Some(x) => NumText(x)
  }

  /** `(home_spread, away_spread)`: with both moneylines present and non-zero the favourite
      (strictly lower moneyline, else the away team) gets '-'; otherwise the raw spread's sign decides. */
  function Spreads(homeMl: Option<Num>, awayMl: Option<Num>, spread: Option<Num>): Option<(string, string)> {
    var h := MoneylineValue(homeMl);
    var a := MoneylineValue(awayMl);
    if h != 0 && a != 0 then
      var t := SpreadText(spread);
      if h < a then Some(("-" + t, "+" + t)) else Some(("+" + t, "-" + t))
    else
      match spread
      case None => None
      case Some(x) =>
        if Halves(x) > 0 then Some(("-" + NumText(x), "+" + NumText(x)))
        else Some(("+" + NumText(AbsNum(x)), "-" + NumText(AbsNum(x))))
  }

  function OrNotAvailable(v: Option<Num>): Cell {
    match v
    case None => NotAvailable
    case Some(n) => Number(n)
  }

  /** The body of the restructuring loop for one record. */
  function Restructure(g: FlatLine): Result<Gameline, Failure> {
    match Teams(g.shortName)
    case Err(f) => Err(f)
    case Ok((away, home)) =>
      match Spreads(g.homeMoneyline, g.awayMoneyline, g.spread)
      case None => Err(SpreadMissing)
      case Some((hs, aws)) =>
        Ok(Gameline(
          home, away,
          OrNotAvailable(g.homeMoneyline), OrNotAvailable(g.awayMoneyline),
          hs, aws, StandardOdds, StandardOdds,
          OrNotAvailable(g.overUnder), StandardOdds, StandardOdds,
          g.gameDay, g.startTime, g.source))
  }

  /** Restructuring a list: the records in order, or the exception of the first record that raises. */
  function RestructureAll(gs: seq<FlatLine>): Result<seq<Gameline>, Failure> {
    MapAll(Restructure, gs)
  }

  /** The loop of `restructure_gameline_data`, appending one gameline per record. */
  method RestructureGamelineData(raw: seq<FlatLine>) returns (r: Result<seq<Gameline>, Failure>)
    ensures r == RestructureAll(raw)
  {
    var structured: seq<Gameline> := [];
    var i := 0;
    while i < |raw|
      invariant 0 <= i <= |raw|
      invariant MapAll(Restructure, raw[..i]) == Ok(structured)
    {
      var prefix := raw[..i + 1];
      assert prefix[..i] == raw[..i] && prefix[i] == raw[i];
      var one := Restructure(raw[i]);
      if one.Err? {
        assert MapAll(Restructure, prefix) == Err(one.error);
        MapAllPrefixFailure(Restructure, raw, i + 1);
        return Err(one.error);
      }
      assert MapAll(Restructure, prefix) == Ok(structured + [one.value]);
      structured := structured + [one.value];
      i := i + 1;
    }
    assert raw[..i] == raw;
    return Ok(structured);
  }

  /** A successful restructuring has one gameline per record, in input order. */
  lemma RestructureKeepsOrder(gs: seq<FlatLine>)
    requires RestructureAll(gs).Ok?
    ensures |RestructureAll(gs).value| == |gs|
    ensures forall k :: 0 <= k < |gs| ==> Restructure(gs[k]) == Ok(RestructureAll(gs).value[k])
  {
    MapAllKeepsOrder(Restructure, gs);
  }

  /** Restructuring fails exactly when some record fails, and then with the exception of the first one. */
  lemma RestructureFailsAtFirstBadRecord(gs: seq<FlatLine>)
    ensures RestructureAll(gs).Ok? <==> forall k :: 0 <= k < |gs| ==> Restructure(gs[k]).Ok?
    ensures RestructureAll(gs).Err? ==>
      exists k :: 0 <= k < |gs| && Restructure(gs[k]) == Err(RestructureAll(gs).error) &&
                  forall m :: 0 <= m < k ==> Restructure(gs[m]).Ok?
  {
    MapAllFailsAtFirstError(Restructure, gs);
  }

  /** No short name, or no '@' in it, raises; otherwise the split yields both teams. */
  lemma TeamsNeedAnAtSign(shortName: Option<string>)
    ensures shortName.None? ==> Teams(shortName) == Err(ShortNameMissing)
    ensures shortName.Some? ==> (Teams(shortName).Err? <==> !Contains(shortName.value, "@"))
    ensures shortName.Some? && Teams(shortName).Err? ==> Teams(shortName) == Err(NoAtSign)
  {
    if shortName.Some? {
      SplitPiecesLackSeparator(shortName.value, "@");
    }
  }

  /** Away is the stripped text before the first '@', home the stripped text between the
      first '@' and the next one (or the end). */
  lemma TeamsSplitAtFirstAtSign(s: string, i: nat)
    requires Find(s, "@") == Some(i)
    ensures Teams(Some(s)) == Ok((Strip(s[..i]), Strip(SplitOn(s[i + 1..], "@")[0])))
  {
    SplitFirstTwo(s, "@", i);
  }

  /** In every branch one spread starts with '-' and the other with '+', and the remaining text is the same. */
  lemma SpreadSignsOpposite(homeMl: Option<Num>, awayMl: Option<Num>, spread: Option<Num>)
    requires Spreads(homeMl, awayMl, spread).Some?
    ensures var (hs, aws) := Spreads(homeMl, awayMl, spread).value;
      |hs| >= 2 && |aws| >= 2 &&
      ((hs[0] == '-' && aws[0] == '+') || (hs[0] == '+' && aws[0] == '-')) &&
      hs[1..] == aws[1..]
  {
  }

  /** With both moneylines present and non-zero, home is the '-' side exactly when its moneyline
      is strictly lower; equal moneylines make the away team the favourite. */
  lemma FavouriteGetsMinus(homeMl: Option<Num>, awayMl: Option<Num>, spread: Option<Num>)
    requires MoneylineValue(homeMl) != 0 && MoneylineValue(awayMl) != 0
    ensures Spreads(homeMl, awayMl, spread).Some?
    ensures var (hs, aws) := Spreads(homeMl, awayMl, spread).value;
      (hs[0] == '-' <==> MoneylineValue(homeMl) < MoneylineValue(awayMl)) &&
      (MoneylineValue(homeMl) == MoneylineValue(awayMl) ==> aws[0] == '-') &&
      hs[1..] == SpreadText(spread)
  {
  }

  /** Without a usable moneyline the raw spread decides: a positive spread gives home '-spread',
      anything else gives home '+|spread|' and away '-|spread|'; a missing spread raises. */
  lemma FallbackUsesRawSpread(homeMl: Option<Num>, awayMl: Option<Num>, spread: Option<Num>)
    requires MoneylineValue(homeMl) == 0 || MoneylineValue(awayMl) == 0
    ensures spread.None? <==> Spreads(homeMl, awayMl, spread).None?
    ensures spread.Some? && Halves(spread.value) > 0 ==>
      Spreads(homeMl, awayMl, spread) == Some(("-" + NumText(spread.value), "+" + NumText(spread.value)))
    ensures spread.Some? && Halves(spread.value) <= 0 ==>
      var t := NumText(AbsNum(spread.value));
      Spreads(homeMl, awayMl, spread) == Some(("+" + t, "-" + t))
  {
  }

  /** The defaults of a restructured record: 'N/A' for missing moneylines and total, '-110' for
      all four spread and total odds, the record's own day, time and source. */
  lemma RestructureDefaults(g: FlatLine)
    requires Restructure(g).Ok?
    ensures var r := Restructure(g).value;
      r.homeSpreadOdds == StandardOdds && r.awaySpreadOdds == StandardOdds &&
      r.overOdds == StandardOdds && r.underOdds == StandardOdds &&
      (g.homeMoneyline.None? <==> r.homeMl == NotAvailable) &&
      (g.awayMoneyline.None? <==> r.awayMl == NotAvailable) &&
      (g.overUnder.None? <==> r.total == NotAvailable) &&
      (g.homeMoneyline.Some? ==> r.homeMl == Number(g.homeMoneyline.value)) &&
      (g.overUnder.Some? ==> r.total == Number(g.overUnder.value)) &&
      r.gameDay == g.gameDay && r.startTime == g.startTime && r.source == g.source
  {
  }

  /** The spreads cannot be formed exactly when the raw spread is missing and decides. */
  lemma SpreadsFailWhen(homeMl: Option<Num>, awayMl: Option<Num>, spread: Option<Num>)
    ensures Spreads(homeMl, awayMl, spread).None? <==>
      spread.None? && (MoneylineValue(homeMl) == 0 || MoneylineValue(awayMl) == 0)
  {
  }

  /** A record raises exactly when it has no short name, no '@' in it, or no spread where the spread decides. */
  lemma RestructureFailsWhen(g: FlatLine)
    ensures Restructure(g).Err? <==>
      g.shortName.None? || !Contains(g.shortName.value, "@") ||
      (g.spread.None? && (MoneylineValue(g.homeMoneyline) == 0 || MoneylineValue(g.awayMoneyline) == 0))
  {
    TeamsNeedAnAtSign(g.shortName);
    SpreadsFailWhen(g.homeMoneyline, g.awayMoneyline, g.spread);
    if Teams(g.shortName).Ok? {
      assert Restructure(g).Err? <==> Spreads(g.homeMoneyline, g.awayMoneyline, g.spread).None?;
    }
  }

  // ---------------------------------------------------------------------------
  // The adapter entry points

  /** What `get_espn_bets_gamelines` hands back: a list, `False`, or an exception. */
  datatype Outcome = Lines(lines: seq<Gameline>) | ReturnedFalse | Raised(failure: Failure)

  function EspnBetsGamelines(board: Scoreboard): Outcome {
    match board
    case FetchFailed => Lines([])
    case Payload(events) =>
      match Flatten(events)
      case WalkedFalse => ReturnedFalse
      case WalkRaised(f) => Raised(f)
      case Walked(lines) =>
        match RestructureAll(lines)
        case Ok(gs) => Lines(gs)
        case Err(f) => Raised(f)
  }

  /** `get_espn_bets_gamelines` after the request: walk, then restructure. The assignment to
      `espn_api_successful` inside it binds a local, so no module state changes. */
  method GetEspnBetsGamelines(board: Scoreboard) returns (r: Outcome)
    ensures r == EspnBetsGamelines(board)
  {
    if board.FetchFailed? {
      return Lines([]);
    }
    var flat := WalkScoreboard(board.events);
    if flat.WalkedFalse? {
      return ReturnedFalse;
    }
    if flat.WalkRaised? {
      return Raised(flat.failure);
    }
    var gl := RestructureGamelineData(flat.lines);
    if gl.Err? {
      return Raised(gl.error);
    }
    return Lines(gl.value);
  }

  /** End to end: a failed request gives no gamelines; a payload that yields gamelines yields one
      per odds entry, each tagged 'espn_bets'. */
  lemma AdapterYieldsOneGamelinePerOddsEntry(board: Scoreboard)
    ensures board.FetchFailed? ==> EspnBetsGamelines(board) == Lines([])
    ensures EspnBetsGamelines(board).Lines? && board.Payload? && board.events.Present? ==>
      |EspnBetsGamelines(board).lines| == OddsCount(board.events.value) &&
      forall n :: 0 <= n < |EspnBetsGamelines(board).lines| ==> EspnBetsGamelines(board).lines[n].source == EspnSource
  {
    if board.Payload? && board.events.Present? && Flatten(board.events).Walked? {
      var lines := AllLines(board.events.value);
      WalkStopsAtFirstEvent(board.events.value);
      WalkEmitsOneLinePerOddsEntry(board.events.value);
      if RestructureAll(lines).Ok? {
        RestructureKeepsOrder(lines);
        forall n | 0 <= n < |lines|
          ensures RestructureAll(lines).value[n].source == EspnSource
        {
          RestructureDefaults(lines[n]);
        }
      }
    }
  }

  /** `get_ncaaf_gamelines(source='espn_bets')`: only the 'espn_bets' source is served; any other
      gives an empty list. */
  method GetNcaafGamelines(board: Scoreboard, source: string := EspnSource) returns (r: Outcome)
    ensures source == EspnSource ==> r == EspnBetsGamelines(board)
    ensures source != EspnSource ==> r == Lines([])
  {
    if source == EspnSource {
      r := GetEspnBetsGamelines(board);
    } else {
      r := Lines([]);
    }
  }

  /** The response envelope of `format_ncaaf_api_response`; the timestamp is an input. */
  datatype ApiResponse<T> = ApiResponse(gamelines: seq<T>, source: string, lastUpdated: string, gameCount: nat)

  function FormatNcaafApiResponse<T>(gamelines: seq<T>, lastUpdated: string, source: string := EspnSource): (r: ApiResponse<T>)
    ensures r.gameCount == |r.gamelines| && r.gamelines == gamelines
    ensures r.source == source && r.lastUpdated == lastUpdated
  {
    ApiResponse(gamelines, source, lastUpdated, |gamelines|)
  }
}
