/** The DraftKings adapter, after the page's embedded state has been extracted and parsed:
    the search of the candidate data locations and league ids for the NCAAF events, the choice
    of the markets and selections, and the per-event join that fills a gameline record. */
module DraftKings {
  import opened Values

  /** The NCAAF league ids tried, in this order. */
  const LeagueIds: seq<string> := ["88809", "84606", "87637"]

  // ---------------------------------------------------------------------------
  // The parsed state, as far as the adapter reads it

  /** A participant; its `name` is read with `[]`, so a missing one raises and a null one is kept as `None`. */
  datatype Participant = Participant(name: Field<string>)

  /** An event. `id` is read with `[]` and the others with `.get`: `participants` defaults to [],
      `startEventDate` to '' and `status` to 'NOT_STARTED', while a null is read as `None`.
      `leagueId` is `None` when missing or null. */
  datatype DkEvent = DkEvent(
    id: Field<string>,
    leagueId: Option<string>,
    participants: Field<seq<Participant>>,
    startEventDate: Field<string>,
    status: Field<string>)

  /** A market. `id` is read with `[]`; `eventId` is `None` when missing or null; `marketType` is
      an object read through `.get('marketType', {}).get('name', '')`. */
  datatype Market = Market(id: Field<string>, eventId: Option<string>, marketType: Field<Field<string>>)

  /** A selection. `marketId`, `outcomeType` and `labelName` are `None` when missing or null;
      `displayOdds` is an object read through `.get('displayOdds', {}).get('american', 'N/A')`
      and `points` is read through `.get('points', 'N/A')`. */
  datatype Selection = Selection(
    marketId: Option<string>,
    outcomeType: Option<string>,
    labelName: Option<string>,
    displayOdds: Field<Field<Cell>>,
    points: Field<Cell>)

  /** One candidate data location: a dictionary whose `events`, `markets` and `selections` keys
      may be present or not; `otherKeys` records whether it holds any other key. */
  datatype Location = Location(
    events: Option<seq<DkEvent>>,
    markets: Option<seq<Market>>,
    selections: Option<seq<Selection>>,
    otherKeys: bool)

  /** An empty dictionary, which the search skips. */
  predicate IsEmpty(loc: Location) {
    loc.events.None? && loc.markets.None? && loc.selections.None? && !loc.otherKeys
  }

  /** `loc.get('events', [])`. */
  function EventsAt(loc: Location): seq<DkEvent> {
    loc.events.GetOr([])
  }

  // ---------------------------------------------------------------------------
  // Choosing the events

  function LeagueIdOf(e: DkEvent): Option<string> {
    e.leagueId
  }

  /** The comprehension `[e for e in events if e.get('leagueId') == lid]`: exactly the events of
      the league, in their order. */
  function EventsOfLeague(evs: seq<DkEvent>, lid: string): (r: seq<DkEvent>)
    ensures |r| <= |evs|
    ensures forall k :: 0 <= k < |r| ==> r[k].leagueId == Some(lid)
    ensures forall k :: 0 <= k < |evs| && evs[k].leagueId == Some(lid) ==> evs[k] in r
    ensures r == [] <==> forall k :: 0 <= k < |evs| ==> evs[k].leagueId != Some(lid)
  {
    Matching(LeagueIdOf, Some(lid), evs)
  }

  /** The league's events are exactly the events with that `leagueId`, each once and in their order. */
  lemma EventsOfLeagueInOrder(evs: seq<DkEvent>, lid: string)
    ensures exists pos :: (PicksInOrder(EventsOfLeague(evs, lid), evs, pos) &&
      forall k :: 0 <= k < |evs| ==> (k in pos <==> evs[k].leagueId == Some(lid)))
  {
    MatchingPicksTheMatches(LeagueIdOf, Some(lid), evs);
    assert PicksInOrder(EventsOfLeague(evs, lid), evs, MatchingPositions(LeagueIdOf, Some(lid), evs));
  }

  /** The first league id, in order, whose filter of `evs` is non-empty; [] when none is. */
  function FirstLeagueMatch(evs: seq<DkEvent>, leagues: seq<string>): seq<DkEvent> {
    if leagues == [] then []
    else
      var f := EventsOfLeague(evs, leagues[0]);
      if f != [] then f else FirstLeagueMatch(evs, leagues[1..])
  }

  /** The events the nested search settles on: the first non-empty location, in order, with a matching league. */
  function FirstLocationEvents(locs: seq<Location>): seq<DkEvent> {
    if locs == [] then []
    else if IsEmpty(locs[0]) then FirstLocationEvents(locs[1..])
    else
      var f := FirstLeagueMatch(EventsAt(locs[0]), LeagueIds);
      if f != [] then f else FirstLocationEvents(locs[1..])
  }

  /** The nested location/league loops, each of which stops at the first non-empty filter. */
  method FindLeagueEvents(locs: seq<Location>) returns (chosen: seq<DkEvent>)
    ensures chosen == FirstLocationEvents(locs)
  {
    chosen := [];
    var i := 0;
    while i < |locs|
      invariant 0 <= i <= |locs|
      invariant chosen == []
      invariant FirstLocationEvents(locs) == FirstLocationEvents(locs[i..])
    {
      assert locs[i..][1..] == locs[i + 1..];
      if IsEmpty(locs[i]) {
        i := i + 1;
        continue;
      }
      var evs := EventsAt(locs[i]);
      var j := 0;
      while j < |LeagueIds|
        invariant 0 <= j <= |LeagueIds|
        invariant chosen == []
        invariant FirstLeagueMatch(evs, LeagueIds) == FirstLeagueMatch(evs, LeagueIds[j..])
      {
        assert LeagueIds[j..][1..] == LeagueIds[j + 1..];
        chosen := EventsOfLeague(evs, LeagueIds[j]);
        if chosen != [] {
          break;
        }
        j := j + 1;
      }
      if chosen != [] {
        break;
      }
      i := i + 1;
    }
  }

  /** Location `i` and league `j` give a non-empty filter. */
  predicate Yields(locs: seq<Location>, i: int, j: int) {
    0 <= i < |locs| && 0 <= j < |LeagueIds| && EventsOfLeague(EventsAt(locs[i]), LeagueIds[j]) != []
  }

  lemma {:induction false} FirstLeagueMatchIsFirst(evs: seq<DkEvent>, leagues: seq<string>)
    ensures FirstLeagueMatch(evs, leagues) == [] <==>
      forall j :: 0 <= j < |leagues| ==> EventsOfLeague(evs, leagues[j]) == []
    ensures FirstLeagueMatch(evs, leagues) != [] ==>
      exists j :: 0 <= j < |leagues| && FirstLeagueMatch(evs, leagues) == EventsOfLeague(evs, leagues[j]) &&
                  forall j2 :: 0 <= j2 < j ==> EventsOfLeague(evs, leagues[j2]) == []
  {
    if leagues != [] {
      var tail := leagues[1..];
      FirstLeagueMatchIsFirst(evs, tail);
      if EventsOfLeague(evs, leagues[0]) == [] {
        assert FirstLeagueMatch(evs, leagues) == FirstLeagueMatch(evs, tail);
        if FirstLeagueMatch(evs, tail) != [] {
          var j :| 0 <= j < |tail| && FirstLeagueMatch(evs, tail) == EventsOfLeague(evs, tail[j]) &&
                   forall j2 :: 0 <= j2 < j ==> EventsOfLeague(evs, tail[j2]) == [];
          assert tail[j] == leagues[j + 1];
          forall j2 | 0 <= j2 < j + 1 ensures EventsOfLeague(evs, leagues[j2]) == [] {
            if j2 > 0 { assert leagues[j2] == tail[j2 - 1]; }
          }
        } else {
          forall j | 0 <= j < |leagues| ensures EventsOfLeague(evs, leagues[j]) == [] {
            if j > 0 { assert leagues[j] == tail[j - 1]; }
          }
        }
      }
    }
  }

  /** The chosen events are the filter of the first (location, league) pair, in location order
      and then league order, whose filter is non-empty; none such gives []. Skipping empty
      locations loses nothing, since an empty location has no events. */
  lemma {:induction false} ChosenEventsAreFirstMatch(locs: seq<Location>)
    ensures FirstLocationEvents(locs) == [] <==> forall i, j :: !Yields(locs, i, j)
    ensures FirstLocationEvents(locs) != [] ==>
      exists i, j :: Yields(locs, i, j) &&
        FirstLocationEvents(locs) == EventsOfLeague(EventsAt(locs[i]), LeagueIds[j]) &&
        forall i2, j2 :: (i2 < i || (i2 == i && j2 < j)) ==> !Yields(locs, i2, j2)
  {
    if locs != [] {
      var rest := locs[1..];
      ChosenEventsAreFirstMatch(rest);
      FirstLeagueMatchIsFirst(EventsAt(locs[0]), LeagueIds);
      assert forall i, j :: 0 <= i < |rest| ==> (Yields(rest, i, j) <==> Yields(locs, i + 1, j));
      var here := FirstLeagueMatch(EventsAt(locs[0]), LeagueIds);
      if IsEmpty(locs[0]) {
        assert EventsAt(locs[0]) == [];
      }
      if IsEmpty(locs[0]) || here == [] {
        forall j | 0 <= j < |LeagueIds| ensures !Yields(locs, 0, j) {
          assert EventsOfLeague(EventsAt(locs[0]), LeagueIds[j]) == [];
        }
        assert FirstLocationEvents(locs) == FirstLocationEvents(rest);
        forall i, j | Yields(locs, i, j) ensures Yields(rest, i - 1, j) { }
        if FirstLocationEvents(rest) != [] {
          var i, j :| Yields(rest, i, j) &&
            FirstLocationEvents(rest) == EventsOfLeague(EventsAt(rest[i]), LeagueIds[j]) &&
            forall i2, j2 :: (i2 < i || (i2 == i && j2 < j)) ==> !Yields(rest, i2, j2);
          assert Yields(locs, i + 1, j);
          forall i2, j2 | i2 < i + 1 || (i2 == i + 1 && j2 < j) ensures !Yields(locs, i2, j2) {
            if 0 < i2 { assert !Yields(rest, i2 - 1, j2); }
          }
        }
      } else {
        assert FirstLocationEvents(locs) == here;
        var j :| 0 <= j < |LeagueIds| && here == EventsOfLeague(EventsAt(locs[0]), LeagueIds[j]) &&
                 forall j2 :: 0 <= j2 < j ==> EventsOfLeague(EventsAt(locs[0]), LeagueIds[j2]) == [];
        assert Yields(locs, 0, j);
      }
    }
  }

  // ---------------------------------------------------------------------------
  // Choosing the markets and selections

  predicate HasMarkets(loc: Location) {
    loc.markets.Some? && loc.selections.Some?
  }

  /** The markets and selections of the first location holding both keys; none gives two empty lists. */
  function MarketSource(locs: seq<Location>): (seq<Market>, seq<Selection>) {
    if locs == [] then ([], [])
    else if HasMarkets(locs[0]) then (locs[0].markets.value, locs[0].selections.value)
    else MarketSource(locs[1..])
  }

  /** The loop over the locations that stops at the first one holding both keys. */
  method FindMarkets(locs: seq<Location>) returns (markets: seq<Market>, selections: seq<Selection>)
    ensures (markets, selections) == MarketSource(locs)
  {
    markets, selections := [], [];
    var i := 0;
    while i < |locs|
      invariant 0 <= i <= |locs|
      invariant MarketSource(locs) == MarketSource(locs[i..])
    {
      assert locs[i..][1..] == locs[i + 1..];
      if HasMarkets(locs[i]) {
        markets, selections := locs[i].markets.value, locs[i].selections.value;
        return;
      }
      i := i + 1;
    }
  }

  /** The markets and selections come from the first location holding both keys, whichever location
      supplied the events; with no such location both are empty. */
  lemma {:induction false} MarketsFromFirstLocationWithBoth(locs: seq<Location>)
    ensures (forall i :: 0 <= i < |locs| ==> !HasMarkets(locs[i])) ==> MarketSource(locs) == ([], [])
    ensures forall i :: 0 <= i < |locs| && HasMarkets(locs[i]) && (forall i2 :: 0 <= i2 < i ==> !HasMarkets(locs[i2])) ==>
      MarketSource(locs) == (locs[i].markets.value, locs[i].selections.value)
  {
    if locs != [] {
      MarketsFromFirstLocationWithBoth(locs[1..]);
      forall i | 0 < i < |locs| ensures locs[1..][i - 1] == locs[i] { }
    }
  }

  // ---------------------------------------------------------------------------
  // The per-event gameline

  /** The record built for one event: every odds field starts as 'N/A'. The identity fields are
      `None` where the source stores Python's `None`. */
  datatype DkGameline = DkGameline(
    eventId: Option<string>,
    home: Option<string>,
    away: Option<string>,
    startDate: Option<string>,
    status: Option<string>,
    homeMl: Cell,
    awayMl: Cell,
    homeSpread: Cell,
    awaySpread: Cell,
    homeSpreadOdds: Cell,
    awaySpreadOdds: Cell,
    total: Cell,
    overOdds: Cell,
    underOdds: Cell)

  /** `(away, home)` by position, 'Away'/'Home' when there are too few participants; `None` when
      reading them raises: a null `participants` (`len(None)`) or a used participant without `name`. */
  function TeamNames(participants: Field<seq<Participant>>): Option<(Option<string>, Option<string>)> {
    if participants.Null? then None
    else
      var ps := if participants.Present? then participants.value else [];
      var away := if |ps| > 0 then ps[0].name.Subscript() else Some(Some("Away"));
      var home := if |ps| > 1 then ps[1].name.Subscript() else Some(Some("Home"));
      if away.Some? && home.Some? then Some((away.value, home.value)) else None
  }

  function InitialGameline(e: DkEvent, id: Option<string>, away: Option<string>, home: Option<string>): DkGameline {
    DkGameline(id, home, away, e.startEventDate.GetOr(""), e.status.GetOr("NOT_STARTED"),
      NotAvailable, NotAvailable, NotAvailable, NotAvailable, NotAvailable, NotAvailable,
      NotAvailable, NotAvailable, NotAvailable)
  }

  /** `.get(key, 'N/A')` of a cell: 'N/A' for a missing key, `None` for a null. */
  function CellOrNotAvailable(f: Field<Cell>): Cell {
    match f
    case Missing => NotAvailable
    case Null => NoValue
    case Present(c) => c
  }

  /** `.get('displayOdds', {}).get('american', 'N/A')`; `None` when a null `displayOdds` raises. */
  function OddsOf(s: Selection): Option<Cell> {
    match s.displayOdds
    case Missing => Some(NotAvailable)
    case Null => None
    case Present(odds) => Some(CellOrNotAvailable(odds))
  }

  function PointsOf(s: Selection): Cell {
    CellOrNotAvailable(s.points)
  }

  /** `.get('marketType', {}).get('name', '')`; `None` when a null `marketType` raises. A null name
      reads as '', as both match no market type. */
  function TypeName(m: Market): Option<string> {
    match m.marketType
    case Missing => Some("")
    case Null => None
    case Present(name) => Some(if name.Present? then name.value else "")
  }

  /** The selection is one that the branch of a market of type `typeName` writes. */
  predicate Writes(typeName: string, s: Selection) {
    ((typeName == "Moneyline" || typeName == "Spread") && (s.outcomeType == Some("Home") || s.outcomeType == Some("Away"))) ||
    (typeName == "Total" && (s.labelName == Some("Over") || s.labelName == Some("Under")))
  }

  /** What the branch for a market of type `typeName` writes for selection `s`, given its odds. */
  function Written(g: DkGameline, typeName: string, s: Selection, odds: Cell): DkGameline {
    if typeName == "Moneyline" then
      if s.outcomeType == Some("Home") then g.(homeMl := odds)
      else if s.outcomeType == Some("Away") then g.(awayMl := odds)
      else g
    else if typeName == "Spread" then
      if s.outcomeType == Some("Home") then g.(homeSpread := PointsOf(s), homeSpreadOdds := odds)
      else if s.outcomeType == Some("Away") then g.(awaySpread := PointsOf(s), awaySpreadOdds := odds)
      else g
    else if typeName == "Total" then
      if s.labelName == Some("Over") then g.(total := PointsOf(s), overOdds := odds)
      else if s.labelName == Some("Under") then g.(underOdds := odds)
      else g
    else g
  }

  /** One selection of a market of type `typeName`: a selection its branch writes reads the odds,
      which raises on a null `displayOdds`; any other selection changes nothing. */
  function ApplySelection(g: DkGameline, typeName: string, s: Selection): Option<DkGameline> {
    if !Writes(typeName, s) then Some(g)
    else if OddsOf(s).None? then None
    else Some(Written(g, typeName, s, OddsOf(s).value))
  }

  /** The selections of one market, applied in order; `None` once one raises. */
  function ApplySelections(g: DkGameline, typeName: string, ss: seq<Selection>): Option<DkGameline> {
    if ss == [] then Some(g)
    else
      match ApplySelections(g, typeName, ss[..|ss| - 1])
      case None => None
      case Some(g') => ApplySelection(g', typeName, ss[|ss| - 1])
  }

  function EventIdOf(m: Market): Option<string> {
    m.eventId
  }

  function MarketIdOf(s: Selection): Option<string> {
    s.marketId
  }

  /** `[m for m in markets if m.get('eventId') == eid]`: exactly the markets of the event, in their order. */
  function MarketsOf(ms: seq<Market>, eid: Option<string>): (r: seq<Market>)
    ensures forall k :: 0 <= k < |r| ==> r[k].eventId == eid
    ensures forall k :: 0 <= k < |ms| && ms[k].eventId == eid ==> ms[k] in r
    ensures r == [] <==> forall k :: 0 <= k < |ms| ==> ms[k].eventId != eid
  {
    Matching(EventIdOf, eid, ms)
  }

  /** `[s for s in selections if s.get('marketId') == mid]`: exactly the market's selections, in their order. */
  function SelectionsOf(ss: seq<Selection>, mid: Option<string>): (r: seq<Selection>)
    ensures forall k :: 0 <= k < |r| ==> r[k].marketId == mid
    ensures forall k :: 0 <= k < |ss| && ss[k].marketId == mid ==> ss[k] in r
  {
    Matching(MarketIdOf, mid, ss)
  }

  /** The event's markets are exactly the markets whose `eventId` is the event's id, each once and in
      market order; likewise the market's selections. */
  lemma MarketsAndSelectionsInOrder(ms: seq<Market>, eid: Option<string>, ss: seq<Selection>, mid: Option<string>)
    ensures exists pos :: (PicksInOrder(MarketsOf(ms, eid), ms, pos) &&
      forall k :: 0 <= k < |ms| ==> (k in pos <==> ms[k].eventId == eid))
    ensures exists pos :: (PicksInOrder(SelectionsOf(ss, mid), ss, pos) &&
      forall k :: 0 <= k < |ss| ==> (k in pos <==> ss[k].marketId == mid))
  {
    MatchingPicksTheMatches(EventIdOf, eid, ms);
    assert PicksInOrder(MarketsOf(ms, eid), ms, MatchingPositions(EventIdOf, eid, ms));
    MatchingPicksTheMatches(MarketIdOf, mid, ss);
    assert PicksInOrder(SelectionsOf(ss, mid), ss, MatchingPositions(MarketIdOf, mid, ss));
  }

  /** The market raises before its selections are read: no `id` (a `KeyError`) or a null `marketType`. */
  predicate MarketRaises(m: Market) {
    m.id.Missing? || TypeName(m).None?
  }

  /** The event's markets applied in order; `None` once a market or a selection raises. */
  function ApplyMarkets(g: DkGameline, ms: seq<Market>, ss: seq<Selection>): Option<DkGameline> {
    if ms == [] then Some(g)
    else
      match ApplyMarkets(g, ms[..|ms| - 1], ss)
      case None => None
      case Some(g') =>
        var m := ms[|ms| - 1];
        if MarketRaises(m) then None else ApplySelections(g', TypeName(m).value, SelectionsOf(ss, m.id.Get()))
  }

  /** The gameline of one event, or `None` when processing it raises and it is skipped. */
  function EventGameline(e: DkEvent, ms: seq<Market>, ss: seq<Selection>): Option<DkGameline> {
    match TeamNames(e.participants)
    case None => None
    case Some((away, home)) =>
      if e.id.Missing? then None
      else ApplyMarkets(InitialGameline(e, e.id.Get(), away, home), MarketsOf(ms, e.id.Get()), ss)
  }

  /** The gamelines of the events that did not raise, in event order. */
  function Gamelines(evs: seq<DkEvent>, ms: seq<Market>, ss: seq<Selection>): seq<DkGameline> {
    Survivors((e: DkEvent) => EventGameline(e, ms, ss), evs)
  }

  /** The body of the `try` for one event: an all-'N/A' record, overwritten market by market
      and selection by selection. */
  method BuildEventGameline(e: DkEvent, markets: seq<Market>, selections: seq<Selection>) returns (r: Option<DkGameline>)
    ensures r == EventGameline(e, markets, selections)
  {
    var teams := TeamNames(e.participants);
    if teams.None? || e.id.Missing? {
      return None;
    }
    var (away, home) := teams.value;
    var id := e.id.Get();
    var g := InitialGameline(e, id, away, home);
    var eventMarkets := MarketsOf(markets, id);
    var i := 0;
    while i < |eventMarkets|
      invariant 0 <= i <= |eventMarkets|
      invariant ApplyMarkets(InitialGameline(e, id, away, home), eventMarkets[..i], selections) == Some(g)
    {
      var m := eventMarkets[i];
      assert eventMarkets[..i + 1][..i] == eventMarkets[..i];
      if m.id.Missing? || TypeName(m).None? {
        MarketFailurePropagates(InitialGameline(e, id, away, home), eventMarkets, selections, i + 1);
        return None;
      }
      var marketSelections := SelectionsOf(selections, m.id.Get());
      var applied := ApplyMarketSelections(g, TypeName(m).value, marketSelections);
      if applied.None? {
        MarketFailurePropagates(InitialGameline(e, id, away, home), eventMarkets, selections, i + 1);
        return None;
      }
      g := applied.value;
      i := i + 1;
    }
    assert eventMarkets[..i] == eventMarkets;
    return Some(g);
  }

  /** The selection loop of one market, writing into the record; `None` once a selection raises. */
  method ApplyMarketSelections(g0: DkGameline, marketType: string, marketSelections: seq<Selection>) returns (r: Option<DkGameline>)
    ensures r == ApplySelections(g0, marketType, marketSelections)
  {
    var g := g0;
    var k := 0;
    while k < |marketSelections|
      invariant 0 <= k <= |marketSelections|
      invariant ApplySelections(g0, marketType, marketSelections[..k]) == Some(g)
    {
      assert marketSelections[..k + 1][..k] == marketSelections[..k];
      var next := ApplySelection(g, marketType, marketSelections[k]);
      if next.None? {
        SelectionFailurePropagates(g0, marketType, marketSelections, k + 1);
        return None;
      }
      g := next.value;
      k := k + 1;
    }
    assert marketSelections[..k] == marketSelections;
    return Some(g);
  }

  lemma {:induction false} SelectionFailurePropagates(g: DkGameline, typeName: string, ss: seq<Selection>, n: nat)
    requires n <= |ss| && ApplySelections(g, typeName, ss[..n]).None?
    ensures ApplySelections(g, typeName, ss).None?
    decreases |ss| - n
  {
    if n < |ss| {
      assert ss[..n + 1][..n] == ss[..n];
      SelectionFailurePropagates(g, typeName, ss, n + 1);
    } else {
      assert ss[..n] == ss;
    }
  }

  lemma {:induction false} MarketFailurePropagates(g: DkGameline, ms: seq<Market>, ss: seq<Selection>, n: nat)
    requires n <= |ms| && ApplyMarkets(g, ms[..n], ss).None?
    ensures ApplyMarkets(g, ms, ss).None?
    decreases |ms| - n
  {
    if n < |ms| {
      assert ms[..n + 1][..n] == ms[..n];
      MarketFailurePropagates(g, ms, ss, n + 1);
    } else {
      assert ms[..n] == ms;
    }
  }

  /** The adapter's outcome: no page state gives []; otherwise the chosen events' gamelines. */
  function DraftKingsGamelines(page: Option<seq<Location>>): seq<DkGameline> {
    match page
    case None => []
    case Some(locs) =>
      var evs := FirstLocationEvents(locs);
      if evs == [] then []
      else
        var (ms, ss) := MarketSource(locs);
        Gamelines(evs, ms, ss)
  }

  /** `get_draftkings_ncaaf_gamelines` after extraction: `page` is `None` when the request, the
      state extraction or the JSON parse failed. */
  method GetDraftKingsNcaafGamelines(page: Option<seq<Location>>) returns (r: seq<DkGameline>)
    ensures r == DraftKingsGamelines(page)
  {
    if page.None? {
      return [];
    }
    var locs := page.value;
    var events := FindLeagueEvents(locs);
    if events == [] {
      return [];
    }
    var markets, selections := FindMarkets(locs);
    r := [];
    var i := 0;
    while i < |events|
      invariant 0 <= i <= |events|
      invariant r == Gamelines(events[..i], markets, selections)
    {
      assert events[..i + 1][..i] == events[..i];
      var g := BuildEventGameline(events[i], markets, selections);
      assert Gamelines(events[..i + 1], markets, selections) ==
        Gamelines(events[..i], markets, selections) + (if g.Some? then [g.value] else []);
      if g.Some? {
        r := r + [g.value];
      }
      i := i + 1;
    }
    assert events[..i] == events;
  }

  // ---------------------------------------------------------------------------
  // Properties of the join

  /** The odds fields of each side, and of the total. */
  function HomeFields(g: DkGameline): (Cell, Cell, Cell) { (g.homeMl, g.homeSpread, g.homeSpreadOdds) }
  function AwayFields(g: DkGameline): (Cell, Cell, Cell) { (g.awayMl, g.awaySpread, g.awaySpreadOdds) }
  function TotalFields(g: DkGameline): (Cell, Cell, Cell) { (g.total, g.overOdds, g.underOdds) }

  /** The identity fields: what the markets never change. */
  function Identity(g: DkGameline): (Option<string>, Option<string>, Option<string>, Option<string>, Option<string>) {
    (g.eventId, g.home, g.away, g.startDate, g.status)
  }

  /** A selection raises exactly when its market's branch writes it and its `displayOdds` is null. */
  lemma SelectionRaisesOnNullOdds(g: DkGameline, typeName: string, s: Selection)
    ensures ApplySelection(g, typeName, s).None? <==> Writes(typeName, s) && s.displayOdds.Null?
    ensures !Writes(typeName, s) ==> ApplySelection(g, typeName, s) == Some(g)
  {
  }

  /** Odds and points are 'N/A' when their key is missing, `None` when it is null, and the value otherwise. */
  lemma NullOddsAreKept(s: Selection)
    ensures s.displayOdds.Missing? || s.displayOdds == Present(Missing) ==> OddsOf(s) == Some(NotAvailable)
    ensures s.displayOdds == Present(Null) ==> OddsOf(s) == Some(NoValue)
    ensures s.points.Missing? ==> PointsOf(s) == NotAvailable
    ensures s.points.Null? ==> PointsOf(s) == NoValue
    ensures s.points.Present? ==> PointsOf(s) == s.points.value
  {
  }

  /** In Moneyline and Spread markets a 'Home' selection writes only home fields and an 'Away'
      selection only away fields: the odds for the moneyline, and the points and odds for the spread.
      The total fields are left alone. */
  lemma SidesWriteOnlyTheirFields(g: DkGameline, typeName: string, s: Selection)
    requires typeName == "Moneyline" || typeName == "Spread"
    requires ApplySelection(g, typeName, s).Some?
    ensures var g' := ApplySelection(g, typeName, s).value;
      Identity(g') == Identity(g) && TotalFields(g') == TotalFields(g) &&
      (s.outcomeType == Some("Home") ==> AwayFields(g') == AwayFields(g)) &&
      (s.outcomeType == Some("Away") ==> HomeFields(g') == HomeFields(g))
    ensures s.outcomeType != Some("Home") && s.outcomeType != Some("Away") ==> ApplySelection(g, typeName, s) == Some(g)
    ensures typeName == "Moneyline" && s.outcomeType == Some("Home") ==>
      ApplySelection(g, typeName, s) == Some(g.(homeMl := OddsOf(s).value))
    ensures typeName == "Moneyline" && s.outcomeType == Some("Away") ==>
      ApplySelection(g, typeName, s) == Some(g.(awayMl := OddsOf(s).value))
    ensures typeName == "Spread" && s.outcomeType == Some("Home") ==>
      ApplySelection(g, typeName, s) == Some(g.(homeSpread := PointsOf(s), homeSpreadOdds := OddsOf(s).value))
    ensures typeName == "Spread" && s.outcomeType == Some("Away") ==>
      ApplySelection(g, typeName, s) == Some(g.(awaySpread := PointsOf(s), awaySpreadOdds := OddsOf(s).value))
  {
  }

  /** In a Total market 'Over' sets the total and the over odds, 'Under' only the under odds;
      markets of any other type change nothing. */
  lemma TotalMarketFields(g: DkGameline, typeName: string, s: Selection)
    ensures typeName == "Total" && s.labelName == Some("Over") && OddsOf(s).Some? ==>
      ApplySelection(g, typeName, s) == Some(g.(total := PointsOf(s), overOdds := OddsOf(s).value))
    ensures typeName == "Total" && s.labelName == Some("Under") && OddsOf(s).Some? ==>
      ApplySelection(g, typeName, s) == Some(g.(underOdds := OddsOf(s).value))
    ensures typeName != "Moneyline" && typeName != "Spread" && typeName != "Total" ==>
      ApplySelection(g, typeName, s) == Some(g)
  {
  }

  /** The nine odds fields of a gameline record. */
  datatype OddsField = HomeMl | AwayMl | HomeSpread | HomeSpreadOdds | AwaySpread | AwaySpreadOdds
                     | TotalPoints | OverOdds | UnderOdds

  function FieldOf(g: DkGameline, f: OddsField): Cell {
    match f
    case HomeMl => g.homeMl
    case AwayMl => g.awayMl
    case HomeSpread => g.homeSpread
    case HomeSpreadOdds => g.homeSpreadOdds
    case AwaySpread => g.awaySpread
    case AwaySpreadOdds => g.awaySpreadOdds
    case TotalPoints => g.total
    case OverOdds => g.overOdds
    case UnderOdds => g.underOdds
  }

  /** The type of the market whose branch writes the field. */
  function MarketTypeOf(f: OddsField): string {
    match f
    case HomeMl | AwayMl => "Moneyline"
    case HomeSpread | HomeSpreadOdds | AwaySpread | AwaySpreadOdds => "Spread"
    case TotalPoints | OverOdds | UnderOdds => "Total"
  }

  /** The selection is one that its market's branch writes into the field. */
  predicate WritesField(f: OddsField, s: Selection) {
    match f
    case HomeMl | HomeSpread | HomeSpreadOdds => s.outcomeType == Some("Home")
    case AwayMl | AwaySpread | AwaySpreadOdds => s.outcomeType == Some("Away")
    case TotalPoints | OverOdds => s.labelName == Some("Over")
    case UnderOdds => s.labelName == Some("Under")
  }

  /** What the selection writes into the field: its `points` or its odds. */
  function FieldValue(f: OddsField, s: Selection): Option<Cell> {
    match f
    case HomeSpread | AwaySpread | TotalPoints => Some(PointsOf(s))
    case _ => OddsOf(s)
  }

  /** A field that no selection of its market writes keeps its value. */
  lemma {:induction false} UnwrittenFieldKept(g: DkGameline, f: OddsField, ss: seq<Selection>)
    requires ApplySelections(g, MarketTypeOf(f), ss).Some?
    requires forall k :: 0 <= k < |ss| ==> !WritesField(f, ss[k])
    ensures FieldOf(ApplySelections(g, MarketTypeOf(f), ss).value, f) == FieldOf(g, f)
  {
    if ss != [] {
      var mt, init := MarketTypeOf(f), ss[..|ss| - 1];
      assert ApplySelections(g, mt, init).Some?;
      forall k | 0 <= k < |init| ensures !WritesField(f, init[k]) {
        assert init[k] == ss[k];
      }
      UnwrittenFieldKept(g, f, init);
      FieldStep(ApplySelections(g, mt, init).value, f, ss[|ss| - 1]);
    }
  }

  /** Later selections overwrite earlier ones: each odds field is the value of the last selection of
      its market that writes it, or unchanged when there is none. */
  lemma LastSelectionWins(g: DkGameline, f: OddsField, ss: seq<Selection>)
    requires ApplySelections(g, MarketTypeOf(f), ss).Some?
    ensures (forall k :: 0 <= k < |ss| ==> !WritesField(f, ss[k])) ==>
      FieldOf(ApplySelections(g, MarketTypeOf(f), ss).value, f) == FieldOf(g, f)
    ensures forall k :: 0 <= k < |ss| && WritesField(f, ss[k]) &&
                        (forall k2 :: k < k2 < |ss| ==> !WritesField(f, ss[k2])) ==>
      FieldValue(f, ss[k]).Some? && FieldOf(ApplySelections(g, MarketTypeOf(f), ss).value, f) == FieldValue(f, ss[k]).value
  {
    if forall k :: 0 <= k < |ss| ==> !WritesField(f, ss[k]) {
      UnwrittenFieldKept(g, f, ss);
    }
    forall k | 0 <= k < |ss| && WritesField(f, ss[k]) && (forall k2 :: k < k2 < |ss| ==> !WritesField(f, ss[k2]))
      ensures FieldValue(f, ss[k]).Some? && FieldOf(ApplySelections(g, MarketTypeOf(f), ss).value, f) == FieldValue(f, ss[k]).value
    {
      LastWriterAt(g, f, ss, k);
    }
  }

  /** The selection at `k` writes the field and none after it does: the field holds its value. */
  lemma {:induction false} LastWriterAt(g: DkGameline, f: OddsField, ss: seq<Selection>, k: nat)
    requires ApplySelections(g, MarketTypeOf(f), ss).Some?
    requires k < |ss| && WritesField(f, ss[k])
    requires forall k2 :: k < k2 < |ss| ==> !WritesField(f, ss[k2])
    ensures FieldValue(f, ss[k]).Some?
    ensures FieldOf(ApplySelections(g, MarketTypeOf(f), ss).value, f) == FieldValue(f, ss[k]).value
  {
    var mt, init := MarketTypeOf(f), ss[..|ss| - 1];
    assert ApplySelections(g, mt, init).Some?;
    var prev := ApplySelections(g, mt, init).value;
    FieldStep(prev, f, ss[|ss| - 1]);
    if k < |ss| - 1 {
      assert init[k] == ss[k];
      forall k2 | k < k2 < |init| ensures !WritesField(f, init[k2]) {
        assert init[k2] == ss[k2];
      }
      LastWriterAt(g, f, init, k);
    }
  }

  /** One selection of the field's market: it sets the field to its value exactly when it writes the field. */
  lemma FieldStep(g: DkGameline, f: OddsField, s: Selection)
    requires ApplySelection(g, MarketTypeOf(f), s).Some?
    ensures WritesField(f, s) ==> FieldValue(f, s).Some?
    ensures FieldOf(ApplySelection(g, MarketTypeOf(f), s).value, f) ==
      if WritesField(f, s) then FieldValue(f, s).value else FieldOf(g, f)
  {
  }

  lemma {:induction false} SelectionsKeepIdentity(g: DkGameline, typeName: string, ss: seq<Selection>)
    requires ApplySelections(g, typeName, ss).Some?
    ensures Identity(ApplySelections(g, typeName, ss).value) == Identity(g)
  {
    if ss != [] {
      SelectionsKeepIdentity(g, typeName, ss[..|ss| - 1]);
    }
  }

  lemma {:induction false} MarketsKeepIdentity(g: DkGameline, ms: seq<Market>, ss: seq<Selection>)
    requires ApplyMarkets(g, ms, ss).Some?
    ensures Identity(ApplyMarkets(g, ms, ss).value) == Identity(g)
  {
    if ms != [] {
      MarketsKeepIdentity(g, ms[..|ms| - 1], ss);
      var m := ms[|ms| - 1];
      SelectionsKeepIdentity(ApplyMarkets(g, ms[..|ms| - 1], ss).value, TypeName(m).value, SelectionsOf(ss, m.id.Get()));
    }
  }

  /** Teams are taken by position with 'Away'/'Home' defaults, and a null name is kept as `None`;
      the start date defaults to '' and the status to 'NOT_STARTED', each `None` when null. An event
      without an `id`, with a null `participants` or with a used participant lacking `name` is skipped;
      a null `id` is kept as `None`. */
  lemma EventIdentityFields(e: DkEvent, ms: seq<Market>, ss: seq<Selection>)
    ensures e.id.Missing? || e.participants.Null? || TeamNames(e.participants).None? ==> EventGameline(e, ms, ss).None?
    ensures EventGameline(e, ms, ss).Some? ==>
      var g := EventGameline(e, ms, ss).value;
      var ps := if e.participants.Present? then e.participants.value else [];
      g.eventId == e.id.Get() &&
      (|ps| > 0 ==> ps[0].name.Subscript() == Some(g.away)) && (|ps| == 0 ==> g.away == Some("Away")) &&
      (|ps| > 1 ==> ps[1].name.Subscript() == Some(g.home)) && (|ps| <= 1 ==> g.home == Some("Home")) &&
      g.status == e.status.GetOr("NOT_STARTED") && g.startDate == e.startEventDate.GetOr("") &&
      (e.status.Null? ==> g.status == None) && (e.startEventDate.Null? ==> g.startDate == None)
  {
    if TeamNames(e.participants).Some? && !e.id.Missing? {
      var (away, home) := TeamNames(e.participants).value;
      var g0 := InitialGameline(e, e.id.Get(), away, home);
      if EventGameline(e, ms, ss).Some? {
        MarketsKeepIdentity(g0, MarketsOf(ms, e.id.Get()), ss);
      }
    }
  }

  /** A field changes only through a market whose `eventId` is the event's id: without one,
      all nine odds fields stay 'N/A'. */
  lemma UnmatchedEventKeepsPlaceholders(e: DkEvent, ms: seq<Market>, ss: seq<Selection>)
    requires !e.id.Missing? && TeamNames(e.participants).Some?
    requires forall k :: 0 <= k < |ms| ==> ms[k].eventId != e.id.Get()
    ensures EventGameline(e, ms, ss).Some?
    ensures var g := EventGameline(e, ms, ss).value;
      HomeFields(g) == AwayFields(g) == TotalFields(g) == (NotAvailable, NotAvailable, NotAvailable)
  {
  }

  /** The output holds the surviving events' gamelines in order, so it is no longer than the
      event list, and equals it in length when no event raises. */
  lemma GamelinesAreSurvivingEvents(evs: seq<DkEvent>, ms: seq<Market>, ss: seq<Selection>)
    ensures |Gamelines(evs, ms, ss)| <= |evs|
    ensures forall n :: 0 <= n < |Gamelines(evs, ms, ss)| ==>
      exists k :: 0 <= k < |evs| && EventGameline(evs[k], ms, ss) == Some(Gamelines(evs, ms, ss)[n])
    ensures (forall k :: 0 <= k < |evs| ==> EventGameline(evs[k], ms, ss).Some?) ==>
      |Gamelines(evs, ms, ss)| == |evs| &&
      forall k :: 0 <= k < |evs| ==> Some(Gamelines(evs, ms, ss)[k]) == EventGameline(evs[k], ms, ss)
  {
    SurvivorsComeFromElements((e: DkEvent) => EventGameline(e, ms, ss), evs);
  }

  /** With no events of any listed league anywhere, the adapter returns []. */
  lemma NoLeagueEventsGiveNoGamelines(locs: seq<Location>)
    requires forall i, j :: !Yields(locs, i, j)
    ensures DraftKingsGamelines(Some(locs)) == []
  {
    ChosenEventsAreFirstMatch(locs);
  }
}
