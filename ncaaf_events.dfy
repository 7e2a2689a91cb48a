/** `NCAABEvents.get_schedule`: the schedule pages of the upcoming days, each a status code and,
    per schedule table, the texts of its team-name links in page order. Dates are day numbers;
    the page for a date is given by `fetch`. */
module NcaafEvents {
  import opened Values
  import opened Strings

  datatype ScheduledGame = ScheduledGame(gameDay: int, startTime: string, homeTeam: string, awayTeam: string)

  /** The request for one date: it raised (connection error, timeout), or it answered with an HTTP
      status and, per `ScheduleTables` container, the team-name texts. */
  datatype SchedulePage = RequestRaised | Page(status: int, containers: seq<seq<string>>)

  /** `_clean_team_name` keeps the name as it is. */
  function CleanTeamName(teamName: string): string {
    teamName
  }

  /** `[today + timedelta(days=i) for i in range(days)]`. */
  function UpcomingDates(today: int, days: int): (r: seq<int>)
    ensures |r| == if days > 0 then days else 0
    ensures forall i :: 0 <= i < |r| ==> r[i] == today + i
  {
    if days <= 0 then [] else UpcomingDates(today, days - 1) + [today + days - 1]
  }

  /** The game of links `i` and `i + 1`, the first being the away team; none when a name is blank. */
  function PairGame(day: int, away: string, home: string): seq<ScheduledGame> {
    var a, h := CleanTeamName(Strip(away)), CleanTeamName(Strip(home));
    if a != [] && h != [] then [ScheduledGame(day, "TBD", h, a)] else []
  }

  /** Link `2 * j`, the away team of pair `j`, and link `2 * j + 1`, its home team. */
  function Away(teams: seq<string>, j: nat): string
    requires 2 * j + 1 < |teams|
  {
    teams[2 * j]
  }

  function Home(teams: seq<string>, j: nat): string
    requires 2 * j + 1 < |teams|
  {
    teams[2 * j + 1]
  }

  /** `f` of links 0 and 1, then of links 2 and 3, and so on; an odd last link is dropped. */
  function Pairs<T>(f: (string, string) -> seq<T>, teams: seq<string>): seq<T>
    decreases |teams|
  {
    if |teams| < 2 then [] else f(teams[0], teams[1]) + Pairs(f, teams[2..])
  }

  /** A container's games: links are paired in order, the first of each pair being the away team. */
  function ContainerGames(day: int, teams: seq<string>): seq<ScheduledGame> {
    Pairs((away: string, home: string) => PairGame(day, away, home), teams)
  }

  function ContainersGames(day: int, containers: seq<seq<string>>): seq<ScheduledGame> {
    if containers == [] then []
    else ContainersGames(day, containers[..|containers| - 1]) + ContainerGames(day, containers[|containers| - 1])
  }

  /** A page that did not answer 200 is skipped. */
  function PageGames(day: int, page: SchedulePage): seq<ScheduledGame> {
    if page.RequestRaised? || page.status != 200 then [] else ContainersGames(day, page.containers)
  }

  /** The request for one of the dates raises. */
  predicate SomeRequestRaises(dates: seq<int>, fetch: int -> SchedulePage) {
    exists k :: 0 <= k < |dates| && fetch(dates[k]).RequestRaised?
  }

  function DatesGames(dates: seq<int>, fetch: int -> SchedulePage): seq<ScheduledGame> {
    if dates == [] then []
    else DatesGames(dates[..|dates| - 1], fetch) + PageGames(dates[|dates| - 1], fetch(dates[|dates| - 1]))
  }

  /** The games of the pages in date order; a request that raises reaches the outer `except`,
      which returns [] and drops the games already collected. */
  function Schedule(today: int, days: int, fetch: int -> SchedulePage): seq<ScheduledGame> {
    var dates := UpcomingDates(today, days);
    if SomeRequestRaises(dates, fetch) then [] else DatesGames(dates, fetch)
  }

  class NcaabEvents {
    var sport: string

    constructor ()
      ensures sport == "ncaab"
    {
      sport := "ncaab";
    }

    /** `get_schedule(days=7)` run on `today`. */
    method GetSchedule(today: int, fetch: int -> SchedulePage, days: int := 7) returns (games: seq<ScheduledGame>)
      ensures games == Schedule(today, days, fetch)
    {
      var upcomingDates := UpcomingDates(today, days);
      games := [];
      var d := 0;
      while d < |upcomingDates|
        invariant 0 <= d <= |upcomingDates|
        invariant !SomeRequestRaises(upcomingDates[..d], fetch)
        invariant games == DatesGames(upcomingDates[..d], fetch)
      {
        var targetDate := upcomingDates[d];
        var response := fetch(targetDate);
        DatesStep(upcomingDates, fetch, d);
        if response.RequestRaised? {
          return [];
        }
        if response.status == 200 {
          var dayGames := ScheduleDay(targetDate, response.containers);
          games := games + dayGames;
        }
        d := d + 1;
      }
      assert upcomingDates[..d] == upcomingDates;
    }

    /** The container loop for one date. */
    method ScheduleDay(day: int, containers: seq<seq<string>>) returns (games: seq<ScheduledGame>)
      ensures games == ContainersGames(day, containers)
    {
      games := [];
      var c := 0;
      while c < |containers|
        invariant 0 <= c <= |containers|
        invariant games == ContainersGames(day, containers[..c])
      {
        assert containers[..c + 1][..c] == containers[..c];
        var teams := containers[c];
        var pairGames := PairLinks(day, teams);
        games := games + pairGames;
        c := c + 1;
      }
      assert containers[..c] == containers;
    }

    /** `for i in range(0, len(teams), 2)`, keeping the pairs with two links and two names. */
    method PairLinks(day: int, teams: seq<string>) returns (games: seq<ScheduledGame>)
      ensures games == ContainerGames(day, teams)
    {
      games := [];
      var i := 0;
      while i < |teams|
        invariant 0 <= i <= |teams| + 1
        invariant i <= |teams| ==> games + ContainerGames(day, teams[i..]) == ContainerGames(day, teams)
        invariant i > |teams| ==> games == ContainerGames(day, teams)
      {
        if i + 1 < |teams| {
          ghost var pair := PairGame(day, teams[i], teams[i + 1]);
          assert teams[i..][2..] == teams[i + 2..];
          assert ContainerGames(day, teams[i..]) == pair + ContainerGames(day, teams[i + 2..]);
          ghost var before := games;
          var awayTeam := CleanTeamName(Strip(teams[i]));
          var homeTeam := CleanTeamName(Strip(teams[i + 1]));
          if awayTeam != [] && homeTeam != [] {
            games := games + [ScheduledGame(day, "TBD", homeTeam, awayTeam)];
          }
          assert games == before + pair;
          AppendAssociative(before, pair, ContainerGames(day, teams[i + 2..]));
        }
        i := i + 2;
      }
    }
  }

  // ---------------------------------------------------------------------------
  // Properties of the schedule

  /** One more date: its page's games are appended, and its request may raise. */
  lemma DatesStep(dates: seq<int>, fetch: int -> SchedulePage, d: nat)
    requires d < |dates|
    ensures DatesGames(dates[..d + 1], fetch) == DatesGames(dates[..d], fetch) + PageGames(dates[d], fetch(dates[d]))
    ensures SomeRequestRaises(dates[..d + 1], fetch) <==> SomeRequestRaises(dates[..d], fetch) || fetch(dates[d]).RequestRaised?
    ensures fetch(dates[d]).RequestRaised? ==> SomeRequestRaises(dates, fetch)
  {
    var prefix := dates[..d + 1];
    assert prefix[..d] == dates[..d];
    assert prefix[d] == dates[d];
    if SomeRequestRaises(prefix, fetch) {
      var k :| 0 <= k < |prefix| && fetch(prefix[k]).RequestRaised?;
      if k < d {
        assert dates[..d][k] == prefix[k];
      }
    }
    if SomeRequestRaises(dates[..d], fetch) {
      var k :| 0 <= k < d && fetch(dates[..d][k]).RequestRaised?;
      assert prefix[k] == dates[..d][k];
    }
    if fetch(dates[d]).RequestRaised? {
      assert fetch(prefix[d]).RequestRaised?;
    }
  }

  lemma PairGameShape(day: int, away: string, home: string)
    ensures |PairGame(day, away, home)| <= 1
    ensures forall g :: g in PairGame(day, away, home) ==>
      g.gameDay == day && g.startTime == "TBD" && g.homeTeam != [] && g.awayTeam != []
    ensures Strip(away) != [] && Strip(home) != [] ==>
      PairGame(day, away, home) == [ScheduledGame(day, "TBD", Strip(home), Strip(away))]
  {
  }

  /** Every element comes from one pair of links. */
  lemma {:induction false} PairsMembers<T>(f: (string, string) -> seq<T>, teams: seq<string>)
    ensures forall g :: g in Pairs(f, teams) ==>
      exists j :: 0 <= j < |teams| / 2 && g in f(Away(teams, j), Home(teams, j))
  {
    if |teams| >= 2 {
      var tail := teams[2..];
      PairsMembers(f, tail);
      forall g | g in Pairs(f, teams)
        ensures exists j :: 0 <= j < |teams| / 2 && g in f(Away(teams, j), Home(teams, j))
      {
        if g in f(teams[0], teams[1]) {
          assert g in f(Away(teams, 0), Home(teams, 0));
        } else {
          assert g in Pairs(f, tail);
          var j :| 0 <= j < |tail| / 2 && g in f(Away(tail, j), Home(tail, j));
          assert Away(tail, j) == Away(teams, j + 1) && Home(tail, j) == Home(teams, j + 1);
        }
      }
    }
  }

  lemma {:induction false} PairsAtMostOneEach<T>(f: (string, string) -> seq<T>, teams: seq<string>)
    requires forall a, b :: |f(a, b)| <= 1
    ensures |Pairs(f, teams)| <= |teams| / 2
  {
    if |teams| >= 2 {
      PairsAtMostOneEach(f, teams[2..]);
    }
  }

  /** With one element per pair, element `j` is pair `j`'s. */
  lemma {:induction false} PairsOneEach<T>(f: (string, string) -> seq<T>, teams: seq<string>)
    requires forall j :: 0 <= j < |teams| / 2 ==> |f(Away(teams, j), Home(teams, j))| == 1
    ensures |Pairs(f, teams)| == |teams| / 2
    ensures forall j :: 0 <= j < |teams| / 2 ==> Pairs(f, teams)[j] == f(Away(teams, j), Home(teams, j))[0]
  {
    if |teams| >= 2 {
      var tail := teams[2..];
      forall j | 0 <= j < |tail| / 2 ensures |f(Away(tail, j), Home(tail, j))| == 1 {
        assert Away(tail, j) == Away(teams, j + 1) && Home(tail, j) == Home(teams, j + 1);
      }
      PairsOneEach(f, tail);
      assert |f(Away(teams, 0), Home(teams, 0))| == 1;
      forall j | 1 <= j < |teams| / 2
        ensures Pairs(f, teams)[j] == f(Away(teams, j), Home(teams, j))[0]
      {
        assert Away(tail, j - 1) == Away(teams, j) && Home(tail, j - 1) == Home(teams, j);
      }
    }
  }

  /** Every game of a container is dated on the container's day, starts 'TBD' and names two
      non-blank teams; there are at most half as many games as links. */
  lemma ContainerGamesShape(day: int, teams: seq<string>)
    ensures |ContainerGames(day, teams)| <= |teams| / 2
    ensures forall g :: g in ContainerGames(day, teams) ==>
      g.gameDay == day && g.startTime == "TBD" && g.homeTeam != [] && g.awayTeam != []
  {
    var f := (away: string, home: string) => PairGame(day, away, home);
    forall a, b ensures |f(a, b)| <= 1 {
      PairGameShape(day, a, b);
    }
    PairsAtMostOneEach(f, teams);
    PairsMembers(f, teams);
    forall g | g in ContainerGames(day, teams)
      ensures g.gameDay == day && g.startTime == "TBD" && g.homeTeam != [] && g.awayTeam != []
    {
      var j :| 0 <= j < |teams| / 2 && g in f(Away(teams, j), Home(teams, j));
      PairGameShape(day, Away(teams, j), Home(teams, j));
    }
  }

  /** When no name is blank there is one game per pair of links, and game `j` has link `2 * j`
      as its away team and link `2 * j + 1` as its home team. */
  lemma ContainerGamesPairLinks(day: int, teams: seq<string>)
    requires forall k :: 0 <= k < |teams| ==> Strip(teams[k]) != []
    ensures |ContainerGames(day, teams)| == |teams| / 2
    ensures forall j :: 0 <= j < |teams| / 2 ==>
      ContainerGames(day, teams)[j] == ScheduledGame(day, "TBD", Strip(Home(teams, j)), Strip(Away(teams, j)))
  {
    var f := (away: string, home: string) => PairGame(day, away, home);
    forall j | 0 <= j < |teams| / 2
      ensures f(Away(teams, j), Home(teams, j)) == [ScheduledGame(day, "TBD", Strip(Home(teams, j)), Strip(Away(teams, j)))]
    {
      PairGameShape(day, Away(teams, j), Home(teams, j));
    }
    PairsOneEach(f, teams);
  }

  lemma {:induction false} ContainersGamesShape(day: int, containers: seq<seq<string>>)
    ensures forall g :: g in ContainersGames(day, containers) ==>
      g.gameDay == day && g.startTime == "TBD" && g.homeTeam != [] && g.awayTeam != []
  {
    if containers != [] {
      ContainersGamesShape(day, containers[..|containers| - 1]);
      ContainerGamesShape(day, containers[|containers| - 1]);
    }
  }

  lemma {:induction false} DatesGamesShape(dates: seq<int>, fetch: int -> SchedulePage)
    ensures forall g :: g in DatesGames(dates, fetch) ==>
      g.gameDay in dates && g.startTime == "TBD" && g.homeTeam != [] && g.awayTeam != []
  {
    if dates != [] {
      var init, last := dates[..|dates| - 1], dates[|dates| - 1];
      DatesGamesShape(init, fetch);
      if fetch(last).Page? {
        ContainersGamesShape(last, fetch(last).containers);
      }
      assert forall g :: g in DatesGames(dates, fetch) ==> g in DatesGames(init, fetch) || g in PageGames(last, fetch(last));
      assert forall x :: x in init ==> x in dates;
    }
  }

  /** Every scheduled game falls on one of the next `days` days, starts 'TBD' and has both teams. */
  lemma ScheduleShape(today: int, days: int, fetch: int -> SchedulePage)
    ensures forall g :: g in Schedule(today, days, fetch) ==>
      today <= g.gameDay < today + days && g.startTime == "TBD" && g.homeTeam != [] && g.awayTeam != []
  {
    DatesGamesShape(UpcomingDates(today, days), fetch);
  }

  /** One request that raises empties the whole schedule, whatever the other pages hold; a page
      that did not answer 200 only drops its own games. */
  lemma RaisingRequestEmptiesSchedule(today: int, days: int, fetch: int -> SchedulePage, k: nat)
    requires k < |UpcomingDates(today, days)| && fetch(today + k).RequestRaised?
    ensures Schedule(today, days, fetch) == []
  {
    assert UpcomingDates(today, days)[k] == today + k;
  }

  /** Pages that do not answer 200 contribute nothing: when none does, the schedule is empty. */
  lemma {:induction false} FailedPagesGiveNoGames(dates: seq<int>, fetch: int -> SchedulePage)
    requires forall k :: 0 <= k < |dates| ==> fetch(dates[k]).Page? ==> fetch(dates[k]).status != 200
    ensures DatesGames(dates, fetch) == []
  {
    if dates != [] {
      var init := dates[..|dates| - 1];
      assert forall k :: 0 <= k < |init| ==> init[k] == dates[k];
      FailedPagesGiveNoGames(init, fetch);
    }
  }
}
