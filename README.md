# NCAAF scrapers, modelled in Dafny

This project models the logic of the college-football scrapers in `ncaafFiles/`, from the point where a
fetch and parse has produced its input:

- **ESPN adapter** (`api_scrapers/espn_bets.py`). It walks the scoreboard JSON into one flat record per
  odds entry, returning False on an event without `competitions` and raising on a JSON null it cannot
  read. It then restructures each record into the served gameline shape:
  - teams are split out of `short_name` on `@`;
  - the spread sign comes from the moneylines, or from the raw spread when a moneyline is missing;
  - `'N/A'` and `'-110'` fill the defaults.
- **DraftKings adapter** (`ncaafGamelines.py`). It picks the first data location and league id that give
  events. It takes markets and selections from the first location holding both. Each event's gameline
  starts all `'N/A'` and is overwritten by that event's Moneyline, Spread and Total selections.
- **Gamelog scrape** (`ncaafData.py`, `ncaafdb`). The stripped header and data cells are cut into 33
  columns with stride 35. One row is inserted per `Date` value, padded with `''`. The database directory
  is a map from file name to the rows of its `Stats` table.
- **`NcaafTeam`** (`ncaafTeams.py`). It is a class with the fields `name`, `stats` (the 33 stat
  attributes), `w` and `l`. Its methods are:
  - the keyword-argument constructor;
  - `get_stats`, which splits the rows into halves;
  - the last-N-games tail (`last2`/`last4`/`last8`);
  - `calculate_win_loss`, which counts with the digits-or-zero score rule.
- **Per-row offense dictionaries** (`ncaafGetData.py`). The header list repeats names, so a later cell
  overwrites an earlier one. The module also derives the reference-site player key.
- **Schedule** (`ncaafEvents.py`). The date window is the `days` days from today, seven by default.
  Team links are paired as away/home and pairs with a blank name are dropped. A page that does not answer
  200 is skipped, while a request that raises makes the whole schedule [] through the outer `except`.
- **Season summary and gamelog lookups** (`ncaafApi.py`). The record and conference are read from the
  `meta` paragraphs. The gamelog is built by scraping, reading the file back through `NcaafTeam`, and
  mapping the first half of its rows to entries with a W/L result.

Where the Python code loops, the model has a method with a loop whose `ensures` ties it to a
specification function. Lemmas then prove the promised properties of that function. Exceptions that the
code catches, or lets escape, are modelled as `Option`/`Result` values. The shared modules are:

- `Values`: `Option`, `Result`, the three-way `Field` (a JSON key missing, null or present), JSON
  numbers, the `MapAll` and `Survivors` loop combinators, and `Matching`, the filtering comprehension;
- `Strings`: Python's `strip`, `lower`/`upper`, `in`, `split`, `isdigit`, `int` and `str`, over `seq<char>`.

## Model

| member | source | states |
|---|---|---|
| Values.Matching | ncaafFiles/ncaafGamelines.py:64-67 | A list comprehension `[x for x in xs if key(x) == v]`: no longer than `xs`; every kept element is in `xs` with key `v`; every element with key `v` is kept; empty exactly when none has it. |
| Values.MatchingPicksTheMatches | ncaafFiles/ncaafGamelines.py:118-131 | The comprehension keeps the elements at strictly increasing positions, and a position is kept exactly when its key is `v`. |
| EspnBets.WalkScoreboard | ncaafFiles/api_scrapers/espn_bets.py:34-64 | The nested event/competition/odds walk gives exactly the specification `Flatten`: the flattened records, the `False` abort, or the exception a JSON null raises. |
| EspnBets.WalkStopsAtPrefix | ncaafFiles/api_scrapers/espn_bets.py:35-64 | Once the events walked so far have stopped the walk, the later events change nothing. |
| EspnBets.WalkStopsAtFirstEvent | ncaafFiles/api_scrapers/espn_bets.py:35-64 | The events walk exactly when each event does, and then the records are all events' records in order. Otherwise the outcome is that of the first event that does not walk. |
| EspnBets.OddsRecords | ncaafFiles/api_scrapers/espn_bets.py:54-62 | The odds loop emits one merged record per odds entry, in order. It raises exactly when some entry has a null `provider`, `homeTeamOdds` or `awayTeamOdds`. |
| EspnBets.CompetitionRecords | ncaafFiles/api_scrapers/espn_bets.py:38-62 | The competition loop skips competitions with no odds and concatenates the records of the rest. It raises exactly when some odds entry has a null nested object. |
| EspnBets.OddsLinesShape | ncaafFiles/api_scrapers/espn_bets.py:54-62 | There is one record per odds entry, and record n is built from entry n. |
| EspnBets.CompetitionLinesShape | ncaafFiles/api_scrapers/espn_bets.py:38-62 | A competition list yields as many records as its competitions have odds entries, each tagged 'espn_bets'. |
| EspnBets.WalkEmitsOneLinePerOddsEntry | ncaafFiles/api_scrapers/espn_bets.py:34-62 | The walk emits one record per odds entry over all events, each tagged 'espn_bets'. |
| EspnBets.WalkAbortsOnEventWithoutCompetitions | ncaafFiles/api_scrapers/espn_bets.py:34-66 | The walk returns False exactly when the first event that does not walk lacks `competitions`. It raises exactly when `events` is null, or that first event has a null `competitions` or a null nested odds object. A payload without `events` gives no records. |
| EspnBets.RestructureGamelineData | ncaafFiles/api_scrapers/espn_bets.py:75-142 | The restructuring loop returns the specification `RestructureAll`: every record restructured, or the first record's exception. |
| EspnBets.RestructureKeepsOrder | ncaafFiles/api_scrapers/espn_bets.py:78-139 | On success there is one entry per input record, and entry k is record k restructured. |
| EspnBets.Restructure | ncaafFiles/api_scrapers/espn_bets.py:78-139 | One record's restructuring, or the error it raises; its properties are EspnBets.RestructureDefaults and EspnBets.RestructureFailsWhen. |
| EspnBets.Teams | ncaafFiles/api_scrapers/espn_bets.py:80-82 | `(away, home)` from the short name split on '@'; stated by EspnBets.TeamsNeedAnAtSign and EspnBets.TeamsSplitAtFirstAtSign. |
| EspnBets.Spreads | ncaafFiles/api_scrapers/espn_bets.py:96-114 | `(home_spread, away_spread)` from the moneylines or the raw spread; stated by EspnBets.SpreadSignsOpposite, EspnBets.FavouriteGetsMinus, EspnBets.FallbackUsesRawSpread and EspnBets.SpreadsFailWhen. |
| EspnBets.RestructureFailsAtFirstBadRecord | ncaafFiles/api_scrapers/espn_bets.py:78-139 | The loop succeeds exactly when every record does; otherwise it fails with the first failing record's error. |
| EspnBets.TeamsNeedAnAtSign | ncaafFiles/api_scrapers/espn_bets.py:80-82 | A missing short name raises; a short name raises exactly when it has no '@'. |
| EspnBets.TeamsSplitAtFirstAtSign | ncaafFiles/api_scrapers/espn_bets.py:80-82 | `away` is the stripped text before the first '@', and `home` the stripped next '@'-piece. |
| EspnBets.SpreadSignsOpposite | ncaafFiles/api_scrapers/espn_bets.py:100-114 | In every branch one spread starts with '-' and the other with '+', and the rest of the text is identical. |
| EspnBets.FavouriteGetsMinus | ncaafFiles/api_scrapers/espn_bets.py:96-106 | With two non-zero moneylines, home gets '-' exactly when its moneyline is strictly lower; equal moneylines give away the '-'. |
| EspnBets.FallbackUsesRawSpread | ncaafFiles/api_scrapers/espn_bets.py:107-114 | Without a usable moneyline: a positive spread gives home '-spread' and away '+spread'; otherwise home gets '+abs' and away '-abs'; a missing spread raises. |
| EspnBets.SpreadsFailWhen | ncaafFiles/api_scrapers/espn_bets.py:96-114 | Spreads cannot be formed exactly when the spread is missing and a moneyline is missing or zero. |
| EspnBets.RestructureDefaults | ncaafFiles/api_scrapers/espn_bets.py:85-86 | All four odds are '-110'. A moneyline or total is 'N/A' exactly when it is missing, and otherwise the value itself. Day, time and source are copied. |
| EspnBets.RestructureFailsWhen | ncaafFiles/api_scrapers/espn_bets.py:80-114 | A record raises exactly when its short name is missing or has no '@', or its spread is missing where the spread decides. |
| EspnBets.GetEspnBetsGamelines | ncaafFiles/api_scrapers/espn_bets.py:18-73 | After the request, the adapter returns [] on a failed fetch, False from the walk, the exception of the walk or of the restructuring, or the restructured list. The `espn_api_successful` assignment changes no module state. |
| EspnBets.AdapterYieldsOneGamelinePerOddsEntry | ncaafFiles/api_scrapers/espn_bets.py:23-73 | A failed fetch gives []; a clean payload gives one gameline per odds entry, each with source 'espn_bets'. |
| EspnBets.GetNcaafGamelines | ncaafFiles/api_scrapers/espn_bets.py:145-154 | Source 'espn_bets', the default, gives the ESPN adapter's result; any other source gives []. |
| EspnBets.FormatNcaafApiResponse | ncaafFiles/api_scrapers/espn_bets.py:157-166 | The envelope carries the list, the source and the timestamp, and `game_count` is the list's length. |
| DraftKings.EventsOfLeague | ncaafFiles/ncaafGamelines.py:64-67 | The filter keeps exactly the events with that `leagueId`, and is empty exactly when none has it. |
| DraftKings.EventsOfLeagueInOrder | ncaafFiles/ncaafGamelines.py:64-67 | The league's events are the events at strictly increasing positions, and a position is picked exactly when its event has that `leagueId`. |
| DraftKings.FindLeagueEvents | ncaafFiles/ncaafGamelines.py:55-72 | The nested location/league loops with their breaks choose the specification `FirstLocationEvents`. |
| DraftKings.FirstLeagueMatchIsFirst | ncaafFiles/ncaafGamelines.py:63-70 | Within a location, the chosen events come from the first league id that yields any, and are empty only when none does. |
| DraftKings.ChosenEventsAreFirstMatch | ncaafFiles/ncaafGamelines.py:58-72 | The chosen events are empty exactly when no pair of a non-empty location and a league id yields events. Otherwise they are those of the first pair in location-then-league order. |
| DraftKings.FindMarkets | ncaafFiles/ncaafGamelines.py:82-88 | The market loop returns the markets and selections of the first location holding both keys. |
| DraftKings.MarketsFromFirstLocationWithBoth | ncaafFiles/ncaafGamelines.py:82-88 | Both are empty when no location holds both keys. Otherwise they come from the first location that does, whichever location supplied the events. |
| DraftKings.MarketsOf | ncaafFiles/ncaafGamelines.py:118-121 | The markets kept are exactly those whose `eventId` is the event's id: every kept market has it, every market that has it is kept, and none is kept exactly when no market has it (order: DraftKings.MarketsAndSelectionsInOrder). |
| DraftKings.SelectionsOf | ncaafFiles/ncaafGamelines.py:128-131 | The selections kept are exactly those whose `marketId` is the market's id: every kept selection has it, and every selection that has it is kept. |
| DraftKings.MarketsAndSelectionsInOrder | ncaafFiles/ncaafGamelines.py:118-131 | The event's markets, and a market's selections, are the list's elements at strictly increasing positions, and a position is picked exactly when its id matches. |
| DraftKings.BuildEventGameline | ncaafFiles/ncaafGamelines.py:93-164 | The per-event market and selection loops give the specification `EventGameline`, or skip the event when it raises. |
| DraftKings.EventGameline | ncaafFiles/ncaafGamelines.py:93-164 | One event's gameline, or None when processing it raises; stated by DraftKings.EventIdentityFields, DraftKings.UnmatchedEventKeepsPlaceholders and DraftKings.MarketsKeepIdentity. |
| DraftKings.TeamNames | ncaafFiles/ncaafGamelines.py:95-97 | The participant names by position with 'Away'/'Home' defaults, or None when reading them raises; stated by DraftKings.EventIdentityFields. |
| DraftKings.ApplyMarketSelections | ncaafFiles/ncaafGamelines.py:133-158 | The selection loop of one market gives the specification `ApplySelections`: each selection applied in order, or None once one raises. |
| DraftKings.SelectionFailurePropagates | ncaafFiles/ncaafGamelines.py:133-158 | Once a selection raises, the whole market raises. |
| DraftKings.ApplySelection | ncaafFiles/ncaafGamelines.py:134-158 | One selection's effect on the record; stated by DraftKings.SelectionRaisesOnNullOdds, DraftKings.SidesWriteOnlyTheirFields, DraftKings.TotalMarketFields, DraftKings.FieldStep and DraftKings.LastSelectionWins. |
| DraftKings.SelectionRaisesOnNullOdds | ncaafFiles/ncaafGamelines.py:134-158 | A selection raises exactly when its market's branch writes it and its `displayOdds` is null; a selection no branch writes changes nothing. |
| DraftKings.NullOddsAreKept | ncaafFiles/ncaafGamelines.py:136-158 | Odds and points are 'N/A' when their key is missing, None when the value is null, and the value otherwise. |
| DraftKings.MarketFailurePropagates | ncaafFiles/ncaafGamelines.py:123-124 | Once a market without an id raises, the whole event raises. |
| DraftKings.GetDraftKingsNcaafGamelines | ncaafFiles/ncaafGamelines.py:46-170 | After the JSON parse, the adapter returns the gamelines of the surviving chosen events, or [] when nothing parsed or no events were found. |
| DraftKings.SidesWriteOnlyTheirFields | ncaafFiles/ncaafGamelines.py:134-149 | In a Moneyline market, 'Home' sets exactly `home_ml` and 'Away' exactly `away_ml` to the selection's odds. In a Spread market, 'Home' sets exactly `home_spread` to its points and `home_spread_odds` to its odds, and 'Away' likewise the away pair. No selection touches the total fields or the identity fields, and other outcome types change nothing. |
| DraftKings.TotalMarketFields | ncaafFiles/ncaafGamelines.py:152-158 | In a Total market, 'Over' sets `total` and `over_odds`, and 'Under' sets only `under_odds`. Other market types change nothing. |
| DraftKings.LastSelectionWins | ncaafFiles/ncaafGamelines.py:133-158 | Each of the nine odds fields is the value (odds or points) of the last selection of its market type that writes it, or keeps its value when there is none. |
| DraftKings.FieldStep | ncaafFiles/ncaafGamelines.py:134-158 | One selection sets an odds field of its market to its value exactly when its branch writes that field, and otherwise leaves it alone. |
| DraftKings.UnwrittenFieldKept | ncaafFiles/ncaafGamelines.py:133-158 | An odds field that no selection of its market writes keeps its value. |
| DraftKings.LastWriterAt | ncaafFiles/ncaafGamelines.py:133-158 | When selection k writes an odds field and no later selection does, the field ends with selection k's value. |
| DraftKings.SelectionsKeepIdentity | ncaafFiles/ncaafGamelines.py:133-158 | Scanning selections never changes the id, teams, date or status. |
| DraftKings.MarketsKeepIdentity | ncaafFiles/ncaafGamelines.py:123-158 | Scanning markets never changes the id, teams, date or status. |
| DraftKings.EventIdentityFields | ncaafFiles/ncaafGamelines.py:95-115 | `away` is participant 0's name (default 'Away') and `home` participant 1's (default 'Home'), a null name kept as None. Status defaults to 'NOT_STARTED' and the date to '', each None when null. An event without an id, with a null `participants` or with a used participant lacking `name` is skipped; a null id is kept as None. |
| DraftKings.UnmatchedEventKeepsPlaceholders | ncaafFiles/ncaafGamelines.py:100-121 | An event with an id and readable teams, for whose id no market exists, is kept with all nine odds fields 'N/A'. |
| DraftKings.GamelinesAreSurvivingEvents | ncaafFiles/ncaafGamelines.py:92-166 | The output holds the surviving events' gamelines in order, so it is at most as long as the event list. It is exactly as long when no event raises. |
| DraftKings.NoLeagueEventsGiveNoGamelines | ncaafFiles/ncaafGamelines.py:74-79 | When no location and league id yields events, the result is []. |
| NcaafData.Column | ncaafFiles/ncaafData.py:97-129 | `s[k::35]` has `(len - k + 34) // 35` elements, and element i is cell `k + 35i`. |
| NcaafData.CellTexts | ncaafFiles/ncaafData.py:85-86 | One stripped text per cell, in order. |
| NcaafData.CollectCells | ncaafFiles/ncaafData.py:79-86 | The cell loop yields the stripped `th` texts followed by the stripped `td` texts. |
| NcaafData.GameRowsUpTo | ncaafFiles/ncaafData.py:146-181 | The first n rows of the insert loop, row k being the padded row k. |
| NcaafData.InsertRows | ncaafFiles/ncaafData.py:146-184 | The insert loop builds one row per entry of the `Date` slice. |
| NcaafData.Ncaafdb | ncaafFiles/ncaafData.py:45-194 | `ncaafdb` returns and stores what the specification `StoreGamelog` says. |
| NcaafData.StoreGamelog | ncaafFiles/ncaafData.py:45-194 | The return value and the files after `ncaafdb`; stated by NcaafData.StoresOnlyWithEnoughCells, NcaafData.StoreAppends and NcaafData.StoringTwiceDuplicates. |
| NcaafData.GameRows | ncaafFiles/ncaafData.py:97-181 | The rows inserted, one per `Date` value; stated by NcaafData.GameRowsLayout and NcaafData.GameRowCell. |
| NcaafData.StoresOnlyWithEnoughCells | ncaafFiles/ncaafData.py:73-94 | True is returned exactly when the table exists and has at least 35 cells; otherwise no file changes. |
| NcaafData.StoreAppends | ncaafFiles/ncaafData.py:132-184 | The rows are appended to the lower-cased team's file after any rows already there, and no other file changes. |
| NcaafData.StoringTwiceDuplicates | ncaafFiles/ncaafData.py:137-184 | Scraping the same page twice holds its games twice (the table is never cleared). |
| NcaafData.GameRowsLayout | ncaafFiles/ncaafData.py:97-181 | n ≥ 35 cells give `(n + 32) // 35` rows of 33 values. Value c of row i is cell `35i + offset(c)` when it exists, else ''. No column reads offset 3 or 34. |
| NcaafData.GameRowCell | ncaafFiles/ncaafData.py:146-181 | The same cell formula for one row and one column. |
| NcaafData.ColumnIndex | ncaafFiles/ncaafData.py:149-181 | `i < len(col)` exactly when cell `k + 35i` exists. |
| NcaafData.ScoreColumnsComeFromCells | ncaafFiles/ncaafData.py:97-103 | `Week` comes from cell 35i, `Opp` from 35i+5, `Tm` from 35i+6 and `Opp2` from 35i+7. |
| NcaafTeams.StatIndexFrom | ncaafFiles/ncaafTeams.py:18-27 | The first stat attribute from c on whose lower-cased name is the key, or none. |
| NcaafTeams.BaseAttrs | ncaafFiles/ncaafTeams.py:16-27 | All 33 stat attributes start as ''. |
| NcaafTeams.ColumnValues | ncaafFiles/ncaafTeams.py:117-118 | `recent[col].tolist()`: one value per recent row, in order. |
| NcaafTeams.NcaafTeam.constructor | ncaafFiles/ncaafTeams.py:15-32 | The attributes are the name, then the blank stats overwritten by each keyword argument whose lower-cased key names one. `w` and `l` are 0. |
| NcaafTeams.NcaafTeam.GetStats | ncaafFiles/ncaafTeams.py:34-65 | It resets `w`/`l` and returns the two halves `rows[:n//2]`, `rows[n//2:]`, or None with no file, a read error or no rows. |
| NcaafTeams.NcaafTeam.RecentGames | ncaafFiles/ncaafTeams.py:79-125 | It resets `w`/`l` and succeeds exactly when the rows exist, number at least `num` and have 33 values. On success each stat attribute holds the last `num` values of its column, oldest first; otherwise the stats are unchanged. |
| NcaafTeams.NcaafTeam.Last2 | ncaafFiles/ncaafTeams.py:67-69 | `_get_recent_games` with 2. |
| NcaafTeams.NcaafTeam.Last4 | ncaafFiles/ncaafTeams.py:71-73 | `_get_recent_games` with 4. |
| NcaafTeams.NcaafTeam.Last8 | ncaafFiles/ncaafTeams.py:75-77 | `_get_recent_games` with 8. |
| NcaafTeams.NcaafTeam.CalculateWinLoss | ncaafFiles/ncaafTeams.py:127-163 | The counts are the rows won and lost under the digits-or-zero rule, and `w`/`l` are set to them. A missing file gives (0, 0) with `w`/`l` unchanged. |
| NcaafTeams.HalvesPartitionRows | ncaafFiles/ncaafTeams.py:48-60 | None exactly when there are no rows. Otherwise the halves' concatenation is the rows and the first half has `n // 2` rows. |
| NcaafTeams.StatsHalves | ncaafFiles/ncaafTeams.py:48-60 | The two halves `get_stats` returns, or None; stated by NcaafTeams.HalvesPartitionRows. |
| NcaafTeams.SetAttrStep | ncaafFiles/ncaafTeams.py:30-32 | A keyword argument changes only the attribute its lower-cased key names. |
| NcaafTeams.UnnamedAttributeKept | ncaafFiles/ncaafTeams.py:15-32 | An attribute that no keyword names keeps its initial value. |
| NcaafTeams.LastKeywordWins | ncaafFiles/ncaafTeams.py:30-32 | An attribute named by several keywords holds the value of the last one. |
| NcaafTeams.KeywordMatching | ncaafFiles/ncaafTeams.py:30-32 | A key whose lower-cased form is a stat name sets that stat. |
| NcaafTeams.RecordBounded | ncaafFiles/ncaafTeams.py:145-155 | wins + losses ≤ number of rows (ties count as neither). |
| NcaafTeams.Wins | ncaafFiles/ncaafTeams.py:145-155 | The rows won under the digits-or-zero rule; stated by NcaafTeams.RecordBounded and NcaafTeams.SwappedScoresSwapRecord. |
| NcaafTeams.Losses | ncaafFiles/ncaafTeams.py:145-155 | The rows lost under the digits-or-zero rule; stated by NcaafTeams.RecordBounded and NcaafTeams.SwappedScoresSwapRecord. |
| NcaafTeams.SwapAll | ncaafFiles/ncaafTeams.py:147-148 | Swapping each row's scores keeps the number of rows. |
| NcaafTeams.SwappedScoresSwapRecord | ncaafFiles/ncaafTeams.py:145-155 | Swapping `Tm` and `Opp2` in every row swaps wins and losses. |
| NcaafGetData.GetTeamStats | ncaafFiles/ncaafGetData.py:23-44 | The row loop returns the specification `TeamStats`: one record per row with cells, or None when the page has no offense table. |
| NcaafGetData.RecordUpToLastIndex | ncaafFiles/ncaafGetData.py:34-37 | The keys are exactly the headers among the first n. A header's value is the cell at its last index, or None past the row's end. |
| NcaafGetData.RecordKeysUpTo | ncaafFiles/ncaafGetData.py:34-37 | The keys of the comprehension over the first n headers are exactly those headers. |
| NcaafGetData.RecordValuesUpTo | ncaafFiles/ncaafGetData.py:34-37 | A header's value after the first n headers is the cell at its last index among them. |
| NcaafGetData.RecordKeysAreHeaders | ncaafFiles/ncaafGetData.py:9-12 | A record's keys are exactly the distinct header names, whatever the row's length. |
| NcaafGetData.LastIndexWins | ncaafFiles/ncaafGetData.py:34-37 | A header's value is the cell at its last index. |
| NcaafGetData.DuplicateHeadersKeepLastCell | ncaafFiles/ncaafGetData.py:9-12 | `Att` comes from cell 9, `TD` from 12, `Avg` from 15, `Yds` from 21 and `Tot` from 24. |
| NcaafGetData.TeamStatsKeepsRowsWithCells | ncaafFiles/ncaafGetData.py:28-39 | There is one record per row with cells, in row order; rows without cells give none. |
| NcaafGetData.PlayerKeyShape | ncaafFiles/ncaafGetData.py:50-57 | A key exists exactly when the name has a space followed by a non-empty second word. The id begins with the letter, ends in '01' and has 3 to 9 characters. |
| NcaafGetData.PlayerKey | ncaafFiles/ncaafGetData.py:50-57 | The letter and id `get_player_stats` computes, or None when it raises; stated by NcaafGetData.PlayerKeyShape and NcaafGetData.PlayerWords. |
| NcaafGetData.PlayerWords | ncaafFiles/ncaafGetData.py:51-53 | The first name is the text before the first space; the last name is the text between the first and second spaces. |
| NcaafEvents.UpcomingDates | ncaafFiles/ncaafEvents.py:82-84 | Exactly `days` dates (none when `days ≤ 0`); date i is today + i. |
| NcaafEvents.CleanTeamName | ncaafFiles/ncaafEvents.py:86-88 | `_clean_team_name` returns the name unchanged; NcaafEvents.ContainerGamesPairLinks states the names that reach the games. |
| NcaafEvents.NcaabEvents.constructor | ncaafFiles/ncaafEvents.py:11-12 | The sport is 'ncaab'. |
| NcaafEvents.NcaabEvents.GetSchedule | ncaafFiles/ncaafEvents.py:14-58 | The date loop, with `days` defaulting to 7, returns the specification `Schedule`: the pages' games in date order, or [] once a request raises. |
| NcaafEvents.DatesStep | ncaafFiles/ncaafEvents.py:20-28 | One more date appends its page's games, and a raising request on it is a raising request of the window. |
| NcaafEvents.NcaabEvents.ScheduleDay | ncaafFiles/ncaafEvents.py:34-52 | The container loop concatenates each container's games. |
| NcaafEvents.NcaabEvents.PairLinks | ncaafFiles/ncaafEvents.py:36-49 | The step-2 loop gives the container's games. |
| NcaafEvents.PairGameShape | ncaafFiles/ncaafEvents.py:39-49 | A pair gives at most one game, with time 'TBD' and both names non-empty. It gives exactly one when both stripped names are non-empty. |
| NcaafEvents.PairsMembers | ncaafFiles/ncaafEvents.py:37-41 | Every game comes from a pair (2j, 2j+1) within the list; a trailing odd link is never used. |
| NcaafEvents.PairsAtMostOneEach | ncaafFiles/ncaafEvents.py:37-42 | At most `len(teams) // 2` games when each pair gives at most one. |
| NcaafEvents.PairsOneEach | ncaafFiles/ncaafEvents.py:37-49 | When every pair gives one game, game j is pair j's. |
| NcaafEvents.ContainerGamesShape | ncaafFiles/ncaafEvents.py:37-49 | There are at most `len(teams) // 2` games, each on the page's day, at 'TBD', with non-empty names. |
| NcaafEvents.ContainerGamesPairLinks | ncaafFiles/ncaafEvents.py:37-49 | With no blank names, game j has `teams[2j]` stripped as away and `teams[2j+1]` stripped as home. |
| NcaafEvents.ContainersGamesShape | ncaafFiles/ncaafEvents.py:34-49 | Every game of a page is on that page's day, at 'TBD'. |
| NcaafEvents.DatesGamesShape | ncaafFiles/ncaafEvents.py:20-49 | Every game is on one of the dates, at 'TBD', with non-empty names. |
| NcaafEvents.ScheduleShape | ncaafFiles/ncaafEvents.py:17-54 | Every game is within [today, today + days), at 'TBD', with both teams named. |
| NcaafEvents.FailedPagesGiveNoGames | ncaafFiles/ncaafEvents.py:26-28 | Dates whose response status is not 200 contribute no games. |
| NcaafEvents.RaisingRequestEmptiesSchedule | ncaafFiles/ncaafEvents.py:16-58 | One request that raises empties the whole schedule, whatever the other pages hold. |
| NcaafApi.GetNcaafTeamStats | ncaafFiles/ncaafApi.py:13-48 | The paragraph loop returns the specification `TeamStats`: the last "Record:" paragraph's value and the last "Conference:"-only paragraph's value. |
| NcaafApi.LastLineValueIsLastLine | ncaafFiles/ncaafApi.py:37-42 | The value is absent exactly when no paragraph matches, and otherwise comes from the last matching paragraph. |
| NcaafApi.TeamStatsFields | ncaafFiles/ncaafApi.py:27-42 | `team` is upper-cased and `source` is 'sports-reference'. The record is absent exactly when no paragraph has "Record:". A paragraph with both labels sets only the record. |
| NcaafApi.TeamStatsWithoutMeta | ncaafFiles/ncaafApi.py:34-35 | A failed request gives None; with no `meta` div there is neither record nor conference. |
| NcaafApi.RecordFollowsLastMarker | ncaafFiles/ncaafApi.py:40 | The record is the stripped text after the paragraph's last "Record:". |
| NcaafApi.ConferenceFollowsLastMarker | ncaafFiles/ncaafApi.py:42 | The conference is the stripped text after the paragraph's last "Conference:". |
| NcaafApi.CollectGames | ncaafFiles/ncaafApi.py:88-103 | The games loop returns one entry per row, or None once a row raises. |
| NcaafApi.GameEntryOf | ncaafFiles/ncaafApi.py:91-101 | One row's entry, or the error it raises; stated by NcaafApi.GameEntryMeaning. |
| NcaafApi.GetNcaafTeamGamelog | ncaafFiles/ncaafApi.py:73-109 | Scrape, then `NcaafTeam().get_stats`, then the games loop, reading the file `ncaafdb` wrote (see Findings). |
| NcaafApi.TeamGamelog | ncaafFiles/ncaafApi.py:73-109 | The gamelog that reads back the file `ncaafdb` wrote; stated by NcaafApi.GamelogStoresFirst, NcaafApi.GamelogOneEntryPerGame and NcaafApi.SingleGameHasEmptyFirstHalf. |
| NcaafApi.TeamGamelogAsWritten | ncaafFiles/ncaafApi.py:73-109 | The gamelog as written, reading the file under the name as given; stated by NcaafApi.LowerCaseNamesAgree and NcaafApi.AsWrittenLosesMixedCaseGamelog (see Findings). |
| NcaafApi.GameEntryMeaning | ncaafFiles/ncaafApi.py:91-101 | A row raises exactly when it has fewer than 7 values or a score is not an integer. Entries copy values 0, 1, 2, 4, 5 and 6. The result is 'W' exactly when `int(tm or 0) > int(opp or 0)`, else 'L' (ties too). |
| NcaafApi.ScoreValueReadsIntegers | ncaafFiles/ncaafApi.py:99 | '' reads as 0 and a written integer reads as itself. |
| NcaafApi.GamelogStoresFirst | ncaafFiles/ncaafApi.py:82 | The files are those `ncaafdb` left; a scrape that stores nothing gives None. |
| NcaafApi.GamelogOneEntryPerGame | ncaafFiles/ncaafApi.py:85-103 | There is one entry per row of the first half of the team's file, in order. |
| NcaafApi.LowerCaseNamesAgree | ncaafFiles/ncaafApi.py:82-85 | For a lower-case name, the code as written and the corrected lookup agree. |
| NcaafApi.MixedCaseNamesDiffer | ncaafFiles/ncaafData.py:132 | A name with an upper-case letter gives a different file name from its lower-cased form. |
| NcaafApi.AsWrittenLosesMixedCaseGamelog | ncaafFiles/ncaafApi.py:82-87 | As written, a mixed-case team's stored games are not found (None); the corrected reading finds a non-empty table. |
| NcaafApi.SingleGameHasEmptyFirstHalf | ncaafFiles/ncaafApi.py:85-89 | A first scrape of 35 to 37 cells stores one row, so the gamelog is the empty first half. |
| NcaafApi.AlabamaGamelogIsLost | ncaafFiles/ncaafApi.py:82-105 | For "Alabama" with 35 cells on an empty store, the games are stored but the code as written returns None; the corrected lookup returns []. |

## Left out

- All I/O is replaced by inputs to the model:
  - HTTP requests, BeautifulSoup traversal, the DraftKings embedded-JSON regex and the JSON parse;
  - SQLite and pandas, where the database directory is a map from file name to rows;
  - `os.makedirs`, `os.path.exists`, logging, `print` and the DraftKings debug file writes.
- Dates and times are inputs or day numbers: `datetime.now`, `fromisoformat`, `strftime` and `timedelta`.
  `ncaafdb`'s default `year=current_year` is the clock's year, so the model takes `year` as an input.
- The ESPN scoreboard's dates arrive already formatted, and the envelope timestamp is a parameter.
- Paths: `ncaafdb` writes under the working directory, while `NcaafTeam` reads under the module's
  directory. The model treats them as one directory.
- Strings:
  - case mapping and `isdigit` are ASCII only;
  - `int()` accepts an optional sign and digits after stripping, so underscores and non-ASCII digits are
    not modelled;
  - every value of a `Stats` row is text, as the declared column types are.
- Numbers: JSON numbers are integers or floats on the half-point grid, which is enough for spreads,
  moneylines and totals. Other floats and their `str()` are not modelled.
- Restructure's `.get` defaults for absent keys: the walk always sets every key, so only the values it
  can set are modelled.
- ESPN: a JSON null is modelled where it makes the walk raise: `events` or `competitions` (not iterable),
  and `provider`, `homeTeamOdds` or `awayTeamOdds` (no `.get`). A null `odds` is falsy and skipped, as
  a missing one is. The other keys are read with `.get` and give None either way. The exception escapes
  `get_espn_bets_gamelines`, which has no `try` around the walk, and the model returns it as `Raised`.
- DraftKings:
  - a JSON null is modelled for the event, market and selection fields, where a null and a missing key
    behave differently (`participants`, a participant's `name`, `id`, `startEventDate`, `status`,
    `marketType` and its `name`, `displayOdds` and its `american`, `points`). Keys read with `.get` and
    no default (`leagueId`, `eventId`, `marketId`, `outcomeType`, `label`) give None either way and
    are modelled as one case;
  - a null data location, or a null `presentation`, is not modelled. The same goes for a location
    whose `events`, `markets` or `selections` key holds null. In the source these raise, either to the
    outer `except`, which returns [], or inside each event's `try`, which skips the event. The model's
    locations hold lists or lack the key;
  - `print_gamelines` and the import-time scrape are not modelled;
  - the set of league ids printed when nothing is found is not modelled.
- The module-level column lists in `ncaafData.py` are never updated by `ncaafdb`, which only assigns
  locals. They are not modelled.
- `ncaafAddGame` and `NCAF_COMMON_TEAMS` are not modelled.
- `ncaafdb`: an insert error skips that row, but the model's rows always have 33 values, so no insert
  fails. The table creation is implied by the map entry.
- NcaafTeam:
  - NcaafTeam.constructor: only `name` and the 33 stat attributes are attributes `hasattr` can find.
    Keywords naming `w`, `l` or a method are ignored rather than set.
  - The pandas frame's width comes from the rows read. A row that is not 33 wide makes `_get_recent_games`
    fail; this failure is modelled.
- `get_team_stats`: dictionary key order is not modelled, and records are maps. A page without an
  `offense` table raises in the source; the model gives None.
- `def_headers` and `get_coach_stats` are unused or empty.
- `get_player_stats` only prints its letter and id; the model returns them and leaves out the print.
- `get_existing_gamelines` is a SQL date-window query.
- `get_all_ncaaf_gamelines` only wraps `get_espn_bets_gamelines` with a timestamp.
- `get_ncaaf_player_stats` and `get_ncaaf_standings` return constant placeholders.
- `app.py` is route glue.
- The gamelog lookup imports `ncaafTeam`, while the class lives in `ncaafTeams.py`. The model takes it that the
  import resolves to that class.

## Findings

| source | as written | input that shows it | evidently intended | confidence | as-written member | corrected member |
|---|---|---|---|---|---|---|
| ncaafFiles/ncaafApi.py:82-85 | `ncaafdb` (ncaafFiles/ncaafData.py:49 and 132) writes `ncaafDb/{team.lower()}-{year}-stats.db`, but `get_stats` (ncaafFiles/ncaafTeams.py:38) reads `ncaafDb/{team}-{year}-stats.db` with the name as given, so a mixed-case team's freshly stored gamelog is not found and the call returns None | `get_ncaaf_team_gamelog("Alabama", 2023)` with no existing file and an offense table of 35 cells | read back the file that was just written, i.e. the lower-cased name | not executed; holds on a case-sensitive file system | NcaafApi.TeamGamelogAsWritten (shown by NcaafApi.AlabamaGamelogIsLost and NcaafApi.AsWrittenLosesMixedCaseGamelog) | NcaafApi.TeamGamelog (used by NcaafApi.GetNcaafTeamGamelog, proved in NcaafApi.GamelogOneEntryPerGame and NcaafApi.SingleGameHasEmptyFirstHalf) |
