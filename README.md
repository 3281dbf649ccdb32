# Padel group ratings — a Dafny model

The application keeps padel groups. Players in a group register for a
planned match. The back end proposes balanced couples for it and records
results. After each result it recomputes every player's and every couple's
rating from all stored matches. The React front end shows:

- each player's recent form;
- all-vs-all league fixtures;
- a player's best and worst partners;
- paginated results, with the selected player highlighted.

This project models the logic at the core of that system. Each part below
takes the form of its source.

- **The rating recalculation** of `update_ratings_for_group` (main.py), in
  `scoring.dfy`, `ratings.dfy`, `ratings_props.dfy` and `order.dfy`.
  - The per-set table, the match winner, the multiplied match-win bonus and
    the sweep bonus are pure functions.
  - The loop over matches is a method. It updates the player and couple
    tables and the per-date result lists.
  - The method is proved equal to a left fold, `Accumulate`. The properties
    are proved about that fold, including the daily all-wins bonus and the
    dependence on match order.
  - Points are kept in tenths of a point, so the 1.2 and 0.8 multipliers are
    exact: set points ×10, match bonus 36, 30 or 24, sweep and daily bonus 30.
- **Team proposals** (`propose_teams` in web_api.py), in `teams.dfy`.
  - `itertools.combinations`, `is_non_overlapping` and the strength
    collection are modelled.
  - The search keeps the first combination of least spread.
  - The leftover player is modelled too.
- **Result registration** (web_api.py), in `register.dfy`, `sets_text.dfy`,
  `nicknames.dfy` and `registration.dfy`.
  - The validation of `register_match_result`, with its early returns and
    same-day duplicate check.
  - The `score1`/`score2` counts and the `"6-4, 3-6"` sets string.
  - The nickname substitution over rosters and couples.
  - Registering a user for a planned match and removing them. The planned
    match is a class whose `registeredUsers` list changes in place.
- **Front-end helpers**:
  - form strings (Ratings.jsx, `form.dfy`);
  - fixture generation, list updates and save validation
    (ResultsPage.jsx, `results_page.dfy`);
  - pair generation and partner tallies (App.js, `app.dfy`);
  - pagination and highlighting (Results.jsx, `results_view.dfy`);
  - the de-duplicated player list (PlayerDropdown.jsx, `player_dropdown.dfy`).

  These are built on `js_text.dfy` (`trim`, `toLowerCase`, `split`, `join`)
  and on `pairs.dfy`, the index pairs `i < j` shared by every pair-generating
  loop.

Python string order, `sorted` and the couple key `tuple(sorted(team))` are
modelled in `names.dfy`.

Wherever the source updates variables in a loop, the model is a method with
that loop and its invariants. Each such method is proved equal to a
specification function, and the properties are lemmas about that function.

## Model

| member | source | states |
|---|---|---|
| Scoring.SetTable | main.py:67-112 | The winner's scenario points are between 1 and 6 and the loser's at most 3; the set winner (with its +3) always gets more than the loser |
| Scoring.SetTableMonotone | main.py:70-88 | The closer the set, the fewer scenario points for its winner and the more for its loser; below 5 loser games the winner gets 6 minus the loser's games |
| Scoring.ScoreSet | main.py:65-115 | A set yields at most one set win, to the side with strictly more games; a tied set yields no points and no set win |
| Scoring.ScoreSets | main.py:60-115 | The accumulating loop over the sets computes exactly the fold of the per-set scores |
| Scoring.SetsWonBy | main.py:65-113 | Neither side wins more sets than were played |
| Scoring.TallyCounts | main.py:65-119 | The sets-won counters are the number of sets each side won strictly; the two counts plus the tied sets make up all the sets |
| Scoring.WonEverySet | main.py:162-171 | A side credited with every set won each one outright: no tie and no loss |
| Scoring.TallyMirror | main.py:67-113 | team2 is scored by the same table: swapping the sides of every set swaps both set points and set wins |
| Scoring.Winner | main.py:121-126 | There is no winner exactly when both sides won as many sets |
| Scoring.WinnerWonMore | main.py:121-126 | A side is the winner iff it won strictly more sets than the other; a match without sets has no winner |
| Scoring.Multiplier | main.py:131-147 | The multiplier is always 0.8, 1 or 1.2 |
| Scoring.MatchBonusSpec | main.py:128-160 | Only the winner gets the match bonus: 3.6 when its summed points before the match were below the loser's, 2.4 when above, 3 when level |
| Scoring.SweepOnlyWinner | main.py:162-172 | A side with the sweep bonus is the match winner, won every set outright with more than 6 games, and the other side has no sweep bonus |
| Scoring.OutcomeAwards | main.py:152-172 | A side that did not win is awarded exactly its set points; the winner gets its set points plus between 2.4 and 6.6 |
| Scoring.SetExamples | main.py:67-90 | 6-0 gives 9 to 0, 7-6 gives 4 to 3, a 3-3 set gives nothing |
| Ratings.CreditRoster | main.py:177-195 | The loop over a roster credits every listed player with the whole side award and records the day's result once per listing |
| Ratings.CreditPair | main.py:197-217 | A roster of exactly two credits the sorted couple with twice the side award and records the couple's day; other sizes change nothing |
| Ratings.MatchAwards | main.py:60-172 | The step-by-step accumulators give the tally, the winner and both awards that the scoring functions specify |
| Ratings.ProcessMatch | main.py:33-217 | The body of the loop over matches changes the four tables exactly as one step of the fold |
| Ratings.ApplyDailyBonus | main.py:219-228 | The final pass adds 3 for every (name, date) list that is non-empty and all wins |
| Ratings.UpdateRatingsForGroup | main.py:20-228 | The whole recalculation produces exactly the specified final player and couple tables |
| Ratings.BonusAt | main.py:219-228 | After the daily pass an entry exists iff it existed or owns an all-wins day, and its points grow by 3 per all-wins date |
| RatingProperties.DecodedOnly | main.py:39-48 | Only rows whose rosters decode are kept |
| RatingProperties.UndecodableRowsSkipped | main.py:39-53 | A row whose team text does not decode changes nothing; undecodable set text counts as an empty set list and the row still counts |
| RatingProperties.CreditAllSpec | main.py:177-195 | A name gets an entry iff it had one or is on the roster, and is credited once per time it is listed |
| RatingProperties.StepPlayers | main.py:128-195 | After one match a player has an entry iff it had one or played, and gains its side's award once per listing |
| RatingProperties.RecordDaysValue | main.py:185-195 | Recording a roster's day appends the result to each listed player's list for that date and creates only those lists |
| RatingProperties.StepWellFormed | main.py:177-217 | Every per-date list is non-empty and belongs to a name or couple that has an entry, and each match keeps it so |
| RatingProperties.AccumulateKeys | main.py:33-195 | Exactly the names seen in a processed match have an entry |
| RatingProperties.FinalPlayersKeys | main.py:219-240 | The written player table holds exactly the names seen in processed matches |
| RatingProperties.AccumulateCoupleKeys | main.py:197-217 | Exactly the couples that played together as a two-player roster have an entry |
| RatingProperties.FinalCouplesKeys | main.py:219-243 | The written couple table holds exactly those couples |
| RatingProperties.AccumulateCounters | main.py:177-195 | A player's matches, wins and sets are its appearances, its appearances on the winning side, and its side's sets won, over all processed matches |
| RatingProperties.CoupleOfSpec | main.py:197-199 | A roster forms a couple iff it has two players, and the key is the roster sorted |
| RatingProperties.CreditCoupleSpec | main.py:197-217 | A couple gains an entry only from its own roster, and is credited with twice the side award |
| RatingProperties.StepCouples | main.py:197-217 | After one match a couple has an entry iff it had one or played as a roster, and gains twice its side's award |
| RatingProperties.RosterOrderIrrelevant | main.py:128-217 | Listing a two-player roster in the other order gives the same tables after the match |
| RatingProperties.PlayerDaysSpec | main.py:185-195 | A player has a list for a date iff it played that day, and the list is all wins iff it won every match it played that day |
| RatingProperties.CoupleDaysSpec | main.py:197-217 | The same for couples, counting only matches the two played together |
| RatingProperties.PlayerDailyBonus | main.py:219-223 | A player's written points are its match points plus 3 for each date on which it played and won every match |
| RatingProperties.CoupleDailyBonus | main.py:225-228 | A couple's written points are its match points plus 3 for each date on which it won every match it played together |
| RatingProperties.WrittenPoints | main.py:231-237 | `int(round(x))` is within half a point of `x`, and a value exactly half-way rounds to the even point |
| RatingProperties.AwardsEven | main.py:152-172 | Every side award is an even number of tenths |
| RatingProperties.AccumulateEven | main.py:33-217 | All accumulated points are even numbers of tenths |
| RatingProperties.BonusEven | main.py:219-228 | The daily bonus keeps every point total an even number of tenths |
| RatingProperties.WriteBackNeverTies | main.py:231-262 | No written total is ever exactly half-way between two points, so the rounding is never a tie |
| RatingOrder.OneSetCleanWin | main.py:162-172 | A single set won with at most 6 games earns no sweep bonus |
| RatingOrder.CleanWinOutcome | main.py:152-172 | Without a sweep, the winner gets its set points plus the match bonus and the loser its set points only |
| RatingOrder.StepPlayerPoints | main.py:128-195 | A player's points after a match are its points before plus each side's award times the player's listings on that side |
| RatingOrder.CleanWinCredit | main.py:128-195 | Each player of a two-against-two match gets its own side's award, with the multiplier chosen from the summed points before the match |
| RatingOrder.CleanWinStep | main.py:128-195 | Among four distinct players, each gets exactly its own side's award |
| RatingOrder.FirstMatch | main.py:128-195 | From empty tables both sides stand level, so the winners get their set points plus exactly 3 |
| RatingOrder.WinFromBehind | main.py:131-160 | Winners whose points before the match were below the losers' get 3.6 |
| RatingOrder.OwnWinFirst | main.py:128-195 | Winning first, from level, and then losing the rematch gives the plain 3 |
| RatingOrder.OwnWinSecond | main.py:128-195 | Losing first and winning the rematch from behind gives 3.6 |
| RatingOrder.OrderMatters | main.py:128-160 | The same two matches in the other order give a player 0.6 more: the order in which the store returns matches changes the ratings |
| Names.Trichotomy | main.py:198 | Python's string order is total: exactly one of less, equal, greater |
| Names.LessTransitive | main.py:198 | Python's string order is transitive |
| Names.Sort | web_api.py:224 | `sorted` returns a sorted permutation of its input |
| Names.SortedUnique | web_api.py:238-239 | Two sorted lists with the same elements are equal |
| Names.SortEqualIff | web_api.py:256-257 | Two rosters sort to the same list iff they hold the same names equally often |
| Names.CoupleKey | main.py:198 | The couple key is the two names, least first |
| Names.CoupleKeyIsSorted | main.py:198 | The couple key is what sorting the two-player roster gives |
| Names.CoupleKeySymmetric | main.py:198 | Swapping the two players gives the same couple key |
| Register.FirstBadCouple | web_api.py:223-226 | No couple is reported iff every couple has exactly two players; otherwise the first couple of another size is |
| Register.CheckCouples | web_api.py:222-227 | The loop over couples reports exactly the first couple that is not two players |
| Register.FindClash | web_api.py:243-261 | The loop over stored matches finds a clash iff a stored match other than the one being updated has the same sorted teams in either orientation |
| Register.CheckAllResults | web_api.py:237-261 | The loop over results with early returns gives the verdict of the first failing result |
| Register.RegisterCheck | web_api.py:218-261 | The handler's checks, in order, give exactly the specified verdict |
| Register.ResultsStep | web_api.py:237-261 | From any result on, the verdict is decided by that result or else by the ones after it |
| Register.CheckResultsIff | web_api.py:237-261 | The results are accepted iff every one has two-player teams and clashes with no stored match |
| Register.AcceptedIff | web_api.py:218-261 | A registration is accepted iff group, couples and results are given, every couple has two players, and every result passes |
| Register.OrientationIrrelevant | web_api.py:256-257 | Which side is team1 does not matter, for the submitted result or the stored match |
| Register.RosterOrderIrrelevant | web_api.py:238-257 | The order in which a team's players are listed does not matter |
| Register.UpdatingItselfAllowed | web_api.py:258-260 | A stored match whose `next_match_id` is the one being registered never clashes |
| Register.SameTeamsRejected | web_api.py:218-261 | The same teams as another stored match of the day, in any order and orientation, are rejected as a duplicate |
| Registration.NextMatch.constructor | web_api.py:169 | A missing `registered_users` list starts empty |
| Registration.NextMatch.Add | web_api.py:170-172 | Registering appends the user only when absent |
| Registration.NextMatch.Remove | web_api.py:187-190 | Removing deletes the first occurrence of the user, when there is one |
| Registration.RemoveAt | web_api.py:188-189 | Removing a user first found at position i leaves the list without position i |
| Registration.AddIdempotent | web_api.py:170-172 | After registering, the user is registered, and registering again changes nothing |
| Registration.AddKeepsNoDuplicates | web_api.py:170-172 | Registering never introduces a duplicate |
| Registration.RemoveOne | web_api.py:187-190 | Removing takes away exactly one occurrence of a registered user, and removing an absent one changes nothing |
| Registration.RemoveGone | web_api.py:187-190 | In a duplicate-free list a removed user is no longer registered, and the list stays duplicate-free |
| Registration.RemoveUndoesAdd | web_api.py:170-190 | Removing a user just registered gives back the previous list |
| Nicknames.Rename | web_api.py:399-400 | The substitution keeps the roster's length |
| Nicknames.RenameCouples | web_api.py:401 | The substitution keeps the number of couples |
| Nicknames.RenameSpec | web_api.py:399-401 | Exactly the entries equal to the old name become the new name; every other entry stays in place |
| Nicknames.RenameNoop | web_api.py:399-402 | Nothing changes when the old name is absent or equals the new one |
| Nicknames.RenameChanges | web_api.py:399-402 | With a new name, a roster changes iff the old name is in it |
| Nicknames.RenameRemovesOld | web_api.py:399-401 | Afterwards the old name no longer occurs |
| Nicknames.RenameCounts | web_api.py:399-401 | The new name occurs as often as both names did before |
| Nicknames.RenameBack | web_api.py:545-547 | Renaming back undoes a rename when the new name was not in use |
| Nicknames.NeedsUpdateIff | web_api.py:402-407 | A match is written back iff it mentions the old name (when the name really changes) |
| SetsText.Normalize | web_api.py:631 | Replacing malformed entries by `[0, 0]` keeps the number of sets |
| SetsText.ScoresPartition | web_api.py:306-307 | Every set is won by one side or tied: the two scores and the ties add up to the number of sets |
| SetsText.MirrorSwapsScores | web_api.py:633-634 | Reading the sets from the other side swaps `score1` and `score2` |
| SetsText.MalformedCountsForNeither | web_api.py:631-634 | A malformed entry counts for neither side |
| SetsText.NatText | web_api.py:637 | `str(n)` is a non-empty run of decimal digits |
| SetsText.ParseSetsString | web_api.py:637 | The sets string determines the sets: reading it back gives them again, negative game counts included |
| SetsText.NegativeSetReadsBack | web_api.py:637 | A set stored as 6 to -1 prints as "6--1" and reads back as the same set |
| SetsText.ReportConsistent | web_api.py:623-637 | The scores are present iff there are sets, they add up to at most the number of sets, and the sets string reads back as the reported sets |
| Teams.BuildCouplePoints | web_api.py:434-439 | The loop fills exactly the specified couple-points table |
| Teams.CouplePointsSymmetric | web_api.py:436-439 | A couple's points read the same in either order |
| Teams.CouplePointsKeys | web_api.py:434-439 | Exactly the couples some row names, in either order, have points |
| Teams.CombinationsSound | web_api.py:442 | Every combination has k elements, all taken from the input |
| Teams.CombinationsComplete | web_api.py:462 | The elements at any increasing positions form one of the combinations |
| Teams.IsNonOverlapping | web_api.py:451-458 | The `used`-set loop returns true iff no player occurs in two couples |
| Teams.Strengths | web_api.py:465-468 | One strength per couple: both players' points plus the couple's |
| Teams.CollectStrengths | web_api.py:465-468 | The loop collects exactly those strengths |
| Teams.Spread | web_api.py:469 | The spread `max - min` is never negative |
| Teams.SearchSpec | web_api.py:462-473 | The search finds a non-overlapping combination of least spread, the first of them in enumeration order, or none when none is non-overlapping |
| Teams.PairedPlayers | web_api.py:478-481 | The loop collects exactly the players of the chosen couples |
| Teams.FirstUnpaired | web_api.py:482-483 | No leftover iff every user is paired; otherwise the first unpaired user in registration order |
| Teams.Consider | web_api.py:463-473 | One pass replaces the best only by a non-overlapping combination of strictly smaller spread |
| Teams.ProposeTeams | web_api.py:425-490 | Fewer than two users give no couples and the sole user or none as leftover; otherwise the couples, strengths and leftover are those of the search |
| Teams.ProposalSound | web_api.py:442-473 | The proposal has n//2 pairwise-disjoint couples of registered users, with no non-overlapping candidate of smaller spread |
| Teams.ProposalFound | web_api.py:442-473 | With distinct users, a proposal always exists |
| Teams.ProposalLeftover | web_api.py:476-483 | With an odd number of distinct users, the leftover is a registered user in none of the chosen couples |
| Pairs.OrderedPairs | padel-ui/src/App.js:17-25 | One pair per index pair i < j, holding the elements at those positions |
| Pairs.PairCount | padel-ui/src/App.js:17-25 | There are n(n-1)/2 pairs |
| Pairs.OrderedPairsSpec | padel-ui/src/App.js:19-22 | Every i < j occurs, and the index pairs come in strictly increasing lexicographic order |
| App.GetAllPairs | padel-ui/src/App.js:17-25 | The nested loops push exactly the ordered pairs |
| App.PairUp | padel-ui/src/App.js:180-184 | The registered users fall into ceil(n/2) couples |
| App.PairRegistered | padel-ui/src/App.js:180-184 | The loop stepping by two builds exactly those couples, a missing list giving none |
| App.PairUpRoundTrip | padel-ui/src/App.js:180-184 | Flattening the couples gives the users back in order, with one '' appended when n is odd |
| App.AllModeRows | padel-ui/src/App.js:191-201 | Rows are built iff the result mode is "all" and there is more than one couple: one per ordered pair of couples, with empty scores |
| App.AllModeRowsCover | padel-ui/src/App.js:191-199 | There are n(n-1)/2 rows and every two couples meet, the earlier one as team1 |
| App.FirstOther | padel-ui/src/App.js:211 | The partner is a member of the team other than the user, and none exists iff every member is the user |
| App.Tick | padel-ui/src/App.js:206-219 | One match updates at most its partner's entry |
| App.TallyPartners | padel-ui/src/App.js:205-219 | The `forEach` fills exactly the specified partner table |
| App.PartnerStatsCounts | padel-ui/src/App.js:205-219 | A partner has an entry iff it played alongside the user; its total is the matches together, its wins the ones won together, and wins plus losses is the total |
| App.OutcomePartner | padel-ui/src/App.js:207-212 | The partner is never the user nor empty, and comes from the user's team, team2 taking precedence |
| App.LevelIsLoss | padel-ui/src/App.js:213-214 | Level scores, missing ones included, count as a loss |
| App.Top3 | padel-ui/src/App.js:228 | The top list is a prefix of at most three entries, exactly three when there are that many |
| App.Worst3 | padel-ui/src/App.js:229 | The worst list is the last (at most) three entries, last first |
| ResultsPage.AllVsAll | padel-ui/src/components/ResultsPage.jsx:7-15 | One fixture per ordered pair of couples, each with the single set [0, 0] |
| ResultsPage.GenerateAllVsAllMatches | padel-ui/src/components/ResultsPage.jsx:7-15 | The nested loops push exactly those fixtures |
| ResultsPage.AllVsAllCover | padel-ui/src/components/ResultsPage.jsx:7-15 | n couples give n(n-1)/2 fixtures and every two couples meet, the earlier one as team1 |
| ResultsPage.SetAt | padel-ui/src/components/ResultsPage.jsx:169-177 | Mapping with `j === idx` changes exactly position idx, and nothing when idx is out of range |
| ResultsPage.RemoveAtSpec | padel-ui/src/components/ResultsPage.jsx:125-127 | Filtering out idx removes exactly that element and keeps the order of the rest |
| ResultsPage.AddTeam | padel-ui/src/components/ResultsPage.jsx:120-122 | One more team with two empty slots is appended |
| ResultsPage.SetPlayerInTeamSpec | padel-ui/src/components/ResultsPage.jsx:130-141 | Exactly one slot of one team changes, and every length is kept |
| ResultsPage.RemovePlayerIsBlanking | padel-ui/src/components/ResultsPage.jsx:144-152 | Removing a player blanks the slot: the team keeps its size |
| ResultsPage.AddSet | padel-ui/src/components/ResultsPage.jsx:155-163 | The number of results is kept |
| ResultsPage.AddSetSpec | padel-ui/src/components/ResultsPage.jsx:155-163 | Only the chosen result changes, by one [0, 0] set appended |
| ResultsPage.AddCouple | padel-ui/src/components/ResultsPage.jsx:166-168 | One empty couple is appended |
| ResultsPage.SetCouplePlayerSpec | padel-ui/src/components/ResultsPage.jsx:169-177 | Exactly one slot of one couple changes, and every length is kept |
| ResultsPage.RemoveThenAddCouple | padel-ui/src/components/ResultsPage.jsx:166-180 | Removing a couple and adding one keeps the other couples in order and puts an empty couple last |
| ResultsPage.TeamsResultsSave | padel-ui/src/components/ResultsPage.jsx:82-96 | The result generated from the teams can be saved as soon as a group and a match are chosen, and none of its players is an empty slot |
| ResultsPage.LeagueGuard | padel-ui/src/components/ResultsPage.jsx:99-103 | League results are regenerated iff in league mode with at least two couples whose slots are all filled, and then hold every pairing |
| ResultsPage.CupResultsSave | padel-ui/src/components/ResultsPage.jsx:106-116 | Fresh cup results can be saved as soon as a group and a match are chosen |
| ResultsPage.ValidateSave | padel-ui/src/components/ResultsPage.jsx:200-225 | The checks with their early returns give exactly the specified verdict |
| ResultsPage.SaveIff | padel-ui/src/components/ResultsPage.jsx:200-225 | Saving goes ahead iff group and match are chosen, there are results, and every set score is a number that is not negative, NaN included |
| ResultsPage.FreshFixturesSave | padel-ui/src/components/ResultsPage.jsx:200-225 | Freshly generated league fixtures can always be saved once group and match are chosen |
| ResultsView.TotalPagesSpec | padel-ui/src/components/Results.jsx:131 | There is always a page, and the pages hold every result with no page to spare |
| ResultsView.ShownSpec | padel-ui/src/components/Results.jsx:132-133 | No results show 0 to 0; otherwise `from` is (page-1)*10+1 and `to` is min(page*10, total), never past the total |
| ResultsView.BlankNeverHighlights | padel-ui/src/components/Results.jsx:21-27 | A missing, empty or blank highlight name never highlights |
| ResultsView.NormalizeIdempotent | padel-ui/src/components/Results.jsx:21 | Normalizing twice is normalizing once |
| ResultsView.HighlightIgnoresCaseAndSpace | padel-ui/src/components/Results.jsx:21-27 | Highlighting ignores case and surrounding white space in the highlight name |
| ResultsView.HighlightMembers | padel-ui/src/components/Results.jsx:24-27 | A team box is highlighted iff the normalized name is non-empty and equals one of its normalized '&'-separated members |
| JsText.TrimStart | padel-ui/src/components/Results.jsx:21 | Only leading white space is removed, and the result does not start with white space |
| JsText.TrimEnd | padel-ui/src/components/Results.jsx:21 | Only trailing white space is removed, and the result does not end with white space |
| JsText.Trim | padel-ui/src/components/PlayerDropdown.jsx:23 | A trimmed string neither starts nor ends with white space |
| JsText.TrimFixed | padel-ui/src/components/PlayerDropdown.jsx:23 | A string without white space at either end is its own trim |
| JsText.TrimIdempotent | padel-ui/src/components/PlayerDropdown.jsx:23 | Trimming twice is trimming once |
| JsText.TrimEmpty | padel-ui/src/components/PlayerDropdown.jsx:23 | The trim is empty iff the string is all white space |
| JsText.LowerCase | padel-ui/src/components/Results.jsx:21 | Lower-casing maps every character on its own and keeps the length |
| JsText.LowerCaseProps | padel-ui/src/components/Results.jsx:21 | Lower-casing keeps white space in place and is idempotent |
| JsText.Split | padel-ui/src/components/Results.jsx:26 | Splitting yields at least one piece, and no piece holds the separator |
| JsText.JoinSplit | padel-ui/src/components/Results.jsx:26 | Joining the pieces gives the string back |
| JsText.SplitJoin | padel-ui/src/components/Results.jsx:26 | Splitting joined pieces that hold no separator gives the pieces back |
| PlayerDropdown.Entries | padel-ui/src/components/PlayerDropdown.jsx:15-19 | One entry per player, a missing list giving none |
| PlayerDropdown.FindIndex | padel-ui/src/components/PlayerDropdown.jsx:20 | The result is -1 or a position holding the name |
| PlayerDropdown.FindIndexFirst | padel-ui/src/components/PlayerDropdown.jsx:20 | -1 iff no entry has the name; otherwise the first position that has it |
| PlayerDropdown.KeptIff | padel-ui/src/components/PlayerDropdown.jsx:20 | An entry is kept iff no earlier entry has its name |
| PlayerDropdown.KeepFirstUnique | padel-ui/src/components/PlayerDropdown.jsx:20 | The kept names are distinct |
| PlayerDropdown.KeepFirstNames | padel-ui/src/components/PlayerDropdown.jsx:15-20 | The kept names are exactly the names among the entries |
| PlayerDropdown.KeepFirstOrder | padel-ui/src/components/PlayerDropdown.jsx:15-20 | The kept entries keep the order of their first occurrences |
| PlayerDropdown.AllPlayersSpec | padel-ui/src/components/PlayerDropdown.jsx:15-20 | The offered list has distinct names, every player's name, each at its first occurrence and in order, with nickname equal to name |
| PlayerDropdown.OfferedIff | padel-ui/src/components/PlayerDropdown.jsx:15-20 | A name is offered iff some player has it |
| PlayerDropdown.AddEnabledIff | padel-ui/src/components/PlayerDropdown.jsx:72 | Add is enabled iff nothing is being added, the new name is not blank, and its trim is not a player's name |
| Form.PlayerInTeamSameNames | padel-ui/src/components/Ratings.jsx:8-12 | Whether a player is found depends only on which names the roster lists, not on their order or repeats |
| Form.PlayerInTeamAppend | padel-ui/src/components/Ratings.jsx:8-12 | A player is found in two rosters put together iff it is found in one of them |
| Form.LastFive | padel-ui/src/components/Ratings.jsx:39 | `slice(-5)` keeps at most five marks |
| Form.CollectForm | padel-ui/src/components/Ratings.jsx:14-39 | The `forEach` that pushes marks, then the slice and join, gives exactly the specified form string |
| Form.GetPlayerForm | padel-ui/src/components/Ratings.jsx:14-40 | A player's form is the last five marks of the matches it played |
| Form.GetCoupleForm | padel-ui/src/components/Ratings.jsx:42-68 | A couple's form is the last five marks of the matches the two played on the same side |
| Form.FormTextLayout | padel-ui/src/components/Ratings.jsx:39 | The form string holds the marks at even positions, separated by single spaces |
| Form.FormAtMostFive | padel-ui/src/components/Ratings.jsx:39 | A form string has at most five marks, nine characters |
| Form.MarksAppend | padel-ui/src/components/Ratings.jsx:16-38 | The marks of consecutive stretches of matches concatenate |
| Form.OnlyLastFiveMatter | padel-ui/src/components/Ratings.jsx:39 | Only the last five matches that produced a mark matter |
| Form.UnusableSkipped | padel-ui/src/components/Ratings.jsx:24 | A match with a non-array roster, or empty or non-array sets, adds nothing |
| Form.MarkSpec | padel-ui/src/components/Ratings.jsx:24-37 | A match adds a mark iff it is usable and the player or couple took part; the mark is W iff its side won strictly more sets |
| Form.LevelIsLoss | padel-ui/src/components/Ratings.jsx:29-37 | Equal set counts are a loss for whoever played |
| Form.Team1First | padel-ui/src/components/Ratings.jsx:33-37 | A player listed on both sides is scored as team1 |
| Form.CoupleSameSide | padel-ui/src/components/Ratings.jsx:61-65 | A couple counts only when both players are on the same side |
| Form.MirrorSameMark | padel-ui/src/components/Ratings.jsx:26-37 | Swapping the two sides of a match, sets included, does not change a team2 player's mark |

## Left out

- Every Supabase read and write is left out, along with the fetch-error early return, the per-entity `try`/`except`, FastAPI routing, request parsing and the HTTP responses. The model starts from the fetched rows and ends with the tables, lists and verdicts that would be written or returned.
- `json.loads`, `json.dumps` and `JSON.parse` are left out. Text that decodes is modelled by the decoded value. Text that does not is `None`.
- A `JSON.parse` that throws in Ratings.jsx is not modelled: a roster or set list that is not an array stands for both cases.
- `print` output is left out.
- Rosters and sets that are not lists of the right shape are outside the model. The model's rosters and sets are always such lists, and its `None` stands only for text that does not decode. In main.py they behave as follows:
  - A roster that is null or a number raises TypeError at the pre-match sums (main.py:128-129). That aborts the whole recalculation before anything is written.
  - A roster that decodes to a JSON object raises nothing. Its keys are summed at main.py:128-129 and credited as player names at main.py:177-195. It never forms a couple, because the `isinstance(team, list)` tests at main.py:197 and 208 fail.
  - A roster that decodes to a JSON string is iterated character by character.
  - A `sets` value that is null or a number raises TypeError at the loop over sets (main.py:65). A set entry with fewer than two items raises IndexError or TypeError at main.py:66. Either aborts the recalculation.
  - A `sets` value that decodes to an empty object or an empty string iterates nothing and counts as no sets.
- Register.Updating: `match_id` is taken as text, and only the empty string counts as absent. If the request sent the JSON number 0, Python would treat it as false at web_api.py:259. Then a clash with a match whose `next_match_id` is 0 would be reported, not skipped. The model does not reproduce this.
- Scoring.MatchBonusSpec: points are exact tenths, not floats. main.py sums floats, so two totals that are equal in tenths can differ after rounding (0 + 19.2 against 6.4 + 12.8). Then the match multiplier, and so the bonus, can differ from the model's, which treats them as level. Python's rounding error in `3 * 1.2` (3.5999…) is not reproduced either.
- The win-rate division and float sort in App.js are not modelled. Top3 and Worst3 take the sorted list as given, as does the order of `Object.entries`.
- Scoring.SetTable: stated for natural game counts only. A negative loser count (a set like 6 to -1) matches none of the branches at main.py:70-112. If it is the first such set, `win_points` is unbound and main.py raises UnboundLocalError. Otherwise it reuses the previous set's `win_points`. The model reproduces neither.
- Stored `total_points` are taken as integers in `propose_teams`, so the strengths are integer sums; a missing player or couple reads as 0.
- The `len(couple) != 2` guard at write-back never fires, because only two-player rosters create couples.
- The write-back itself is modelled only as the final tables and the rounding of their points.
- JsText.LowerCase maps only the ASCII capitals. JavaScript's full Unicode case mapping is not modelled.
- The cup-pair handlers of ResultsPage.jsx (`handleAddCupPair`, `handleSetCupPair`, `handleRemoveCupPair`) are not modelled separately. They are the same append, ResultsPage.SetAt and ResultsPage.RemoveAtSpec rebuilds as the couple handlers.
- React state, effects as triggers, rendering, `fetch` and the `adding` spinner are left out. The effects and handlers are modelled as functions from the old lists to the new ones.
- The score of the partner tally in App.js is `match.score1`/`match.score2`, a number or null. Null is compared as 0; other JavaScript coercions (strings, NaN) are not modelled.
- App.TallyPartners: the rosters are taken to be lists. `GET /matches` is registered twice in web_api.py, and the first handler (web_api.py:328-338) wins. It returns the stored rows unchanged. A match that `set_nickname` or `link_user_to_player` rewrote stores its rosters as JSON text (web_api.py:404-405, 552-553). For such a roster, App.js:209-210 does a substring `includes`, and `userTeam.find` at App.js:211 throws TypeError, which ends the effect. These inputs are outside the model. The scores are the stored columns: `register_match_result` never writes them, so they are null unless `update_match_result` did.
- The save check of ResultsPage.jsx distinguishes a number, NaN and anything else. It does not model JavaScript's full `typeof` over arbitrary values.
- `update_match_result` is not modelled. Its score counts are the same SetsText.ScoresPartition counts; it writes without checks.
- Overlapping recalculations running at the same time are not modelled. Nothing in the code coordinates them.
