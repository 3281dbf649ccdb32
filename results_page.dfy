/**
 * The result-entry page (ResultsPage.jsx): the all-against-all fixtures of a
 * league, the handlers that rebuild the teams, couples and results lists, the
 * effects that regenerate the results, and the checks made before saving.
 */
module ResultsPage {
  import opened Common
  import opened Pairs

  /** One entry of a set's score field: a number (possibly NaN), or anything else the input held. */
  datatype Cell = Num(v: real) | NaN | Other

  /** A result row: the two sides and the list of sets, each set a list of cells. */
  datatype Fixture<T> = Fixture(team1: T, team2: T, sets: seq<seq<Cell>>)

  /** `[[0, 0]]`: the sets a fresh result starts with. */
  const FreshSets: seq<seq<Cell>> := [[Num(0.0), Num(0.0)]]

  /** A manually assigned team. */
  datatype Team = Team(players: seq<string>)

  // ---------------------------------------------------------------------
  // generateAllVsAllMatches
  // ---------------------------------------------------------------------

  /** The fixtures of a league: one per pair of couple positions `i < j`, in that order, all unplayed. */
  function AllVsAll<T>(couples: seq<T>): (r: seq<Fixture<T>>)
    ensures |r| == |OrderedPairs(couples)|
    ensures forall k :: 0 <= k < |r| ==> r[k].sets == FreshSets
  {
    var ps := OrderedPairs(couples);
    seq(|ps|, k requires 0 <= k < |ps| => Fixture(ps[k].0, ps[k].1, FreshSets))
  }

  /** `generateAllVsAllMatches`: the two nested loops. */
  method GenerateAllVsAllMatches<T>(couples: seq<T>) returns (matches: seq<Fixture<T>>)
    ensures matches == AllVsAll(couples)
  {
    var n := |couples|;
    matches := [];
    var i := 0;
    while i < n
      invariant 0 <= i <= n
      invariant matches == FixturesAt(couples, RowsBefore(n, i))
    {
      var j := i + 1;
      while j < n
        invariant i + 1 <= j <= n
        invariant matches == FixturesAt(couples, RowsBefore(n, i) + Row(n, i)[..j - i - 1])
      {
        RowStep(n, i, j);
        assert RowsBefore(n, i) + Row(n, i)[..j - i] == (RowsBefore(n, i) + Row(n, i)[..j - i - 1]) + [(i, j)];
        matches := matches + [Fixture(couples[i], couples[j], FreshSets)];
        j := j + 1;
      }
      RowDone(n, i);
      i := i + 1;
    }
    AllRowsDone(n);
  }

  /** The fixtures at the given index pairs (the loops' progress). */
  function FixturesAt<T>(couples: seq<T>, ips: seq<(nat, nat)>): seq<Fixture<T>>
    requires forall k :: 0 <= k < |ips| ==> ips[k].0 < |couples| && ips[k].1 < |couples|
  {
    seq(|ips|, k requires 0 <= k < |ips| => Fixture(couples[ips[k].0], couples[ips[k].1], FreshSets))
  }

  /** A league of n couples has n(n-1)/2 fixtures, and every two couples meet, the earlier one as team1. */
  lemma AllVsAllCover<T>(couples: seq<T>)
    ensures |AllVsAll(couples)| * 2 == |couples| * (|couples| - 1)
    ensures forall i, j :: 0 <= i < j < |couples| ==> Meet(AllVsAll(couples), couples[i], couples[j])
  {
    OrderedPairsSpec(couples);
    var fixtures := AllVsAll(couples);
    forall i, j | 0 <= i < j < |couples| ensures Meet(fixtures, couples[i], couples[j]) {
      var ip := IndexPairs(|couples|);
      var k :| 0 <= k < |ip| && ip[k] == (i, j);
      assert fixtures[k].team1 == couples[i] && fixtures[k].team2 == couples[j];
    }
  }

  /** Some fixture has `a` as team1 and `b` as team2. */
  ghost predicate Meet<T>(fixtures: seq<Fixture<T>>, a: T, b: T)
  {
    exists k :: 0 <= k < |fixtures| && fixtures[k].team1 == a && fixtures[k].team2 == b
  }

  // ---------------------------------------------------------------------
  // The list handlers: `map` and `filter` rebuilds
  // ---------------------------------------------------------------------

  /** `prev.map((p, j) => j === idx ? v : p)`: an index outside the list changes nothing. */
  function SetAt<T>(s: seq<T>, idx: int, v: T): (r: seq<T>)
    ensures |r| == |s|
    ensures forall j :: 0 <= j < |s| && j != idx ==> r[j] == s[j]
    ensures 0 <= idx < |s| ==> r[idx] == v
  {
    seq(|s|, j requires 0 <= j < |s| => if j == idx then v else s[j])
  }

  /** `prev.filter((_, i) => i !== idx)`. */
  function RemoveAt<T>(s: seq<T>, idx: int): (r: seq<T>)
  {
    if s == [] then []
    else if idx == 0 then s[1..]
    else [s[0]] + RemoveAt(s[1..], idx - 1)
  }

  /** Exactly the element at `idx` goes; the others keep their order. */
  lemma {:induction false} RemoveAtSpec<T>(s: seq<T>, idx: int)
    ensures |RemoveAt(s, idx)| == if 0 <= idx < |s| then |s| - 1 else |s|
    ensures forall j {:trigger RemoveAt(s, idx)[j]} :: 0 <= j < |RemoveAt(s, idx)| ==> RemoveAt(s, idx)[j] == if 0 <= idx <= j then s[j + 1] else s[j]
  {
    if s != [] && idx != 0 {
      var s' := s[1..];
      RemoveAtSpec(s', idx - 1);
      var r, t := RemoveAt(s, idx), RemoveAt(s', idx - 1);
      assert r == [s[0]] + t;
      forall j | 0 < j < |r| ensures r[j] == if 0 <= idx <= j then s[j + 1] else s[j] {
        assert r[j] == t[j - 1];
      }
    }
  }

  /** `handleAddTeam`: one more team with two empty slots. */
  function AddTeam(teams: seq<Team>): (r: seq<Team>)
    ensures |r| == |teams| + 1 && r[..|teams|] == teams && r[|teams|].players == ["", ""]
  {
    teams + [Team(["", ""])]
  }

  /** `handleSetPlayerInTeam`: one slot of one team takes the player. */
  function SetPlayerInTeam(teams: seq<Team>, teamIdx: int, slotIdx: int, player: string): seq<Team>
  {
    seq(|teams|, i requires 0 <= i < |teams| => if i == teamIdx then Team(SetAt(teams[i].players, slotIdx, player)) else teams[i])
  }

  /** `handleRemovePlayerFromTeam`: one slot of one team is blanked. */
  function RemovePlayerFromTeam(teams: seq<Team>, teamIdx: int, playerIdx: int): seq<Team>
  {
    seq(|teams|, i requires 0 <= i < |teams| =>
      if i == teamIdx then Team(seq(|teams[i].players|, j requires 0 <= j < |teams[i].players| => if j == playerIdx then "" else teams[i].players[j]))
      else teams[i])
  }

  /**
   * Setting a player changes exactly one slot: every team keeps its size,
   * every other team and every other slot is unchanged.
   */
  lemma SetPlayerInTeamSpec(teams: seq<Team>, teamIdx: int, slotIdx: int, player: string)
    ensures |SetPlayerInTeam(teams, teamIdx, slotIdx, player)| == |teams|
    ensures forall i :: 0 <= i < |teams| ==> |SetPlayerInTeam(teams, teamIdx, slotIdx, player)[i].players| == |teams[i].players|
    ensures forall i :: 0 <= i < |teams| && i != teamIdx ==> SetPlayerInTeam(teams, teamIdx, slotIdx, player)[i] == teams[i]
    ensures forall j :: 0 <= teamIdx < |teams| && 0 <= j < |teams[teamIdx].players| ==>
      SetPlayerInTeam(teams, teamIdx, slotIdx, player)[teamIdx].players[j] == if j == slotIdx then player else teams[teamIdx].players[j]
  {
  }

  /** Blanking a slot is setting it to the empty name: the team keeps its size. */
  lemma RemovePlayerIsBlanking(teams: seq<Team>, teamIdx: int, playerIdx: int)
    ensures RemovePlayerFromTeam(teams, teamIdx, playerIdx) == SetPlayerInTeam(teams, teamIdx, playerIdx, "")
  {
    var a, b := RemovePlayerFromTeam(teams, teamIdx, playerIdx), SetPlayerInTeam(teams, teamIdx, playerIdx, "");
    forall i | 0 <= i < |teams| ensures a[i] == b[i] {
      if i == teamIdx {
        assert a[i].players == b[i].players;
      }
    }
  }

  /** `handleRemoveTeam`. */
  function RemoveTeam(teams: seq<Team>, idx: int): seq<Team>
  {
    RemoveAt(teams, idx)
  }

  /** `handleAddSet`: the result at `matchIdx` gets one more set `[0, 0]`. */
  function AddSet<T>(results: seq<Fixture<T>>, matchIdx: int): (r: seq<Fixture<T>>)
    ensures |r| == |results|
  {
    seq(|results|, i requires 0 <= i < |results| =>
      if i == matchIdx then results[i].(sets := results[i].sets + [[Num(0.0), Num(0.0)]]) else results[i])
  }

  /** Adding a set touches only the chosen result, and there only appends. */
  lemma AddSetSpec<T>(results: seq<Fixture<T>>, matchIdx: int)
    ensures forall i :: 0 <= i < |results| && i != matchIdx ==> AddSet(results, matchIdx)[i] == results[i]
    ensures 0 <= matchIdx < |results| ==>
      && AddSet(results, matchIdx)[matchIdx].team1 == results[matchIdx].team1
      && AddSet(results, matchIdx)[matchIdx].team2 == results[matchIdx].team2
      && AddSet(results, matchIdx)[matchIdx].sets == results[matchIdx].sets + [[Num(0.0), Num(0.0)]]
  {
  }

  /** `handleAddCouple`. */
  function AddCouple(couples: seq<seq<string>>): (r: seq<seq<string>>)
    ensures |r| == |couples| + 1 && r[..|couples|] == couples && r[|couples|] == ["", ""]
  {
    couples + [["", ""]]
  }

  /** `handleSetCouplePlayer`: `c.map((p, j) => j === playerIdx ? value : p)` inside the chosen couple. */
  function SetCouplePlayer(couples: seq<seq<string>>, coupleIdx: int, playerIdx: int, value: string): seq<seq<string>>
  {
    seq(|couples|, i requires 0 <= i < |couples| => if i == coupleIdx then SetAt(couples[i], playerIdx, value) else couples[i])
  }

  /** Setting a couple's player changes one slot and keeps every length. */
  lemma SetCouplePlayerSpec(couples: seq<seq<string>>, coupleIdx: int, playerIdx: int, value: string)
    ensures |SetCouplePlayer(couples, coupleIdx, playerIdx, value)| == |couples|
    ensures forall i :: 0 <= i < |couples| ==> |SetCouplePlayer(couples, coupleIdx, playerIdx, value)[i]| == |couples[i]|
    ensures forall i :: 0 <= i < |couples| && i != coupleIdx ==> SetCouplePlayer(couples, coupleIdx, playerIdx, value)[i] == couples[i]
    ensures forall j :: 0 <= coupleIdx < |couples| && 0 <= j < |couples[coupleIdx]| ==>
      SetCouplePlayer(couples, coupleIdx, playerIdx, value)[coupleIdx][j] == if j == playerIdx then value else couples[coupleIdx][j]
  {
  }

  /** `handleRemoveCouple`. */
  function RemoveCouple(couples: seq<seq<string>>, idx: int): seq<seq<string>>
  {
    RemoveAt(couples, idx)
  }

  /**
   * Removing a couple and then adding one keeps the count: the other couples
   * close up in their order and an empty couple takes the last place.
   */
  lemma RemoveThenAddCouple(couples: seq<seq<string>>, idx: int)
    requires 0 <= idx < |couples|
    ensures AddCouple(RemoveCouple(couples, idx)) == couples[..idx] + couples[idx + 1..] + [["", ""]]
  {
    RemoveAtSpec(couples, idx);
    var r := RemoveAt(couples, idx);
    assert r == couples[..idx] + couples[idx + 1..] by {
      forall j | 0 <= j < |r| ensures r[j] == (couples[..idx] + couples[idx + 1..])[j] {
        assert r[j] == if 0 <= idx <= j then couples[j + 1] else couples[j];
      }
    }
  }

  // ---------------------------------------------------------------------
  // The effects that regenerate the results
  // ---------------------------------------------------------------------

  /** A slot is filled when it holds a non-empty name (`Boolean(p)`). */
  predicate Filled(p: string)
  {
    p != ""
  }

  /** The teams effect: with two or more fully filled teams, one result between the first two. */
  function TeamsResults(teams: seq<Team>): (r: Option<seq<Fixture<seq<string>>>>)
    ensures r.Some? <==> |teams| > 1 && forall i, j :: 0 <= i < |teams| && 0 <= j < |teams[i].players| ==> Filled(teams[i].players[j])
    ensures r.Some? ==> r.value == [Fixture(teams[0].players, teams[1].players, FreshSets)]
  {
    if |teams| > 1 && forall i, j :: 0 <= i < |teams| && 0 <= j < |teams[i].players| ==> Filled(teams[i].players[j]) then
      Some([Fixture(teams[0].players, teams[1].players, FreshSets)])
    else None
  }

  /** The result generated from two or more filled teams can be saved at once, and names no empty slot. */
  lemma TeamsResultsSave(selectedGroup: string, scheduledMatchId: string, teams: seq<Team>)
    requires selectedGroup != "" && MatchChosen(scheduledMatchId) && TeamsResults(teams).Some?
    ensures SaveCheck(selectedGroup, scheduledMatchId, TeamsResults(teams).value) == ReadyToSave
    ensures forall k, j :: 0 <= k < |TeamsResults(teams).value| && 0 <= j < |TeamsResults(teams).value[k].team1| ==>
      Filled(TeamsResults(teams).value[k].team1[j])
    ensures forall k, j :: 0 <= k < |TeamsResults(teams).value| && 0 <= j < |TeamsResults(teams).value[k].team2| ==>
      Filled(TeamsResults(teams).value[k].team2[j])
  {
    var r := TeamsResults(teams).value;
    assert r[0].team1 == teams[0].players && r[0].team2 == teams[1].players;
  }

  datatype Mode = League | Cup | Manual(name: string)

  /** The league effect: regenerated only in league mode, with two or more couples whose first two slots are filled. */
  function LeagueResults(mode: Mode, couples: seq<seq<string>>): Option<seq<Fixture<seq<string>>>>
  {
    if mode == League && |couples| > 1 && forall i :: 0 <= i < |couples| ==> |couples[i]| >= 2 && Filled(couples[i][0]) && Filled(couples[i][1]) then
      Some(AllVsAll(couples))
    else None
  }

  /** Results are regenerated exactly when the guard holds, and then hold every pairing of the couples. */
  lemma LeagueGuard(mode: Mode, couples: seq<seq<string>>)
    ensures LeagueResults(mode, couples).Some? <==>
      mode == League && |couples| >= 2 && forall i :: 0 <= i < |couples| ==> |couples[i]| >= 2 && couples[i][0] != "" && couples[i][1] != ""
    ensures LeagueResults(mode, couples).Some? ==> |LeagueResults(mode, couples).value| * 2 == |couples| * (|couples| - 1)
  {
    if LeagueResults(mode, couples).Some? {
      AllVsAllCover(couples);
    }
  }

  /** The cup effect: in cup mode with at least one pair, one unplayed result per pair. */
  function CupResults(mode: Mode, cupPairs: seq<(seq<string>, seq<string>)>): (r: Option<seq<Fixture<seq<string>>>>)
    ensures r.Some? <==> mode == Cup && |cupPairs| > 0
    ensures r.Some? ==> |r.value| == |cupPairs| && forall k :: 0 <= k < |cupPairs| ==> r.value[k] == Fixture(cupPairs[k].0, cupPairs[k].1, FreshSets)
  {
    if mode == Cup && |cupPairs| > 0 then
      Some(seq(|cupPairs|, k requires 0 <= k < |cupPairs| => Fixture(cupPairs[k].0, cupPairs[k].1, FreshSets)))
    else None
  }

  /** Fresh cup results can always be saved once a group and a match are chosen. */
  lemma CupResultsSave(selectedGroup: string, scheduledMatchId: string, cupPairs: seq<(seq<string>, seq<string>)>)
    requires selectedGroup != "" && MatchChosen(scheduledMatchId) && |cupPairs| > 0
    ensures SaveCheck(selectedGroup, scheduledMatchId, CupResults(Cup, cupPairs).value) == ReadyToSave
  {
  }

  // ---------------------------------------------------------------------
  // Saving
  // ---------------------------------------------------------------------

  datatype SaveVerdict = ReadyToSave | MissingFields | BadSetScore

  /** `scores[k]`: a missing entry reads as `undefined`, which is not a number. */
  function CellAt(scores: seq<Cell>, k: nat): Cell
  {
    if k < |scores| then scores[k] else Other
  }

  /** `typeof x === "number" && !(x < 0)`: NaN passes, since no comparison with it holds. */
  predicate CellOk(c: Cell)
  {
    c.NaN? || (c.Num? && c.v >= 0.0)
  }

  predicate SetOk(scores: seq<Cell>)
  {
    CellOk(CellAt(scores, 0)) && CellOk(CellAt(scores, 1))
  }

  /** The match to save into: none chosen, the "no match" entry, the "add a match" entry, or a match id. */
  predicate MatchChosen(scheduledMatchId: string)
  {
    scheduledMatchId != "" && scheduledMatchId != "__none__" && scheduledMatchId != "__add__"
  }

  /** What saving answers before anything is sent. */
  function SaveCheck<T>(selectedGroup: string, scheduledMatchId: string, results: seq<Fixture<T>>): SaveVerdict
  {
    if selectedGroup == "" || !MatchChosen(scheduledMatchId) || results == [] then MissingFields
    else if exists r, s :: 0 <= r < |results| && 0 <= s < |results[r].sets| && !SetOk(results[r].sets[s]) then BadSetScore
    else ReadyToSave
  }

  /** `handleSaveResults` up to the request: the required fields, then the loops over results and their sets. */
  method ValidateSave<T>(selectedGroup: string, scheduledMatchId: string, results: seq<Fixture<T>>) returns (v: SaveVerdict)
    ensures v == SaveCheck(selectedGroup, scheduledMatchId, results)
  {
    if selectedGroup == "" || scheduledMatchId == "" || scheduledMatchId == "__none__" || scheduledMatchId == "__add__" || |results| == 0 {
      return MissingFields;
    }
    var r := 0;
    while r < |results|
      invariant 0 <= r <= |results|
      invariant forall r', s :: 0 <= r' < r && 0 <= s < |results[r'].sets| ==> SetOk(results[r'].sets[s])
    {
      var sets := results[r].sets;
      var s := 0;
      while s < |sets|
        invariant 0 <= s <= |sets|
        invariant forall s' :: 0 <= s' < s ==> SetOk(sets[s'])
      {
        var scores := sets[s];
        var a, b := CellAt(scores, 0), CellAt(scores, 1);
        if !(a.Num? || a.NaN?) || !(b.Num? || b.NaN?) || (a.Num? && a.v < 0.0) || (b.Num? && b.v < 0.0) {
          return BadSetScore;
        }
        s := s + 1;
      }
      r := r + 1;
    }
    return ReadyToSave;
  }

  /**
   * Saving goes ahead exactly when the group and a real match are chosen,
   * there is at least one result, and every set of every result holds two
   * numbers that are not negative (NaN included); a missing field is
   * reported before a bad score.
   */
  lemma SaveIff<T>(selectedGroup: string, scheduledMatchId: string, results: seq<Fixture<T>>)
    ensures SaveCheck(selectedGroup, scheduledMatchId, results) == ReadyToSave <==>
      && selectedGroup != "" && MatchChosen(scheduledMatchId) && results != []
      && forall r, s :: 0 <= r < |results| && 0 <= s < |results[r].sets| ==> SetOk(results[r].sets[s])
    ensures selectedGroup == "" ==> SaveCheck(selectedGroup, scheduledMatchId, results) == MissingFields
  {
  }

  /** Freshly generated fixtures can always be saved once a group and a match are chosen. */
  lemma FreshFixturesSave<T>(selectedGroup: string, scheduledMatchId: string, couples: seq<T>)
    requires selectedGroup != "" && MatchChosen(scheduledMatchId) && |couples| >= 2
    ensures SaveCheck(selectedGroup, scheduledMatchId, AllVsAll(couples)) == ReadyToSave
  {
    PairCount(couples);
    assert |AllVsAll(couples)| > 0 by {
      assert |couples| * (|couples| - 1) > 0;
    }
  }
}
