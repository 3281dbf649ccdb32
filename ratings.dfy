/**
 * The rating recalculation `update_ratings_for_group` of main.py, without its
 * store reads and writes: the rows of a group's `matches` table, in the order
 * the store returns them, become one table of statistics per player name and
 * one per couple (the sorted pair of a two-player roster).
 *
 * Points are in tenths (see module Scoring).
 */
module Ratings {
  import opened Common
  import opened Names
  import opened Scoring

  type Date = string
  type Couple = (Name, Name)

  /**
   * A `matches` row: each roster and the sets list is either a decoded list
   * or text that does not decode (None). A row without a sets field has Some([]).
   */
  datatype MatchRow = MatchRow(team1: Option<seq<Name>>, team2: Option<seq<Name>>, sets: Option<seq<SetScore>>, date: Date)

  /** Points (tenths), sets won, matches played, matches won. */
  datatype Stats = Stats(points: int, sets: nat, matches: nat, wins: nat)

  const Fresh := Stats(0, 0, 0, 0)

  /** A `defaultdict` lookup: a missing entry reads as all zeros. */
  function Get<K(==)>(m: map<K, Stats>, k: K): Stats
  {
    if k in m then m[k] else Fresh
  }

  /** One match's credit: its award, its sets won, one more match, one more win if won. */
  function Credited(s: Stats, award: int, setsWon: nat, won: bool): Stats
  {
    Stats(s.points + award, s.sets + setsWon, s.matches + 1, s.wins + if won then 1 else 0)
  }

  /** The same credit given `n` times. */
  function CreditedTimes(s: Stats, n: nat, award: int, setsWon: nat, won: bool): Stats
  {
    Stats(s.points + n * award, s.sets + n * setsWon, s.matches + n, s.wins + if won then n else 0)
  }

  /** Credits every roster member in turn with the whole side award (no splitting). */
  function CreditAll(m: map<Name, Stats>, team: seq<Name>, award: int, setsWon: nat, won: bool): map<Name, Stats>
  {
    if team == [] then m
    else
      var before := CreditAll(m, team[..|team| - 1], award, setsWon, won);
      var p := team[|team| - 1];
      before[p := Credited(Get(before, p), award, setsWon, won)]
  }

  /** Appends one match result to the list kept for `(k, date)`. */
  function RecordDay<K(==)>(days: map<(K, Date), seq<bool>>, k: K, date: Date, won: bool): map<(K, Date), seq<bool>>
  {
    days[(k, date) := (if (k, date) in days then days[(k, date)] else []) + [won]]
  }

  function RecordDays(days: map<(Name, Date), seq<bool>>, team: seq<Name>, date: Date, won: bool): map<(Name, Date), seq<bool>>
  {
    if team == [] then days
    else RecordDay(RecordDays(days, team[..|team| - 1], date, won), team[|team| - 1], date, won)
  }

  /** `sum(player_stats[p]["points"] for p in team)`. */
  function TeamPoints(m: map<Name, Stats>, team: seq<Name>): int
  {
    if team == [] then 0 else TeamPoints(m, team[..|team| - 1]) + Get(m, team[|team| - 1]).points
  }

  /** The four dictionaries the recalculation fills. */
  datatype Tables = Tables(
    players: map<Name, Stats>,
    couples: map<Couple, Stats>,
    playerDays: map<(Name, Date), seq<bool>>,
    coupleDays: map<(Couple, Date), seq<bool>>)

  const Empty := Tables(map[], map[], map[], map[])

  predicate Decoded(row: MatchRow)
  {
    row.team1.Some? && row.team2.Some?
  }

  /** Undecodable sets text counts as no sets. */
  function SetsOf(row: MatchRow): seq<SetScore>
  {
    if row.sets.Some? then row.sets.value else []
  }

  /** The couple a roster forms: only a roster of exactly two players forms one. */
  function CoupleOf(team: seq<Name>): Option<Couple>
  {
    if |team| == 2 then Some(CoupleKey(team[0], team[1])) else None
  }

  /** Couple crediting: twice the side award, the same sets, matches and wins. */
  function CreditCouple(couples: map<Couple, Stats>, team: seq<Name>, award: int, setsWon: nat, won: bool): map<Couple, Stats>
  {
    match CoupleOf(team)
    case Some(c) => couples[c := Credited(Get(couples, c), 2 * award, setsWon, won)]
    case None => couples
  }

  function RecordCoupleDay(days: map<(Couple, Date), seq<bool>>, team: seq<Name>, date: Date, won: bool): map<(Couple, Date), seq<bool>>
  {
    match CoupleOf(team)
    case Some(c) => RecordDay(days, c, date, won)
    case None => days
  }

  /** The winner of a decoded row (it does not depend on earlier rows). */
  function RowWinner(row: MatchRow): Option<Side>
  {
    Winner(TallyOf(SetsOf(row)))
  }

  /** One iteration of the loop over matches. */
  function Step(acc: Tables, row: MatchRow): Tables
  {
    if !Decoded(row) then acc
    else
      var t1, t2, sets := row.team1.value, row.team2.value, SetsOf(row);
      var o := MatchOutcome(sets, TeamPoints(acc.players, t1), TeamPoints(acc.players, t2));
      var win1, win2 := o.winner == Some(Team1), o.winner == Some(Team2);
      Tables(
        CreditAll(CreditAll(acc.players, t1, o.award1, o.won1, win1), t2, o.award2, o.won2, win2),
        CreditCouple(CreditCouple(acc.couples, t1, o.award1, o.won1, win1), t2, o.award2, o.won2, win2),
        RecordDays(RecordDays(acc.playerDays, t1, row.date, win1), t2, row.date, win2),
        RecordCoupleDay(RecordCoupleDay(acc.coupleDays, t1, row.date, win1), t2, row.date, win2))
  }

  /** The tables after processing the rows in order. */
  function Accumulate(rows: seq<MatchRow>): Tables
  {
    if rows == [] then Empty else Step(Accumulate(rows[..|rows| - 1]), rows[|rows| - 1])
  }

  /** Non-empty and all wins: `all(results) and len(results) > 0`. */
  predicate AllWon(results: seq<bool>)
  {
    |results| > 0 && forall i :: 0 <= i < |results| ==> results[i]
  }

  /** The dates on which `k` won every match it played. */
  function WinDates<K(==)>(days: map<(K, Date), seq<bool>>, k: K): set<Date>
  {
    set key | key in days.Keys && key.0 == k && AllWon(days[key]) :: key.1
  }

  /** Owners of some all-wins day. */
  function BonusOwners<K(==)>(days: map<(K, Date), seq<bool>>): set<K>
  {
    set key | key in days.Keys && AllWon(days[key]) :: key.0
  }

  /** The daily all-wins bonus: +3 (30 tenths) per date on which every match was a win. */
  function WithDailyBonus<K(==)>(stats: map<K, Stats>, days: map<(K, Date), seq<bool>>): map<K, Stats>
  {
    map k | k in stats.Keys + BonusOwners(days) :: Get(stats, k).(points := Get(stats, k).points + 30 * |WinDates(days, k)|)
  }

  /** The final player and couple tables that the recalculation writes back. */
  function FinalPlayers(rows: seq<MatchRow>): map<Name, Stats>
  {
    WithDailyBonus(Accumulate(rows).players, Accumulate(rows).playerDays)
  }

  function FinalCouples(rows: seq<MatchRow>): map<Couple, Stats>
  {
    WithDailyBonus(Accumulate(rows).couples, Accumulate(rows).coupleDays)
  }

  // ---------------------------------------------------------------------
  // The imperative recalculation
  // ---------------------------------------------------------------------

  /** `for player in team:` credit the stats and record the day's result. */
  method CreditRoster(players: map<Name, Stats>, days: map<(Name, Date), seq<bool>>, team: seq<Name>,
                      date: Date, award: int, setsWon: nat, won: bool)
    returns (players': map<Name, Stats>, days': map<(Name, Date), seq<bool>>)
    ensures players' == CreditAll(players, team, award, setsWon, won)
    ensures days' == RecordDays(days, team, date, won)
  {
    players', days' := players, days;
    var i := 0;
    while i < |team|
      invariant 0 <= i <= |team|
      invariant players' == CreditAll(players, team[..i], award, setsWon, won)
      invariant days' == RecordDays(days, team[..i], date, won)
    {
      var player := team[i];
      var stats := Get(players', player);
      players' := players'[player := Credited(stats, award, setsWon, won)];
      var results := if (player, date) in days' then days'[(player, date)] else [];
      days' := days'[(player, date) := results + [won]];
      assert team[..i + 1][..i] == team[..i];
      i := i + 1;
    }
    assert team[..i] == team;
  }

  /** The final pass: +30 tenths for every (name, date) list that is all wins. */
  method ApplyDailyBonus<K(==)>(stats: map<K, Stats>, days: map<(K, Date), seq<bool>>) returns (result: map<K, Stats>)
    ensures result == WithDailyBonus(stats, days)
  {
    result := stats;
    var remaining := days.Keys;
    assert WithDailyBonus(stats, Restrict(days, days.Keys - remaining)) == stats by {
      assert Restrict(days, {}) == map[];
      BonusNone(stats);
    }
    while remaining != {}
      invariant remaining <= days.Keys
      invariant result == WithDailyBonus(stats, Restrict(days, days.Keys - remaining))
      decreases remaining
    {
      var key :| key in remaining;
      var done := days.Keys - remaining;
      var results := days[key];
      if |results| > 0 && forall i :: 0 <= i < |results| ==> results[i] {
        var s := Get(result, key.0);
        result := result[key.0 := s.(points := s.points + 30)];
      }
      BonusStep(stats, days, done, key);
      assert days.Keys - (remaining - {key}) == done + {key};
      remaining := remaining - {key};
    }
    assert days.Keys - remaining == days.Keys;
    assert Restrict(days, days.Keys) == days;
  }

  /** What the match awards each side: set points, the multiplied match-win bonus, the sweep bonus. */
  method MatchAwards(sets: seq<SetScore>, before1: int, before2: int)
    returns (award1: nat, award2: nat, tally: Tally, winner: Option<Side>)
    ensures tally == TallyOf(sets) && winner == Winner(tally)
    ensures MatchOutcome(sets, before1, before2) == Outcome(award1, award2, tally.won1, tally.won2, winner)
  {
    tally := ScoreSets(sets);
    winner := Winner(tally);
    var multiplier := Multiplier(winner, before1, before2);
    award1, award2 := 10 * tally.points1, 10 * tally.points2;
    if winner == Some(Team1) {
      award1 := award1 + 3 * multiplier;
    } else if winner == Some(Team2) {
      award2 := award2 + 3 * multiplier;
    }
    if tally.won1 == |sets| && |sets| > 0 && Games(sets, Team1) > 6 {
      award1 := award1 + 30;
    }
    if tally.won2 == |sets| && |sets| > 0 && Games(sets, Team2) > 6 {
      award2 := award2 + 30;
    }
  }

  /** The body of the loop over matches, for a row whose rosters decoded. */
  method ProcessMatch(playerStats: map<Name, Stats>, coupleStats: map<Couple, Stats>,
                      playerDays: map<(Name, Date), seq<bool>>, coupleDays: map<(Couple, Date), seq<bool>>, row: MatchRow)
    returns (playerStats': map<Name, Stats>, coupleStats': map<Couple, Stats>,
             playerDays': map<(Name, Date), seq<bool>>, coupleDays': map<(Couple, Date), seq<bool>>)
    requires Decoded(row)
    ensures Tables(playerStats', coupleStats', playerDays', coupleDays') ==
      Step(Tables(playerStats, coupleStats, playerDays, coupleDays), row)
  {
    var team1, team2, sets := row.team1.value, row.team2.value, SetsOf(row);
    var before1, before2 := TeamPoints(playerStats, team1), TeamPoints(playerStats, team2);
    var award1, award2, tally, winner := MatchAwards(sets, before1, before2);
    var win1, win2 := winner == Some(Team1), winner == Some(Team2);
    playerStats', playerDays' := CreditRoster(playerStats, playerDays, team1, row.date, award1, tally.won1, win1);
    playerStats', playerDays' := CreditRoster(playerStats', playerDays', team2, row.date, award2, tally.won2, win2);
    coupleStats', coupleDays' := CreditPair(coupleStats, coupleDays, team1, row.date, award1, tally.won1, win1);
    coupleStats', coupleDays' := CreditPair(coupleStats', coupleDays', team2, row.date, award2, tally.won2, win2);
  }

  /** `if isinstance(team, list) and len(team) == 2:` credit the couple `tuple(sorted(team))`. */
  method CreditPair(couples: map<Couple, Stats>, days: map<(Couple, Date), seq<bool>>, team: seq<Name>,
                    date: Date, award: int, setsWon: nat, won: bool)
    returns (couples': map<Couple, Stats>, days': map<(Couple, Date), seq<bool>>)
    ensures couples' == CreditCouple(couples, team, award, setsWon, won)
    ensures days' == RecordCoupleDay(days, team, date, won)
  {
    couples', days' := couples, days;
    if |team| == 2 {
      var couple := CoupleKey(team[0], team[1]);
      couples' := couples'[couple := Credited(Get(couples', couple), 2 * award, setsWon, won)];
      var results := if (couple, date) in days' then days'[(couple, date)] else [];
      days' := days'[(couple, date) := results + [won]];
    }
  }

  /** `update_ratings_for_group`, from the fetched rows to the tables it writes back. */
  method UpdateRatingsForGroup(rows: seq<MatchRow>) returns (players: map<Name, Stats>, couples: map<Couple, Stats>)
    ensures players == FinalPlayers(rows)
    ensures couples == FinalCouples(rows)
  {
    var playerStats: map<Name, Stats> := map[];
    var coupleStats: map<Couple, Stats> := map[];
    var playerDays: map<(Name, Date), seq<bool>> := map[];
    var coupleDays: map<(Couple, Date), seq<bool>> := map[];
    var i := 0;
    while i < |rows|
      invariant 0 <= i <= |rows|
      invariant Tables(playerStats, coupleStats, playerDays, coupleDays) == Accumulate(rows[..i])
    {
      var row := rows[i];
      if row.team1.Some? && row.team2.Some? {
        playerStats, coupleStats, playerDays, coupleDays := ProcessMatch(playerStats, coupleStats, playerDays, coupleDays, row);
      }
      assert rows[..i + 1][..i] == rows[..i];
      i := i + 1;
    }
    assert rows[..i] == rows;
    players := ApplyDailyBonus(playerStats, playerDays);
    couples := ApplyDailyBonus(coupleStats, coupleDays);
  }

  // ---------------------------------------------------------------------
  // Helpers for the daily-bonus loop
  // ---------------------------------------------------------------------

  function Restrict<K(==)>(days: map<(K, Date), seq<bool>>, keys: set<(K, Date)>): map<(K, Date), seq<bool>>
  {
    map key | key in keys && key in days :: days[key]
  }

  lemma BonusNone<K>(stats: map<K, Stats>)
    ensures WithDailyBonus(stats, map[]) == stats
  {
    var empty: map<(K, Date), seq<bool>> := map[];
    assert BonusOwners(empty) == {};
    forall k | k in stats ensures WinDates(empty, k) == {} { }
  }

  lemma WinDatesStep<K>(d0: map<(K, Date), seq<bool>>, key: (K, Date), v: seq<bool>, k: K)
    requires key !in d0
    ensures WinDates(d0[key := v], k) == if k == key.0 && AllWon(v) then WinDates(d0, k) + {key.1} else WinDates(d0, k)
    ensures k == key.0 && AllWon(v) ==> key.1 !in WinDates(d0, k)
  {
    var d1 := d0[key := v];
    forall date | date in WinDates(d1, k)
      ensures date in (if k == key.0 && AllWon(v) then WinDates(d0, k) + {key.1} else WinDates(d0, k))
    {
      var kk :| kk in d1.Keys && kk.0 == k && AllWon(d1[kk]) && kk.1 == date;
      if kk != key { assert kk in d0.Keys; }
    }
    forall date | date in WinDates(d0, k) ensures date in WinDates(d1, k) {
      var kk :| kk in d0.Keys && kk.0 == k && AllWon(d0[kk]) && kk.1 == date;
      assert kk in d1.Keys && d1[kk] == d0[kk];
    }
    if k == key.0 && AllWon(v) {
      assert key in d1.Keys && d1[key] == v;
    }
  }

  lemma OwnersStep<K>(d0: map<(K, Date), seq<bool>>, key: (K, Date), v: seq<bool>)
    requires key !in d0
    ensures BonusOwners(d0[key := v]) == if AllWon(v) then BonusOwners(d0) + {key.0} else BonusOwners(d0)
  {
    var d1 := d0[key := v];
    forall o | o in BonusOwners(d1) ensures o in (if AllWon(v) then BonusOwners(d0) + {key.0} else BonusOwners(d0)) {
      var kk :| kk in d1.Keys && AllWon(d1[kk]) && kk.0 == o;
      if kk != key { assert kk in d0.Keys && d0[kk] == d1[kk]; }
    }
    forall o | o in BonusOwners(d0) ensures o in BonusOwners(d1) {
      var kk :| kk in d0.Keys && AllWon(d0[kk]) && kk.0 == o;
      assert kk in d1.Keys && d1[kk] == d0[kk];
    }
    if AllWon(v) { assert key in d1.Keys && AllWon(d1[key]); }
  }

  /** Processing one more key adds 30 to its owner exactly when its list is all wins. */
  lemma BonusStep<K>(stats: map<K, Stats>, days: map<(K, Date), seq<bool>>, done: set<(K, Date)>, key: (K, Date))
    requires done <= days.Keys && key in days && key !in done
    ensures var before := WithDailyBonus(stats, Restrict(days, done));
      WithDailyBonus(stats, Restrict(days, done + {key})) == if AllWon(days[key]) then Plus30(before, key.0) else before
  {
    var d0, d1 := Restrict(days, done), Restrict(days, done + {key});
    assert d1 == d0[key := days[key]];
    if AllWon(days[key]) {
      BonusAdded(stats, d0, key, days[key]);
    } else {
      BonusUnchanged(stats, d0, key, days[key]);
    }
  }

  lemma BonusAt<K>(stats: map<K, Stats>, days: map<(K, Date), seq<bool>>, k: K)
    ensures k in WithDailyBonus(stats, days) <==> k in stats || k in BonusOwners(days)
    ensures k in WithDailyBonus(stats, days) ==>
      WithDailyBonus(stats, days)[k] == Get(stats, k).(points := Get(stats, k).points + 30 * |WinDates(days, k)|)
  {
  }

  /** Adds 30 to the entry of `k`, creating it when missing. */
  function Plus30<K(==)>(m: map<K, Stats>, k: K): map<K, Stats>
  {
    m[k := Get(m, k).(points := Get(m, k).points + 30)]
  }

  lemma BonusAddedAt<K>(stats: map<K, Stats>, d0: map<(K, Date), seq<bool>>, key: (K, Date), v: seq<bool>, k: K)
    requires key !in d0 && AllWon(v)
    ensures var after, target := WithDailyBonus(stats, d0[key := v]), Plus30(WithDailyBonus(stats, d0), key.0);
      (k in after <==> k in target) && (k in after ==> after[k] == target[k])
  {
    var d1 := d0[key := v];
    OwnersStep(d0, key, v);
    BonusAt(stats, d0, k);
    BonusAt(stats, d1, k);
    WinDatesStep(d0, key, v, k);
    if k == key.0 {
      assert |WinDates(d1, k)| == |WinDates(d0, k)| + 1;
    }
  }

  lemma BonusAdded<K>(stats: map<K, Stats>, d0: map<(K, Date), seq<bool>>, key: (K, Date), v: seq<bool>)
    requires key !in d0 && AllWon(v)
    ensures WithDailyBonus(stats, d0[key := v]) == Plus30(WithDailyBonus(stats, d0), key.0)
  {
    var after, target := WithDailyBonus(stats, d0[key := v]), Plus30(WithDailyBonus(stats, d0), key.0);
    forall k ensures (k in after <==> k in target) && (k in after ==> after[k] == target[k]) {
      BonusAddedAt(stats, d0, key, v, k);
    }
    SameEntries(after, target);
  }

  lemma SameEntries<K>(a: map<K, Stats>, b: map<K, Stats>)
    requires forall k :: (k in a <==> k in b) && (k in a ==> a[k] == b[k])
    ensures a == b
  {
  }

  lemma BonusUnchangedAt<K>(stats: map<K, Stats>, d0: map<(K, Date), seq<bool>>, key: (K, Date), v: seq<bool>, k: K)
    requires key !in d0 && !AllWon(v)
    ensures var before, after := WithDailyBonus(stats, d0), WithDailyBonus(stats, d0[key := v]);
      (k in after <==> k in before) && (k in after ==> after[k] == before[k])
  {
    OwnersStep(d0, key, v);
    BonusAt(stats, d0, k);
    BonusAt(stats, d0[key := v], k);
    WinDatesStep(d0, key, v, k);
  }

  lemma BonusUnchanged<K>(stats: map<K, Stats>, d0: map<(K, Date), seq<bool>>, key: (K, Date), v: seq<bool>)
    requires key !in d0 && !AllWon(v)
    ensures WithDailyBonus(stats, d0[key := v]) == WithDailyBonus(stats, d0)
  {
    forall k ensures var before, after := WithDailyBonus(stats, d0), WithDailyBonus(stats, d0[key := v]);
      (k in after <==> k in before) && (k in after ==> after[k] == before[k])
    {
      BonusUnchangedAt(stats, d0, key, v, k);
    }
  }
}
