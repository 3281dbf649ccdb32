/** What the rating recalculation of main.py guarantees, stated over its specification. */
module RatingProperties {
  import opened Common
  import opened Names
  import opened Scoring
  import opened Ratings

  // ---------------------------------------------------------------------
  // Decoding
  // ---------------------------------------------------------------------

  function DecodedOnly(rows: seq<MatchRow>): (r: seq<MatchRow>)
    ensures forall i :: 0 <= i < |r| ==> Decoded(r[i])
  {
    if rows == [] then []
    else DecodedOnly(rows[..|rows| - 1]) + (if Decoded(rows[|rows| - 1]) then [rows[|rows| - 1]] else [])
  }

  /**
   * A row whose team text does not decode is skipped as if it were not
   * there; sets text that does not decode counts as an empty set list and the
   * row still counts.
   */
  lemma {:induction false} UndecodableRowsSkipped(rows: seq<MatchRow>)
    ensures Accumulate(rows) == Accumulate(DecodedOnly(rows))
    ensures forall acc: Tables, row: MatchRow :: row.sets == None ==> Step(acc, row) == Step(acc, row.(sets := Some([])))
  {
    if rows != [] {
      var init, last := rows[..|rows| - 1], rows[|rows| - 1];
      UndecodableRowsSkipped(init);
      if Decoded(last) {
        var d := DecodedOnly(init) + [last];
        assert d[..|d| - 1] == DecodedOnly(init);
      } else {
        assert DecodedOnly(rows) == DecodedOnly(init);
      }
    }
  }

  // ---------------------------------------------------------------------
  // Crediting players
  // ---------------------------------------------------------------------

  lemma {:induction false} CreditAllSpec(m: map<Name, Stats>, team: seq<Name>, award: int, setsWon: nat, won: bool, p: Name)
    ensures p in CreditAll(m, team, award, setsWon, won) <==> p in m || p in team
    ensures Get(CreditAll(m, team, award, setsWon, won), p) == CreditedTimes(Get(m, p), Count(team, p), award, setsWon, won)
  {
    if team != [] {
      var init := team[..|team| - 1];
      CreditAllSpec(m, init, award, setsWon, won, p);
      assert team == init + [team[|team| - 1]];
      CreditedOnceMore(Get(m, p), Count(init, p), award, setsWon, won);
    }
  }

  lemma CreditedOnceMore(s: Stats, n: nat, award: int, setsWon: nat, won: bool)
    ensures Credited(CreditedTimes(s, n, award, setsWon, won), award, setsWon, won) == CreditedTimes(s, n + 1, award, setsWon, won)
  {
    assert (n + 1) * award == n * award + award;
    assert (n + 1) * setsWon == n * setsWon + setsWon;
  }

  /**
   * Each roster member gets one more match per time listed, the side's sets,
   * a win if the side won, and the WHOLE side award (nothing is split between
   * teammates); nobody else changes, and only roster members gain an entry.
   */
  lemma StepPlayers(acc: Tables, row: MatchRow, p: Name)
    requires Decoded(row)
    ensures var t1, t2 := row.team1.value, row.team2.value;
      p in Step(acc, row).players <==> p in acc.players || p in t1 || p in t2
    ensures var t1, t2 := row.team1.value, row.team2.value;
      var o := MatchOutcome(SetsOf(row), TeamPoints(acc.players, t1), TeamPoints(acc.players, t2));
      Get(Step(acc, row).players, p) ==
        CreditedTimes(CreditedTimes(Get(acc.players, p), Count(t1, p), o.award1, o.won1, o.winner == Some(Team1)),
                      Count(t2, p), o.award2, o.won2, o.winner == Some(Team2))
  {
    var t1, t2 := row.team1.value, row.team2.value;
    var o := MatchOutcome(SetsOf(row), TeamPoints(acc.players, t1), TeamPoints(acc.players, t2));
    var m1 := CreditAll(acc.players, t1, o.award1, o.won1, o.winner == Some(Team1));
    CreditAllSpec(acc.players, t1, o.award1, o.won1, o.winner == Some(Team1), p);
    CreditAllSpec(m1, t2, o.award2, o.won2, o.winner == Some(Team2), p);
  }

  /** Names in the rosters of the rows that decoded. */
  function Seen(rows: seq<MatchRow>): set<Name>
  {
    if rows == [] then {}
    else
      var last := rows[|rows| - 1];
      Seen(rows[..|rows| - 1])
        + (if Decoded(last) then (set p | p in last.team1.value) + (set p | p in last.team2.value) else {})
  }

  /** Every player-date list records at least one match, and its player has an entry. */
  predicate DaysWellFormed(t: Tables)
  {
    && (forall key :: key in t.playerDays ==> key.0 in t.players && |t.playerDays[key]| > 0)
    && (forall key :: key in t.coupleDays ==> key.0 in t.couples && |t.coupleDays[key]| > 0)
  }

  /** Recording a roster appends the result once per listing of each name. */
  lemma {:induction false} RecordDaysValue(days: map<(Name, Date), seq<bool>>, team: seq<Name>, date: Date, won: bool, key: (Name, Date))
    ensures key in RecordDays(days, team, date, won) <==> key in days || (key.1 == date && key.0 in team)
    ensures key in RecordDays(days, team, date, won) ==>
      RecordDays(days, team, date, won)[key] ==
        Prev(days, key) + (if key.1 == date then seq(Count(team, key.0), _ => won) else [])
  {
    if team != [] {
      var init := team[..|team| - 1];
      RecordDaysValue(days, init, date, won, key);
      assert team == init + [team[|team| - 1]];
      if key.1 == date {
        var n := Count(init, key.0);
        assert seq(n, _ => won) + [won] == seq(n + 1, _ => won);
      }
    }
  }

  function Prev<K>(days: map<K, seq<bool>>, key: K): seq<bool>
  {
    if key in days then days[key] else []
  }

  lemma StepPlayerDaysWellFormed(acc: Tables, row: MatchRow)
    requires Decoded(row)
    requires forall key :: key in acc.playerDays ==> key.0 in acc.players && |acc.playerDays[key]| > 0
    ensures var s := Step(acc, row);
      forall key :: key in s.playerDays ==> key.0 in s.players && |s.playerDays[key]| > 0
  {
    var s := Step(acc, row);
    var t1, t2 := row.team1.value, row.team2.value;
    var w1, w2 := RowWinner(row) == Some(Team1), RowWinner(row) == Some(Team2);
    var d1 := RecordDays(acc.playerDays, t1, row.date, w1);
    assert s.playerDays == RecordDays(d1, t2, row.date, w2);
    forall key | key in s.playerDays ensures key.0 in s.players && |s.playerDays[key]| > 0 {
      RecordDaysValue(acc.playerDays, t1, row.date, w1, key);
      RecordDaysValue(d1, t2, row.date, w2, key);
      StepPlayers(acc, row, key.0);
    }
  }

  lemma RecordCoupleDaySpec(days: map<(Couple, Date), seq<bool>>, team: seq<Name>, date: Date, won: bool, key: (Couple, Date))
    ensures key in RecordCoupleDay(days, team, date, won) <==> key in days || (CoupleOf(team).Some? && key == (CoupleOf(team).value, date))
    ensures key in RecordCoupleDay(days, team, date, won) ==>
      RecordCoupleDay(days, team, date, won)[key] ==
        Prev(days, key) + (if CoupleOf(team).Some? && key == (CoupleOf(team).value, date) then [won] else [])
  {
  }

  lemma TwoCoupleDays(days: map<(Couple, Date), seq<bool>>, t1: seq<Name>, t2: seq<Name>, date: Date, w1: bool, w2: bool, key: (Couple, Date))
    requires key in RecordCoupleDay(RecordCoupleDay(days, t1, date, w1), t2, date, w2)
    ensures key in days || CoupleOf(t1) == Some(key.0) || CoupleOf(t2) == Some(key.0)
    ensures key !in days ==> |RecordCoupleDay(RecordCoupleDay(days, t1, date, w1), t2, date, w2)[key]| > 0
    ensures key in days ==> |RecordCoupleDay(RecordCoupleDay(days, t1, date, w1), t2, date, w2)[key]| >= |days[key]|
  {
    var d1 := RecordCoupleDay(days, t1, date, w1);
    RecordCoupleDaySpec(days, t1, date, w1, key);
    RecordCoupleDaySpec(d1, t2, date, w2, key);
  }

  lemma StepCoupleDay(acc: Tables, row: MatchRow, key: (Couple, Date))
    requires Decoded(row)
    requires key in acc.coupleDays ==> key.0 in acc.couples && |acc.coupleDays[key]| > 0
    requires key in Step(acc, row).coupleDays
    ensures key.0 in Step(acc, row).couples && |Step(acc, row).coupleDays[key]| > 0
  {
    var t1, t2 := row.team1.value, row.team2.value;
    var w1, w2 := RowWinner(row) == Some(Team1), RowWinner(row) == Some(Team2);
    assert Step(acc, row).coupleDays == RecordCoupleDay(RecordCoupleDay(acc.coupleDays, t1, row.date, w1), t2, row.date, w2);
    TwoCoupleDays(acc.coupleDays, t1, t2, row.date, w1, w2, key);
    StepCoupleKeys(acc, row, key.0);
  }

  lemma StepCoupleDaysWellFormed(acc: Tables, row: MatchRow)
    requires Decoded(row)
    requires forall key :: key in acc.coupleDays ==> key.0 in acc.couples && |acc.coupleDays[key]| > 0
    ensures var s := Step(acc, row);
      forall key :: key in s.coupleDays ==> key.0 in s.couples && |s.coupleDays[key]| > 0
  {
    forall key | key in Step(acc, row).coupleDays ensures key.0 in Step(acc, row).couples && |Step(acc, row).coupleDays[key]| > 0 {
      StepCoupleDay(acc, row, key);
    }
  }

  lemma StepWellFormed(acc: Tables, row: MatchRow)
    requires DaysWellFormed(acc)
    ensures DaysWellFormed(Step(acc, row))
  {
    if Decoded(row) {
      StepPlayerDaysWellFormed(acc, row);
      StepCoupleDaysWellFormed(acc, row);
    }
  }

  /** Only names seen in a processed match get an entry, and every one of them does. */
  lemma {:induction false} AccumulateKeys(rows: seq<MatchRow>)
    ensures Accumulate(rows).players.Keys == Seen(rows)
    ensures DaysWellFormed(Accumulate(rows))
  {
    if rows != [] {
      var init, last := rows[..|rows| - 1], rows[|rows| - 1];
      AccumulateKeys(init);
      StepWellFormed(Accumulate(init), last);
      if Decoded(last) {
        forall p ensures p in Accumulate(rows).players <==> p in Seen(rows) {
          StepPlayers(Accumulate(init), last, p);
        }
      }
    }
  }

  /** The daily bonus never creates an entry: the written player table has exactly the names seen. */
  lemma FinalPlayersKeys(rows: seq<MatchRow>)
    ensures FinalPlayers(rows).Keys == Seen(rows)
  {
    AccumulateKeys(rows);
    var a := Accumulate(rows);
    forall o | o in BonusOwners(a.playerDays) ensures o in a.players {
      var key :| key in a.playerDays.Keys && AllWon(a.playerDays[key]) && key.0 == o;
    }
  }

  /** Couples formed by the two-player rosters of the rows that decoded. */
  function SeenCouples(rows: seq<MatchRow>): set<Couple>
  {
    if rows == [] then {}
    else
      var last := rows[|rows| - 1];
      var c1, c2 := if Decoded(last) then CoupleOf(last.team1.value) else None, if Decoded(last) then CoupleOf(last.team2.value) else None;
      SeenCouples(rows[..|rows| - 1]) + (if c1.Some? then {c1.value} else {}) + (if c2.Some? then {c2.value} else {})
  }

  lemma {:induction false} AccumulateCoupleKeys(rows: seq<MatchRow>)
    ensures Accumulate(rows).couples.Keys == SeenCouples(rows)
  {
    if rows != [] {
      var init, last := rows[..|rows| - 1], rows[|rows| - 1];
      AccumulateCoupleKeys(init);
      if Decoded(last) {
        forall c ensures c in Accumulate(rows).couples <==> c in SeenCouples(rows) {
          StepCoupleKeys(Accumulate(init), last, c);
        }
      }
    }
  }

  /** Only couples that played together are written, and the daily bonus creates none. */
  lemma FinalCouplesKeys(rows: seq<MatchRow>)
    ensures FinalCouples(rows).Keys == SeenCouples(rows)
  {
    AccumulateCoupleKeys(rows);
    AccumulateKeys(rows);
    var a := Accumulate(rows);
    forall o | o in BonusOwners(a.coupleDays) ensures o in a.couples {
      var key :| key in a.coupleDays.Keys && AllWon(a.coupleDays[key]) && key.0 == o;
    }
  }

  // ---------------------------------------------------------------------
  // Order-independent counters
  // ---------------------------------------------------------------------

  function Flag(b: bool): nat { if b then 1 else 0 }

  /** Matches played by `p`: one per listing in a decoded row. */
  function Appearances(rows: seq<MatchRow>, p: Name): nat
  {
    if rows == [] then 0
    else
      var last := rows[|rows| - 1];
      Appearances(rows[..|rows| - 1], p) + (if Decoded(last) then Count(last.team1.value, p) + Count(last.team2.value, p) else 0)
  }

  /** Matches won by `p`: listings on the side that won. */
  function WinsOf(rows: seq<MatchRow>, p: Name): nat
  {
    if rows == [] then 0
    else
      var last := rows[|rows| - 1];
      var w := RowWinner(last);
      WinsOf(rows[..|rows| - 1], p)
        + (if Decoded(last) then Count(last.team1.value, p) * Flag(w == Some(Team1)) + Count(last.team2.value, p) * Flag(w == Some(Team2)) else 0)
  }

  /** Sets credited to `p`: its side's sets won, per listing. */
  function SetsCredited(rows: seq<MatchRow>, p: Name): nat
  {
    if rows == [] then 0
    else
      var last := rows[|rows| - 1];
      var t := TallyOf(SetsOf(last));
      SetsCredited(rows[..|rows| - 1], p)
        + (if Decoded(last) then Count(last.team1.value, p) * t.won1 + Count(last.team2.value, p) * t.won2 else 0)
  }

  /**
   * A player's matches, wins and sets are sums over the decoded rows it
   * appears in, so they do not depend on the order of the rows (its points do,
   * through the multiplier).
   */
  lemma {:induction false} AccumulateCounters(rows: seq<MatchRow>, p: Name)
    ensures Get(Accumulate(rows).players, p).matches == Appearances(rows, p)
    ensures Get(Accumulate(rows).players, p).wins == WinsOf(rows, p)
    ensures Get(Accumulate(rows).players, p).sets == SetsCredited(rows, p)
  {
    if rows != [] {
      var init, last := rows[..|rows| - 1], rows[|rows| - 1];
      AccumulateCounters(init, p);
      if Decoded(last) {
        StepPlayers(Accumulate(init), last, p);
      }
    }
  }

  // ---------------------------------------------------------------------
  // Couples
  // ---------------------------------------------------------------------

  function Hit(c: Option<Couple>, k: Couple): nat { if c == Some(k) then 1 else 0 }

  /** `tuple(sorted(team))` for a roster of two: its two players, in order; other sizes form no couple. */
  lemma CoupleOfSpec(team: seq<Name>)
    ensures CoupleOf(team).Some? <==> |team| == 2
    ensures CoupleOf(team).Some? ==> [CoupleOf(team).value.0, CoupleOf(team).value.1] == Sort(team)
  {
    if |team| == 2 {
      assert team == [team[0], team[1]];
      CoupleKeyIsSorted(team[0], team[1]);
    }
  }

  lemma CreditCoupleSpec(couples: map<Couple, Stats>, team: seq<Name>, award: int, setsWon: nat, won: bool, k: Couple)
    ensures k in CreditCouple(couples, team, award, setsWon, won) <==> k in couples || CoupleOf(team) == Some(k)
    ensures Get(CreditCouple(couples, team, award, setsWon, won), k) ==
      CreditedTimes(Get(couples, k), Hit(CoupleOf(team), k), 2 * award, setsWon, won)
  {
    var r := CreditCouple(couples, team, award, setsWon, won);
    var c := CoupleOf(team);
    if c == Some(k) {
      assert r == couples[k := Credited(Get(couples, k), 2 * award, setsWon, won)];
      assert Hit(c, k) == 1;
    } else {
      assert Hit(c, k) == 0;
      assert k in r <==> k in couples;
      assert Get(r, k) == Get(couples, k);
    }
  }

  lemma StepCoupleKeys(acc: Tables, row: MatchRow, k: Couple)
    requires Decoded(row)
    ensures var c1, c2 := CoupleOf(row.team1.value), CoupleOf(row.team2.value);
      k in Step(acc, row).couples <==> k in acc.couples || c1 == Some(k) || c2 == Some(k)
  {
    var t1, t2 := row.team1.value, row.team2.value;
    var o := MatchOutcome(SetsOf(row), TeamPoints(acc.players, t1), TeamPoints(acc.players, t2));
    var c1 := CreditCouple(acc.couples, t1, o.award1, o.won1, o.winner == Some(Team1));
    assert Step(acc, row).couples == CreditCouple(c1, t2, o.award2, o.won2, o.winner == Some(Team2));
    CreditCoupleSpec(acc.couples, t1, o.award1, o.won1, o.winner == Some(Team1), k);
    CreditCoupleSpec(c1, t2, o.award2, o.won2, o.winner == Some(Team2), k);
  }

  /**
   * A roster of exactly two credits its sorted couple with TWICE the side
   * award and the same sets, match and win; rosters of other sizes credit no
   * couple; no other couple changes.
   */
  lemma StepCouples(acc: Tables, row: MatchRow, k: Couple)
    requires Decoded(row)
    ensures var c1, c2 := CoupleOf(row.team1.value), CoupleOf(row.team2.value);
      k in Step(acc, row).couples <==> k in acc.couples || c1 == Some(k) || c2 == Some(k)
    ensures var t1, t2 := row.team1.value, row.team2.value;
      var o := MatchOutcome(SetsOf(row), TeamPoints(acc.players, t1), TeamPoints(acc.players, t2));
      Get(Step(acc, row).couples, k) ==
        CreditedTimes(CreditedTimes(Get(acc.couples, k), Hit(CoupleOf(t1), k), 2 * o.award1, o.won1, o.winner == Some(Team1)),
                      Hit(CoupleOf(t2), k), 2 * o.award2, o.won2, o.winner == Some(Team2))
  {
    var t1, t2 := row.team1.value, row.team2.value;
    var o := MatchOutcome(SetsOf(row), TeamPoints(acc.players, t1), TeamPoints(acc.players, t2));
    var c1 := CreditCouple(acc.couples, t1, o.award1, o.won1, o.winner == Some(Team1));
    assert Step(acc, row).couples == CreditCouple(c1, t2, o.award2, o.won2, o.winner == Some(Team2));
    CreditCoupleSpec(acc.couples, t1, o.award1, o.won1, o.winner == Some(Team1), k);
    CreditCoupleSpec(c1, t2, o.award2, o.won2, o.winner == Some(Team2), k);
  }

  lemma TeamPointsPair(m: map<Name, Stats>, a: Name, b: Name)
    ensures TeamPoints(m, [a, b]) == Get(m, a).points + Get(m, b).points
    ensures TeamPoints(m, [b, a]) == Get(m, a).points + Get(m, b).points
  {
    assert [a, b][..1] == [a] && [b, a][..1] == [b];
    assert [a][..0] == [] && [b][..0] == [];
    assert TeamPoints(m, [a]) == Get(m, a).points;
    assert TeamPoints(m, [b]) == Get(m, b).points;
  }

  lemma CreditAllPair(m: map<Name, Stats>, a: Name, b: Name, award: int, setsWon: nat, won: bool)
    ensures CreditAll(m, [a, b], award, setsWon, won) == CreditAll(m, [b, a], award, setsWon, won)
  {
    var x, y := CreditAll(m, [a, b], award, setsWon, won), CreditAll(m, [b, a], award, setsWon, won);
    forall p ensures (p in x <==> p in y) && (p in x ==> x[p] == y[p]) {
      CreditAllSpec(m, [a, b], award, setsWon, won, p);
      CreditAllSpec(m, [b, a], award, setsWon, won, p);
      CountMultiset([a, b], p);
      CountMultiset([b, a], p);
      assert multiset([a, b]) == multiset([b, a]);
    }
    SameEntries(x, y);
  }

  lemma RecordDaysPair(days: map<(Name, Date), seq<bool>>, a: Name, b: Name, date: Date, won: bool)
    ensures RecordDays(days, [a, b], date, won) == RecordDays(days, [b, a], date, won)
  {
    assert [a, b][..1] == [a] && [b, a][..1] == [b];
    assert [a][..0] == [] && [b][..0] == [];
    if a == b {
    } else {
      assert (a, date) != (b, date);
    }
  }

  /**
   * Listing a two-player roster in the other order changes nothing: the
   * couple key is the sorted pair and every other credit is per name.
   */
  lemma RosterOrderIrrelevant(acc: Tables, a: Name, b: Name, team2: Option<seq<Name>>, sets: Option<seq<SetScore>>, date: Date)
    ensures Step(acc, MatchRow(Some([a, b]), team2, sets, date)) == Step(acc, MatchRow(Some([b, a]), team2, sets, date))
  {
    if team2.Some? {
      TeamPointsPair(acc.players, a, b);
      CoupleKeySymmetric(a, b);
      forall award: int, setsWon: nat, won: bool
        ensures CreditAll(acc.players, [a, b], award, setsWon, won) == CreditAll(acc.players, [b, a], award, setsWon, won)
      {
        CreditAllPair(acc.players, a, b, award, setsWon, won);
      }
      forall won: bool ensures RecordDays(acc.playerDays, [a, b], date, won) == RecordDays(acc.playerDays, [b, a], date, won) {
        RecordDaysPair(acc.playerDays, a, b, date, won);
      }
      StepCongruence(acc, [a, b], [b, a], team2, sets, date);
    }
  }

  /** A first roster that credits and records like another gives the same step. */
  lemma StepCongruence(acc: Tables, t: seq<Name>, t': seq<Name>, team2: Option<seq<Name>>, sets: Option<seq<SetScore>>, date: Date)
    requires TeamPoints(acc.players, t) == TeamPoints(acc.players, t')
    requires CoupleOf(t) == CoupleOf(t')
    requires forall award: int, setsWon: nat, won: bool :: CreditAll(acc.players, t, award, setsWon, won) == CreditAll(acc.players, t', award, setsWon, won)
    requires forall won: bool :: RecordDays(acc.playerDays, t, date, won) == RecordDays(acc.playerDays, t', date, won)
    ensures Step(acc, MatchRow(Some(t), team2, sets, date)) == Step(acc, MatchRow(Some(t'), team2, sets, date))
  {
  }

  // ---------------------------------------------------------------------
  // The daily all-wins bonus
  // ---------------------------------------------------------------------

  /** A player or a couple: the two kinds of entity a daily bonus is kept for. */
  datatype Entity = Player(name: Name) | Pair(couple: Couple)

  /** `e` played this decoded row on `side`: listed in its roster, or formed by it. */
  predicate OnSide(row: MatchRow, e: Entity, side: Side)
  {
    Decoded(row) &&
    var t := if side == Team1 then row.team1.value else row.team2.value;
    match e
    case Player(p) => p in t
    case Pair(c) => CoupleOf(t) == Some(c)
  }

  predicate InRow(row: MatchRow, e: Entity)
  {
    OnSide(row, e, Team1) || OnSide(row, e, Team2)
  }

  /** `e` won this row from every side it played on (a drawn or set-less row is no win). */
  predicate WonRow(row: MatchRow, e: Entity)
  {
    (OnSide(row, e, Team1) ==> RowWinner(row) == Some(Team1)) && (OnSide(row, e, Team2) ==> RowWinner(row) == Some(Team2))
  }

  predicate PlayedOn(rows: seq<MatchRow>, e: Entity, d: Date)
  {
    exists i :: 0 <= i < |rows| && rows[i].date == d && InRow(rows[i], e)
  }

  predicate WonAllOn(rows: seq<MatchRow>, e: Entity, d: Date)
  {
    forall i :: 0 <= i < |rows| && rows[i].date == d && InRow(rows[i], e) ==> WonRow(rows[i], e)
  }

  lemma AllWonAppend(s: seq<bool>, n: nat, won: bool)
    requires n > 0
    ensures AllWon(s + seq(n, _ => won)) <==> (s == [] || AllWon(s)) && won
  {
    var t := s + seq(n, _ => won);
    if !won { assert !t[|s|]; }
    if s != [] && !AllWon(s) {
      var i :| 0 <= i < |s| && !s[i];
      assert !t[i];
    }
  }

  lemma PlayedOnStep(rows: seq<MatchRow>, e: Entity, d: Date)
    requires rows != []
    ensures var init, last := rows[..|rows| - 1], rows[|rows| - 1];
      PlayedOn(rows, e, d) <==> PlayedOn(init, e, d) || (last.date == d && InRow(last, e))
  {
    var init, last := rows[..|rows| - 1], rows[|rows| - 1];
    if PlayedOn(rows, e, d) {
      var i :| 0 <= i < |rows| && rows[i].date == d && InRow(rows[i], e);
      if i < |init| { assert init[i] == rows[i]; }
    }
    if PlayedOn(init, e, d) {
      var i :| 0 <= i < |init| && init[i].date == d && InRow(init[i], e);
      assert rows[i] == init[i];
    }
  }

  lemma WonAllOnStep(rows: seq<MatchRow>, e: Entity, d: Date)
    requires rows != []
    ensures var init, last := rows[..|rows| - 1], rows[|rows| - 1];
      WonAllOn(rows, e, d) <==> WonAllOn(init, e, d) && (last.date == d && InRow(last, e) ==> WonRow(last, e))
  {
    var init, last := rows[..|rows| - 1], rows[|rows| - 1];
    if WonAllOn(init, e, d) && (last.date == d && InRow(last, e) ==> WonRow(last, e)) {
      forall i | 0 <= i < |rows| && rows[i].date == d && InRow(rows[i], e) ensures WonRow(rows[i], e) {
        if i < |init| { assert init[i] == rows[i]; }
      }
    }
    if WonAllOn(rows, e, d) {
      forall i | 0 <= i < |init| && init[i].date == d && InRow(init[i], e) ensures WonRow(init[i], e) {
        assert rows[i] == init[i];
      }
    }
  }

  lemma NotPlayedWonAll(rows: seq<MatchRow>, e: Entity, d: Date)
    requires !PlayedOn(rows, e, d)
    ensures WonAllOn(rows, e, d)
  {
  }

  /** One row's effect on the list kept for `(p, d)`. */
  lemma PlayerDaysStep(acc: Tables, row: MatchRow, p: Name, d: Date)
    requires Decoded(row)
    requires forall key :: key in acc.playerDays ==> |acc.playerDays[key]| > 0
    ensures var s := Step(acc, row).playerDays;
      (p, d) in s <==> (p, d) in acc.playerDays || (row.date == d && InRow(row, Player(p)))
    ensures var s := Step(acc, row).playerDays;
      (p, d) in s ==>
        (AllWon(s[(p, d)]) <==>
          ((p, d) !in acc.playerDays || AllWon(acc.playerDays[(p, d)])) && (row.date == d && InRow(row, Player(p)) ==> WonRow(row, Player(p))))
  {
    var t1, t2 := row.team1.value, row.team2.value;
    var w1, w2 := RowWinner(row) == Some(Team1), RowWinner(row) == Some(Team2);
    var d1 := RecordDays(acc.playerDays, t1, row.date, w1);
    var s := RecordDays(d1, t2, row.date, w2);
    assert Step(acc, row).playerDays == s;
    var key := (p, d);
    RecordDaysValue(acc.playerDays, t1, row.date, w1, key);
    RecordDaysValue(d1, t2, row.date, w2, key);
    if key in s {
      var old0 := Prev(acc.playerDays, key);
      if row.date == d {
        var n1, n2 := Count(t1, p), Count(t2, p);
        var a1 := old0 + seq(n1, _ => w1);
        assert s[key] == a1 + seq(n2, _ => w2);
        if n1 > 0 { AllWonAppend(old0, n1, w1); } else { assert a1 == old0; }
        if n2 > 0 { AllWonAppend(a1, n2, w2); } else { assert s[key] == a1; }
      } else {
        assert s[key] == old0;
      }
    }
  }

  lemma TwoCoupleDaysAllWon(days: map<(Couple, Date), seq<bool>>, t1: seq<Name>, t2: seq<Name>, date: Date, w1: bool, w2: bool, c: Couple, d: Date)
    requires (c, d) in days ==> |days[(c, d)]| > 0
    ensures var r := RecordCoupleDay(RecordCoupleDay(days, t1, date, w1), t2, date, w2);
      (c, d) in r <==> (c, d) in days || (date == d && (CoupleOf(t1) == Some(c) || CoupleOf(t2) == Some(c)))
    ensures var r := RecordCoupleDay(RecordCoupleDay(days, t1, date, w1), t2, date, w2);
      (c, d) in r ==>
        (AllWon(r[(c, d)]) <==>
          ((c, d) !in days || AllWon(days[(c, d)])) && (date == d && CoupleOf(t1) == Some(c) ==> w1) && (date == d && CoupleOf(t2) == Some(c) ==> w2))
  {
    var d1 := RecordCoupleDay(days, t1, date, w1);
    var r := RecordCoupleDay(d1, t2, date, w2);
    var key := (c, d);
    RecordCoupleDaySpec(days, t1, date, w1, key);
    RecordCoupleDaySpec(d1, t2, date, w2, key);
    if key in r {
      var old0 := Prev(days, key);
      var h1, h2 := CoupleOf(t1) == Some(c) && date == d, CoupleOf(t2) == Some(c) && date == d;
      var a1 := old0 + (if h1 then [w1] else []);
      assert r[key] == a1 + (if h2 then [w2] else []);
      if h1 { AllWonAppend(old0, 1, w1); assert seq(1, _ => w1) == [w1]; }
      if h2 { AllWonAppend(a1, 1, w2); assert seq(1, _ => w2) == [w2]; } else { assert r[key] == a1; }
    }
  }

  /** One row's effect on the list kept for `(c, d)`. */
  lemma CoupleDaysStep(acc: Tables, row: MatchRow, c: Couple, d: Date)
    requires Decoded(row)
    requires forall key :: key in acc.coupleDays ==> |acc.coupleDays[key]| > 0
    ensures var s := Step(acc, row).coupleDays;
      (c, d) in s <==> (c, d) in acc.coupleDays || (row.date == d && InRow(row, Pair(c)))
    ensures var s := Step(acc, row).coupleDays;
      (c, d) in s ==>
        (AllWon(s[(c, d)]) <==>
          ((c, d) !in acc.coupleDays || AllWon(acc.coupleDays[(c, d)])) && (row.date == d && InRow(row, Pair(c)) ==> WonRow(row, Pair(c))))
  {
    var t1, t2 := row.team1.value, row.team2.value;
    var w1, w2 := RowWinner(row) == Some(Team1), RowWinner(row) == Some(Team2);
    assert Step(acc, row).coupleDays == RecordCoupleDay(RecordCoupleDay(acc.coupleDays, t1, row.date, w1), t2, row.date, w2);
    TwoCoupleDaysAllWon(acc.coupleDays, t1, t2, row.date, w1, w2, c, d);
  }

  /**
   * The list kept for (p, d) exists exactly when p played a decoded match on
   * d, and it is all wins exactly when p won every such match.
   */
  lemma {:induction false} PlayerDaysSpec(rows: seq<MatchRow>, p: Name, d: Date)
    ensures (p, d) in Accumulate(rows).playerDays <==> PlayedOn(rows, Player(p), d)
    ensures (p, d) in Accumulate(rows).playerDays ==> (AllWon(Accumulate(rows).playerDays[(p, d)]) <==> WonAllOn(rows, Player(p), d))
  {
    if rows != [] {
      var init, last := rows[..|rows| - 1], rows[|rows| - 1];
      PlayerDaysSpec(init, p, d);
      PlayedOnStep(rows, Player(p), d);
      WonAllOnStep(rows, Player(p), d);
      if !PlayedOn(init, Player(p), d) { NotPlayedWonAll(init, Player(p), d); }
      if Decoded(last) {
        AccumulateKeys(init);
        PlayerDaysStep(Accumulate(init), last, p, d);
      }
    }
  }

  /** The same for couples: only matches the couple played together count. */
  lemma {:induction false} CoupleDaysSpec(rows: seq<MatchRow>, c: Couple, d: Date)
    ensures (c, d) in Accumulate(rows).coupleDays <==> PlayedOn(rows, Pair(c), d)
    ensures (c, d) in Accumulate(rows).coupleDays ==> (AllWon(Accumulate(rows).coupleDays[(c, d)]) <==> WonAllOn(rows, Pair(c), d))
  {
    if rows != [] {
      var init, last := rows[..|rows| - 1], rows[|rows| - 1];
      CoupleDaysSpec(init, c, d);
      PlayedOnStep(rows, Pair(c), d);
      WonAllOnStep(rows, Pair(c), d);
      if !PlayedOn(init, Pair(c), d) { NotPlayedWonAll(init, Pair(c), d); }
      if Decoded(last) {
        AccumulateKeys(init);
        CoupleDaysStep(Accumulate(init), last, c, d);
      }
    }
  }

  /**
   * The written points of a player are its accumulated points plus 30 tenths
   * (+3) for every date on which it played and won every match.
   */
  lemma PlayerDailyBonus(rows: seq<MatchRow>, p: Name)
    requires p in Seen(rows)
    ensures p in FinalPlayers(rows)
    ensures FinalPlayers(rows)[p] == Get(Accumulate(rows).players, p).(points :=
      Get(Accumulate(rows).players, p).points + 30 * |WinDates(Accumulate(rows).playerDays, p)|)
    ensures forall d :: d in WinDates(Accumulate(rows).playerDays, p) <==> PlayedOn(rows, Player(p), d) && WonAllOn(rows, Player(p), d)
  {
    FinalPlayersKeys(rows);
    var days := Accumulate(rows).playerDays;
    forall d ensures d in WinDates(days, p) <==> PlayedOn(rows, Player(p), d) && WonAllOn(rows, Player(p), d) {
      PlayerDaysSpec(rows, p, d);
      if PlayedOn(rows, Player(p), d) && WonAllOn(rows, Player(p), d) {
        assert (p, d) in days.Keys && AllWon(days[(p, d)]);
      }
    }
  }

  /** The same for couples: +3 per date on which the couple won every match it played together. */
  lemma CoupleDailyBonus(rows: seq<MatchRow>, c: Couple)
    requires c in SeenCouples(rows)
    ensures c in FinalCouples(rows)
    ensures FinalCouples(rows)[c] == Get(Accumulate(rows).couples, c).(points :=
      Get(Accumulate(rows).couples, c).points + 30 * |WinDates(Accumulate(rows).coupleDays, c)|)
    ensures forall d :: d in WinDates(Accumulate(rows).coupleDays, c) <==> PlayedOn(rows, Pair(c), d) && WonAllOn(rows, Pair(c), d)
  {
    FinalCouplesKeys(rows);
    var days := Accumulate(rows).coupleDays;
    forall d ensures d in WinDates(days, c) <==> PlayedOn(rows, Pair(c), d) && WonAllOn(rows, Pair(c), d) {
      CoupleDaysSpec(rows, c, d);
      if PlayedOn(rows, Pair(c), d) && WonAllOn(rows, Pair(c), d) {
        assert (c, d) in days.Keys && AllWon(days[(c, d)]);
      }
    }
  }

  // ---------------------------------------------------------------------
  // Write-back
  // ---------------------------------------------------------------------

  /** `int(round(tenths / 10))`: to the nearest whole point, a tie going to the even one. */
  function WrittenPoints(tenths: int): (r: int)
    ensures 10 * r - 5 <= tenths <= 10 * r + 5
    ensures tenths % 10 == 5 ==> r % 2 == 0
  {
    var q, rem := tenths / 10, tenths % 10;
    if rem < 5 then q else if rem > 5 then q + 1 else if q % 2 == 0 then q else q + 1
  }

  predicate EvenPoints<K>(m: map<K, Stats>)
  {
    forall k :: k in m ==> m[k].points % 2 == 0
  }

  lemma EvenSum(a: int, b: int)
    requires a % 2 == 0 && b % 2 == 0
    ensures (a + b) % 2 == 0
  {
    assert a == 2 * (a / 2) && b == 2 * (b / 2);
    assert a + b == 2 * (a / 2 + b / 2);
  }

  lemma EvenTimes(n: int, a: int)
    requires a % 2 == 0
    ensures (n * a) % 2 == 0
  {
    var h := a / 2;
    assert a == 2 * h;
    assert n * a == 2 * (n * h);
  }

  lemma AwardsEven(sets: seq<SetScore>, before1: int, before2: int)
    ensures MatchOutcome(sets, before1, before2).award1 % 2 == 0
    ensures MatchOutcome(sets, before1, before2).award2 % 2 == 0
  {
    var t := TallyOf(sets);
    var w := Winner(t);
    MatchBonusSpec(Team1, w, before1, before2);
    MatchBonusSpec(Team2, w, before1, before2);
    EvenTimes(t.points1, 10);
    EvenTimes(t.points2, 10);
    assert 10 * t.points1 == t.points1 * 10 && 10 * t.points2 == t.points2 * 10;
    EvenSum(10 * t.points1, MatchBonus(Team1, w, before1, before2));
    EvenSum(10 * t.points1 + MatchBonus(Team1, w, before1, before2), SweepBonus(sets, t, Team1));
    EvenSum(10 * t.points2, MatchBonus(Team2, w, before1, before2));
    EvenSum(10 * t.points2 + MatchBonus(Team2, w, before1, before2), SweepBonus(sets, t, Team2));
  }

  lemma CreditedEven(s: Stats, n: nat, award: int, setsWon: nat, won: bool)
    requires s.points % 2 == 0 && award % 2 == 0
    ensures CreditedTimes(s, n, award, setsWon, won).points % 2 == 0
  {
    EvenTimes(n, award);
    EvenSum(s.points, n * award);
  }

  lemma CreditAllEven(m: map<Name, Stats>, team: seq<Name>, award: int, setsWon: nat, won: bool)
    requires EvenPoints(m) && award % 2 == 0
    ensures EvenPoints(CreditAll(m, team, award, setsWon, won))
  {
    forall p | p in CreditAll(m, team, award, setsWon, won) ensures CreditAll(m, team, award, setsWon, won)[p].points % 2 == 0 {
      CreditAllSpec(m, team, award, setsWon, won, p);
      assert Get(m, p).points % 2 == 0;
      CreditedEven(Get(m, p), Count(team, p), award, setsWon, won);
    }
  }

  lemma CreditCoupleEven(couples: map<Couple, Stats>, team: seq<Name>, award: int, setsWon: nat, won: bool)
    requires EvenPoints(couples)
    ensures EvenPoints(CreditCouple(couples, team, award, setsWon, won))
  {
    forall k | k in CreditCouple(couples, team, award, setsWon, won) ensures CreditCouple(couples, team, award, setsWon, won)[k].points % 2 == 0 {
      CreditCoupleSpec(couples, team, award, setsWon, won, k);
      assert Get(couples, k).points % 2 == 0;
      EvenTimes(award, 2);
      assert 2 * award == award * 2;
      CreditedEven(Get(couples, k), Hit(CoupleOf(team), k), 2 * award, setsWon, won);
    }
  }

  lemma StepEven(acc: Tables, row: MatchRow)
    requires EvenPoints(acc.players) && EvenPoints(acc.couples)
    ensures EvenPoints(Step(acc, row).players) && EvenPoints(Step(acc, row).couples)
  {
    if Decoded(row) {
      var t1, t2 := row.team1.value, row.team2.value;
      var o := MatchOutcome(SetsOf(row), TeamPoints(acc.players, t1), TeamPoints(acc.players, t2));
      var w1, w2 := o.winner == Some(Team1), o.winner == Some(Team2);
      AwardsEven(SetsOf(row), TeamPoints(acc.players, t1), TeamPoints(acc.players, t2));
      var p1 := CreditAll(acc.players, t1, o.award1, o.won1, w1);
      var c1 := CreditCouple(acc.couples, t1, o.award1, o.won1, w1);
      CreditAllEven(acc.players, t1, o.award1, o.won1, w1);
      CreditAllEven(p1, t2, o.award2, o.won2, w2);
      CreditCoupleEven(acc.couples, t1, o.award1, o.won1, w1);
      CreditCoupleEven(c1, t2, o.award2, o.won2, w2);
      assert Step(acc, row).players == CreditAll(p1, t2, o.award2, o.won2, w2);
      assert Step(acc, row).couples == CreditCouple(c1, t2, o.award2, o.won2, w2);
    }
  }

  lemma {:induction false} AccumulateEven(rows: seq<MatchRow>)
    ensures EvenPoints(Accumulate(rows).players) && EvenPoints(Accumulate(rows).couples)
  {
    if rows != [] {
      AccumulateEven(rows[..|rows| - 1]);
      StepEven(Accumulate(rows[..|rows| - 1]), rows[|rows| - 1]);
    }
  }

  lemma BonusEven<K>(stats: map<K, Stats>, days: map<(K, Date), seq<bool>>)
    requires EvenPoints(stats)
    ensures EvenPoints(WithDailyBonus(stats, days))
  {
    forall k | k in WithDailyBonus(stats, days) ensures WithDailyBonus(stats, days)[k].points % 2 == 0 {
      BonusAt(stats, days, k);
      assert Get(stats, k).points % 2 == 0;
      var n := |WinDates(days, k)|;
      EvenTimes(n, 30);
      assert 30 * n == n * 30;
      EvenSum(Get(stats, k).points, 30 * n);
    }
  }

  /**
   * Every written total is a whole number of tenths that is even, so it is
   * never exactly half-way: `round` picks the nearest whole point and its
   * half-to-even rule never comes into play.
   */
  lemma WriteBackNeverTies(rows: seq<MatchRow>)
    ensures forall p :: p in FinalPlayers(rows) ==>
      var t := FinalPlayers(rows)[p].points; 10 * WrittenPoints(t) - 5 < t < 10 * WrittenPoints(t) + 5
    ensures forall c :: c in FinalCouples(rows) ==>
      var t := FinalCouples(rows)[c].points; 10 * WrittenPoints(t) - 5 < t < 10 * WrittenPoints(t) + 5
  {
    AccumulateEven(rows);
    BonusEven(Accumulate(rows).players, Accumulate(rows).playerDays);
    BonusEven(Accumulate(rows).couples, Accumulate(rows).coupleDays);
  }
}
