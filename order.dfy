/**
 * The match-win multiplier of main.py reads the standings before each match,
 * so the recalculation depends on the order in which the rows arrive: the
 * same two matches replayed in the other order leave a player 0.6 points
 * apart.
 */
module RatingOrder {
  import opened Common
  import opened Names
  import opened Scoring
  import opened Ratings
  import opened RatingProperties

  /**
   * A match the first side wins without a sweep, taking more set points than
   * the loser (any single set the winner takes with at most 6 games is one).
   */
  predicate CleanWin(sets: seq<SetScore>)
  {
    var t := TallyOf(sets);
    Winner(t) == Some(Team1) && SweepBonus(sets, t, Team1) == 0 && t.points2 < t.points1
  }

  /** A single set won with at most 6 games, 6-0 to 6-4, is a clean win. */
  lemma OneSetCleanWin(sets: seq<SetScore>)
    requires |sets| == 1 && sets[0].games2 < sets[0].games1 <= 6
    ensures CleanWin(sets)
  {
    SingleSet(sets);
  }

  /** The winner gets its set points and the match bonus, the loser its set points only. */
  lemma CleanWinOutcome(sets: seq<SetScore>, before1: int, before2: int)
    requires CleanWin(sets)
    ensures MatchOutcome(sets, before1, before2).award1 == 10 * TallyOf(sets).points1 + MatchBonus(Team1, Some(Team1), before1, before2)
    ensures MatchOutcome(sets, before1, before2).award2 == 10 * TallyOf(sets).points2
  {
    var t := TallyOf(sets);
    if SweepBonus(sets, t, Team2) > 0 {
      SweepOnlyWinner(sets, Team2);
    }
  }

  /** A player's points after a decoded row: the side award once per listing. */
  lemma StepPlayerPoints(acc: Tables, row: MatchRow, p: Name)
    requires Decoded(row)
    ensures var t1, t2 := row.team1.value, row.team2.value;
      var o := MatchOutcome(SetsOf(row), TeamPoints(acc.players, t1), TeamPoints(acc.players, t2));
      Get(Step(acc, row).players, p).points == Get(acc.players, p).points + Count(t1, p) * o.award1 + Count(t2, p) * o.award2
  {
    StepPlayers(acc, row, p);
  }

  lemma CountPair(a: Name, b: Name, p: Name)
    ensures Count([a, b], p) == (if a == p then 1 else 0) + (if b == p then 1 else 0)
  {
    assert [a, b][..1] == [a] && [a][..0] == [];
  }

  /** Four distinct players. */
  predicate Distinct4(a: Name, x: Name, b: Name, y: Name)
  {
    a != x && b != y && a != b && a != y && x != b && x != y
  }

  /**
   * Step over a two-against-two clean win of `a` and `x` over `b` and `y`:
   * the winners gain their set points plus a bonus read from the standings
   * before the match, the losers their set points.
   */
  lemma CleanWinStep(acc: Tables, row: MatchRow, a: Name, x: Name, b: Name, y: Name, p: Name)
    requires row.team1 == Some([a, x]) && row.team2 == Some([b, y]) && CleanWin(SetsOf(row))
    requires Distinct4(a, x, b, y)
    requires p == a || p == x || p == b || p == y
    ensures var before1 := Get(acc.players, a).points + Get(acc.players, x).points;
      var before2 := Get(acc.players, b).points + Get(acc.players, y).points;
      Get(Step(acc, row).players, p).points == Get(acc.players, p).points +
        if p == a || p == x then 10 * TallyOf(SetsOf(row)).points1 + MatchBonus(Team1, Some(Team1), before1, before2)
        else 10 * TallyOf(SetsOf(row)).points2
  {
    var before1 := Get(acc.players, a).points + Get(acc.players, x).points;
    var before2 := Get(acc.players, b).points + Get(acc.players, y).points;
    var w := 10 * TallyOf(SetsOf(row)).points1 + MatchBonus(Team1, Some(Team1), before1, before2);
    var l := 10 * TallyOf(SetsOf(row)).points2;
    CleanWinCredit(acc, row, a, x, b, y, p);
    CountPair(a, x, p);
    CountPair(b, y, p);
    OneSide(Get(Step(acc, row).players, p).points, Get(acc.players, p).points, Count([a, x], p), Count([b, y], p), w, l);
  }

  /** Credited on exactly one side: that side's award. */
  lemma OneSide(now: int, was: int, c1: int, c2: int, w: int, l: int)
    requires now == was + c1 * w + c2 * l
    requires (c1 == 1 && c2 == 0) || (c1 == 0 && c2 == 1)
    ensures c1 == 1 ==> now == was + w
    ensures c1 == 0 ==> now == was + l
  {
  }

  lemma AccumulateTwo(r1: MatchRow, r2: MatchRow)
    ensures Accumulate([r1, r2]) == Step(Step(Empty, r1), r2)
  {
    assert [r1, r2][..1] == [r1] && [r1][..0] == [];
    assert Accumulate([r1]) == Step(Accumulate([]), r1);
  }

  /** The side awards of a clean win, credited once per listing. */
  lemma CleanWinCredit(acc: Tables, row: MatchRow, a: Name, x: Name, b: Name, y: Name, p: Name)
    requires row.team1 == Some([a, x]) && row.team2 == Some([b, y]) && CleanWin(SetsOf(row))
    ensures var before1 := Get(acc.players, a).points + Get(acc.players, x).points;
      var before2 := Get(acc.players, b).points + Get(acc.players, y).points;
      Get(Step(acc, row).players, p).points == Get(acc.players, p).points
        + Count([a, x], p) * (10 * TallyOf(SetsOf(row)).points1 + MatchBonus(Team1, Some(Team1), before1, before2))
        + Count([b, y], p) * (10 * TallyOf(SetsOf(row)).points2)
  {
    TeamPointsPair(acc.players, a, x);
    TeamPointsPair(acc.players, b, y);
    StepPlayerPoints(acc, row, p);
    CleanWinOutcome(SetsOf(row), TeamPoints(acc.players, [a, x]), TeamPoints(acc.players, [b, y]));
  }

  /** From empty standings both sides stand level, so the winners get the plain bonus of 3.0. */
  lemma FirstMatch(a: Name, x: Name, b: Name, y: Name, sets: seq<SetScore>, date: Date)
    requires Distinct4(a, x, b, y) && CleanWin(sets)
    ensures var e := Step(Empty, MatchRow(Some([a, x]), Some([b, y]), Some(sets), date));
      var p, q := 10 * TallyOf(sets).points1, 10 * TallyOf(sets).points2;
      && Get(e.players, a).points == p + 30 && Get(e.players, x).points == p + 30
      && Get(e.players, b).points == q && Get(e.players, y).points == q
  {
    var r := MatchRow(Some([a, x]), Some([b, y]), Some(sets), date);
    assert SetsOf(r) == sets;
    CleanWinStep(Empty, r, a, x, b, y, a);
    CleanWinStep(Empty, r, a, x, b, y, x);
    CleanWinStep(Empty, r, a, x, b, y, b);
    CleanWinStep(Empty, r, a, x, b, y, y);
  }

  /** `a, x` beat `b, y` first, from level; `b, y` then beat them from behind: `a` keeps both set points and the plain bonus. */
  lemma OwnWinFirst(a: Name, x: Name, b: Name, y: Name, sets: seq<SetScore>, date: Date)
    requires Distinct4(a, x, b, y) && CleanWin(sets)
    ensures var r1 := MatchRow(Some([a, x]), Some([b, y]), Some(sets), date);
      var r2 := MatchRow(Some([b, y]), Some([a, x]), Some(sets), date);
      Get(Accumulate([r1, r2]).players, a).points == 10 * TallyOf(sets).points1 + 10 * TallyOf(sets).points2 + 30
  {
    var r1 := MatchRow(Some([a, x]), Some([b, y]), Some(sets), date);
    var r2 := MatchRow(Some([b, y]), Some([a, x]), Some(sets), date);
    assert SetsOf(r1) == sets && SetsOf(r2) == sets;
    AccumulateTwo(r1, r2);
    FirstMatch(a, x, b, y, sets, date);
    CleanWinStep(Step(Empty, r1), r2, b, y, a, x, a);
  }

  /** `b, y` win first; `a, x` then win from behind and get the 1.2 multiplier. */
  lemma OwnWinSecond(a: Name, x: Name, b: Name, y: Name, sets: seq<SetScore>, date: Date)
    requires Distinct4(a, x, b, y) && CleanWin(sets)
    ensures var r1 := MatchRow(Some([a, x]), Some([b, y]), Some(sets), date);
      var r2 := MatchRow(Some([b, y]), Some([a, x]), Some(sets), date);
      Get(Accumulate([r2, r1]).players, a).points == 10 * TallyOf(sets).points1 + 10 * TallyOf(sets).points2 + 36
  {
    var r1 := MatchRow(Some([a, x]), Some([b, y]), Some(sets), date);
    var r2 := MatchRow(Some([b, y]), Some([a, x]), Some(sets), date);
    assert SetsOf(r1) == sets && SetsOf(r2) == sets;
    AccumulateTwo(r2, r1);
    FirstMatch(b, y, a, x, sets, date);
    WinFromBehind(Step(Empty, r2), r1, a, x, b, y);
  }

  /** Winners who stood on the loser points of a clean win against the winner points of one get the 1.2 multiplier. */
  lemma WinFromBehind(e: Tables, row: MatchRow, a: Name, x: Name, b: Name, y: Name)
    requires row.team1 == Some([a, x]) && row.team2 == Some([b, y]) && CleanWin(SetsOf(row))
    requires Distinct4(a, x, b, y)
    requires var p, q := 10 * TallyOf(SetsOf(row)).points1, 10 * TallyOf(SetsOf(row)).points2;
      && Get(e.players, a).points == q && Get(e.players, x).points == q
      && Get(e.players, b).points == p + 30 && Get(e.players, y).points == p + 30
    ensures Get(Step(e, row).players, a).points == 10 * TallyOf(SetsOf(row)).points1 + 10 * TallyOf(SetsOf(row)).points2 + 36
  {
    CleanWinStep(e, row, a, x, b, y, a);
    var before1 := Get(e.players, a).points + Get(e.players, x).points;
    var before2 := Get(e.players, b).points + Get(e.players, y).points;
    MatchBonusSpec(Team1, Some(Team1), before1, before2);
  }

  /**
   * The recalculation is not invariant under reordering the rows: when
   * `a, x` beat `b, y` and `b, y` beat `a, x` by the same clean score, `a`
   * ends 6 tenths higher if its own win came second, because it then won
   * from behind (multiplier 1.2) instead of from level (1.0). With one 6-0
   * set that is 12.0 against 12.6.
   */
  lemma OrderMatters(a: Name, x: Name, b: Name, y: Name, sets: seq<SetScore>, date: Date)
    requires Distinct4(a, x, b, y) && CleanWin(sets)
    ensures var r1 := MatchRow(Some([a, x]), Some([b, y]), Some(sets), date);
      var r2 := MatchRow(Some([b, y]), Some([a, x]), Some(sets), date);
      Get(Accumulate([r2, r1]).players, a).points == Get(Accumulate([r1, r2]).players, a).points + 6
  {
    OwnWinFirst(a, x, b, y, sets, date);
    OwnWinSecond(a, x, b, y, sets, date);
  }
}
