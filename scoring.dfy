/**
 * Scoring of one match in the rating recalculation of main.py: the per-set
 * table, the sets-won tally, the match winner, the competitive-balance
 * multiplier on the match-win bonus and the clean-sweep bonus.
 *
 * Points that carry the 1.2 / 0.8 multiplier are fractional, so every award
 * here is in TENTHS of a point: a set point is 10, the match-win bonus 36, 30
 * or 24, the sweep bonus 30.
 */
module Scoring {
  import opened Common

  /** One set as `[games1, games2]`. */
  datatype SetScore = SetScore(games1: nat, games2: nat)

  datatype Side = Team1 | Team2 {
    function Other(): Side { if this == Team1 then Team2 else Team1 }
  }

  /**
   * The scenario table of main.py: (winner's scenario points, loser's points)
   * as a function of the LOSER's game count.
   */
  function SetTable(loserGames: nat): (r: (nat, nat))
    ensures 1 <= r.0 <= 6 && r.1 <= 3
    ensures r.0 + 3 > r.1
  {
    if loserGames == 0 then (6, 0)
    else if loserGames == 1 then (5, 0)
    else if loserGames == 2 then (4, 1)
    else if loserGames == 3 then (3, 1)
    else if loserGames == 4 then (2, 1)
    else (1, 3)
  }

  /** The closer the set, the fewer points for its winner and the more for its loser. */
  lemma SetTableMonotone(g: nat, h: nat)
    requires g <= h
    ensures SetTable(h).0 <= SetTable(g).0
    ensures SetTable(g).1 <= SetTable(h).1
    ensures h < 5 ==> SetTable(h).0 == 6 - h
  {
  }

  /** Raw set points (whole points) and sets won by each side. */
  datatype Tally = Tally(points1: nat, points2: nat, won1: nat, won2: nat)

  function NoTally(): Tally { Tally(0, 0, 0, 0) }

  function Plus(a: Tally, b: Tally): Tally
  {
    Tally(a.points1 + b.points1, a.points2 + b.points2, a.won1 + b.won1, a.won2 + b.won2)
  }

  /** What one set contributes: table value + 3 to its winner, the loser column to its loser, nothing on a tie. */
  function ScoreSet(s: SetScore): (t: Tally)
    ensures t.won1 + t.won2 <= 1
    ensures t.won1 == 1 <==> s.games1 > s.games2
    ensures t.won2 == 1 <==> s.games2 > s.games1
    ensures s.games1 == s.games2 ==> t == NoTally()
  {
    if s.games1 > s.games2 then
      var table := SetTable(s.games2);
      Tally(table.0 + 3, table.1, 1, 0)
    else if s.games2 > s.games1 then
      var table := SetTable(s.games1);
      Tally(table.1, table.0 + 3, 0, 1)
    else NoTally()
  }

  /** The tally of a list of sets, accumulated from the first set on. */
  function TallyOf(sets: seq<SetScore>): Tally
  {
    if sets == [] then NoTally()
    else Plus(TallyOf(sets[..|sets| - 1]), ScoreSet(sets[|sets| - 1]))
  }

  /** The loop over `sets` in main.py: per-set points and set wins, accumulated. */
  method ScoreSets(sets: seq<SetScore>) returns (t: Tally)
    ensures t == TallyOf(sets)
  {
    t := NoTally();
    var i := 0;
    while i < |sets|
      invariant 0 <= i <= |sets|
      invariant t == TallyOf(sets[..i])
    {
      t := Plus(t, ScoreSet(sets[i]));
      assert sets[..i + 1][..i] == sets[..i];
      assert TallyOf(sets[..i + 1]) == Plus(TallyOf(sets[..i]), ScoreSet(sets[i]));
      i := i + 1;
    }
    assert sets[..i] == sets;
  }

  /** Number of sets in which side 1 (resp. side 2) has strictly more games. */
  function SetsWonBy(sets: seq<SetScore>, side: Side): (n: nat)
    ensures n <= |sets|
  {
    if sets == [] then 0
    else
      var s := sets[|sets| - 1];
      SetsWonBy(sets[..|sets| - 1], side)
        + (if (side == Team1 && s.games1 > s.games2) || (side == Team2 && s.games2 > s.games1) then 1 else 0)
  }

  /** Number of tied sets. */
  function Ties(sets: seq<SetScore>): (n: nat)
  {
    if sets == [] then 0
    else Ties(sets[..|sets| - 1]) + (if sets[|sets| - 1].games1 == sets[|sets| - 1].games2 then 1 else 0)
  }

  /**
   * Each side's set count is the number of sets it won outright; tied sets
   * count for neither, so the two counts and the ties add up to the number of sets.
   */
  lemma {:induction false} TallyCounts(sets: seq<SetScore>)
    ensures TallyOf(sets).won1 == SetsWonBy(sets, Team1)
    ensures TallyOf(sets).won2 == SetsWonBy(sets, Team2)
    ensures TallyOf(sets).won1 + TallyOf(sets).won2 + Ties(sets) == |sets|
  {
    if sets != [] {
      TallyCounts(sets[..|sets| - 1]);
    }
  }

  /** A side credited with every set won each set outright: no set was tied or lost. */
  lemma {:induction false} WonEverySet(sets: seq<SetScore>, side: Side)
    requires SetsWonBy(sets, side) == |sets|
    ensures forall i :: 0 <= i < |sets| ==>
      if side == Team1 then sets[i].games1 > sets[i].games2 else sets[i].games2 > sets[i].games1
  {
    if sets != [] {
      var init := sets[..|sets| - 1];
      WonEverySet(init, side);
      forall i | 0 <= i < |sets|
        ensures if side == Team1 then sets[i].games1 > sets[i].games2 else sets[i].games2 > sets[i].games1
      {
        if i < |sets| - 1 { assert sets[i] == init[i]; }
      }
    }
  }

  function Mirror(s: SetScore): SetScore { SetScore(s.games2, s.games1) }

  function MirrorAll(sets: seq<SetScore>): (r: seq<SetScore>)
    ensures |r| == |sets|
    ensures forall i :: 0 <= i < |sets| ==> r[i] == Mirror(sets[i])
  {
    seq(|sets|, i requires 0 <= i < |sets| => Mirror(sets[i]))
  }

  /** The table is applied the same way for team 2: swapping the sides of every set swaps the tally. */
  lemma {:induction false} TallyMirror(sets: seq<SetScore>)
    ensures TallyOf(MirrorAll(sets)) ==
      Tally(TallyOf(sets).points2, TallyOf(sets).points1, TallyOf(sets).won2, TallyOf(sets).won1)
  {
    if sets != [] {
      var init := sets[..|sets| - 1];
      assert MirrorAll(sets)[..|sets| - 1] == MirrorAll(init);
      TallyMirror(init);
    }
  }

  /** The match winner: the side with strictly more sets won, none on equal counts. */
  function Winner(t: Tally): (w: Option<Side>)
    ensures w == None <==> t.won1 == t.won2
  {
    if t.won1 > t.won2 then Some(Team1)
    else if t.won2 > t.won1 then Some(Team2)
    else None
  }

  function SetsWon(t: Tally, side: Side): nat
  {
    if side == Team1 then t.won1 else t.won2
  }

  /** The winner won more sets than the other side; a match without sets has no winner. */
  lemma WinnerWonMore(sets: seq<SetScore>, side: Side)
    ensures Winner(TallyOf(sets)) == Some(side) <==>
      SetsWonBy(sets, side) > SetsWonBy(sets, side.Other())
    ensures sets == [] ==> Winner(TallyOf(sets)) == None
  {
    TallyCounts(sets);
  }

  /**
   * `get_match_multiplier`, in tenths: 12 when the winner's summed points
   * before the match are below the loser's, 8 when above, 10 when equal or
   * when there is no winner.
   */
  function Multiplier(winner: Option<Side>, before1: int, before2: int): (m: nat)
    ensures m in {8, 10, 12}
  {
    match winner
    case Some(Team1) => if before2 > before1 then 12 else if before2 < before1 then 8 else 10
    case Some(Team2) => if before1 > before2 then 12 else if before1 < before2 then 8 else 10
    case None => 10
  }

  function Before(side: Side, before1: int, before2: int): int
  {
    if side == Team1 then before1 else before2
  }

  /** The match-win bonus `3 * multiplier` for `side`, in tenths. */
  function MatchBonus(side: Side, winner: Option<Side>, before1: int, before2: int): nat
  {
    if winner == Some(side) then 3 * Multiplier(winner, before1, before2) else 0
  }

  /**
   * The bonus only goes to the winner: 36 if it came in with fewer points
   * than the loser, 24 with more, 30 with as many; nobody gets it on a draw.
   */
  lemma MatchBonusSpec(side: Side, winner: Option<Side>, before1: int, before2: int)
    ensures winner != Some(side) ==> MatchBonus(side, winner, before1, before2) == 0
    ensures winner == Some(side) ==>
      var mine, theirs := Before(side, before1, before2), Before(side.Other(), before1, before2);
      MatchBonus(side, winner, before1, before2) == (if mine < theirs then 36 else if mine > theirs then 24 else 30)
  {
  }

  /** `sum(s[0] for s in sets)` or `sum(s[1] for s in sets)`. */
  function Games(sets: seq<SetScore>, side: Side): nat
  {
    if sets == [] then 0
    else
      var last := sets[|sets| - 1];
      Games(sets[..|sets| - 1], side) + (if side == Team1 then last.games1 else last.games2)
  }

  /** The clean-sweep bonus, in tenths: 30 for winning every listed set, at least one, with more than 6 games. */
  function SweepBonus(sets: seq<SetScore>, t: Tally, side: Side): nat
  {
    if SetsWon(t, side) == |sets| && |sets| > 0 && Games(sets, side) > 6 then 30 else 0
  }

  /** At most one side gets the sweep bonus, and only the match winner, after winning every set outright. */
  lemma SweepOnlyWinner(sets: seq<SetScore>, side: Side)
    requires SweepBonus(sets, TallyOf(sets), side) > 0
    ensures Winner(TallyOf(sets)) == Some(side)
    ensures SweepBonus(sets, TallyOf(sets), side.Other()) == 0
    ensures Ties(sets) == 0 && Games(sets, side) > 6
    ensures forall i :: 0 <= i < |sets| ==>
      if side == Team1 then sets[i].games1 > sets[i].games2 else sets[i].games2 > sets[i].games1
  {
    TallyCounts(sets);
    WonEverySet(sets, side);
  }

  /** What a match awards each side (in tenths), the sets each won and the winner. */
  datatype Outcome = Outcome(award1: nat, award2: nat, won1: nat, won2: nat, winner: Option<Side>)
  {
    function Award(side: Side): nat { if side == Team1 then award1 else award2 }
  }

  /** Scores a match given the sides' summed player points before it. */
  function MatchOutcome(sets: seq<SetScore>, before1: int, before2: int): Outcome
  {
    var t := TallyOf(sets);
    var w := Winner(t);
    Outcome(
      10 * t.points1 + MatchBonus(Team1, w, before1, before2) + SweepBonus(sets, t, Team1),
      10 * t.points2 + MatchBonus(Team2, w, before1, before2) + SweepBonus(sets, t, Team2),
      t.won1, t.won2, w)
  }

  function SetPoints(t: Tally, side: Side): nat
  {
    if side == Team1 then t.points1 else t.points2
  }

  /**
   * A side that did not win the match is awarded its set points and nothing
   * else; the winner additionally gets its match bonus (24 to 36) and the
   * sweep bonus when it swept.
   */
  lemma OutcomeAwards(sets: seq<SetScore>, before1: int, before2: int, side: Side)
    ensures var o, t := MatchOutcome(sets, before1, before2), TallyOf(sets);
      o.winner != Some(side) ==> o.Award(side) == 10 * SetPoints(t, side)
    ensures var o, t := MatchOutcome(sets, before1, before2), TallyOf(sets);
      o.winner == Some(side) ==>
        10 * SetPoints(t, side) + 24 <= o.Award(side) <= 10 * SetPoints(t, side) + 66
  {
    var t := TallyOf(sets);
    if SweepBonus(sets, t, side) > 0 { SweepOnlyWinner(sets, side); }
  }

  /** Worked examples: 6-0 is worth 9 to its winner, 7-6 is worth 4 and 3, 3-3 nothing. */
  lemma SetExamples()
    ensures ScoreSet(SetScore(6, 0)) == Tally(9, 0, 1, 0)
    ensures ScoreSet(SetScore(7, 6)) == Tally(4, 3, 1, 0)
    ensures ScoreSet(SetScore(3, 3)) == NoTally()
  {
  }
  /** One set: the tally is that set's, the games are its games. */
  lemma SingleSet(sets: seq<SetScore>)
    requires |sets| == 1
    ensures TallyOf(sets) == ScoreSet(sets[0])
    ensures Games(sets, Team1) == sets[0].games1 && Games(sets, Team2) == sets[0].games2
  {
    var init := sets[..0];
    assert init == [];
    assert TallyOf(init) == NoTally();
  }
}
