/**
 * The form strings of the ratings page (Ratings.jsx): for a player, or for a
 * couple, the results of its last five matches as "W" or "L", oldest first,
 * separated by spaces.
 */
module Form {
  import opened Common
  import opened SetsText

  /** The identifiers a player may be listed under in a roster. */
  datatype Player = Player(id: string, email: string, name: string)

  /**
   * One match as the page holds it, already decoded: `None` stands for a
   * roster or a set list that is not an array.
   */
  datatype FormMatch = FormMatch(team1: Option<seq<string>>, team2: Option<seq<string>>, sets: Option<seq<GameScore>>)

  datatype Mark = W | L

  /** Whose form is wanted: a player (possibly missing), or the two players of a couple. */
  datatype Who = APlayer(player: Option<Player>) | ACouple(player1: string, player2: string)

  /** `playerInTeam`: a missing player or a roster that is not an array never matches. */
  predicate PlayerInTeam(player: Option<Player>, team: Option<seq<string>>)
  {
    player.Some? && team.Some? &&
    (player.value.id in team.value || player.value.email in team.value || player.value.name in team.value)
  }

  /** Whether a player is found depends only on which names the roster lists, not on their order or repeats. */
  lemma PlayerInTeamSameNames(player: Option<Player>, a: seq<string>, b: seq<string>)
    requires forall x :: x in a <==> x in b
    ensures PlayerInTeam(player, Some(a)) == PlayerInTeam(player, Some(b))
  {
  }

  /** A player is found in two rosters put together exactly when it is found in one of them. */
  lemma PlayerInTeamAppend(player: Option<Player>, a: seq<string>, b: seq<string>)
    ensures PlayerInTeam(player, Some(a + b)) <==> PlayerInTeam(player, Some(a)) || PlayerInTeam(player, Some(b))
  {
  }

  /** The side `who` played on: team1 is checked first. */
  datatype Side = OnTeam1 | OnTeam2 | Absent

  function SideOf(who: Who, team1: seq<string>, team2: seq<string>): Side
  {
    match who
    case APlayer(p) =>
      if PlayerInTeam(p, Some(team1)) then OnTeam1
      else if PlayerInTeam(p, Some(team2)) then OnTeam2
      else Absent
    case ACouple(a, b) =>
      if a in team1 && b in team1 then OnTeam1
      else if a in team2 && b in team2 then OnTeam2
      else Absent
  }

  /** The match counts only when both rosters are arrays and the sets a non-empty array. */
  predicate Usable(m: FormMatch)
  {
    m.team1.Some? && m.team2.Some? && m.sets.Some? && m.sets.value != []
  }

  /** What one match adds to the form: nothing, or a "W" when `who`'s side won strictly more sets. */
  function MarkOf(who: Who, m: FormMatch): seq<Mark>
  {
    if !Usable(m) then []
    else
      var s1, s2 := Score1(m.sets.value), Score2(m.sets.value);
      match SideOf(who, m.team1.value, m.team2.value)
      case OnTeam1 => [if s1 > s2 then W else L]
      case OnTeam2 => [if s2 > s1 then W else L]
      case Absent => []
  }

  /** Every mark, in match order. */
  function Marks(who: Who, matches: seq<FormMatch>): seq<Mark>
  {
    if matches == [] then []
    else Marks(who, matches[..|matches| - 1]) + MarkOf(who, matches[|matches| - 1])
  }

  /** `results.slice(-5)`. */
  function LastFive(marks: seq<Mark>): (r: seq<Mark>)
    ensures |r| <= 5
  {
    if |marks| <= 5 then marks else marks[|marks| - 5..]
  }

  function MarkChar(m: Mark): char
  {
    if m == W then 'W' else 'L'
  }

  /** `.join(" ")`. */
  function FormText(marks: seq<Mark>): string
  {
    if marks == [] then ""
    else if |marks| == 1 then [MarkChar(marks[0])]
    else [MarkChar(marks[0]), ' '] + FormText(marks[1..])
  }

  /** The `forEach` that pushes onto `results`, then the slice and the join. */
  method CollectForm(who: Who, matches: seq<FormMatch>) returns (form: string)
    ensures form == FormText(LastFive(Marks(who, matches)))
  {
    var results: seq<Mark> := [];
    var i := 0;
    while i < |matches|
      invariant 0 <= i <= |matches|
      invariant results == Marks(who, matches[..i])
    {
      var m := matches[i];
      assert matches[..i + 1][..i] == matches[..i];
      if m.team1.Some? && m.team2.Some? && m.sets.Some? && m.sets.value != [] {
        var team1Sets := Score1(m.sets.value);
        var team2Sets := Score2(m.sets.value);
        var side := SideOf(who, m.team1.value, m.team2.value);
        if side == OnTeam1 {
          results := results + [if team1Sets > team2Sets then W else L];
        } else if side == OnTeam2 {
          results := results + [if team2Sets > team1Sets then W else L];
        }
      }
      i := i + 1;
    }
    assert matches[..i] == matches;
    form := FormText(LastFive(results));
  }

  /** `getPlayerForm`. */
  method GetPlayerForm(player: Option<Player>, matches: seq<FormMatch>) returns (form: string)
    ensures form == FormText(LastFive(Marks(APlayer(player), matches)))
  {
    form := CollectForm(APlayer(player), matches);
  }

  /** `getCoupleForm`. */
  method GetCoupleForm(player1: string, player2: string, matches: seq<FormMatch>) returns (form: string)
    ensures form == FormText(LastFive(Marks(ACouple(player1, player2), matches)))
  {
    form := CollectForm(ACouple(player1, player2), matches);
  }

  // ---------------------------------------------------------------------
  // What a form says
  // ---------------------------------------------------------------------

  /** The form string holds the marks at even positions, separated by single spaces. */
  lemma {:induction false} FormTextLayout(marks: seq<Mark>)
    ensures |FormText(marks)| == if marks == [] then 0 else 2 * |marks| - 1
    ensures forall i :: 0 <= i < |marks| ==> FormText(marks)[2 * i] == MarkChar(marks[i])
    ensures forall i :: 0 <= i < |marks| - 1 ==> FormText(marks)[2 * i + 1] == ' '
  {
    if |marks| > 1 {
      FormTextLayout(marks[1..]);
      var t := FormText(marks);
      assert t == [MarkChar(marks[0]), ' '] + FormText(marks[1..]);
      forall i | 1 <= i < |marks| ensures t[2 * i] == MarkChar(marks[i]) {
        assert t[2 * i] == FormText(marks[1..])[2 * (i - 1)];
      }
      forall i | 1 <= i < |marks| - 1 ensures t[2 * i + 1] == ' ' {
        assert t[2 * i + 1] == FormText(marks[1..])[2 * (i - 1) + 1];
      }
    }
  }

  /** A form shows at most five results: at most 9 characters. */
  lemma FormAtMostFive(who: Who, matches: seq<FormMatch>)
    ensures |FormText(LastFive(Marks(who, matches)))| <= 9
  {
    FormTextLayout(LastFive(Marks(who, matches)));
  }

  /** Marks of consecutive stretches of matches concatenate. */
  lemma {:induction false} MarksAppend(who: Who, a: seq<FormMatch>, b: seq<FormMatch>)
    ensures Marks(who, a + b) == Marks(who, a) + Marks(who, b)
  {
    if b == [] {
      assert a + b == a;
    } else {
      var init, last := b[..|b| - 1], b[|b| - 1];
      var x, y, z := Marks(who, a), Marks(who, init), MarkOf(who, last);
      calc {
        Marks(who, a + b);
        { assert a + b == (a + init) + [last]; MarksSnoc(who, a + init, last); }
        Marks(who, a + init) + z;
        { MarksAppend(who, a, init); }
        (x + y) + z;
        x + (y + z);
        { assert b == init + [last]; MarksSnoc(who, init, last); }
        x + Marks(who, b);
      }
    }
  }

  /** One more match adds its own mark at the end. */
  lemma MarksSnoc(who: Who, matches: seq<FormMatch>, m: FormMatch)
    ensures Marks(who, matches + [m]) == Marks(who, matches) + MarkOf(who, m)
  {
    assert (matches + [m])[..|matches|] == matches;
  }

  /** Only the last five matches that produced a mark matter: earlier ones are forgotten. */
  lemma OnlyLastFiveMatter(who: Who, earlier: seq<FormMatch>, later: seq<FormMatch>)
    requires |Marks(who, later)| >= 5
    ensures LastFive(Marks(who, earlier + later)) == LastFive(Marks(who, later))
  {
    MarksAppend(who, earlier, later);
    var x, y := Marks(who, earlier), Marks(who, later);
    assert (x + y)[|x + y| - 5..] == y[|y| - 5..];
  }

  /** A match that cannot be read adds nothing. */
  lemma UnusableSkipped(who: Who, matches: seq<FormMatch>, m: FormMatch)
    requires !Usable(m)
    ensures Marks(who, matches + [m]) == Marks(who, matches)
  {
    assert (matches + [m])[..|matches|] == matches;
  }

  /**
   * One match's mark: present exactly when the match is usable and `who`
   * played in it; a "W" exactly when `who`'s side (team1 first) won
   * strictly more sets, so a level count is an "L" for both sides.
   */
  lemma MarkSpec(who: Who, m: FormMatch)
    ensures |MarkOf(who, m)| <= 1
    ensures MarkOf(who, m) != [] <==> Usable(m) && SideOf(who, m.team1.value, m.team2.value) != Absent
    ensures MarkOf(who, m) == [W] <==>
      && Usable(m)
      && var s1, s2 := Score1(m.sets.value), Score2(m.sets.value);
      match SideOf(who, m.team1.value, m.team2.value)
      case OnTeam1 => s1 > s2
      case OnTeam2 => s2 > s1
      case Absent => false
  {
  }

  /** A level set count is a loss for whoever played. */
  lemma LevelIsLoss(who: Who, m: FormMatch)
    requires Usable(m) && Score1(m.sets.value) == Score2(m.sets.value)
    requires SideOf(who, m.team1.value, m.team2.value) != Absent
    ensures MarkOf(who, m) == [L]
  {
  }

  /** A player listed on both sides is scored as team1. */
  lemma Team1First(p: Player, m: FormMatch)
    requires Usable(m) && PlayerInTeam(Some(p), m.team1) && PlayerInTeam(Some(p), m.team2)
    ensures MarkOf(APlayer(Some(p)), m) == [if Score1(m.sets.value) > Score2(m.sets.value) then W else L]
  {
  }

  /** A couple counts only when both players are on the same side. */
  lemma CoupleSameSide(a: string, b: string, m: FormMatch)
    requires Usable(m)
    ensures MarkOf(ACouple(a, b), m) != [] <==>
      (a in m.team1.value && b in m.team1.value) || (a in m.team2.value && b in m.team2.value)
  {
  }

  /**
   * Reading the match from the other side gives the same mark to anyone on
   * one side only: swap the rosters and mirror every set.
   */
  lemma MirrorSameMark(who: Who, m: FormMatch)
    requires Usable(m)
    requires SideOf(who, m.team1.value, m.team2.value) == OnTeam2 || SideOf(who, m.team2.value, m.team1.value) == OnTeam2
    ensures MarkOf(who, FormMatch(m.team2, m.team1, Some(Mirror(m.sets.value)))) == MarkOf(who, m)
  {
    MirrorSwapsScores(m.sets.value);
  }
}
