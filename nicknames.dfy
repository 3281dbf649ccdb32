/**
 * The nickname substitution of `set_nickname` and `link_user_to_player` in
 * web_api.py: every stored roster and couple has the old name replaced by the
 * new one, and a match is written back only when something changed.
 */
module Nicknames {
  import opened Common
  import opened Names

  /** `[new_nickname if p == old_nickname else p for p in team1]`. */
  function Rename(team: seq<Name>, oldName: Name, newName: Name): (r: seq<Name>)
    ensures |r| == |team|
  {
    seq(|team|, i requires 0 <= i < |team| => if team[i] == oldName then newName else team[i])
  }

  /** The same substitution inside every couple. */
  function RenameCouples(couples: seq<seq<Name>>, oldName: Name, newName: Name): (r: seq<seq<Name>>)
    ensures |r| == |couples|
  {
    seq(|couples|, i requires 0 <= i < |couples| => Rename(couples[i], oldName, newName))
  }

  /** A stored match's rosters and couples, already decoded. */
  datatype Lineup = Lineup(team1: seq<Name>, team2: seq<Name>, couples: seq<seq<Name>>)

  function RenameLineup(m: Lineup, oldName: Name, newName: Name): Lineup
  {
    Lineup(Rename(m.team1, oldName, newName), Rename(m.team2, oldName, newName), RenameCouples(m.couples, oldName, newName))
  }

  /** `team1 != new_team1 or team2 != new_team2 or couples != new_couples`: whether the match is written back. */
  predicate NeedsUpdate(m: Lineup, oldName: Name, newName: Name)
  {
    RenameLineup(m, oldName, newName) != m
  }

  /** The old name occurs in the match somewhere. */
  predicate Mentions(m: Lineup, oldName: Name)
  {
    oldName in m.team1 || oldName in m.team2 || exists i :: 0 <= i < |m.couples| && oldName in m.couples[i]
  }

  /** Exactly the entries equal to the old name change; every other entry stays where it was. */
  lemma RenameSpec(team: seq<Name>, oldName: Name, newName: Name)
    ensures forall i :: 0 <= i < |team| && team[i] == oldName ==> Rename(team, oldName, newName)[i] == newName
    ensures forall i :: 0 <= i < |team| && team[i] != oldName ==> Rename(team, oldName, newName)[i] == team[i]
  {
  }

  /** Nothing changes when the old name is absent, or is the new one. */
  lemma RenameNoop(team: seq<Name>, oldName: Name, newName: Name)
    requires oldName !in team || oldName == newName
    ensures Rename(team, oldName, newName) == team
  {
    assert forall i :: 0 <= i < |team| ==> Rename(team, oldName, newName)[i] == team[i];
  }

  /** With a different new name, the roster changes exactly when the old name is in it. */
  lemma RenameChanges(team: seq<Name>, oldName: Name, newName: Name)
    requires oldName != newName
    ensures Rename(team, oldName, newName) != team <==> oldName in team
  {
    if oldName in team {
      var i :| 0 <= i < |team| && team[i] == oldName;
      assert Rename(team, oldName, newName)[i] == newName;
    } else {
      RenameNoop(team, oldName, newName);
    }
  }

  /** Afterwards the old name is gone. */
  lemma RenameRemovesOld(team: seq<Name>, oldName: Name, newName: Name)
    requires oldName != newName
    ensures oldName !in Rename(team, oldName, newName)
  {
    var r := Rename(team, oldName, newName);
    forall i | 0 <= i < |r| ensures r[i] != oldName {
    }
  }

  lemma RenameInit(team: seq<Name>, oldName: Name, newName: Name)
    requires team != []
    ensures var r := Rename(team, oldName, newName);
      && r[..|team| - 1] == Rename(team[..|team| - 1], oldName, newName)
      && r[|team| - 1] == if team[|team| - 1] == oldName then newName else team[|team| - 1]
  {
  }

  /** The new name occurs as often as both names did. */
  lemma {:induction false} RenameCounts(team: seq<Name>, oldName: Name, newName: Name)
    requires oldName != newName
    ensures Count(Rename(team, oldName, newName), newName) == Count(team, newName) + Count(team, oldName)
  {
    if team != [] {
      var init, r := team[..|team| - 1], Rename(team, oldName, newName);
      RenameCounts(init, oldName, newName);
      RenameInit(team, oldName, newName);
      var x := team[|team| - 1];
      assert Count(r, newName) == Count(Rename(init, oldName, newName), newName) + (if x == oldName || x == newName then 1 else 0);
      assert Count(team, newName) == Count(init, newName) + (if x == newName then 1 else 0);
      assert Count(team, oldName) == Count(init, oldName) + (if x == oldName then 1 else 0);
    }
  }

  /** Renaming back undoes a rename when the new name was not in use. */
  lemma RenameBack(team: seq<Name>, oldName: Name, newName: Name)
    requires newName !in team
    ensures Rename(Rename(team, oldName, newName), newName, oldName) == team
  {
    var r := Rename(Rename(team, oldName, newName), newName, oldName);
    assert forall i :: 0 <= i < |team| ==> r[i] == team[i];
  }

  /** A match is written back exactly when it mentions the old name (and the name really changes). */
  lemma NeedsUpdateIff(m: Lineup, oldName: Name, newName: Name)
    requires oldName != newName
    ensures NeedsUpdate(m, oldName, newName) <==> Mentions(m, oldName)
  {
    RenameChanges(m.team1, oldName, newName);
    RenameChanges(m.team2, oldName, newName);
    var rc := RenameCouples(m.couples, oldName, newName);
    if exists i :: 0 <= i < |m.couples| && oldName in m.couples[i] {
      var i :| 0 <= i < |m.couples| && oldName in m.couples[i];
      RenameChanges(m.couples[i], oldName, newName);
      assert rc[i] != m.couples[i];
    } else {
      forall i | 0 <= i < |m.couples| ensures rc[i] == m.couples[i] {
        RenameNoop(m.couples[i], oldName, newName);
      }
    }
  }
}
