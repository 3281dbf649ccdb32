/**
 * The checks `register_match_result` in web_api.py makes before it stores
 * anything: required fields, couples of exactly two players, teams of
 * exactly two players, and no couple combination that is already stored for
 * the same day, in either orientation, unless the stored match is the one
 * being registered again.
 */
module Register {
  import opened Common
  import opened Names

  /** One submitted result: the two rosters as sent. */
  datatype Submitted = Submitted(team1: seq<Name>, team2: seq<Name>)

  /**
   * A match already stored for the same group and day. Its rosters are
   * already decoded; a roster the JSON decoder rejects reads as empty.
   */
  datatype Stored = Stored(team1: seq<Name>, team2: seq<Name>, nextMatchId: Option<string>)

  /** What the handler answers before anything is stored. */
  datatype Verdict =
    | Accepted
    | MissingFields
    | BadCouple(couple: seq<Name>)
    | BadTeamSize
    | DuplicateCombination

  /** `str(x)` of a stored `next_match_id`; a missing one prints as "None". */
  function IdText(id: Option<string>): string
  {
    if id.Some? then id.value else "None"
  }

  /** The stored match is the one being registered again: `match_id` is given (non-empty) and equal as text. */
  predicate Updating(m: Stored, matchId: Option<string>)
  {
    matchId.Some? && matchId.value != "" && IdText(m.nextMatchId) == matchId.value
  }

  /** The stored match has the sorted teams `t1`, `t2`, in either orientation. */
  predicate SameCombination(m: Stored, t1: seq<Name>, t2: seq<Name>)
  {
    (Sort(m.team1) == t1 && Sort(m.team2) == t2) || (Sort(m.team1) == t2 && Sort(m.team2) == t1)
  }

  /** Some stored match other than the one being updated has the same combination. */
  predicate Clashes(existing: seq<Stored>, t1: seq<Name>, t2: seq<Name>, matchId: Option<string>)
  {
    exists j :: 0 <= j < |existing| && SameCombination(existing[j], t1, t2) && !Updating(existing[j], matchId)
  }

  /** The first couple that is not exactly two players, if any. */
  function FirstBadCouple(couples: seq<seq<Name>>): (r: Option<seq<Name>>)
    ensures r.None? <==> forall i :: 0 <= i < |couples| ==> |couples[i]| == 2
    ensures r.Some? ==>
      exists i :: 0 <= i < |couples| && couples[i] == r.value && |r.value| != 2 && forall k :: 0 <= k < i ==> |couples[k]| == 2
  {
    if couples == [] then None
    else if |couples[0]| != 2 then Some(couples[0])
    else
      var r := FirstBadCouple(couples[1..]);
      assert forall i :: 1 <= i < |couples| ==> couples[i] == couples[1..][i - 1];
      r
  }

  /** The results loop: the first result with a team not of two players, or whose combination clashes, decides. */
  function CheckResults(results: seq<Submitted>, existing: seq<Stored>, matchId: Option<string>): Verdict
  {
    if results == [] then Accepted
    else
      var t1, t2 := Sort(results[0].team1), Sort(results[0].team2);
      if |t1| != 2 || |t2| != 2 then BadTeamSize
      else if Clashes(existing, t1, t2, matchId) then DuplicateCombination
      else CheckResults(results[1..], existing, matchId)
  }

  /** The whole validation, in the order the handler makes it. */
  function Validate(groupId: string, couples: seq<seq<Name>>, results: seq<Submitted>, existing: seq<Stored>, matchId: Option<string>): Verdict
  {
    if groupId == "" || couples == [] || results == [] then MissingFields
    else if FirstBadCouple(couples).Some? then BadCouple(FirstBadCouple(couples).value)
    else CheckResults(results, existing, matchId)
  }

  /** The handler's checks, with their early returns. */
  method RegisterCheck(groupId: string, couples: seq<seq<Name>>, results: seq<Submitted>, existing: seq<Stored>, matchId: Option<string>)
    returns (v: Verdict)
    ensures v == Validate(groupId, couples, results, existing, matchId)
  {
    if groupId == "" || couples == [] || results == [] {
      return MissingFields;
    }
    var bad := CheckCouples(couples);
    if bad.Some? {
      return BadCouple(bad.value);
    }
    v := CheckAllResults(results, existing, matchId);
  }

  /** The couples loop: the first couple that does not sort into two players is reported. */
  method CheckCouples(couples: seq<seq<Name>>) returns (bad: Option<seq<Name>>)
    ensures bad == FirstBadCouple(couples)
  {
    var i := 0;
    while i < |couples|
      invariant 0 <= i <= |couples|
      invariant FirstBadCouple(couples) == FirstBadCouple(couples[i..])
    {
      assert couples[i..][1..] == couples[i + 1..];
      var sortedCouple := Sort(couples[i]);
      if |sortedCouple| != 2 {
        return Some(couples[i]);
      }
      i := i + 1;
    }
    return None;
  }

  /** The results loop. */
  method CheckAllResults(results: seq<Submitted>, existing: seq<Stored>, matchId: Option<string>) returns (v: Verdict)
    ensures v == CheckResults(results, existing, matchId)
  {
    var r := 0;
    while r < |results|
      invariant 0 <= r <= |results|
      invariant CheckResults(results, existing, matchId) == CheckResults(results[r..], existing, matchId)
    {
      ResultsStep(results, r, existing, matchId);
      var t1, t2 := Sort(results[r].team1), Sort(results[r].team2);
      if |t1| != 2 || |t2| != 2 {
        return BadTeamSize;
      }
      var clash := FindClash(existing, t1, t2, matchId);
      if clash {
        return DuplicateCombination;
      }
      r := r + 1;
    }
    return Accepted;
  }

  /** The verdict from result `r` on: decided by that result, or else by the ones after it. */
  lemma ResultsStep(results: seq<Submitted>, r: nat, existing: seq<Stored>, matchId: Option<string>)
    requires r < |results|
    ensures CheckResults(results[r..], existing, matchId) ==
      var t1, t2 := Sort(results[r].team1), Sort(results[r].team2);
      if |t1| != 2 || |t2| != 2 then BadTeamSize
      else if Clashes(existing, t1, t2, matchId) then DuplicateCombination
      else CheckResults(results[r + 1..], existing, matchId)
  {
    assert results[r..][0] == results[r];
    assert results[r..][1..] == results[r + 1..];
  }

  /** The inner loop over the stored matches: a clash returns, the match being updated is skipped. */
  method FindClash(existing: seq<Stored>, t1: seq<Name>, t2: seq<Name>, matchId: Option<string>) returns (clash: bool)
    ensures clash <==> Clashes(existing, t1, t2, matchId)
  {
    var j := 0;
    while j < |existing|
      invariant 0 <= j <= |existing|
      invariant forall k :: 0 <= k < j ==> !(SameCombination(existing[k], t1, t2) && !Updating(existing[k], matchId))
    {
      var m := existing[j];
      if (Sort(m.team1) == t1 && Sort(m.team2) == t2) || (Sort(m.team1) == t2 && Sort(m.team2) == t1) {
        if matchId.Some? && matchId.value != "" && IdText(m.nextMatchId) == matchId.value {
          j := j + 1;
          continue;
        }
        return true;
      }
      j := j + 1;
    }
    return false;
  }

  // ---------------------------------------------------------------------
  // What the validation guarantees
  // ---------------------------------------------------------------------

  /** Both teams of the result have two players and its combination clashes with no stored match. */
  predicate ResultOk(r: Submitted, existing: seq<Stored>, matchId: Option<string>)
  {
    |r.team1| == 2 && |r.team2| == 2 && !Clashes(existing, Sort(r.team1), Sort(r.team2), matchId)
  }

  predicate ResultsOk(results: seq<Submitted>, existing: seq<Stored>, matchId: Option<string>)
  {
    forall i :: 0 <= i < |results| ==> ResultOk(results[i], existing, matchId)
  }

  lemma ResultsOkCons(results: seq<Submitted>, existing: seq<Stored>, matchId: Option<string>)
    requires results != []
    ensures ResultsOk(results, existing, matchId) <==> ResultOk(results[0], existing, matchId) && ResultsOk(results[1..], existing, matchId)
  {
    assert forall i :: 1 <= i < |results| ==> results[i] == results[1..][i - 1];
  }

  lemma HeadVerdict(results: seq<Submitted>, existing: seq<Stored>, matchId: Option<string>)
    requires results != []
    ensures CheckResults(results, existing, matchId) ==
      if ResultOk(results[0], existing, matchId) then CheckResults(results[1..], existing, matchId)
      else if |results[0].team1| != 2 || |results[0].team2| != 2 then BadTeamSize
      else DuplicateCombination
  {
  }

  lemma {:induction false} CheckResultsIff(results: seq<Submitted>, existing: seq<Stored>, matchId: Option<string>)
    ensures CheckResults(results, existing, matchId) == Accepted <==> ResultsOk(results, existing, matchId)
  {
    if results != [] {
      CheckResultsIff(results[1..], existing, matchId);
      HeadVerdict(results, existing, matchId);
      ResultsOkCons(results, existing, matchId);
    }
  }

  /**
   * A registration is accepted exactly when the group, the couples and the
   * results are all given, every couple and every team has two players, and
   * no stored match of the day other than the one being updated has any
   * submitted combination.
   */
  lemma AcceptedIff(groupId: string, couples: seq<seq<Name>>, results: seq<Submitted>, existing: seq<Stored>, matchId: Option<string>)
    ensures Validate(groupId, couples, results, existing, matchId) == Accepted <==>
      && groupId != "" && couples != [] && results != []
      && (forall i :: 0 <= i < |couples| ==> |couples[i]| == 2)
      && ResultsOk(results, existing, matchId)
  {
    CheckResultsIff(results, existing, matchId);
  }

  /** Which side is "team1" does not matter, for the submitted result or the stored one. */
  lemma OrientationIrrelevant(m: Stored, t1: seq<Name>, t2: seq<Name>)
    ensures SameCombination(m, t1, t2) == SameCombination(m, t2, t1)
    ensures SameCombination(m, t1, t2) == SameCombination(Stored(m.team2, m.team1, m.nextMatchId), t1, t2)
  {
  }

  /** Nor does the order in which the players of a team are listed. */
  lemma RosterOrderIrrelevant(existing: seq<Stored>, a: seq<Name>, b: seq<Name>, t2: seq<Name>, matchId: Option<string>)
    requires multiset(a) == multiset(b)
    ensures Clashes(existing, Sort(a), t2, matchId) == Clashes(existing, Sort(b), t2, matchId)
  {
    SortEqualIff(a, b);
  }

  /** A result whose teams match the stored match being registered again is let through. */
  lemma UpdatingItselfAllowed(m: Stored, r: Submitted, id: string)
    requires id != "" && m.nextMatchId == Some(id)
    ensures !Clashes([m], Sort(r.team1), Sort(r.team2), Some(id))
  {
  }

  /** The same result against a different stored match of the day is a duplicate. */
  lemma SameTeamsRejected(m: Stored, groupId: string, couples: seq<seq<Name>>, r: Submitted, matchId: Option<string>)
    requires groupId != "" && couples != [] && forall i :: 0 <= i < |couples| ==> |couples[i]| == 2
    requires |r.team1| == 2 && |r.team2| == 2
    requires multiset(m.team1) == multiset(r.team2) && multiset(m.team2) == multiset(r.team1)
    requires !Updating(m, matchId)
    ensures Validate(groupId, couples, [r], [m], matchId) == DuplicateCombination
  {
    SortEqualIff(m.team1, r.team2);
    SortEqualIff(m.team2, r.team1);
    assert Clashes([m], Sort(r.team1), Sort(r.team2), matchId) by {
      assert [m][0] == m && SameCombination(m, Sort(r.team1), Sort(r.team2));
    }
    HeadVerdict([r], [m], matchId);
    assert FirstBadCouple(couples).None?;
  }
}
