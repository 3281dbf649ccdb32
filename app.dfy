/**
 * The helpers of the application shell (App.js): `getAllPairs`, the pairing
 * of a planned match's registered users into couples, the all-against-all
 * result rows, and the partner statistics shown on the personal page.
 */
module App {
  import opened Common
  import opened Pairs

  // ---------------------------------------------------------------------
  // getAllPairs
  // ---------------------------------------------------------------------

  /** `getAllPairs`: the two nested loops pushing `[arr[i], arr[j]]` for every `i < j`. */
  method GetAllPairs<T>(arr: seq<T>) returns (pairs: seq<(T, T)>)
    ensures pairs == OrderedPairs(arr)
  {
    var n := |arr|;
    pairs := [];
    var i := 0;
    while i < n
      invariant 0 <= i <= n
      invariant pairs == PairsAt(arr, RowsBefore(n, i))
    {
      var j := i + 1;
      while j < n
        invariant i + 1 <= j <= n
        invariant pairs == PairsAt(arr, RowsBefore(n, i) + Row(n, i)[..j - i - 1])
      {
        RowStep(n, i, j);
        assert RowsBefore(n, i) + Row(n, i)[..j - i] == (RowsBefore(n, i) + Row(n, i)[..j - i - 1]) + [(i, j)];
        PairsAtSnoc(arr, RowsBefore(n, i) + Row(n, i)[..j - i - 1], i, j);
        pairs := pairs + [(arr[i], arr[j])];
        j := j + 1;
      }
      RowDone(n, i);
      i := i + 1;
    }
    AllRowsDone(n);
    OrderedPairsAt(arr);
  }

  // ---------------------------------------------------------------------
  // Registered users into couples
  // ---------------------------------------------------------------------

  /** `regs[k] || ''`: past the end of the list the slot is empty. */
  function Slot(regs: seq<string>, k: nat): string
  {
    if k < |regs| then regs[k] else ""
  }

  /** The couples the registered users fall into: users 0 and 1, users 2 and 3, and so on. */
  function PairUp(regs: seq<string>): (r: seq<(string, string)>)
    ensures |r| == (|regs| + 1) / 2
  {
    seq((|regs| + 1) / 2, k requires 0 <= k < (|regs| + 1) / 2 => (Slot(regs, 2 * k), Slot(regs, 2 * k + 1)))
  }

  /** The loop stepping `i` by two over `registered_users` (a missing list is empty). */
  method PairRegistered(registered: Option<seq<string>>) returns (pairs: seq<(string, string)>)
    ensures pairs == PairUp(if registered.Some? then registered.value else [])
  {
    var regs := if registered.Some? then registered.value else [];
    pairs := [];
    var i := 0;
    while i < |regs|
      invariant 0 <= i <= |regs| + 1 && i % 2 == 0
      invariant |pairs| * 2 == i
      invariant forall k :: 0 <= k < |pairs| ==> pairs[k] == (Slot(regs, 2 * k), Slot(regs, 2 * k + 1))
    {
      var first := if i < |regs| then regs[i] else "";
      var second := if i + 1 < |regs| then regs[i + 1] else "";
      pairs := pairs + [(first, second)];
      i := i + 2;
    }
  }

  /** The couples laid out one player after another. */
  function Flatten(pairs: seq<(string, string)>): seq<string>
  {
    if pairs == [] then [] else [pairs[0].0, pairs[0].1] + Flatten(pairs[1..])
  }

  lemma PairUpCons(regs: seq<string>)
    requires regs != []
    ensures PairUp(regs) == [(regs[0], Slot(regs, 1))] + PairUp(if |regs| >= 2 then regs[2..] else [])
  {
    var rest := if |regs| >= 2 then regs[2..] else [];
    var p, q := PairUp(regs), PairUp(rest);
    assert |p| == 1 + |q|;
    forall k | 1 <= k < |p| ensures p[k] == q[k - 1] {
      SlotShift(regs, rest, 2 * k);
      SlotShift(regs, rest, 2 * k + 1);
    }
  }

  lemma SlotShift(regs: seq<string>, rest: seq<string>, k: nat)
    requires k >= 2 && rest == if |regs| >= 2 then regs[2..] else []
    ensures Slot(regs, k) == Slot(rest, k - 2)
  {
  }

  /**
   * Every registered user lands in exactly one slot, in order; an odd count
   * leaves the last couple's second slot empty.
   */
  lemma {:induction false} PairUpRoundTrip(regs: seq<string>)
    ensures Flatten(PairUp(regs)) == regs + (if |regs| % 2 == 1 then [""] else [])
  {
    if regs != [] {
      PairUpCons(regs);
      if |regs| >= 2 {
        PairUpRoundTrip(regs[2..]);
        assert regs == [regs[0], regs[1]] + regs[2..];
      } else {
        assert PairUp([]) == [];
      }
    }
  }

  // ---------------------------------------------------------------------
  // The all-against-all result rows
  // ---------------------------------------------------------------------

  /** One editable result row: two couples and empty score fields. */
  datatype ResultRow = ResultRow(team1: (string, string), team2: (string, string), score1: string, score2: string)

  /** How results are entered: all against all, or any other mode the page offers. */
  datatype ResultMode = All | OtherMode(name: string)

  /**
   * The effect that fills the result rows: in "all" mode with more than one
   * couple, one row per pair of couples; otherwise the rows are left alone
   * (`None`).
   */
  method AllModeRows(mode: ResultMode, couples: seq<(string, string)>) returns (rows: Option<seq<ResultRow>>)
    ensures rows.Some? <==> mode == All && |couples| > 1
    ensures rows.Some? ==> |rows.value| == |OrderedPairs(couples)|
    ensures rows.Some? ==> forall k :: 0 <= k < |rows.value| ==>
      rows.value[k] == ResultRow(OrderedPairs(couples)[k].0, OrderedPairs(couples)[k].1, "", "")
  {
    if !(mode == All && |couples| > 1) {
      return None;
    }
    var allPairs := GetAllPairs(couples);
    rows := Some(seq(|allPairs|, k requires 0 <= k < |allPairs| => ResultRow(allPairs[k].0, allPairs[k].1, "", "")));
  }

  /** Every couple meets every other couple exactly once: n(n-1)/2 rows, each pair of positions present. */
  lemma AllModeRowsCover(couples: seq<(string, string)>)
    ensures |OrderedPairs(couples)| * 2 == |couples| * (|couples| - 1)
    ensures forall i, j :: 0 <= i < j < |couples| ==> (couples[i], couples[j]) in OrderedPairs(couples)
  {
    OrderedPairsSpec(couples);
    forall i, j | 0 <= i < j < |couples| ensures (couples[i], couples[j]) in OrderedPairs(couples) {
      var ip := IndexPairs(|couples|);
      var k :| 0 <= k < |ip| && ip[k] == (i, j);
      assert OrderedPairs(couples)[k] == (couples[i], couples[j]);
    }
  }

  // ---------------------------------------------------------------------
  // Partner statistics
  // ---------------------------------------------------------------------

  /**
   * A match as the matches endpoint delivers it: the stored row, unchanged.
   * The rosters are taken to be lists of names. The set counts are the
   * stored `score1`/`score2` columns, which stay null until a result update
   * writes them.
   */
  datatype PlayedMatch = PlayedMatch(team1: seq<string>, team2: seq<string>, score1: Option<int>, score2: Option<int>)

  datatype Tally = Tally(wins: nat, losses: nat, total: nat)

  /** A relational comparison turns null into 0. */
  function JsNumber(x: Option<int>): int
  {
    if x.Some? then x.value else 0
  }

  /** The user's team: team2 when the user is in it, else team1 when the user is in it. */
  function UserTeam(m: PlayedMatch, me: string): Option<seq<string>>
  {
    if me in m.team2 then Some(m.team2)
    else if me in m.team1 then Some(m.team1)
    else None
  }

  /** `team.find(p => p !== me)`. */
  function FirstOther(team: seq<string>, me: string): (r: Option<string>)
    ensures r.Some? ==> r.value in team && r.value != me
    ensures r.None? <==> forall i :: 0 <= i < |team| ==> team[i] == me
  {
    if team == [] then None
    else if team[0] != me then Some(team[0])
    else
      var r := FirstOther(team[1..], me);
      assert forall i :: 1 <= i < |team| ==> team[i] == team[1..][i - 1];
      r
  }

  /** The win test: the user on a side that won strictly more sets. */
  predicate Won(m: PlayedMatch, me: string)
  {
    (me in m.team1 && JsNumber(m.score1) > JsNumber(m.score2)) ||
    (me in m.team2 && JsNumber(m.score2) > JsNumber(m.score1))
  }

  /** What one match adds to the statistics: the partner and whether it was a win, or nothing. */
  function Outcome(m: PlayedMatch, me: string): Option<(string, bool)>
  {
    var team := UserTeam(m, me);
    if team.None? then None
    else
      var partner := FirstOther(team.value, me);
      if partner.None? || partner.value == "" then None
      else Some((partner.value, Won(m, me)))
  }

  /** One more match with `partner`. */
  function Record(stats: map<string, Tally>, partner: string, win: bool): map<string, Tally>
  {
    var t := if partner in stats then stats[partner] else Tally(0, 0, 0);
    stats[partner := if win then Tally(t.wins + 1, t.losses, t.total + 1) else Tally(t.wins, t.losses + 1, t.total + 1)]
  }

  /** The statistics after the matches, in order. */
  function PartnerStats(matches: seq<PlayedMatch>, me: string): map<string, Tally>
  {
    if matches == [] then map[]
    else
      var stats := PartnerStats(matches[..|matches| - 1], me);
      var o := Outcome(matches[|matches| - 1], me);
      if o.None? then stats else Record(stats, o.value.0, o.value.1)
  }

  /** The `forEach` filling `partnerStats`. */
  method TallyPartners(matches: seq<PlayedMatch>, me: string) returns (stats: map<string, Tally>)
    ensures stats == PartnerStats(matches, me)
  {
    stats := map[];
    var i := 0;
    while i < |matches|
      invariant 0 <= i <= |matches|
      invariant stats == PartnerStats(matches[..i], me)
    {
      assert matches[..i + 1][..i] == matches[..i];
      stats := Tick(stats, matches[i], me);
      i := i + 1;
    }
    assert matches[..i] == matches;
  }

  /** The body of the `forEach`: one match updates at most the entry of its partner. */
  method Tick(stats: map<string, Tally>, m: PlayedMatch, me: string) returns (stats': map<string, Tally>)
    ensures stats' == (if Outcome(m, me).None? then stats else Record(stats, Outcome(m, me).value.0, Outcome(m, me).value.1))
  {
    stats' := stats;
    var userTeam: Option<seq<string>> := None;
    if me in m.team1 {
      userTeam := Some(m.team1);
    }
    if me in m.team2 {
      userTeam := Some(m.team2);
    }
    if userTeam.None? {
      return;
    }
    var partner := FirstOther(userTeam.value, me);
    if partner.None? || partner.value == "" {
      return;
    }
    var win := (me in m.team1 && JsNumber(m.score1) > JsNumber(m.score2)) ||
               (me in m.team2 && JsNumber(m.score2) > JsNumber(m.score1));
    var t := if partner.value in stats then stats[partner.value] else Tally(0, 0, 0);
    if win {
      t := t.(wins := t.wins + 1);
    } else {
      t := t.(losses := t.losses + 1);
    }
    stats' := stats[partner.value := t.(total := t.total + 1)];
  }

  /** Matches played with `partner`. */
  function Together(matches: seq<PlayedMatch>, me: string, partner: string): nat
  {
    if matches == [] then 0
    else
      var o := Outcome(matches[|matches| - 1], me);
      Together(matches[..|matches| - 1], me, partner) + (if o.Some? && o.value.0 == partner then 1 else 0)
  }

  /** Matches won with `partner`. */
  function WonTogether(matches: seq<PlayedMatch>, me: string, partner: string): nat
  {
    if matches == [] then 0
    else
      var o := Outcome(matches[|matches| - 1], me);
      WonTogether(matches[..|matches| - 1], me, partner) + (if o.Some? && o.value.0 == partner && o.value.1 then 1 else 0)
  }

  /**
   * A partner has an entry exactly when the user played with them at least
   * once; the entry counts those matches, the wins among them, and every
   * other one as a loss.
   */
  lemma {:induction false} PartnerStatsCounts(matches: seq<PlayedMatch>, me: string, partner: string)
    ensures WonTogether(matches, me, partner) <= Together(matches, me, partner)
    ensures partner in PartnerStats(matches, me) <==> Together(matches, me, partner) > 0
    ensures partner in PartnerStats(matches, me) ==>
      && PartnerStats(matches, me)[partner].total == Together(matches, me, partner)
      && PartnerStats(matches, me)[partner].wins == WonTogether(matches, me, partner)
      && PartnerStats(matches, me)[partner].wins + PartnerStats(matches, me)[partner].losses == PartnerStats(matches, me)[partner].total
  {
    if matches != [] {
      PartnerStatsCounts(matches[..|matches| - 1], me, partner);
    }
  }

  /** A partner is never the user, nor an empty name, and comes from the user's own team. */
  lemma OutcomePartner(m: PlayedMatch, me: string)
    requires Outcome(m, me).Some?
    ensures Outcome(m, me).value.0 != me && Outcome(m, me).value.0 != ""
    ensures me in m.team2 ==> Outcome(m, me).value.0 in m.team2
    ensures me !in m.team2 ==> me in m.team1 && Outcome(m, me).value.0 in m.team1
  {
  }

  /** A match without recorded sets, or with a level set count, is a loss. */
  lemma LevelIsLoss(m: PlayedMatch, me: string)
    requires JsNumber(m.score1) == JsNumber(m.score2)
    ensures !Won(m, me)
  {
  }

  /** `slice(0, 3)`: the first three entries at most. */
  function Top3<T>(sorted: seq<T>): (r: seq<T>)
    ensures |r| <= 3 && r <= sorted
    ensures |sorted| >= 3 ==> |r| == 3
  {
    if |sorted| <= 3 then sorted else sorted[..3]
  }

  function Reverse<T>(s: seq<T>): (r: seq<T>)
    ensures |r| == |s|
    ensures forall k :: 0 <= k < |s| ==> r[k] == s[|s| - 1 - k]
  {
    if s == [] then [] else Reverse(s[1..]) + [s[0]]
  }

  /** `slice(-3).reverse()`: the last three entries at most, last first. */
  function Worst3<T>(sorted: seq<T>): (r: seq<T>)
    ensures |r| <= 3
    ensures |r| == if |sorted| < 3 then |sorted| else 3
    ensures forall k :: 0 <= k < |r| ==> r[k] == sorted[|sorted| - 1 - k]
  {
    Reverse(if |sorted| <= 3 then sorted else sorted[|sorted| - 3..])
  }
}
