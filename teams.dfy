/**
 * The team proposal of web_api.py (`propose_teams`): out of the users
 * registered for a match, choose `n // 2` couples with no player in two of
 * them, so that the strongest and the weakest couple are as close as possible.
 * The stored points are read into two lookups first; the store itself is not
 * part of the model.
 */
module Teams {
  import opened Common
  import opened Names
  import opened Pairs
  import Registration

  type Duo = (Name, Name)

  /** `d.get(k, 0)`. */
  function Lookup<K(==)>(m: map<K, int>, k: K): int
  {
    if k in m then m[k] else 0
  }

  // ---------------------------------------------------------------------
  // Couple points, stored under both orders
  // ---------------------------------------------------------------------

  /** One row of the couples table: both players and the couple's points. */
  datatype CoupleRow = CoupleRow(player1: Name, player2: Name, points: int)

  /** The lookup after the rows, in order: every row writes both `(p1, p2)` and `(p2, p1)`. */
  function CouplePointsOf(rows: seq<CoupleRow>): map<Duo, int>
  {
    if rows == [] then map[]
    else
      var m, c := CouplePointsOf(rows[..|rows| - 1]), rows[|rows| - 1];
      m[(c.player1, c.player2) := c.points][(c.player2, c.player1) := c.points]
  }

  /** The loop filling `couple_points`. */
  method BuildCouplePoints(rows: seq<CoupleRow>) returns (m: map<Duo, int>)
    ensures m == CouplePointsOf(rows)
  {
    m := map[];
    var i := 0;
    while i < |rows|
      invariant 0 <= i <= |rows|
      invariant m == CouplePointsOf(rows[..i])
    {
      var c := rows[i];
      m := m[(c.player1, c.player2) := c.points];
      m := m[(c.player2, c.player1) := c.points];
      assert rows[..i + 1][..i] == rows[..i];
      i := i + 1;
    }
    assert rows[..i] == rows;
  }

  predicate Symmetric(m: map<Duo, int>)
  {
    forall k :: k in m ==> (k.1, k.0) in m && m[(k.1, k.0)] == m[k]
  }

  lemma SymmetricUpdate(m: map<Duo, int>, a: Name, b: Name, v: int)
    requires Symmetric(m)
    ensures Symmetric(m[(a, b) := v][(b, a) := v])
  {
  }

  /** A couple's points read the same in either order. */
  lemma {:induction false} CouplePointsSymmetric(rows: seq<CoupleRow>)
    ensures Symmetric(CouplePointsOf(rows))
  {
    if rows != [] {
      var c := rows[|rows| - 1];
      CouplePointsSymmetric(rows[..|rows| - 1]);
      SymmetricUpdate(CouplePointsOf(rows[..|rows| - 1]), c.player1, c.player2, c.points);
    }
  }

  /** Row `c` names the couple `k`, in one order or the other. */
  predicate Names2(c: CoupleRow, k: Duo)
  {
    k == (c.player1, c.player2) || k == (c.player2, c.player1)
  }

  /** Exactly the couples some row names have points. */
  lemma {:induction false} CouplePointsKeys(rows: seq<CoupleRow>, k: Duo)
    ensures k in CouplePointsOf(rows) <==> exists i :: 0 <= i < |rows| && Names2(rows[i], k)
  {
    if rows != [] {
      var init := rows[..|rows| - 1];
      CouplePointsKeys(init, k);
      if k in CouplePointsOf(init) {
        var i :| 0 <= i < |init| && Names2(init[i], k);
        assert rows[i] == init[i];
      }
      if i :| 0 <= i < |rows| && Names2(rows[i], k) {
        if i < |init| { assert rows[i] == init[i]; }
      }
    }
  }

  // ---------------------------------------------------------------------
  // itertools.combinations
  // ---------------------------------------------------------------------

  function Prepend<T>(x: T, cs: seq<seq<T>>): (r: seq<seq<T>>)
    ensures |r| == |cs|
    ensures forall i :: 0 <= i < |cs| ==> r[i] == [x] + cs[i]
  {
    seq(|cs|, i requires 0 <= i < |cs| => [x] + cs[i])
  }

  /**
   * `itertools.combinations(s, k)`: every choice of `k` elements of `s` at
   * increasing positions, those containing the first element first.
   */
  function Combinations<T>(s: seq<T>, k: nat): (r: seq<seq<T>>)
    decreases |s|
  {
    if k == 0 then [[]]
    else if s == [] then []
    else Prepend(s[0], Combinations(s[1..], k - 1)) + Combinations(s[1..], k)
  }

  /** Every combination has `k` elements, each taken from `s`. */
  lemma {:induction false} CombinationsSound<T>(s: seq<T>, k: nat)
    ensures forall c :: c in Combinations(s, k) ==> |c| == k && forall x :: x in c ==> x in s
    decreases |s|
  {
    if k > 0 && s != [] {
      CombinationsSound(s[1..], k - 1);
      CombinationsSound(s[1..], k);
      var with, without := Prepend(s[0], Combinations(s[1..], k - 1)), Combinations(s[1..], k);
      forall c | c in with + without ensures |c| == k && forall x :: x in c ==> x in s {
        if c in with {
          var i :| 0 <= i < |with| && with[i] == c;
          assert c == [s[0]] + Combinations(s[1..], k - 1)[i];
        }
      }
    }
  }

  /** Strictly increasing positions, all below `n`. */
  predicate Increasing(idx: seq<nat>, n: nat)
  {
    (forall j :: 0 <= j < |idx| ==> idx[j] < n) &&
    (forall j, l :: 0 <= j < l < |idx| ==> idx[j] < idx[l])
  }

  function Pick<T>(s: seq<T>, idx: seq<nat>): (r: seq<T>)
    requires forall j :: 0 <= j < |idx| ==> idx[j] < |s|
    ensures |r| == |idx|
    ensures forall j :: 0 <= j < |idx| ==> r[j] == s[idx[j]]
  {
    seq(|idx|, j requires 0 <= j < |idx| => s[idx[j]])
  }

  function Shift(idx: seq<nat>): (r: seq<nat>)
    requires forall j :: 0 <= j < |idx| ==> idx[j] > 0
    ensures |r| == |idx|
    ensures forall j :: 0 <= j < |idx| ==> r[j] == idx[j] - 1
  {
    seq(|idx|, j requires 0 <= j < |idx| => idx[j] - 1)
  }

  lemma PrependMember<T>(x: T, cs: seq<seq<T>>, c: seq<T>)
    requires c in cs
    ensures [x] + c in Prepend(x, cs)
  {
    var i :| 0 <= i < |cs| && cs[i] == c;
    assert Prepend(x, cs)[i] == [x] + c;
  }

  /** Positions starting at 0: the head, then the rest shifted down. */
  lemma PickHead<T>(s: seq<T>, idx: seq<nat>)
    requires Increasing(idx, |s|) && idx != [] && idx[0] == 0
    ensures Increasing(Shift(idx[1..]), |s| - 1)
    ensures Pick(s, idx) == [s[0]] + Pick(s[1..], Shift(idx[1..]))
  {
    forall j | 0 <= j < |idx[1..]| ensures idx[1..][j] > 0 {
      assert idx[0] < idx[j + 1];
    }
    var rest := Shift(idx[1..]);
    forall j, l | 0 <= j < l < |rest| ensures rest[j] < rest[l] {
      assert idx[j + 1] < idx[l + 1];
    }
  }

  /** Positions all past 0: the same elements of the tail. */
  lemma PickTail<T>(s: seq<T>, idx: seq<nat>)
    requires Increasing(idx, |s|) && idx != [] && idx[0] > 0
    ensures Increasing(Shift(idx), |s| - 1)
    ensures Pick(s, idx) == Pick(s[1..], Shift(idx))
  {
    forall j | 0 <= j < |idx| ensures idx[j] > 0 {
      if j > 0 { assert idx[0] < idx[j]; }
    }
    var rest := Shift(idx);
    forall j, l | 0 <= j < l < |rest| ensures rest[j] < rest[l] {
      assert idx[j] < idx[l];
    }
  }

  /** Conversely, the elements at any increasing positions form one of the combinations. */
  lemma {:induction false} CombinationsComplete<T>(s: seq<T>, idx: seq<nat>)
    requires Increasing(idx, |s|)
    ensures Pick(s, idx) in Combinations(s, |idx|)
    decreases |s|
  {
    if idx != [] {
      assert s != [];
      if idx[0] == 0 {
        PickHead(s, idx);
        CombinationsComplete(s[1..], Shift(idx[1..]));
        PrependMember(s[0], Combinations(s[1..], |idx| - 1), Pick(s[1..], Shift(idx[1..])));
      } else {
        PickTail(s, idx);
        CombinationsComplete(s[1..], Shift(idx));
      }
    }
  }

  // ---------------------------------------------------------------------
  // is_non_overlapping
  // ---------------------------------------------------------------------

  predicate Disjoint(c: Duo, d: Duo)
  {
    c.0 != d.0 && c.0 != d.1 && c.1 != d.0 && c.1 != d.1
  }

  /** No player is in two of the couples. */
  predicate NonOverlapping(combo: seq<Duo>)
  {
    forall i, j :: 0 <= i < j < |combo| ==> Disjoint(combo[i], combo[j])
  }

  /** Everyone in some couple of `combo`. */
  function Players(combo: seq<Duo>): set<Name>
  {
    (set i | 0 <= i < |combo| :: combo[i].0) + (set i | 0 <= i < |combo| :: combo[i].1)
  }

  /** `is_non_overlapping`: the `used` set holds everyone seen so far; a couple with a used player fails. */
  method IsNonOverlapping(combo: seq<Duo>) returns (ok: bool)
    ensures ok <==> NonOverlapping(combo)
  {
    var used: set<Name> := {};
    var i := 0;
    while i < |combo|
      invariant 0 <= i <= |combo|
      invariant used == Players(combo[..i])
      invariant NonOverlapping(combo[..i])
    {
      var c := combo[i];
      if c.0 in used || c.1 in used {
        var j :| 0 <= j < i && (combo[j].0 == c.0 || combo[j].1 == c.0 || combo[j].0 == c.1 || combo[j].1 == c.1);
        assert !Disjoint(combo[j], combo[i]);
        return false;
      }
      forall j | 0 <= j < i ensures Disjoint(combo[j], c) {
        assert combo[j].0 in used && combo[j].1 in used;
      }
      used := used + {c.0, c.1};
      assert combo[..i + 1] == combo[..i] + [c];
      i := i + 1;
    }
    assert combo[..i] == combo;
    return true;
  }

  // ---------------------------------------------------------------------
  // Strengths and the search
  // ---------------------------------------------------------------------

  /** A couple's strength: both players' points plus the couple's own, each 0 when missing. */
  function Strength(playerPoints: map<Name, int>, couplePoints: map<Duo, int>, c: Duo): int
  {
    Lookup(playerPoints, c.0) + Lookup(playerPoints, c.1) + Lookup(couplePoints, c)
  }

  function Strengths(playerPoints: map<Name, int>, couplePoints: map<Duo, int>, combo: seq<Duo>): (r: seq<int>)
    ensures |r| == |combo|
    ensures forall i :: 0 <= i < |combo| ==> r[i] == Strength(playerPoints, couplePoints, combo[i])
  {
    seq(|combo|, i requires 0 <= i < |combo| => Strength(playerPoints, couplePoints, combo[i]))
  }

  /** The loop collecting `strengths`. */
  method CollectStrengths(playerPoints: map<Name, int>, couplePoints: map<Duo, int>, combo: seq<Duo>) returns (r: seq<int>)
    ensures r == Strengths(playerPoints, couplePoints, combo)
  {
    r := [];
    var i := 0;
    while i < |combo|
      invariant 0 <= i <= |combo|
      invariant r == Strengths(playerPoints, couplePoints, combo[..i])
    {
      r := r + [Strength(playerPoints, couplePoints, combo[i])];
      i := i + 1;
    }
    assert combo[..i] == combo;
  }

  function Max(s: seq<int>): (m: int)
    requires s != []
    ensures m in s && forall x :: x in s ==> x <= m
  {
    if |s| == 1 then s[0]
    else
      var rest := Max(s[1..]);
      assert forall x :: x in s ==> x == s[0] || x in s[1..];
      if s[0] >= rest then s[0] else rest
  }

  function Min(s: seq<int>): (m: int)
    requires s != []
    ensures m in s && forall x :: x in s ==> m <= x
  {
    if |s| == 1 then s[0]
    else
      var rest := Min(s[1..]);
      assert forall x :: x in s ==> x == s[0] || x in s[1..];
      if s[0] <= rest then s[0] else rest
  }

  /** `max(strengths) - min(strengths)`; an empty combination has spread 0. */
  function Spread(playerPoints: map<Name, int>, couplePoints: map<Duo, int>, combo: seq<Duo>): (d: int)
    ensures d >= 0
  {
    var s := Strengths(playerPoints, couplePoints, combo);
    if s == [] then 0 else Max(s) - Min(s)
  }

  /** The best combination so far and its spread. */
  datatype Best = Best(combo: seq<Duo>, spread: int)

  /** One candidate: it replaces the best so far only when non-overlapping with a STRICTLY smaller spread. */
  function SearchStep(pp: map<Name, int>, cp: map<Duo, int>, before: Option<Best>, c: seq<Duo>): Option<Best>
  {
    if NonOverlapping(c) && (before.None? || Spread(pp, cp, c) < before.value.spread)
    then Some(Best(c, Spread(pp, cp, c)))
    else before
  }

  /** The search over the candidates in order. */
  function Search(pp: map<Name, int>, cp: map<Duo, int>, cands: seq<seq<Duo>>): Option<Best>
  {
    if cands == [] then None
    else SearchStep(pp, cp, Search(pp, cp, cands[..|cands| - 1]), cands[|cands| - 1])
  }

  predicate NoneValid(cands: seq<seq<Duo>>)
  {
    forall i :: 0 <= i < |cands| ==> !NonOverlapping(cands[i])
  }

  /** Candidate `k` is valid, every valid one before it spreads more, every valid one after at least as much. */
  predicate FirstLeast(pp: map<Name, int>, cp: map<Duo, int>, cands: seq<seq<Duo>>, k: int)
  {
    && 0 <= k < |cands| && NonOverlapping(cands[k])
    && (forall i :: 0 <= i < k && NonOverlapping(cands[i]) ==> Spread(pp, cp, cands[i]) > Spread(pp, cp, cands[k]))
    && (forall i :: k < i < |cands| && NonOverlapping(cands[i]) ==> Spread(pp, cp, cands[i]) >= Spread(pp, cp, cands[k]))
  }

  lemma KeepBest(pp: map<Name, int>, cp: map<Duo, int>, cands: seq<seq<Duo>>, k: int, c: seq<Duo>)
    requires FirstLeast(pp, cp, cands, k)
    requires NonOverlapping(c) ==> Spread(pp, cp, c) >= Spread(pp, cp, cands[k])
    ensures FirstLeast(pp, cp, cands + [c], k)
  {
    var ext := cands + [c];
    assert forall i :: 0 <= i < |cands| ==> ext[i] == cands[i];
  }

  lemma NewBest(pp: map<Name, int>, cp: map<Duo, int>, cands: seq<seq<Duo>>, c: seq<Duo>)
    requires NonOverlapping(c)
    requires forall i :: 0 <= i < |cands| && NonOverlapping(cands[i]) ==> Spread(pp, cp, cands[i]) > Spread(pp, cp, c)
    ensures FirstLeast(pp, cp, cands + [c], |cands|)
  {
    var ext := cands + [c];
    assert forall i :: 0 <= i < |cands| ==> ext[i] == cands[i];
  }

  lemma StillNone(cands: seq<seq<Duo>>, c: seq<Duo>)
    requires NoneValid(cands) && !NonOverlapping(c)
    ensures NoneValid(cands + [c])
  {
    var ext := cands + [c];
    assert forall i :: 0 <= i < |cands| ==> ext[i] == cands[i];
  }

  /**
   * `r` is the outcome the search should have over `cands`: nothing exactly
   * when no candidate is non-overlapping, otherwise the FIRST candidate of
   * least spread, with its spread.
   */
  predicate Found(pp: map<Name, int>, cp: map<Duo, int>, cands: seq<seq<Duo>>, r: Option<Best>)
  {
    && (r.None? <==> NoneValid(cands))
    && (r.Some? ==> r.value.spread == Spread(pp, cp, r.value.combo) && exists k :: 0 <= k < |cands| && FirstLeast(pp, cp, cands, k) && cands[k] == r.value.combo)
  }

  lemma StepFromNone(pp: map<Name, int>, cp: map<Duo, int>, cands: seq<seq<Duo>>, c: seq<Duo>)
    requires Found(pp, cp, cands, None)
    ensures Found(pp, cp, cands + [c], SearchStep(pp, cp, None, c))
  {
    if NonOverlapping(c) {
      NewBest(pp, cp, cands, c);
      assert (cands + [c])[|cands|] == c;
    } else {
      StillNone(cands, c);
    }
  }

  lemma StepFromSome(pp: map<Name, int>, cp: map<Duo, int>, cands: seq<seq<Duo>>, b: Best, c: seq<Duo>)
    requires Found(pp, cp, cands, Some(b))
    ensures Found(pp, cp, cands + [c], SearchStep(pp, cp, Some(b), c))
  {
    var k :| 0 <= k < |cands| && FirstLeast(pp, cp, cands, k) && cands[k] == b.combo;
    if NonOverlapping(c) && Spread(pp, cp, c) < b.spread {
      Replaced(pp, cp, cands, k, c);
    } else {
      Kept(pp, cp, cands, k, c);
    }
  }

  lemma Replaced(pp: map<Name, int>, cp: map<Duo, int>, cands: seq<seq<Duo>>, k: int, c: seq<Duo>)
    requires FirstLeast(pp, cp, cands, k)
    requires NonOverlapping(c) && Spread(pp, cp, c) < Spread(pp, cp, cands[k])
    ensures Found(pp, cp, cands + [c], Some(Best(c, Spread(pp, cp, c))))
  {
    var ext := cands + [c];
    NewBest(pp, cp, cands, c);
    assert ext[|cands|] == c;
    assert NonOverlapping(ext[|cands|]);
  }

  lemma Kept(pp: map<Name, int>, cp: map<Duo, int>, cands: seq<seq<Duo>>, k: int, c: seq<Duo>)
    requires FirstLeast(pp, cp, cands, k)
    requires NonOverlapping(c) ==> Spread(pp, cp, c) >= Spread(pp, cp, cands[k])
    ensures Found(pp, cp, cands + [c], Some(Best(cands[k], Spread(pp, cp, cands[k]))))
  {
    var ext := cands + [c];
    KeepBest(pp, cp, cands, k, c);
    assert ext[k] == cands[k];
    assert NonOverlapping(ext[k]);
  }

  /** The search meets its description, by induction over the candidates. */
  lemma {:induction false} SearchSpec(pp: map<Name, int>, cp: map<Duo, int>, cands: seq<seq<Duo>>)
    ensures Found(pp, cp, cands, Search(pp, cp, cands))
  {
    if cands != [] {
      var init, c := cands[..|cands| - 1], cands[|cands| - 1];
      assert cands == init + [c];
      SearchSpec(pp, cp, init);
      var before := Search(pp, cp, init);
      if before.None? {
        StepFromNone(pp, cp, init, c);
      } else {
        StepFromSome(pp, cp, init, before.value, c);
      }
    }
  }

  /** The first registered user in none of the couples, if any. */
  function FirstUnpaired(users: seq<Name>, paired: set<Name>): (r: Option<Name>)
    ensures r.None? <==> forall i :: 0 <= i < |users| ==> users[i] in paired
    ensures r.Some? ==> r.value !in paired
    ensures r.Some? ==> exists i :: 0 <= i < |users| && users[i] == r.value && forall j :: 0 <= j < i ==> users[j] in paired
  {
    if users == [] then None
    else if users[0] !in paired then Some(users[0])
    else
      var rest := FirstUnpaired(users[1..], paired);
      assert forall i :: 1 <= i < |users| ==> users[i] == users[1..][i - 1];
      rest
  }

  /** The proposal: the chosen couples, the user left over, the couples' strengths. */
  datatype Proposal = Proposal(couples: seq<Duo>, leftover: Option<Name>, strengths: Option<seq<int>>)

  /** The loop collecting everyone in the chosen couples. */
  method PairedPlayers(combo: seq<Duo>) returns (paired: set<Name>)
    ensures paired == Players(combo)
  {
    paired := {};
    var i := 0;
    while i < |combo|
      invariant 0 <= i <= |combo|
      invariant paired == Players(combo[..i])
    {
      paired := paired + {combo[i].0, combo[i].1};
      assert combo[..i + 1] == combo[..i] + [combo[i]];
      i := i + 1;
    }
    assert combo[..i] == combo;
  }

  /** One pass of the search loop: the candidate replaces the best only when it is non-overlapping with a smaller spread. */
  method Consider(pp: map<Name, int>, cp: map<Duo, int>, best: Option<Best>, bestStrengths: Option<seq<int>>, combo: seq<Duo>)
    returns (best': Option<Best>, bestStrengths': Option<seq<int>>)
    requires best.Some? ==> best.value.spread == Spread(pp, cp, best.value.combo)
    requires bestStrengths == if best.Some? then Some(Strengths(pp, cp, best.value.combo)) else None
    ensures best' == SearchStep(pp, cp, best, combo)
    ensures best'.Some? ==> best'.value.spread == Spread(pp, cp, best'.value.combo)
    ensures bestStrengths' == if best'.Some? then Some(Strengths(pp, cp, best'.value.combo)) else None
  {
    best', bestStrengths' := best, bestStrengths;
    var ok := IsNonOverlapping(combo);
    if ok {
      var strengths := CollectStrengths(pp, cp, combo);
      var diff := if strengths == [] then 0 else Max(strengths) - Min(strengths);
      if best.None? || diff < best.value.spread {
        best' := Some(Best(combo, diff));
        bestStrengths' := Some(strengths);
      }
    }
  }

  /**
   * `propose_teams` once its inputs are fetched: fewer than two users give
   * no couples; otherwise every `n // 2`-subset of the pairs of users is
   * tried in `itertools` order and the first non-overlapping one of least
   * spread is kept; with an odd number of users the first one left out of
   * it is the leftover.
   */
  method ProposeTeams(users: seq<Name>, playerPoints: map<Name, int>, couplePoints: map<Duo, int>) returns (p: Proposal)
    ensures |users| < 2 ==> p == Proposal([], if |users| == 1 then Some(users[0]) else None, None)
    ensures |users| >= 2 ==>
      var found := Search(playerPoints, couplePoints, Candidates(users));
      && p.couples == (if found.Some? then found.value.combo else [])
      && p.strengths == (if found.Some? then Some(Strengths(playerPoints, couplePoints, found.value.combo)) else None)
      && p.leftover == (if |users| % 2 == 1 && p.couples != [] then FirstUnpaired(users, Players(p.couples)) else None)
  {
    if |users| < 2 {
      return Proposal([], if |users| == 1 then Some(users[0]) else None, None);
    }
    var cands := Combinations(OrderedPairs(users), |users| / 2);
    var best: Option<Best> := None;
    var bestStrengths: Option<seq<int>> := None;
    var i := 0;
    while i < |cands|
      invariant 0 <= i <= |cands|
      invariant best == Search(playerPoints, couplePoints, cands[..i])
      invariant bestStrengths == if best.Some? then Some(Strengths(playerPoints, couplePoints, best.value.combo)) else None
      invariant best.Some? ==> best.value.spread == Spread(playerPoints, couplePoints, best.value.combo)
    {
      assert cands[..i + 1][..i] == cands[..i];
      best, bestStrengths := Consider(playerPoints, couplePoints, best, bestStrengths, cands[i]);
      i := i + 1;
    }
    assert cands[..i] == cands;
    var couples := if best.Some? then best.value.combo else [];
    var leftover: Option<Name> := None;
    if |users| % 2 == 1 && couples != [] {
      var paired := PairedPlayers(couples);
      leftover := FirstUnpaired(users, paired);
    }
    return Proposal(couples, leftover, bestStrengths);
  }

  // ---------------------------------------------------------------------
  // What the proposal guarantees
  // ---------------------------------------------------------------------

  /** The combinations `propose_teams` searches. */
  function Candidates(users: seq<Name>): seq<seq<Duo>>
  {
    Combinations(OrderedPairs(users), |users| / 2)
  }

  /**
   * Whatever is proposed is `n // 2` couples of registered users, taken in
   * registration order, with no player twice, and no non-overlapping
   * candidate has a smaller spread.
   */
  lemma ProposalSound(users: seq<Name>, pp: map<Name, int>, cp: map<Duo, int>)
    requires Search(pp, cp, Candidates(users)).Some?
    ensures var couples := Search(pp, cp, Candidates(users)).value.combo;
      && |couples| == |users| / 2
      && NonOverlapping(couples)
      && (forall c :: c in couples ==> c in OrderedPairs(users))
      && (forall c :: c in Candidates(users) && NonOverlapping(c) ==> Spread(pp, cp, couples) <= Spread(pp, cp, c))
  {
    var cands := Candidates(users);
    SearchSpec(pp, cp, cands);
    CombinationsSound(OrderedPairs(users), |users| / 2);
    var b := Search(pp, cp, cands).value;
    var k :| 0 <= k < |cands| && FirstLeast(pp, cp, cands, k) && cands[k] == b.combo;
    forall c | c in cands && NonOverlapping(c) ensures Spread(pp, cp, b.combo) <= Spread(pp, cp, c) {
      var i :| 0 <= i < |cands| && cands[i] == c;
    }
  }

  /** Where in `ip` the pair `q` sits. */
  ghost function Position(ip: seq<(nat, nat)>, q: (nat, nat)): (k: nat)
    requires q in ip
    ensures k < |ip| && ip[k] == q
  {
    var k :| 0 <= k < |ip| && ip[k] == q; k
  }

  /** The positions of the index pairs `(0, 1), (2, 3), …` among all index pairs. */
  ghost function NeighbourPositions(n: nat): (idx: seq<nat>)
    ensures |idx| == n / 2
    ensures forall j :: 0 <= j < n / 2 ==> idx[j] < |IndexPairs(n)| && IndexPairs(n)[idx[j]] == (2 * j, 2 * j + 1)
  {
    OrderedPairsSpecAt(n);
    seq(n / 2, j requires 0 <= j < n / 2 => Position(IndexPairs(n), (2 * j, 2 * j + 1)))
  }

  lemma OrderedPairsSpecAt(n: nat)
    ensures forall j :: 0 <= j < n / 2 ==> (2 * j, 2 * j + 1) in IndexPairs(n)
  {
    forall j | 0 <= j < n / 2 ensures (2 * j, 2 * j + 1) in IndexPairs(n) {
      IndexPairsFromComplete(n, 0, 2 * j, 2 * j + 1);
    }
  }

  lemma NeighbourPositionsIncreasing(n: nat)
    ensures Increasing(NeighbourPositions(n), |IndexPairs(n)|)
  {
    var idx, ip := NeighbourPositions(n), IndexPairs(n);
    IndexPairsFromOrdered(n, 0);
    forall j, l | 0 <= j < l < |idx| ensures idx[j] < idx[l] {
    }
  }

  /** With no user registered twice, neighbours in registration order form a non-overlapping candidate. */
  lemma NeighbourCouples(users: seq<Name>)
    requires Registration.NoDuplicates(users)
    ensures exists c :: c in Candidates(users) && NonOverlapping(c)
  {
    var n := |users|;
    var idx := NeighbourPositions(n);
    NeighbourPositionsIncreasing(n);
    var ps := OrderedPairs(users);
    CombinationsComplete(ps, idx);
    var c := Pick(ps, idx);
    forall j | 0 <= j < |c| ensures c[j] == (users[2 * j], users[2 * j + 1]) {
      assert c[j] == ps[idx[j]];
    }
    forall j, l | 0 <= j < l < |c| ensures Disjoint(c[j], c[l]) {
    }
    assert c in Candidates(users) && NonOverlapping(c);
  }

  /** With no user registered twice and at least two of them, a proposal is always found. */
  lemma ProposalFound(users: seq<Name>, pp: map<Name, int>, cp: map<Duo, int>)
    requires Registration.NoDuplicates(users)
    ensures Search(pp, cp, Candidates(users)).Some?
  {
    var cands := Candidates(users);
    SearchSpec(pp, cp, cands);
    NeighbourCouples(users);
    var c :| c in cands && NonOverlapping(c);
    var i :| 0 <= i < |cands| && cands[i] == c;
  }

  lemma PlayersSnoc(init: seq<Duo>, c: Duo)
    ensures Players(init + [c]) == Players(init) + {c.0, c.1}
  {
    var combo := init + [c];
    forall x | x in Players(combo) ensures x in Players(init) + {c.0, c.1} {
      var i :| 0 <= i < |combo| && (combo[i].0 == x || combo[i].1 == x);
      if i < |init| { assert combo[i] == init[i]; }
    }
    forall x | x in Players(init) ensures x in Players(combo) {
      var i :| 0 <= i < |init| && (init[i].0 == x || init[i].1 == x);
      assert combo[i] == init[i];
    }
    assert combo[|init|] == c;
  }

  lemma {:induction false} PlayersCard(combo: seq<Duo>)
    ensures |Players(combo)| <= 2 * |combo|
  {
    if combo != [] {
      var init, c := combo[..|combo| - 1], combo[|combo| - 1];
      assert combo == init + [c];
      PlayersCard(init);
      PlayersSnoc(init, c);
    }
  }

  /** Everyone registered. */
  function UserSet(users: seq<Name>): set<Name>
  {
    set u | u in users
  }

  lemma {:induction false} UserSetCard(users: seq<Name>)
    requires Registration.NoDuplicates(users)
    ensures |UserSet(users)| == |users|
  {
    if users != [] {
      var init, u := users[..|users| - 1], users[|users| - 1];
      assert users == init + [u];
      UserSetCard(init);
      assert u !in UserSet(init);
      assert UserSet(users) == UserSet(init) + {u};
    }
  }

  lemma SubsetCard(a: set<Name>, b: set<Name>)
    requires a <= b
    ensures |a| <= |b|
  {
    assert b == a + (b - a);
  }

  /**
   * With an odd number of users, none registered twice, the proposal leaves
   * exactly room for one: a leftover is always named, a registered user in
   * none of the couples, and every user before it is in a couple.
   */
  lemma ProposalLeftover(users: seq<Name>, pp: map<Name, int>, cp: map<Duo, int>)
    requires Registration.NoDuplicates(users) && |users| % 2 == 1
    ensures Search(pp, cp, Candidates(users)).Some?
    ensures var couples := Search(pp, cp, Candidates(users)).value.combo;
      var r := FirstUnpaired(users, Players(couples));
      && r.Some? && r.value in users && r.value !in Players(couples)
  {
    ProposalFound(users, pp, cp);
    ProposalSound(users, pp, cp);
    var couples := Search(pp, cp, Candidates(users)).value.combo;
    PlayersCard(couples);
    UserSetCard(users);
    if FirstUnpaired(users, Players(couples)).None? {
      assert UserSet(users) <= Players(couples);
      SubsetCard(UserSet(users), Players(couples));
    }
  }
}
