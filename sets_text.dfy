/**
 * How web_api.py reports the sets of a stored match: entries that are not a
 * two-number list become `[0, 0]`, `score1`/`score2` count the sets each side
 * won outright, and `sets_string` prints them as "6-4, 3-6, 7-5".
 */
module SetsText {
  import opened Common

  /** A stored set entry: a two-number list, or anything else. */
  datatype Entry = Pair(a: int, b: int) | Malformed

  type GameScore = (int, int)

  /** `[s if isinstance(s, list) and len(s) == 2 else [0, 0] for s in sets]`. */
  function Normalize(entries: seq<Entry>): (r: seq<GameScore>)
    ensures |r| == |entries|
  {
    seq(|entries|, i requires 0 <= i < |entries| => if entries[i].Pair? then (entries[i].a, entries[i].b) else (0, 0))
  }

  /** `sum(1 for s in sets if s[0] > s[1])`. */
  function Score1(sets: seq<GameScore>): nat
  {
    if sets == [] then 0 else (if sets[0].0 > sets[0].1 then 1 else 0) + Score1(sets[1..])
  }

  /** `sum(1 for s in sets if s[1] > s[0])`. */
  function Score2(sets: seq<GameScore>): nat
  {
    if sets == [] then 0 else (if sets[0].1 > sets[0].0 then 1 else 0) + Score2(sets[1..])
  }

  /** Sets neither side won. */
  function Ties(sets: seq<GameScore>): nat
  {
    if sets == [] then 0 else (if sets[0].0 == sets[0].1 then 1 else 0) + Ties(sets[1..])
  }

  function Mirror(sets: seq<GameScore>): (r: seq<GameScore>)
    ensures |r| == |sets|
    ensures forall i :: 0 <= i < |sets| ==> r[i] == (sets[i].1, sets[i].0)
  {
    seq(|sets|, i requires 0 <= i < |sets| => (sets[i].1, sets[i].0))
  }

  /** Every set is won by one side or tied: the two scores and the ties add up to the number of sets. */
  lemma {:induction false} ScoresPartition(sets: seq<GameScore>)
    ensures Score1(sets) + Score2(sets) + Ties(sets) == |sets|
  {
    if sets != [] {
      ScoresPartition(sets[1..]);
    }
  }

  /** Reading the sets from the other side swaps the two scores. */
  lemma {:induction false} MirrorSwapsScores(sets: seq<GameScore>)
    ensures Score1(Mirror(sets)) == Score2(sets) && Score2(Mirror(sets)) == Score1(sets)
  {
    if sets != [] {
      MirrorSwapsScores(sets[1..]);
      assert Mirror(sets)[1..] == Mirror(sets[1..]);
    }
  }

  lemma {:induction false} ScoresAppend(s: seq<GameScore>, t: seq<GameScore>)
    ensures Score1(s + t) == Score1(s) + Score1(t) && Score2(s + t) == Score2(s) + Score2(t)
  {
    if s != [] {
      ScoresAppend(s[1..], t);
      assert (s + t)[1..] == s[1..] + t && (s + t)[0] == s[0];
      assert Score1(s + t) == (if s[0].0 > s[0].1 then 1 else 0) + Score1(s[1..] + t);
      assert Score2(s + t) == (if s[0].1 > s[0].0 then 1 else 0) + Score2(s[1..] + t);
    } else {
      assert s + t == t;
    }
  }

  /** A malformed entry counts for neither side: dropping it changes no score. */
  lemma MalformedCountsForNeither(entries: seq<Entry>, i: int)
    requires 0 <= i < |entries| && entries[i].Malformed?
    ensures var rest := entries[..i] + entries[i + 1..];
      Score1(Normalize(entries)) == Score1(Normalize(rest)) && Score2(Normalize(entries)) == Score2(Normalize(rest))
  {
    var rest := entries[..i] + entries[i + 1..];
    var n, m := Normalize(entries), Normalize(rest);
    assert n == n[..i] + [(0, 0)] + n[i + 1..];
    assert m == n[..i] + n[i + 1..];
    ScoresAppend(n[..i] + [(0, 0)], n[i + 1..]);
    ScoresAppend(n[..i], [(0, 0)]);
    ScoresAppend(n[..i], n[i + 1..]);
    assert [(0, 0)][1..] == [];
  }

  // ---------------------------------------------------------------------
  // sets_string
  // ---------------------------------------------------------------------

  predicate IsDigit(c: char)
  {
    '0' <= c <= '9'
  }

  function DigitChar(d: nat): (c: char)
    requires d < 10
    ensures IsDigit(c)
  {
    ('0' as int + d) as char
  }

  /** Python's `str(n)` for a natural number: its decimal digits, no leading zero. */
  function NatText(n: nat): (s: string)
    ensures s != [] && forall i :: 0 <= i < |s| ==> IsDigit(s[i])
  {
    if n < 10 then [DigitChar(n)] else NatText(n / 10) + [DigitChar(n % 10)]
  }

  /** `str(i)` for any integer: a minus sign before a negative number's digits. */
  function IntText(i: int): string
  {
    if i < 0 then "-" + NatText(-i) else NatText(i)
  }

  /** `f"{s[0]}-{s[1]}"`. */
  function SetText(s: GameScore): string
  {
    IntText(s.0) + "-" + IntText(s.1)
  }

  /** `', '.join(...)`; no sets give the empty string. */
  function SetsString(sets: seq<GameScore>): string
  {
    if sets == [] then ""
    else if |sets| == 1 then SetText(sets[0])
    else SetText(sets[0]) + ", " + SetsString(sets[1..])
  }

  // A reader for the sets string, the inverse it is proved against.

  /** How many digits `s` starts with. */
  function LeadingDigits(s: string): (k: nat)
    ensures k <= |s|
    ensures forall i :: 0 <= i < k ==> IsDigit(s[i])
    ensures k < |s| ==> !IsDigit(s[k])
  {
    if s == [] || !IsDigit(s[0]) then 0
    else
      var k := LeadingDigits(s[1..]);
      assert forall i :: 1 <= i < |s| ==> s[i] == s[1..][i - 1];
      1 + k
  }

  /** The number a string of decimal digits denotes. */
  function ValueOf(ds: string): nat
  {
    if ds == [] then 0 else ValueOf(ds[..|ds| - 1]) * 10 + ((ds[|ds| - 1] as int - '0' as int) % 10)
  }

  /**
   * Reads one integer off the front of `s`: an optional minus sign and a run
   * of digits. The result is its value and how many characters it took.
   */
  function ReadInt(s: string): (r: Option<(int, nat)>)
    ensures r.Some? ==> 0 < r.value.1 <= |s|
  {
    if s != [] && s[0] == '-' then
      var k := LeadingDigits(s[1..]);
      if k == 0 then None else Some((-(ValueOf(s[1..][..k]) as int), k + 1))
    else
      var k := LeadingDigits(s);
      if k == 0 then None else Some((ValueOf(s[..k]) as int, k))
  }

  /** Reads "a-b" entries separated by ", " back into sets; anything else is rejected. */
  function ParseSets(s: string): Option<seq<GameScore>>
    decreases |s|
  {
    if s == [] then Some([])
    else
      match ReadInt(s)
      case None => None
      case Some((a, k)) =>
        if k == |s| || s[k] != '-' then None
        else
          var rest := s[k + 1..];
          match ReadInt(rest)
          case None => None
          case Some((b, l)) =>
            var tail := rest[l..];
            if tail == [] then Some([(a, b)])
            else if |tail| > 2 && tail[0] == ',' && tail[1] == ' ' then
              match ParseSets(tail[2..])
              case None => None
              case Some(more) => Some([(a, b)] + more)
            else None
  }

  lemma {:induction false} ValueOfNatText(n: nat)
    ensures ValueOf(NatText(n)) == n
  {
    if n >= 10 {
      ValueOfNatText(n / 10);
      var s := NatText(n);
      assert s[..|s| - 1] == NatText(n / 10);
    }
  }

  /** The digit run is the longest one: any `k` digits followed by a non-digit or the end is it. */
  lemma {:induction false} LeadingDigitsUnique(s: string, k: nat)
    requires k <= |s| && (forall i :: 0 <= i < k ==> IsDigit(s[i])) && (k < |s| ==> !IsDigit(s[k]))
    ensures LeadingDigits(s) == k
  {
    if k > 0 {
      assert forall i :: 0 <= i < k - 1 ==> s[1..][i] == s[i + 1];
      LeadingDigitsUnique(s[1..], k - 1);
    }
  }

  /** The digits of `n` followed by text not starting with a digit: exactly `n`'s digits are read. */
  lemma ReadNat(n: nat, t: string)
    requires t == [] || !IsDigit(t[0])
    ensures LeadingDigits(NatText(n) + t) == |NatText(n)|
    ensures (NatText(n) + t)[..|NatText(n)|] == NatText(n)
    ensures (NatText(n) + t)[|NatText(n)|..] == t
  {
    var s := NatText(n) + t;
    assert forall i :: 0 <= i < |NatText(n)| ==> s[i] == NatText(n)[i];
    assert |NatText(n)| < |s| ==> s[|NatText(n)|] == t[0];
    LeadingDigitsUnique(s, |NatText(n)|);
  }

  /** A natural number's digits followed by text not starting with a digit read back as that number. */
  lemma ReadNatAsInt(n: nat, t: string)
    requires t == [] || !IsDigit(t[0])
    ensures ReadInt(NatText(n) + t) == Some((n as int, |NatText(n)|))
  {
    var s := NatText(n) + t;
    assert s[0] == NatText(n)[0];
    ReadNat(n, t);
    ValueOfNatText(n);
  }

  /** A minus sign and a number's digits, followed by text not starting with a digit, read back as its negation. */
  lemma ReadNegated(n: nat, t: string)
    requires t == [] || !IsDigit(t[0])
    ensures ReadInt("-" + (NatText(n) + t)) == Some((-(n as int), |NatText(n)| + 1))
  {
    var s := "-" + (NatText(n) + t);
    assert s[1..] == NatText(n) + t;
    ReadNat(n, t);
    ValueOfNatText(n);
  }

  /** `str(i)` followed by text not starting with a digit: exactly `i` is read, and the text is left. */
  lemma ReadIntText(i: int, t: string)
    requires t == [] || !IsDigit(t[0])
    ensures ReadInt(IntText(i) + t) == Some((i, |IntText(i)|))
    ensures (IntText(i) + t)[|IntText(i)|..] == t
  {
    if i < 0 {
      assert IntText(i) + t == "-" + (NatText(-i) + t);
      ReadNegated(-i, t);
    } else {
      ReadNatAsInt(i, t);
    }
  }

  /** The text after one set: nothing for the last, else ", " and the rest. */
  function After(sets: seq<GameScore>): string
    requires sets != []
  {
    if |sets| == 1 then "" else ", " + SetsString(sets[1..])
  }

  /** Reading one "a-b" and what follows it. */
  lemma ReadOne(a: int, b: int, after: string, s: string)
    requires after == [] || after[0] == ','
    requires s == IntText(a) + "-" + IntText(b) + after
    ensures ReadInt(s) == Some((a, |IntText(a)|))
    ensures |IntText(a)| < |s| && s[|IntText(a)|] == '-'
    ensures ReadInt(s[|IntText(a)| + 1..]) == Some((b, |IntText(b)|))
    ensures s[|IntText(a)| + 1..][|IntText(b)|..] == after
  {
    var x, y := IntText(a), IntText(b);
    DashSplit(x, y, after, s);
    ReadIntText(a, "-" + (y + after));
    ReadIntText(b, after);
  }

  /** `x + "-" + y + z`: the dash sits right after `x`, and `y + z` follows it. */
  lemma DashSplit(x: string, y: string, z: string, s: string)
    requires s == x + "-" + y + z
    ensures s == x + ("-" + (y + z))
    ensures |x| < |s| && s[|x|] == '-' && s[|x| + 1..] == y + z
  {
    assert s == x + ("-" + (y + z));
    assert s[|x| + 1..] == y + z;
  }

  lemma SetsStringNonEmpty(sets: seq<GameScore>)
    requires sets != []
    ensures SetsString(sets) != []
  {
    if |sets| > 1 {
      assert SetsString(sets) == SetText(sets[0]) + ", " + SetsString(sets[1..]);
    } else {
      assert SetText(sets[0]) == IntText(sets[0].0) + "-" + IntText(sets[0].1);
      assert IntText(sets[0].0) != [];
    }
  }

  /** What follows the first set: a separator and the text of the rest. */
  lemma AfterRest(sets: seq<GameScore>)
    requires |sets| > 1
    ensures |After(sets)| > 2 && After(sets)[0] == ',' && After(sets)[1] == ' '
    ensures After(sets)[2..] == SetsString(sets[1..])
  {
    SetsStringNonEmpty(sets[1..]);
  }

  /** The sets string: the first set's two numbers around a dash, then the rest. */
  lemma SetsStringHead(sets: seq<GameScore>)
    requires sets != []
    ensures SetsString(sets) == IntText(sets[0].0) + "-" + IntText(sets[0].1) + After(sets)
  {
  }

  /** Parsing a text that starts with one set: the set, then whatever the rest parses to. */
  lemma ParseStep(a: int, b: int, after: string)
    requires after == [] || (|after| > 2 && after[0] == ',' && after[1] == ' ')
    ensures after == [] ==> ParseSets(IntText(a) + "-" + IntText(b) + after) == Some([(a, b)])
    ensures after != [] && ParseSets(after[2..]).None? ==> ParseSets(IntText(a) + "-" + IntText(b) + after).None?
    ensures after != [] && ParseSets(after[2..]).Some? ==> ParseSets(IntText(a) + "-" + IntText(b) + after) == Some([(a, b)] + ParseSets(after[2..]).value)
  {
    var s := IntText(a) + "-" + IntText(b) + after;
    ReadOne(a, b, after, s);
  }

  /** Parsing the sets string of more than one set: the first set, then what the rest parses to. */
  lemma ParseHead(sets: seq<GameScore>)
    requires |sets| > 1
    ensures ParseSets(SetsString(sets[1..])).None? ==> ParseSets(SetsString(sets)).None?
    ensures ParseSets(SetsString(sets[1..])).Some? ==> ParseSets(SetsString(sets)) == Some([sets[0]] + ParseSets(SetsString(sets[1..])).value)
  {
    SetsStringHead(sets);
    AfterRest(sets);
    ParseStep(sets[0].0, sets[0].1, After(sets));
  }

  /** The first set in front of a rest that parses back: the whole parses back. */
  lemma ParseCons(sets: seq<GameScore>)
    requires |sets| > 1
    requires ParseSets(SetsString(sets[1..])) == Some(sets[1..])
    ensures ParseSets(SetsString(sets)) == Some(sets)
  {
    ParseHead(sets);
    assert [sets[0]] + sets[1..] == sets;
  }

  /** Parsing the sets string of one set gives that set. */
  lemma ParseSingle(sets: seq<GameScore>)
    requires |sets| == 1
    ensures ParseSets(SetsString(sets)) == Some(sets)
  {
    SetsStringHead(sets);
    ParseStep(sets[0].0, sets[0].1, After(sets));
    assert sets == [(sets[0].0, sets[0].1)];
  }

  /** Reading the sets string gives back the sets, negative game counts included. */
  lemma {:induction false} ParseSetsString(sets: seq<GameScore>)
    ensures ParseSets(SetsString(sets)) == Some(sets)
  {
    if sets == [] {
      assert SetsString(sets) == "";
    } else if |sets| == 1 {
      ParseSingle(sets);
    } else {
      ParseSetsString(sets[1..]);
      ParseCons(sets);
    }
  }

  /** A set stored as 6 to -1 prints as "6--1", and that text reads back as the same set. */
  lemma NegativeSetReadsBack()
    ensures SetsString([(6, -1)]) == "6--1"
    ensures ParseSets("6--1") == Some([(6, -1)])
  {
    ParseSetsString([(6, -1)]);
    assert IntText(6) == "6" && IntText(-1) == "-1";
  }

  // ---------------------------------------------------------------------
  // One reported game
  // ---------------------------------------------------------------------

  /** What `last_games` reports about a stored match's sets. */
  datatype Report = Report(score1: Option<nat>, score2: Option<nat>, sets: seq<GameScore>, setsString: string)

  /** No sets give no scores and an empty string. */
  function ReportSets(entries: seq<Entry>): Report
  {
    var sets := Normalize(entries);
    if sets == [] then Report(None, None, [], "")
    else Report(Some(Score1(sets)), Some(Score2(sets)), sets, SetsString(sets))
  }

  /**
   * The report is consistent: the scores are present exactly when there are
   * sets, they never exceed the number of sets together, and the string
   * reads back as the reported sets.
   */
  lemma ReportConsistent(entries: seq<Entry>)
    ensures var r := ReportSets(entries);
      && (r.score1.Some? <==> entries != []) && (r.score2.Some? <==> entries != [])
      && (r.score1.Some? ==> r.score1.value + r.score2.value <= |entries|)
      && ParseSets(r.setsString) == Some(r.sets)
      && |r.sets| == |entries|
  {
    var sets := Normalize(entries);
    ScoresPartition(sets);
    ParseSetsString(sets);
  }
}
