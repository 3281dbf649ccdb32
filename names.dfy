/** Option values and the string order Python's `sorted` uses on player names. */
module Common {

  datatype Option<+T> = None | Some(value: T)

  /** Number of occurrences of `x` in `s`. */
  function Count<T(==)>(s: seq<T>, x: T): (r: nat)
    ensures r <= |s|
    ensures r == 0 <==> x !in s
  {
    if s == [] then 0 else Count(s[..|s| - 1], x) + (if s[|s| - 1] == x then 1 else 0)
  }

  lemma {:induction false} CountMultiset<T>(s: seq<T>, x: T)
    ensures Count(s, x) == multiset(s)[x]
  {
    if s != [] {
      CountMultiset(s[..|s| - 1], x);
      assert s == s[..|s| - 1] + [s[|s| - 1]];
    }
  }
}

/** Player names and their order: Python compares strings code point by code point, a proper prefix first. */
module Names {

  type Name = string

  predicate Less(a: Name, b: Name)
  {
    if |a| == 0 then |b| > 0
    else if |b| == 0 then false
    else if a[0] != b[0] then a[0] < b[0]
    else Less(a[1..], b[1..])
  }

  predicate LessEq(a: Name, b: Name)
  {
    a == b || Less(a, b)
  }

  lemma {:induction false} LessIrreflexive(a: Name)
    ensures !Less(a, a)
  {
    if |a| > 0 { LessIrreflexive(a[1..]); }
  }

  /** Exactly one of `a < b`, `a == b`, `b < a` holds. */
  lemma {:induction false} Trichotomy(a: Name, b: Name)
    ensures Less(a, b) || a == b || Less(b, a)
    ensures !(Less(a, b) && Less(b, a))
    ensures Less(a, b) ==> a != b
  {
    if |a| > 0 && |b| > 0 && a[0] == b[0] {
      Trichotomy(a[1..], b[1..]);
      if a[1..] == b[1..] {
        assert a == [a[0]] + a[1..] && b == [b[0]] + b[1..];
      }
    }
    if Less(a, b) && a == b { LessIrreflexive(a); }
  }

  lemma {:induction false} LessTransitive(a: Name, b: Name, c: Name)
    requires Less(a, b) && Less(b, c)
    ensures Less(a, c)
  {
    if |a| > 0 && |b| > 0 && |c| > 0 && a[0] == b[0] && b[0] == c[0] {
      LessTransitive(a[1..], b[1..], c[1..]);
    }
  }

  lemma LessEqTransitive(a: Name, b: Name, c: Name)
    requires LessEq(a, b) && LessEq(b, c)
    ensures LessEq(a, c)
  {
    if Less(a, b) && Less(b, c) { LessTransitive(a, b, c); }
  }

  predicate Sorted(s: seq<Name>)
  {
    forall i, j :: 0 <= i < j < |s| ==> LessEq(s[i], s[j])
  }

  /** Inserts `x` before the first element it is not greater than. */
  function Insert(x: Name, s: seq<Name>): (r: seq<Name>)
    ensures multiset(r) == multiset(s) + multiset{x}
    ensures |r| == |s| + 1
  {
    if s == [] then [x]
    else if LessEq(x, s[0]) then [x] + s
    else
      assert s == [s[0]] + s[1..];
      [s[0]] + Insert(x, s[1..])
  }

  /** Every element of `s` is at least `y`. */
  predicate AtLeast(y: Name, s: seq<Name>)
  {
    forall i :: 0 <= i < |s| ==> LessEq(y, s[i])
  }

  lemma {:induction false} InsertAtLeast(y: Name, x: Name, s: seq<Name>)
    requires LessEq(y, x) && AtLeast(y, s)
    ensures AtLeast(y, Insert(x, s))
  {
    if s != [] && !LessEq(x, s[0]) {
      InsertAtLeast(y, x, s[1..]);
    }
  }

  lemma {:induction false} InsertSorted(x: Name, s: seq<Name>)
    requires Sorted(s)
    ensures Sorted(Insert(x, s))
  {
    if s == [] {
    } else if LessEq(x, s[0]) {
      forall j | 0 <= j < |s| ensures LessEq(x, s[j]) {
        if j > 0 { LessEqTransitive(x, s[0], s[j]); }
      }
    } else {
      Trichotomy(x, s[0]);
      InsertSorted(x, s[1..]);
      InsertAtLeast(s[0], x, s[1..]);
      var t := Insert(x, s[1..]);
      assert Insert(x, s) == [s[0]] + t;
    }
  }

  /** Python's `sorted` on a list of names (insertion sort; the order is all that matters). */
  function Sort(s: seq<Name>): (r: seq<Name>)
    ensures multiset(r) == multiset(s)
    ensures Sorted(r)
    ensures |r| == |s|
  {
    if s == [] then [] else
      assert s == [s[0]] + s[1..];
      InsertSorted(s[0], Sort(s[1..]));
      Insert(s[0], Sort(s[1..]))
  }

  /** The least element of a sorted list comes first. */
  lemma HeadIsLeast(a: seq<Name>, x: Name)
    requires Sorted(a) && x in a
    ensures LessEq(a[0], x)
  {
    var i :| 0 <= i < |a| && a[i] == x;
    if i > 0 { assert LessEq(a[0], a[i]); }
  }

  lemma SortedTail(a: seq<Name>)
    requires Sorted(a) && a != []
    ensures Sorted(a[1..])
  {
    forall i, j | 0 <= i < j < |a[1..]| ensures LessEq(a[1..][i], a[1..][j]) {
      assert a[1..][i] == a[i + 1] && a[1..][j] == a[j + 1];
    }
  }

  /** Two sorted lists with the same elements are the same list. */
  lemma {:induction false} SortedUnique(a: seq<Name>, b: seq<Name>)
    requires Sorted(a) && Sorted(b) && multiset(a) == multiset(b)
    ensures a == b
    decreases |a|
  {
    if a == [] {
      assert |multiset(b)| == 0;
    } else {
      assert |b| == |multiset(b)| == |multiset(a)| == |a|;
      assert a[0] in multiset(b) && b[0] in multiset(a);
      HeadIsLeast(a, b[0]);
      HeadIsLeast(b, a[0]);
      Trichotomy(a[0], b[0]);
      assert a == [a[0]] + a[1..] && b == [b[0]] + b[1..];
      assert multiset(a[1..]) == multiset(a) - multiset{a[0]};
      assert multiset(b[1..]) == multiset(b) - multiset{b[0]};
      SortedTail(a);
      SortedTail(b);
      SortedUnique(a[1..], b[1..]);
    }
  }

  /** `sorted(a) == sorted(b)` exactly when the two lists hold the same names as often. */
  lemma SortEqualIff(a: seq<Name>, b: seq<Name>)
    ensures Sort(a) == Sort(b) <==> multiset(a) == multiset(b)
  {
    if multiset(a) == multiset(b) { SortedUnique(Sort(a), Sort(b)); }
  }

  /** The couple key `tuple(sorted([a, b]))`: the two names, least first. */
  function CoupleKey(a: Name, b: Name): (k: (Name, Name))
    ensures k == (a, b) || k == (b, a)
    ensures LessEq(k.0, k.1)
  {
    Trichotomy(a, b);
    if LessEq(a, b) then (a, b) else (b, a)
  }

  lemma SortPair(a: Name, b: Name)
    ensures Sort([a, b]) == if LessEq(a, b) then [a, b] else [b, a]
  {
    assert [a, b][1..] == [b];
    assert Sort([b]) == Insert(b, []) == [b] by { assert [b][1..] == []; }
    assert Sort([a, b]) == Insert(a, [b]);
  }

  /** The key is what sorting the two-element roster gives. */
  lemma CoupleKeyIsSorted(a: Name, b: Name)
    ensures [CoupleKey(a, b).0, CoupleKey(a, b).1] == Sort([a, b])
  {
    SortPair(a, b);
  }

  /** Swapping the two players gives the same couple key. */
  lemma CoupleKeySymmetric(a: Name, b: Name)
    ensures CoupleKey(a, b) == CoupleKey(b, a)
  {
    Trichotomy(a, b);
  }
}
