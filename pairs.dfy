/**
 * The pairs `(s[i], s[j])` with `i < j`, in lexicographic index order: what the
 * doubly nested `for (i ...) for (j = i + 1 ...)` loops of the UI and Python's
 * `itertools.combinations(s, 2)` all enumerate.
 */
module Pairs {

  /** Index pairs `(i, j)` for one fixed `i`, `j` running from `i + 1` to `n - 1`. */
  function Row(n: nat, i: nat): (r: seq<(nat, nat)>)
    requires i < n
    ensures |r| == n - i - 1
    ensures forall k :: 0 <= k < |r| ==> r[k] == (i, i + 1 + k)
  {
    seq(n - i - 1, k requires 0 <= k < n - i - 1 => (i, i + 1 + k))
  }

  /** All index pairs whose first index is at least `i`. */
  function IndexPairsFrom(n: nat, i: nat): (r: seq<(nat, nat)>)
    decreases n - i
    ensures forall k :: 0 <= k < |r| ==> i <= r[k].0 < r[k].1 < n
  {
    if i >= n then [] else Row(n, i) + IndexPairsFrom(n, i + 1)
  }

  function IndexPairs(n: nat): (r: seq<(nat, nat)>)
    ensures forall k :: 0 <= k < |r| ==> r[k].0 < r[k].1 < n
  {
    IndexPairsFrom(n, 0)
  }

  /** The element pairs at the index pairs. */
  function OrderedPairs<T>(s: seq<T>): (r: seq<(T, T)>)
    ensures |r| == |IndexPairs(|s|)|
    ensures forall k :: 0 <= k < |r| ==> r[k] == (s[IndexPairs(|s|)[k].0], s[IndexPairs(|s|)[k].1])
  {
    var ip := IndexPairs(|s|);
    seq(|ip|, k requires 0 <= k < |ip| => (s[ip[k].0], s[ip[k].1]))
  }

  /** There are `m(m-1)/2` index pairs with first index at least `n - m`. */
  lemma {:induction false} IndexPairsFromCount(n: nat, i: nat)
    requires i <= n
    ensures |IndexPairsFrom(n, i)| * 2 == (n - i) * (n - i - 1)
    decreases n - i
  {
    if i < n {
      IndexPairsFromCount(n, i + 1);
      var m := n - i;
      calc {
        |IndexPairsFrom(n, i)| * 2;
        (m - 1) * 2 + |IndexPairsFrom(n, i + 1)| * 2;
        (m - 1) * 2 + (m - 1) * (m - 2);
        { assert (m - 1) * (m - 2) == (m - 1) * m - (m - 1) * 2; }
        m * (m - 1);
      }
    }
  }

  /** `n(n-1)/2` pairs in all. */
  lemma PairCount<T>(s: seq<T>)
    ensures |OrderedPairs(s)| * 2 == |s| * (|s| - 1)
  {
    IndexPairsFromCount(|s|, 0);
  }

  /** Every `i < j` (with `i` at least the start) occurs. */
  lemma {:induction false} IndexPairsFromComplete(n: nat, start: nat, i: nat, j: nat)
    requires start <= i < j < n
    ensures (i, j) in IndexPairsFrom(n, start)
    decreases n - start
  {
    if start == i {
      assert Row(n, i)[j - i - 1] == (i, j);
    } else {
      IndexPairsFromComplete(n, start + 1, i, j);
    }
  }

  /** Lexicographic order on index pairs. */
  predicate PairBefore(p: (nat, nat), q: (nat, nat))
  {
    p.0 < q.0 || (p.0 == q.0 && p.1 < q.1)
  }

  /** The index pairs come in strictly increasing lexicographic order. */
  lemma {:induction false} IndexPairsFromOrdered(n: nat, i: nat)
    ensures forall a, b :: 0 <= a < b < |IndexPairsFrom(n, i)| ==>
      PairBefore(IndexPairsFrom(n, i)[a], IndexPairsFrom(n, i)[b])
    decreases n - i
  {
    if i < n {
      IndexPairsFromOrdered(n, i + 1);
      var row, rest := Row(n, i), IndexPairsFrom(n, i + 1);
      forall a, b | 0 <= a < b < |row + rest| ensures PairBefore((row + rest)[a], (row + rest)[b]) {
        if b >= |row| && a < |row| {
          assert (row + rest)[b] == rest[b - |row|];
        } else if a >= |row| {
          assert (row + rest)[a] == rest[a - |row|] && (row + rest)[b] == rest[b - |row|];
        }
      }
    }
  }

  /**
   * The enumeration, characterised: it holds exactly the pairs `(s[i], s[j])` with `i < j`,
   * one per index pair, in lexicographic index order, `n(n-1)/2` of them.
   */
  lemma OrderedPairsSpec<T>(s: seq<T>)
    ensures |OrderedPairs(s)| * 2 == |s| * (|s| - 1)
    ensures forall i, j :: 0 <= i < j < |s| ==> (i, j) in IndexPairs(|s|)
    ensures forall a, b :: 0 <= a < b < |IndexPairs(|s|)| ==> PairBefore(IndexPairs(|s|)[a], IndexPairs(|s|)[b])
  {
    PairCount(s);
    forall i, j | 0 <= i < j < |s| ensures (i, j) in IndexPairs(|s|) {
      IndexPairsFromComplete(|s|, 0, i, j);
    }
    IndexPairsFromOrdered(|s|, 0);
  }

  // ---------------------------------------------------------------------
  // What the nested loops have produced part-way
  // ---------------------------------------------------------------------

  /** The rows of first indices `0 .. i - 1`: the index pairs the outer loop has finished. */
  function RowsBefore(n: nat, i: nat): (r: seq<(nat, nat)>)
    requires i <= n
    ensures forall k :: 0 <= k < |r| ==> r[k].0 < r[k].1 < n
  {
    if i == 0 then [] else RowsBefore(n, i - 1) + Row(n, i - 1)
  }

  /** The finished rows followed by the rest are all the index pairs. */
  lemma {:induction false} RowsSplit(n: nat, i: nat)
    requires i <= n
    ensures RowsBefore(n, i) + IndexPairsFrom(n, i) == IndexPairs(n)
  {
    if i > 0 {
      RowsSplit(n, i - 1);
      assert IndexPairsFrom(n, i - 1) == Row(n, i - 1) + IndexPairsFrom(n, i);
      assert RowsBefore(n, i - 1) + (Row(n, i - 1) + IndexPairsFrom(n, i)) == (RowsBefore(n, i - 1) + Row(n, i - 1)) + IndexPairsFrom(n, i);
    }
  }

  /** The element pairs at the given index pairs. */
  function PairsAt<T>(s: seq<T>, ips: seq<(nat, nat)>): (r: seq<(T, T)>)
    requires forall k :: 0 <= k < |ips| ==> ips[k].0 < |s| && ips[k].1 < |s|
    ensures |r| == |ips|
    ensures forall k :: 0 <= k < |ips| ==> r[k] == (s[ips[k].0], s[ips[k].1])
  {
    seq(|ips|, k requires 0 <= k < |ips| => (s[ips[k].0], s[ips[k].1]))
  }

  /** One more index pair processed: one more element pair pushed. */
  lemma PairsAtSnoc<T>(s: seq<T>, ips: seq<(nat, nat)>, i: nat, j: nat)
    requires forall k :: 0 <= k < |ips| ==> ips[k].0 < |s| && ips[k].1 < |s|
    requires i < |s| && j < |s|
    ensures PairsAt(s, ips + [(i, j)]) == PairsAt(s, ips) + [(s[i], s[j])]
  {
  }

  /** The inner loop's next step extends the current row by one index pair. */
  lemma RowStep(n: nat, i: nat, j: nat)
    requires i < n && i + 1 <= j < n
    ensures Row(n, i)[..j - i] == Row(n, i)[..j - i - 1] + [(i, j)]
  {
  }

  /** When the inner loop ends the row is complete. */
  lemma RowDone(n: nat, i: nat)
    requires i < n
    ensures RowsBefore(n, i) + Row(n, i)[..n - i - 1] == RowsBefore(n, i + 1)
  {
    assert Row(n, i)[..n - i - 1] == Row(n, i);
  }

  /** When the outer loop ends every index pair has been produced. */
  lemma AllRowsDone(n: nat)
    ensures RowsBefore(n, n) == IndexPairs(n)
  {
    RowsSplit(n, n);
    assert RowsBefore(n, n) + [] == RowsBefore(n, n);
  }

  /** The element pairs at all the index pairs are the ordered pairs. */
  lemma OrderedPairsAt<T>(s: seq<T>)
    ensures PairsAt(s, IndexPairs(|s|)) == OrderedPairs(s)
  {
  }
}
