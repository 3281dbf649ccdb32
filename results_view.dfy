/**
 * The paged results list (Results.jsx): the page arithmetic shown under the
 * list, and the highlighting of the team box that holds the chosen player.
 */
module ResultsView {
  import opened Common
  import opened JsText

  /** Results per page. */
  const Limit: nat := 10

  /** `Math.ceil(total / limit)` for a non-negative total. */
  function CeilDiv(total: nat, limit: nat): nat
    requires limit > 0
  {
    (total + limit - 1) / limit
  }

  /** `Math.max(1, Math.ceil(total / limit))`. */
  function TotalPages(total: nat): nat
  {
    var c := CeilDiv(total, Limit);
    if c < 1 then 1 else c
  }

  /** There is always a page, and the pages hold every result with none to spare. */
  lemma TotalPagesSpec(total: nat)
    ensures TotalPages(total) >= 1
    ensures total <= TotalPages(total) * Limit
    ensures total > 0 ==> (TotalPages(total) - 1) * Limit < total
  {
  }

  /** The "from – to" numbers: 1-based positions of the first and last result shown; both 0 for an empty list. */
  function Shown(total: nat, page: nat): (nat, nat)
    requires page >= 1
  {
    if total == 0 then (0, 0)
    else ((page - 1) * Limit + 1, if page * Limit < total then page * Limit else total)
  }

  /**
   * An empty list shows 0 – 0; otherwise the range starts after the
   * earlier pages, never runs past the total, and on an existing page
   * holds between one and `Limit` results.
   */
  lemma ShownSpec(total: nat, page: nat)
    requires page >= 1
    ensures total == 0 ==> Shown(total, page) == (0, 0)
    ensures total > 0 ==> Shown(total, page).0 == (page - 1) * Limit + 1
    ensures total > 0 ==> Shown(total, page).1 <= total && Shown(total, page).1 <= page * Limit
    ensures total > 0 ==> (Shown(total, page).1 == total || Shown(total, page).1 == page * Limit)
    ensures total > 0 && page <= TotalPages(total) ==>
      Shown(total, page).0 <= Shown(total, page).1 && Shown(total, page).1 - Shown(total, page).0 < Limit
  {
    if total > 0 && page <= TotalPages(total) {
      TotalPagesSpec(total);
      assert (page - 1) * Limit <= (TotalPages(total) - 1) * Limit;
    }
  }

  /** `normalize`: a missing name reads as "", then trimmed and lower-cased. */
  function Normalize(s: Option<string>): string
  {
    LowerCase(Trim(if s.Some? then s.value else ""))
  }

  /** `teamBoxClass`: the box of a team text "A & B" is highlighted when one member normalizes to the highlight. */
  predicate Highlighted(teamText: string, highlightName: Option<string>)
  {
    var hl := Normalize(highlightName);
    var members := Split(teamText, '&');
    hl != "" && exists k :: 0 <= k < |members| && Normalize(Some(members[k])) == hl
  }

  /** A missing, empty or blank highlight never highlights anything. */
  lemma BlankNeverHighlights(teamText: string, highlightName: Option<string>)
    requires highlightName.None? || forall i :: 0 <= i < |highlightName.value| ==> IsSpace(highlightName.value[i])
    ensures !Highlighted(teamText, highlightName)
  {
    if highlightName.Some? {
      TrimEmpty(highlightName.value);
    }
  }

  /** Normalizing is idempotent. */
  lemma NormalizeIdempotent(s: Option<string>)
    ensures Normalize(Some(Normalize(s))) == Normalize(s)
  {
    var t := Trim(if s.Some? then s.value else "");
    LowerCaseProps(t);
    TrimFixed(LowerCase(t));
  }

  /** Highlighting ignores case and surrounding white space in the highlight name. */
  lemma HighlightIgnoresCaseAndSpace(teamText: string, highlightName: Option<string>)
    ensures Highlighted(teamText, Some(Normalize(highlightName))) == Highlighted(teamText, highlightName)
  {
    NormalizeIdempotent(highlightName);
  }

  /**
   * Of a team text written as its members joined with '&' (no member
   * holding '&'), the box is highlighted exactly when the highlight is not
   * blank and normalizes to the same as one of the members.
   */
  lemma HighlightMembers(members: seq<string>, highlightName: Option<string>)
    requires |members| >= 1
    requires forall k :: 0 <= k < |members| ==> '&' !in members[k]
    ensures Highlighted(Join(members, '&'), highlightName) <==>
      Normalize(highlightName) != "" && exists k :: 0 <= k < |members| && Normalize(Some(members[k])) == Normalize(highlightName)
  {
    SplitJoin(members, '&');
  }
}
