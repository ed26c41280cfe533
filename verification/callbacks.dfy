/** The bodies of the two interactive callbacks, without the Dash wiring:
    the filtered player summary table and the rows of the comparison chart. */
module Callbacks {
  import opened Sequences
  import opened Dataset
  import opened PlayerSummary
  import opened LongForm

  function LowerChar(c: char): char
  {
    if 'A' <= c <= 'Z' then (c as int + 32) as char else c
  }

  /** ASCII lower-casing. */
  function Lower(s: string): (r: string)
    ensures |r| == |s|
    ensures forall i :: 0 <= i < |s| ==> r[i] == LowerChar(s[i])
  {
    if |s| == 0 then [] else [LowerChar(s[0])] + Lower(s[1..])
  }

  lemma LowerIdempotent(s: string)
    ensures Lower(Lower(s)) == Lower(s)
  {
    assert forall i :: 0 <= i < |s| ==> Lower(Lower(s))[i] == Lower(s)[i];
  }

  /** `n` occurs in `h` starting at position `i`. */
  predicate OccursAt(n: string, h: string, i: int)
  {
    0 <= i && i + |n| <= |h| && h[i..i + |n|] == n
  }

  /** `n` occurs in `h` at some position. */
  ghost predicate Occurs(n: string, h: string)
  {
    exists i :: OccursAt(n, h, i)
  }

  /** Substring search by scanning the start positions of `h`. */
  function Contains(h: string, n: string): (b: bool)
    ensures b <==> Occurs(n, h)
    decreases |h|
  {
    if |n| > |h| then
      assert forall i :: !OccursAt(n, h, i);
      false
    else if h[..|n|] == n then
      assert OccursAt(n, h, 0);
      true
    else
      var b := Contains(h[1..], n);
      assert forall i :: OccursAt(n, h[1..], i) <==> OccursAt(n, h, i + 1) by {
        forall i
          ensures OccursAt(n, h[1..], i) <==> OccursAt(n, h, i + 1)
        {
          if 0 <= i && i + |n| <= |h[1..]| {
            assert h[1..][i..i + |n|] == h[i + 1..i + 1 + |n|];
          }
        }
      }
      assert Occurs(n, h) ==> Occurs(n, h[1..]) by {
        if Occurs(n, h) {
          var i :| OccursAt(n, h, i);
          assert i != 0;
          assert OccursAt(n, h[1..], i - 1);
        }
      }
      b
  }

  /** `str.contains(filter, case=False)` on a Player name, for a filter
      without regular-expression metacharacters. */
  predicate NameMatches(player: string, filter: string)
  {
    Contains(Lower(player), Lower(filter))
  }

  /** The name filter is applied only when it is neither None nor "". */
  predicate FilterActive(nameFilter: Option<string>)
  {
    nameFilter.Some? && nameFilter.value != ""
  }

  predicate InDraftRange(row: SummaryRow, lo: int, hi: int)
  {
    row.draftYear >= lo && row.draftYear <= hi
  }

  /** A summary row is shown when its draft year is in the inclusive range
      and, if the name filter is active, its player matches it. */
  predicate Shown(row: SummaryRow, nameFilter: Option<string>, lo: int, hi: int)
  {
    InDraftRange(row, lo, hi) && (FilterActive(nameFilter) ==> NameMatches(row.player, nameFilter.value))
  }

  /** `update_player_summary_table`: the range filter, then the name filter
      when it is active; the result is exactly the shown rows, in table order. */
  function UpdatePlayerSummaryTable(table: seq<SummaryRow>, nameFilter: Option<string>, draftYearRange: (int, int))
    : (r: seq<SummaryRow>)
    ensures FilteredBy(r, table, (row: SummaryRow) => Shown(row, nameFilter, draftYearRange.0, draftYearRange.1))
  {
    var lo := draftYearRange.0;
    var hi := draftYearRange.1;
    var inRange := Filter(table, (row: SummaryRow) => InDraftRange(row, lo, hi));
    if FilterActive(nameFilter) then
      var r := Filter(inRange, (row: SummaryRow) => NameMatches(row.player, nameFilter.value));
      FilteredByCompose(table, inRange, r,
        (row: SummaryRow) => InDraftRange(row, lo, hi),
        (row: SummaryRow) => NameMatches(row.player, nameFilter.value),
        (row: SummaryRow) => Shown(row, nameFilter, lo, hi));
      r
    else
      SubseqRefl(inRange);
      FilteredByCompose(table, inRange, inRange,
        (row: SummaryRow) => InDraftRange(row, lo, hi),
        (row: SummaryRow) => true,
        (row: SummaryRow) => Shown(row, nameFilter, lo, hi));
      inRange
  }

  /** An inverted draft-year range shows nothing, and raises nothing. */
  lemma InvertedRangeIsEmpty(table: seq<SummaryRow>, nameFilter: Option<string>, lo: int, hi: int)
    requires lo > hi
    ensures UpdatePlayerSummaryTable(table, nameFilter, (lo, hi)) == []
  {
    FilteredNone(UpdatePlayerSummaryTable(table, nameFilter, (lo, hi)), table,
      (row: SummaryRow) => Shown(row, nameFilter, lo, hi));
  }

  /** None and the empty string both leave only the range filter. */
  lemma EmptyFilterIsNoFilter(table: seq<SummaryRow>, draftYearRange: (int, int))
    ensures UpdatePlayerSummaryTable(table, Some(""), draftYearRange) ==
      UpdatePlayerSummaryTable(table, None, draftYearRange)
  {
  }

  /** Matching ignores the case of the filter text. */
  lemma FilterCaseInsensitive(table: seq<SummaryRow>, f: string, draftYearRange: (int, int))
    ensures UpdatePlayerSummaryTable(table, Some(Lower(f)), draftYearRange) ==
      UpdatePlayerSummaryTable(table, Some(f), draftYearRange)
  {
    LowerIdempotent(f);
    var lo := draftYearRange.0;
    var hi := draftYearRange.1;
    var inRange := Filter(table, (row: SummaryRow) => InDraftRange(row, lo, hi));
    FilterAgree(inRange,
      (row: SummaryRow) => NameMatches(row.player, Lower(f)),
      (row: SummaryRow) => NameMatches(row.player, f));
  }

  /** The comparison chart shows the rows of player `a` or player `b`. */
  predicate Compared(row: MeltedRow, a: string, b: string)
  {
    row.player == a || row.player == b
  }

  /** `update_player_comparison_figure`: the melted rows of the two chosen
      players, in reverse table order. */
  function UpdatePlayerComparison(melted: seq<MeltedRow>, a: string, b: string): (r: seq<MeltedRow>)
    ensures FilteredBy(Reverse(r), melted, (row: MeltedRow) => Compared(row, a, b))
    ensures multiset(r) == multiset(Reverse(r))
  {
    var kept := Filter(melted, (row: MeltedRow) => Compared(row, a, b));
    ReverseReverse(kept);
    ReverseMultiset(kept);
    Reverse(kept)
  }

  /** Choosing the same player twice shows that player's rows once each. */
  lemma SamePlayerTwice(melted: seq<MeltedRow>, a: string)
    ensures forall x ::
      multiset(UpdatePlayerComparison(melted, a, a))[x] == if x.player == a then multiset(melted)[x] else 0
  {
    var r := UpdatePlayerComparison(melted, a, a);
    ReverseMultiset(r);
  }

  /** A name absent from the data contributes no rows and raises nothing. */
  lemma AbsentPlayerAddsNothing(melted: seq<MeltedRow>, a: string, b: string)
    requires forall i :: 0 <= i < |melted| ==> melted[i].player != b
    ensures UpdatePlayerComparison(melted, a, b) == UpdatePlayerComparison(melted, a, a)
  {
    FilterAgree(melted, (row: MeltedRow) => Compared(row, a, b), (row: MeltedRow) => Compared(row, a, a));
  }

  /** Every season of a chosen player appears on the chart with both its
      Prediction and its PS series. */
  lemma ComparisonShowsBothSeries(data: seq<PlayerSeason>, a: string, b: string, j: int)
    requires 0 <= j < |data| && (data[j].player == a || data[j].player == b)
    ensures MeltedRow(data[j].player, data[j].seasonStart, Prediction, data[j].prediction)
      in UpdatePlayerComparison(Melt(data), a, b)
    ensures MeltedRow(data[j].player, data[j].seasonStart, PS, data[j].ps)
      in UpdatePlayerComparison(Melt(data), a, b)
  {
    var m := Melt(data);
    var r := UpdatePlayerComparison(m, a, b);
    var x := m[j];
    var y := m[|data| + j];
    assert x in multiset(m) && y in multiset(m);
    ReverseMultiset(r);
    assert x in multiset(r) && y in multiset(r);
  }
}
