// Ordering, paging and projection of rows.

module RowOrder {
  import opened Wrappers
  import opened Core
  import opened Patterns

  function Lookup(row: MatchRow, name: string): Option<NodeId> {
    if name in row.nodes then Some(row.nodes[name]) else None
  }

  // An absent binding sorts before a present one.
  function CompareIds(a: Option<NodeId>, b: Option<NodeId>): int {
    match (a, b)
    case (None, None) => 0
    case (None, Some(_)) => -1
    case (Some(_), None) => 1
    case (Some(x), Some(y)) => if x.key < y.key then -1 else if x.key > y.key then 1 else 0
  }

  // The first sort key on which the rows differ decides.
  function Compare(a: MatchRow, b: MatchRow, order: seq<(string, SortOrder)>): int {
    if order == [] then 0
    else
      var c := CompareIds(Lookup(a, order[0].0), Lookup(b, order[0].0));
      if c != 0 then (if order[0].1 == Ascending then c else -c) else Compare(a, b, order[1..])
  }

  lemma {:induction false} CompareTransitive(a: MatchRow, b: MatchRow, c: MatchRow, order: seq<(string, SortOrder)>)
    requires Compare(a, b, order) <= 0 && Compare(b, c, order) <= 0
    ensures Compare(a, c, order) <= 0
    ensures Compare(a, b, order) < 0 || Compare(b, c, order) < 0 ==> Compare(a, c, order) < 0
  {
    if order != [] {
      var n := order[0].0;
      if CompareIds(Lookup(a, n), Lookup(b, n)) == 0 && CompareIds(Lookup(b, n), Lookup(c, n)) == 0 {
        CompareTransitive(a, b, c, order[1..]);
      }
    }
  }

  lemma {:induction false} CompareFlips(a: MatchRow, b: MatchRow, order: seq<(string, SortOrder)>)
    ensures Compare(b, a, order) == -Compare(a, b, order)
  {
    if order != [] {
      CompareFlips(a, b, order[1..]);
    }
  }

  // The stable sort of the standard library, as insertion from the left.
  function InsertRow(sorted: seq<MatchRow>, row: MatchRow, order: seq<(string, SortOrder)>): seq<MatchRow> {
    if sorted == [] || Compare(sorted[|sorted| - 1], row, order) <= 0 then sorted + [row]
    else InsertRow(sorted[..|sorted| - 1], row, order) + [sorted[|sorted| - 1]]
  }

  function SortRows(rows: seq<MatchRow>, order: seq<(string, SortOrder)>): seq<MatchRow> {
    if rows == [] then [] else InsertRow(SortRows(rows[..|rows| - 1], order), rows[|rows| - 1], order)
  }

  ghost predicate Ordered(rows: seq<MatchRow>, order: seq<(string, SortOrder)>) {
    forall i, j | 0 <= i < j < |rows| :: Compare(rows[i], rows[j], order) <= 0
  }

  // The rows equal to `row` under the sort keys, in sequence.
  ghost function Ties(rows: seq<MatchRow>, row: MatchRow, order: seq<(string, SortOrder)>): seq<MatchRow> {
    if rows == [] then []
    else Ties(rows[..|rows| - 1], row, order)
         + (if Compare(rows[|rows| - 1], row, order) == 0 then [rows[|rows| - 1]] else [])
  }

  lemma {:induction false} InsertRowPermutes(sorted: seq<MatchRow>, row: MatchRow, order: seq<(string, SortOrder)>)
    ensures multiset(InsertRow(sorted, row, order)) == multiset(sorted) + multiset{row}
    decreases |sorted|
  {
    hide Compare;
    if sorted != [] {
      var init, last := sorted[..|sorted| - 1], sorted[|sorted| - 1];
      assert sorted == init + [last];
      InsertRowPermutes(init, row, order);
    }
  }

  lemma {:induction false} InsertRowOrdered(sorted: seq<MatchRow>, row: MatchRow, order: seq<(string, SortOrder)>)
    requires Ordered(sorted, order)
    ensures Ordered(InsertRow(sorted, row, order), order)
    decreases |sorted|
  {
    hide Compare;
    if sorted != [] {
      var init, last := sorted[..|sorted| - 1], sorted[|sorted| - 1];
      if Compare(last, row, order) <= 0 {
        forall i | 0 <= i < |sorted| ensures Compare(sorted[i], row, order) <= 0 {
          if i < |sorted| - 1 {
            CompareTransitive(sorted[i], last, row, order);
          }
        }
      } else {
        InsertRowOrdered(init, row, order);
        var mid := InsertRow(init, row, order);
        InsertRowPermutes(init, row, order);
        CompareFlips(last, row, order);
        forall i | 0 <= i < |mid| ensures Compare(mid[i], last, order) <= 0 {
          assert mid[i] in multiset(mid);
          if mid[i] != row {
            var k :| 0 <= k < |init| && init[k] == mid[i];
            assert sorted[k] == mid[i];
          }
        }
      }
    }
  }

  lemma {:induction false} InsertRowTies(sorted: seq<MatchRow>, row: MatchRow, order: seq<(string, SortOrder)>,
                                         probe: MatchRow)
    ensures Ties(InsertRow(sorted, row, order), probe, order)
            == Ties(sorted, probe, order) + (if Compare(row, probe, order) == 0 then [row] else [])
    decreases |sorted|
  {
    hide Compare, InsertRow, Ties;
    var tail := if Compare(row, probe, order) == 0 then [row] else [];
    InsertRowCases(sorted, row, order);
    if sorted == [] {
      TiesAppend([], row, probe, order);
    } else {
      var init, last := sorted[..|sorted| - 1], sorted[|sorted| - 1];
      if Compare(last, row, order) <= 0 {
        TiesAppend(sorted, row, probe, order);
      } else {
        InsertRowTies(init, row, order, probe);
        TiesAppend(InsertRow(init, row, order), last, probe, order);
        TiesAppend(init, last, probe, order);
        assert init + [last] == sorted;
        if Compare(last, probe, order) == 0 && Compare(row, probe, order) == 0 {
          CompareFlips(row, probe, order);
          CompareTransitive(last, probe, row, order);
        }
        assert Compare(last, probe, order) == 0 ==> tail == [];
      }
    }
  }

  lemma InsertRowCases(sorted: seq<MatchRow>, row: MatchRow, order: seq<(string, SortOrder)>)
    ensures InsertRow(sorted, row, order)
            == if sorted == [] || Compare(sorted[|sorted| - 1], row, order) <= 0 then sorted + [row]
               else InsertRow(sorted[..|sorted| - 1], row, order) + [sorted[|sorted| - 1]]
  {
    hide Compare;
  }

  lemma TiesAppend(rows: seq<MatchRow>, row: MatchRow, probe: MatchRow, order: seq<(string, SortOrder)>)
    ensures Ties(rows + [row], probe, order)
            == Ties(rows, probe, order) + (if Compare(row, probe, order) == 0 then [row] else [])
    ensures Ties([], probe, order) == []
  {
    hide Compare;
    assert (rows + [row])[..|rows|] == rows;
  }

  // A stable sort: a permutation, ordered by the keys, ties in their original sequence.
  lemma {:induction false} SortRowsSpec(rows: seq<MatchRow>, order: seq<(string, SortOrder)>, probe: MatchRow)
    ensures multiset(SortRows(rows, order)) == multiset(rows)
    ensures Ordered(SortRows(rows, order), order)
    ensures Ties(SortRows(rows, order), probe, order) == Ties(rows, probe, order)
    decreases |rows|
  {
    hide Compare, InsertRow, Ordered;
    if rows == [] {
      assert Ordered([], order) by { NothingOrdered(order); }
    } else {
      var init, last := rows[..|rows| - 1], rows[|rows| - 1];
      assert rows == init + [last];
      SortRowsSpec(init, order, probe);
      InsertRowPermutes(SortRows(init, order), last, order);
      InsertRowOrdered(SortRows(init, order), last, order);
      InsertRowTies(SortRows(init, order), last, order, probe);
    }
  }

  lemma NothingOrdered(order: seq<(string, SortOrder)>)
    ensures Ordered([], order)
  {
  }

  lemma {:induction false} UnorderedSort(rows: seq<MatchRow>)
    ensures SortRows(rows, []) == rows
    decreases |rows|
  {
    if rows != [] {
      UnorderedSort(rows[..|rows| - 1]);
    }
  }

  function Project(row: MatchRow, columns: seq<string>): MatchRow {
    if columns == [] then row
    else MatchRow(map n | n in row.nodes && n in columns :: row.nodes[n],
                  map n | n in row.edges && n in columns :: row.edges[n])
  }

  lemma NoColumns()
    ensures forall row :: Project(row, []) == row
  {
  }

  // `out` is the page [skip, skip + limit) of the sorted rows, projected.
  ghost predicate Paged(rows: seq<MatchRow>, plan: TraversalPlan, out: seq<MatchRow>) {
    var sorted := SortRows(rows, plan.order);
    var skip := if plan.skip <= |sorted| then plan.skip else |sorted|;
    && |out| == (if plan.limit.Some? && plan.limit.value < |sorted| - skip then plan.limit.value else |sorted| - skip)
    && forall i | 0 <= i < |out| && skip + i < |sorted| :: out[i] == Project(sorted[skip + i], plan.returnColumns)
  }

  lemma {:induction false} SortRowsLength(rows: seq<MatchRow>, order: seq<(string, SortOrder)>)
    ensures |SortRows(rows, order)| == |rows|
  {
    SortRowsSpec(rows, order, EMPTY_ROW);
    assert |multiset(SortRows(rows, order))| == |multiset(rows)|;
  }

  method ApplyOrderingAndProjection(rows: seq<MatchRow>, plan: TraversalPlan) returns (out: seq<MatchRow>)
    ensures Paged(rows, plan, out)
  {
    hide Compare, InsertRow, SortRows, Project;
    NoColumns();
    SortRowsLength(rows, plan.order);
    var sorted := if plan.order != [] then SortRows(rows, plan.order) else rows;
    if plan.order == [] {
      UnorderedSort(rows);
    }
    out := TakePage(sorted, plan.skip, plan.limit);
    if plan.returnColumns != [] {
      out := ProjectRows(out, plan.returnColumns);
    }
  }

  // The drain and the truncation.
  method TakePage<T>(rows: seq<T>, start: nat, limit: Option<nat>) returns (out: seq<T>)
    ensures var skip := if start <= |rows| then start else |rows|;
            && |out| == (if limit.Some? && limit.value < |rows| - skip then limit.value else |rows| - skip)
            && forall i | 0 <= i < |out| :: out[i] == rows[skip + i]
  {
    out := rows;
    if start > 0 {
      var drop := if start <= |out| then start else |out|;
      out := out[drop..];
    }
    if limit.Some? && limit.value < |out| {
      out := out[..limit.value];
    }
  }

  // The projection loop, in place on the rows.
  method ProjectRows(rows: seq<MatchRow>, columns: seq<string>) returns (out: seq<MatchRow>)
    ensures |out| == |rows| && forall i | 0 <= i < |out| :: out[i] == Project(rows[i], columns)
  {
    hide Project;
    out := rows;
    for i := 0 to |out|
      invariant |out| == |rows|
      invariant forall j | 0 <= j < i :: out[j] == Project(rows[j], columns)
      invariant forall j | i <= j < |out| :: out[j] == rows[j]
    {
      out := out[i := Project(out[i], columns)];
    }
  }

  // ----- The order on the rows themselves -----

  // The rows bind the name to the same node, or both leave it unbound.
  predicate BindAlike(a: MatchRow, b: MatchRow, name: string) {
    if name in a.nodes then name in b.nodes && a.nodes[name] == b.nodes[name] else name !in b.nodes
  }

  predicate AlikeBefore(a: MatchRow, b: MatchRow, order: seq<(string, SortOrder)>, k: nat) {
    forall m | 0 <= m < k && m < |order| :: BindAlike(a, b, order[m].0)
  }

  // Row `a` may stand before row `b` as far as one sort key goes: upwards with the unbound first, or downwards
  // with the unbound last.
  predicate KeyInOrder(a: MatchRow, b: MatchRow, key: (string, SortOrder)) {
    match key.1
    case Ascending => key.0 in a.nodes ==> key.0 in b.nodes && a.nodes[key.0].key <= b.nodes[key.0].key
    case Descending => key.0 in b.nodes ==> key.0 in a.nodes && b.nodes[key.0].key <= a.nodes[key.0].key
  }

  // Where rows are alike on the earlier keys, the next key is in order.
  ghost predicate KeysInOrder(rows: seq<MatchRow>, order: seq<(string, SortOrder)>) {
    forall i, j, k | 0 <= i < j < |rows| && 0 <= k < |order| && AlikeBefore(rows[i], rows[j], order, k) ::
      KeyInOrder(rows[i], rows[j], order[k])
  }

  // The rows alike to `probe` on every key, in sequence.
  ghost function AlikeRows(rows: seq<MatchRow>, probe: MatchRow, order: seq<(string, SortOrder)>): seq<MatchRow> {
    if rows == [] then []
    else
      var last := rows[|rows| - 1];
      AlikeRows(rows[..|rows| - 1], probe, order)
      + (if AlikeBefore(last, probe, order, |order|) then [last] else [])
  }

  lemma {:induction false} CompareReads(a: MatchRow, b: MatchRow, order: seq<(string, SortOrder)>, k: nat)
    requires k < |order| && AlikeBefore(a, b, order, k)
    ensures Compare(a, b, order) <= 0 ==> KeyInOrder(a, b, order[k])
    decreases k
  {
    if k > 0 {
      assert BindAlike(a, b, order[0].0);
      assert forall m | 0 <= m < k - 1 :: order[1..][m] == order[m + 1];
      CompareReads(a, b, order[1..], k - 1);
    }
  }

  lemma {:induction false} CompareIsZero(a: MatchRow, b: MatchRow, order: seq<(string, SortOrder)>)
    ensures Compare(a, b, order) == 0 <==> AlikeBefore(a, b, order, |order|)
  {
    if order != [] {
      CompareIsZero(a, b, order[1..]);
      assert forall m | 0 <= m < |order| - 1 :: order[1..][m] == order[m + 1];
      assert AlikeBefore(a, b, order, |order|)
             <==> BindAlike(a, b, order[0].0) && AlikeBefore(a, b, order[1..], |order| - 1) by {
        assert forall m | 0 < m < |order| :: order[m] == order[1..][m - 1];
      }
    }
  }

  lemma {:induction false} TiesAreAlike(rows: seq<MatchRow>, probe: MatchRow, order: seq<(string, SortOrder)>)
    ensures Ties(rows, probe, order) == AlikeRows(rows, probe, order)
  {
    hide Compare, AlikeBefore;
    if rows != [] {
      TiesAreAlike(rows[..|rows| - 1], probe, order);
      CompareIsZero(rows[|rows| - 1], probe, order);
    }
  }

  // `sorted` holds the rows in key order, those that no key tells apart in their original sequence.
  ghost predicate StableOrder(rows: seq<MatchRow>, order: seq<(string, SortOrder)>, sorted: seq<MatchRow>) {
    && multiset(sorted) == multiset(rows) && KeysInOrder(sorted, order)
    && forall probe :: AlikeRows(sorted, probe, order) == AlikeRows(rows, probe, order)
  }

  lemma SortRowsStable(rows: seq<MatchRow>, order: seq<(string, SortOrder)>)
    ensures StableOrder(rows, order, SortRows(rows, order))
  {
    hide Compare, SortRows, AlikeBefore, KeyInOrder;
    var sorted := SortRows(rows, order);
    SortRowsSpec(rows, order, EMPTY_ROW);
    forall i, j, k | 0 <= i < j < |sorted| && 0 <= k < |order| && AlikeBefore(sorted[i], sorted[j], order, k)
      ensures KeyInOrder(sorted[i], sorted[j], order[k])
    {
      CompareReads(sorted[i], sorted[j], order, k);
    }
    forall probe ensures AlikeRows(sorted, probe, order) == AlikeRows(rows, probe, order) {
      SortRowsSpec(rows, order, probe);
      TiesAreAlike(sorted, probe, order);
      TiesAreAlike(rows, probe, order);
    }
  }

  // `out` is `row` with the columns asked for, or with all of them when none is named.
  ghost predicate OnlyColumns(row: MatchRow, columns: seq<string>, out: MatchRow) {
    && (forall n :: n in out.nodes <==> n in row.nodes && (columns == [] || n in columns))
    && (forall n :: n in out.edges <==> n in row.edges && (columns == [] || n in columns))
    && (forall n | n in out.nodes :: out.nodes[n] == row.nodes[n])
    && (forall n | n in out.edges :: out.edges[n] == row.edges[n])
  }

  // Which places of the sorted rows the page shows.
  predicate OnPage(plan: TraversalPlan, i: nat) {
    plan.skip <= i && (plan.limit.Some? ==> i < plan.skip + plan.limit.value)
  }

  ghost predicate IsPage(sorted: seq<MatchRow>, plan: TraversalPlan, out: seq<MatchRow>) {
    && (out != [] ==> plan.skip + |out| <= |sorted| && OnPage(plan, plan.skip + |out| - 1))
    && (forall i {:trigger OnPage(plan, i)} | 0 <= i < |sorted| && OnPage(plan, i) ::
          i - plan.skip < |out| && OnlyColumns(sorted[i], plan.returnColumns, out[i - plan.skip]))
  }

  // The rows that come out are a page of the stable order of the rows.
  lemma PagedReads(rows: seq<MatchRow>, plan: TraversalPlan, out: seq<MatchRow>)
    requires Paged(rows, plan, out)
    ensures exists sorted :: StableOrder(rows, plan.order, sorted) && IsPage(sorted, plan, out)
  {
    hide Compare, SortRows, StableOrder, IsPage;
    SortRowsStable(rows, plan.order);
    PagedIsPage(rows, plan, out);
  }

  lemma PagedIsPage(rows: seq<MatchRow>, plan: TraversalPlan, out: seq<MatchRow>)
    requires Paged(rows, plan, out)
    ensures IsPage(SortRows(rows, plan.order), plan, out)
  {
    hide Compare, SortRows, OnlyColumns, Project;
    var sorted := SortRows(rows, plan.order);
    forall i {:trigger OnPage(plan, i)} | 0 <= i < |sorted| && OnPage(plan, i)
      ensures i - plan.skip < |out| && OnlyColumns(sorted[i], plan.returnColumns, out[i - plan.skip])
    {
      var at := i - plan.skip;
      assert sorted[plan.skip + at] == sorted[i];
      ProjectReads(sorted[i], plan.returnColumns);
    }
  }

  lemma ProjectReads(row: MatchRow, columns: seq<string>)
    ensures OnlyColumns(row, columns, Project(row, columns))
  {
  }
}
