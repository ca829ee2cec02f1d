/**
 * The table view: splitting the fetched values into header and rows, the visible-column
 * projection and its toggles, and the edit draft merged back into the full row on save.
 */
module DataTable {
  import opened Wrappers
  import opened Sheet

  /** A column index into the header and the rows. */
  type Column = nat

  /** `data[0] || []`: the header row, or none when nothing was fetched. */
  function Headers(data: seq<Row>): (h: Row)
    ensures data != [] ==> h == data[0]
    ensures data == [] ==> h == []
  {
    if data == [] then [] else data[0]
  }

  /** `data.slice(1)`: every fetched row after the header. */
  function Rows(data: seq<Row>): (r: seq<Row>)
    ensures |r| == if data == [] then 0 else |data| - 1
    ensures forall i :: 0 <= i < |r| ==> r[i] == data[i + 1]
  {
    if data == [] then [] else data[1..]
  }

  /** The split loses nothing: the header followed by the rows is what was fetched. */
  lemma HeaderRowsSplit(data: seq<Row>)
    ensures data != [] ==> [Headers(data)] + Rows(data) == data
    ensures |Rows(data)| == if data == [] then 0 else |data| - 1
    ensures data == [] ==> Headers(data) == [] && Rows(data) == []
  {
  }

  /** Whether a header is shown by default: every column but the two metadata columns. */
  predicate ShownByDefault(header: string)
  {
    header != "Timestamp" && header != "Email Address"
  }

  predicate Ascending(s: seq<Column>)
  {
    forall i, j :: 0 <= i < j < |s| ==> s[i] <= s[j]
  }

  predicate StrictlyAscending(s: seq<Column>)
  {
    forall i, j :: 0 <= i < j < |s| ==> s[i] < s[j]
  }

  /** The indices below `n` whose header is shown by default, in ascending order. */
  function ShownBelow(headers: Row, n: nat): (r: seq<Column>)
    requires n <= |headers|
    ensures StrictlyAscending(r)
    ensures forall i: nat :: i in r <==> i < n && ShownByDefault(headers[i])
  {
    if n == 0 then []
    else
      var below := ShownBelow(headers, n - 1);
      assert forall k :: 0 <= k < |below| ==> below[k] in below;
      below + (if ShownByDefault(headers[n - 1]) then [n - 1] else [])
  }

  /**
   * The default visible columns: the indices of all headers other than "Timestamp" and
   * "Email Address", ascending and without repetition.
   */
  function DefaultColumns(headers: Row): (r: seq<Column>)
    ensures StrictlyAscending(r)
    ensures forall i: nat :: i in r <==> i < |headers| && ShownByDefault(headers[i])
  {
    ShownBelow(headers, |headers|)
  }

  /**
   * The visible columns once the initialising effect has run: with no `selectedColumns`, a
   * non-empty header and nothing visible, the defaults; with `selectedColumns` (even an empty
   * list, which is truthy), those; otherwise the current list.
   */
  function EffectiveColumns(selected: Option<seq<Column>>, headers: Row, visible: seq<Column>): (r: seq<Column>)
    ensures selected.None? && headers != [] && visible == [] ==>
              StrictlyAscending(r) &&
              forall i: nat :: i in r <==> i < |headers| && ShownByDefault(headers[i])
    ensures selected.None? && (headers == [] || visible != []) ==> r == visible
    ensures selected.Some? ==> r == selected.value
  {
    if selected.None? && |headers| > 0 && |visible| == 0 then DefaultColumns(headers)
    else if selected.Some? then selected.value
    else visible
  }

  /** Running the effect again changes nothing: the visible columns settle after one run. */
  lemma EffectSettles(selected: Option<seq<Column>>, headers: Row, visible: seq<Column>)
    ensures var once := EffectiveColumns(selected, headers, visible);
            EffectiveColumns(selected, headers, once) == once
  {
  }

  /** `sort((a, b) => a - b)` on the list with one index appended: insertion into a sorted list. */
  function Insert(x: Column, s: seq<Column>): (r: seq<Column>)
    requires Ascending(s)
    ensures Ascending(r)
    ensures multiset(r) == multiset(s) + multiset{x}
    ensures r[0] == if s == [] || x <= s[0] then x else s[0]
  {
    if s == [] || x <= s[0] then [x] + s
    else
      var rest := Insert(x, s[1..]);
      assert s == [s[0]] + s[1..];
      [s[0]] + rest
  }

  /** The numeric ascending sort of a list of column indices. */
  function SortAscending(s: seq<Column>): (r: seq<Column>)
    ensures Ascending(r)
    ensures multiset(r) == multiset(s)
  {
    if s == [] then []
    else
      assert s == [s[0]] + s[1..];
      Insert(s[0], SortAscending(s[1..]))
  }

  /** `prev.filter((idx) => idx !== c)`: the entries other than `c`, in their order. */
  function Remove(s: seq<Column>, c: Column): (r: seq<Column>)
    ensures r != [] ==> s != [] && (Ascending(s) ==> s[0] <= r[0])
    ensures Ascending(s) ==> Ascending(r)
    ensures StrictlyAscending(s) ==> StrictlyAscending(r)
  {
    if s == [] then []
    else (if s[0] == c then [] else [s[0]]) + Remove(s[1..], c)
  }

  /** Filtering out `c` removes every occurrence of it and keeps every other entry. */
  lemma {:induction false} RemoveCounts(s: seq<Column>, c: Column)
    ensures multiset(Remove(s, c)) == multiset(s)[c := 0]
    decreases |s|
  {
    if s != [] {
      var head: seq<Column> := if s[0] == c then [] else [s[0]];
      RemoveCounts(s[1..], c);
      assert Remove(s, c) == head + Remove(s[1..], c);
      assert multiset(s) == multiset{s[0]} + multiset(s[1..]) by {
        assert s == [s[0]] + s[1..];
      }
    }
  }

  /**
   * `toggleColumnVisibility(c)`: a visible column is removed (every occurrence of it), a hidden
   * one is added and the list sorted ascending. No other column changes visibility.
   */
  function Toggle(prev: seq<Column>, c: Column): (r: seq<Column>)
    ensures c in r <==> c !in prev
    ensures forall y :: y != c ==> (y in r <==> y in prev)
    ensures c in prev ==> multiset(r) == multiset(prev)[c := 0]
    ensures c !in prev ==> Ascending(r) && multiset(r) == multiset(prev) + multiset{c}
  {
    if c in prev then
      var r := Remove(prev, c);
      RemoveCounts(prev, c);
      assert forall y :: (y in r <==> y in multiset(r)) && (y in prev <==> y in multiset(prev));
      r
    else
      var r := SortAscending(prev + [c]);
      assert forall y :: (y in r <==> y in multiset(r)) && (y in prev <==> y in multiset(prev));
      r
  }

  /** The first entry of an ascending list is its least. */
  lemma HeadIsLeast(s: seq<Column>, y: Column)
    requires Ascending(s) && y in s
    ensures s[0] <= y
  {
    var m :| 0 <= m < |s| && s[m] == y;
  }

  /** Dropping the first entry drops one occurrence of it. */
  lemma TailCounts(a: seq<Column>)
    requires a != []
    ensures multiset(a[1..]) == multiset(a) - multiset{a[0]}
  {
    assert a == [a[0]] + a[1..];
  }

  /** Two ascending lists with the same elements start with the same (least) one. */
  lemma SameHead(a: seq<Column>, b: seq<Column>)
    requires Ascending(a) && Ascending(b) && multiset(a) == multiset(b) && a != [] && b != []
    ensures a[0] == b[0]
  {
    assert a[0] in multiset(b) && b[0] in multiset(a);
    HeadIsLeast(a, b[0]);
    HeadIsLeast(b, a[0]);
  }

  /** Two ascending lists with the same elements (counted) are the same list. */
  lemma {:induction false} AscendingUnique(a: seq<Column>, b: seq<Column>)
    requires Ascending(a) && Ascending(b) && multiset(a) == multiset(b)
    ensures a == b
    decreases |a|
  {
    assert |a| == |multiset(a)| == |multiset(b)| == |b|;
    if a != [] {
      SameHead(a, b);
      TailCounts(a);
      TailCounts(b);
      AscendingUnique(a[1..], b[1..]);
      assert a == [a[0]] + a[1..];
      assert b == [b[0]] + b[1..];
    }
  }

  /** In a strictly ascending list every column occurs at most once. */
  lemma {:induction false} StrictOccursOnce(s: seq<Column>, x: Column)
    requires StrictlyAscending(s)
    ensures multiset(s)[x] <= 1
    decreases |s|
  {
    if s != [] {
      assert s == [s[0]] + s[1..];
      assert s[0] !in s[1..];
      StrictOccursOnce(s[1..], x);
    }
  }

  /** Two equal entries of a list make their value occur at least twice. */
  lemma EqualEntriesCountTwice(s: seq<Column>, i: nat, j: nat)
    requires i < j < |s|
    ensures s[i] == s[j] ==> multiset(s)[s[i]] >= 2
  {
    assert s == s[..j] + s[j..];
    assert s[i] in s[..j] && s[j] in s[j..];
    assert multiset(s)[s[i]] == multiset(s[..j])[s[i]] + multiset(s[j..])[s[i]];
  }

  /** An ascending list in which no column occurs twice is strictly ascending. */
  lemma DistinctAscendingIsStrict(s: seq<Column>)
    requires Ascending(s)
    requires forall x :: multiset(s)[x] <= 1
    ensures StrictlyAscending(s)
  {
    forall i, j | 0 <= i < j < |s| ensures s[i] < s[j] {
      EqualEntriesCountTwice(s, i, j);
    }
  }

  /** Toggling keeps the visible columns strictly ascending. */
  lemma ToggleKeepsStrict(prev: seq<Column>, c: Column)
    requires StrictlyAscending(prev)
    ensures StrictlyAscending(Toggle(prev, c))
  {
    if c !in prev {
      var r := Toggle(prev, c);
      forall x ensures multiset(r)[x] <= 1 {
        StrictOccursOnce(prev, x);
      }
      DistinctAscendingIsStrict(r);
    }
  }

  /** Taking away the single occurrence of `c` and adding it back restores the counts. */
  lemma CountsAfterHideThenShow(m: multiset<Column>, c: Column)
    requires m[c] == 1
    ensures m[c := 0] + multiset{c} == m
  {
  }

  /** Adding an occurrence of an absent `c` and taking all away restores the counts. */
  lemma CountsAfterShowThenHide(m: multiset<Column>, c: Column)
    requires m[c] == 0
    ensures (m + multiset{c})[c := 0] == m
  {
  }

  /** Hiding a visible column and showing it again restores the list. */
  lemma HideThenShow(prev: seq<Column>, c: Column)
    requires StrictlyAscending(prev) && c in prev
    ensures Toggle(Toggle(prev, c), c) == prev
  {
    StrictOccursOnce(prev, c);
    var once := Remove(prev, c);
    RemoveCounts(prev, c);
    assert c !in multiset(once);
    var twice := SortAscending(once + [c]);
    assert Toggle(once, c) == twice;
    CountsAfterHideThenShow(multiset(prev), c);
    assert multiset(once + [c]) == multiset(once) + multiset{c};
    AscendingUnique(twice, prev);
  }

  /** Showing a hidden column and hiding it again restores the list. */
  lemma ShowThenHide(prev: seq<Column>, c: Column)
    requires Ascending(prev) && c !in prev
    ensures Toggle(Toggle(prev, c), c) == prev
  {
    var once := SortAscending(prev + [c]);
    assert Toggle(prev, c) == once;
    assert multiset(prev + [c]) == multiset(prev) + multiset{c};
    assert c in multiset(once);
    var twice := Remove(once, c);
    assert Toggle(once, c) == twice;
    assert Ascending(twice);
    RemoveCounts(once, c);
    assert multiset(prev)[c] == 0;
    CountsAfterShowThenHide(multiset(prev), c);
    assert multiset(twice) == multiset(prev);
    AscendingUnique(twice, prev);
  }

  /** Toggling the same column twice restores a strictly ascending list. */
  lemma ToggleTwice(prev: seq<Column>, c: Column)
    requires StrictlyAscending(prev)
    ensures Toggle(Toggle(prev, c), c) == prev
  {
    if c in prev {
      HideThenShow(prev, c);
    } else {
      ShowThenHide(prev, c);
    }
  }

  /** When every column has been toggled off, the effect restores the defaults. */
  lemma AllToggledOffRestoresDefaults(headers: Row, prev: seq<Column>, c: Column)
    requires headers != [] && Toggle(prev, c) == []
    ensures EffectiveColumns(None, headers, Toggle(prev, c)) == DefaultColumns(headers)
  {
  }

  /** What changes the visible columns: a render that runs the initialising effect, or a toggle. */
  datatype ColumnEvent = Rendered(headers: Row) | Toggled(column: Column)

  /**
   * The visible columns after a run of renders and toggles, as the application mounts the table
   * (without `selectedColumns`).
   */
  function VisibleAfter(visible: seq<Column>, es: seq<ColumnEvent>): seq<Column>
    decreases |es|
  {
    if es == [] then visible
    else
      var next := match es[0]
        case Rendered(h) => EffectiveColumns(None, h, visible)
        case Toggled(c) => Toggle(visible, c);
      VisibleAfter(next, es[1..])
  }

  /**
   * The visible columns are always sorted ascending without repetition: from the initial empty
   * list, through any run of renders (with any header) and toggles.
   */
  lemma {:induction false} StaysStrict(visible: seq<Column>, es: seq<ColumnEvent>)
    requires StrictlyAscending(visible)
    ensures StrictlyAscending(VisibleAfter(visible, es))
    decreases |es|
  {
    if es != [] {
      match es[0]
      case Rendered(h) =>
        StaysStrict(EffectiveColumns(None, h, visible), es[1..]);
      case Toggled(c) =>
        ToggleKeepsStrict(visible, c);
        StaysStrict(Toggle(visible, c), es[1..]);
    }
  }

  /**
   * JavaScript's `a[i] = v` on an array: overwrite inside, or grow with holes up to `i`.
   */
  function SetAt(s: seq<Cell>, i: Column, v: Cell): (r: seq<Cell>)
    ensures |r| == if i < |s| then |s| else i + 1
    ensures r[i] == v
    ensures forall k :: 0 <= k < |r| && k != i ==> r[k] == CellAt(s, k)
  {
    if i < |s| then s[i := v] else s + seq(i - |s|, _ => None) + [v]
  }

  /** The length of an array of length `n` after assigning at every index in `cols`. */
  function Extent(n: nat, cols: seq<Column>): (r: nat)
    ensures r >= n && forall c :: c in cols ==> c < r
    ensures r == n || r - 1 in cols
    decreases |cols|
  {
    if cols == [] then n
    else
      assert forall c :: c in cols <==> c == cols[0] || c in cols[1..];
      Extent(if cols[0] < n then n else cols[0] + 1, cols[1..])
  }

  /**
   * The row `save` builds: a copy of `row` in which each visible index, in turn, is set to the
   * draft's cell there. Each visible index holds the draft's cell (absent past the draft's
   * end); every other index keeps the row's cell (absent past the row's end).
   */
  function Merged(row: seq<Cell>, draft: seq<Cell>, cols: seq<Column>): (r: seq<Cell>)
    ensures |r| == Extent(|row|, cols)
    ensures forall k :: 0 <= k < |r| ==> r[k] == if k in cols then CellAt(draft, k) else CellAt(row, k)
    decreases |cols|
  {
    if cols == [] then row
    else
      var next := SetAt(row, cols[0], CellAt(draft, cols[0]));
      assert forall k :: k in cols <==> k == cols[0] || k in cols[1..];
      Merged(next, draft, cols[1..])
  }

  /** The `forEach` loop of `save`, updating the copied row in place. */
  method MergeEdit(row: seq<Cell>, draft: seq<Cell>, cols: seq<Column>) returns (updated: seq<Cell>)
    ensures updated == Merged(row, draft, cols)
  {
    updated := row;
    for i := 0 to |cols|
      invariant Merged(updated, draft, cols[i..]) == Merged(row, draft, cols)
    {
      assert cols[i..][1..] == cols[i + 1..];
      updated := SetAt(updated, cols[i], CellAt(draft, cols[i]));
    }
    assert cols[|cols|..] == [];
  }

  /** An unedited draft saves the same row back, provided every visible index lies inside the row. */
  lemma UnchangedDraftKeepsRow(row: Row, cols: seq<Column>)
    requires forall c :: c in cols ==> c < |row|
    ensures Merged(Cells(row), Cells(row), cols) == Cells(row)
  {
    var r := Merged(Cells(row), Cells(row), cols);
    assert |r| == |row|;
    forall k | 0 <= k < |r| ensures r[k] == Cells(row)[k] { }
  }

  /**
   * A visible index past the end of the row makes even an unedited save longer than the row,
   * with an absent (not empty-string) cell at that index.
   */
  lemma UnchangedDraftPastRowEnd(row: Row, cols: seq<Column>, c: Column)
    requires c in cols && c >= |row|
    ensures var r := Merged(Cells(row), Cells(row), cols);
            |r| > |row| && r[c] == None
  {
  }

  /**
   * The table's own state: the row being edited (1-based, as rendered), its draft cells, and
   * the row whose deletion awaits confirmation.
   */
  datatype TableState = TableState(editIdx: Option<int>, draft: seq<Cell>, confirmingDelete: Option<int>)

  /** The call `save` makes to the application: `onUpdate(editIdx, updatedRow)`. */
  datatype UpdateCall = UpdateCall(rowIndex: int, row: seq<Cell>)

  /** The Edit button of rendered row `r`: edit index `r + 1`, draft a copy of the row. */
  function BeginEdit(st: TableState, rows: seq<Row>, r: nat): (st': TableState)
    requires r < |rows|
    ensures st'.editIdx == Some(r + 1) && st'.confirmingDelete == st.confirmingDelete
    ensures |st'.draft| == |rows[r]|
    ensures forall k :: 0 <= k < |rows[r]| ==> st'.draft[k] == Some(rows[r][k])
  {
    st.(editIdx := Some(r + 1), draft := Cells(rows[r]))
  }

  /** `handleChange(val, col)`: only index `col` of the draft changes. */
  function ChangeCell(st: TableState, val: string, col: Column): (st': TableState)
    ensures |st'.draft| == if col < |st.draft| then |st.draft| else col + 1
    ensures st'.draft[col] == Some(val)
    ensures forall k :: 0 <= k < |st'.draft| && k != col ==> st'.draft[k] == CellAt(st.draft, k)
    ensures st'.editIdx == st.editIdx && st'.confirmingDelete == st.confirmingDelete
  {
    st.(draft := SetAt(st.draft, col, Some(val)))
  }

  /**
   * `save`: merge the draft into a copy of `rows[editIdx - 1]`, call `onUpdate` once, then
   * leave edit mode. If the row is gone (the data was reloaded shorter), spreading `undefined`
   * throws: nothing is sent and the state is kept.
   */
  function Save(st: TableState, rows: seq<Row>, visible: seq<Column>): (res: (TableState, Option<UpdateCall>))
    requires st.editIdx.Some?
    ensures var i := st.editIdx.value;
            1 <= i <= |rows| ==>
              res.0 == st.(editIdx := None) &&
              res.1.Some? && res.1.value.rowIndex == i &&
              res.1.value.row == Merged(Cells(rows[i - 1]), st.draft, visible)
    ensures !(1 <= st.editIdx.value <= |rows|) ==> res == (st, None)
    ensures res.1.Some? ==>
              var row := rows[st.editIdx.value - 1];
              forall k :: 0 <= k < |row| && k !in visible ==> res.1.value.row[k] == Some(row[k])
  {
    var i := st.editIdx.value;
    if 1 <= i <= |rows| then
      (st.(editIdx := None), Some(UpdateCall(i, Merged(Cells(rows[i - 1]), st.draft, visible))))
    else
      (st, None)
  }

  /** Editing row `r` and saving without changes sends row `r` back unchanged, as row index `r + 1`. */
  lemma EditThenSaveUnchanged(st: TableState, rows: seq<Row>, r: nat, visible: seq<Column>)
    requires r < |rows|
    requires forall c :: c in visible ==> c < |rows[r]|
    ensures var res := Save(BeginEdit(st, rows, r), rows, visible);
            res.1 == Some(UpdateCall(r + 1, Cells(rows[r]))) && res.0.editIdx.None?
  {
    var st' := BeginEdit(st, rows, r);
    assert st'.draft == Cells(rows[r]);
    UnchangedDraftKeepsRow(rows[r], visible);
  }

  /** A value typed into a visible column is what `save` sends at that column. */
  lemma ChangedCellIsSaved(st: TableState, rows: seq<Row>, visible: seq<Column>, val: string, col: Column)
    requires st.editIdx.Some? && 1 <= st.editIdx.value <= |rows|
    requires col in visible
    ensures var res := Save(ChangeCell(st, val, col), rows, visible);
            res.1.Some? && col < |res.1.value.row| && res.1.value.row[col] == Some(val)
  {
  }

  /** `handleDelete(rowIndex)`: clear the pending confirmation, then call `onDelete(rowIndex)` once. */
  function HandleDelete(st: TableState, rowIndex: int): (res: (TableState, int))
    ensures res.0.confirmingDelete.None?
    ensures res.0.editIdx == st.editIdx && res.0.draft == st.draft
    ensures res.1 == rowIndex
  {
    (st.(confirmingDelete := None), rowIndex)
  }

  /** Example: the header Timestamp, Email Address, Style, Qty gives the default columns [2, 3]. */
  lemma DefaultColumnsExample()
    ensures DefaultColumns(["Timestamp", "Email Address", "Style", "Qty"]) == [2, 3]
  {
    var headers := ["Timestamp", "Email Address", "Style", "Qty"];
    assert ShownBelow(headers, 1) == [];
    assert ShownBelow(headers, 2) == [];
    assert ShownBelow(headers, 3) == [2];
    assert ShownBelow(headers, 4) == [2, 3];
  }

  /** Example: with Style and Qty visible, changing Qty to "9" saves the row with only that cell changed. */
  lemma SaveExample()
    ensures var row := Cells(["t1", "e1", "A", "5"]);
            Merged(row, SetAt(row, 3, Some("9")), [2, 3]) == Cells(["t1", "e1", "A", "9"])
  {
    var row := Cells(["t1", "e1", "A", "5"]);
    var expected := Cells(["t1", "e1", "A", "9"]);
    var draft := SetAt(row, 3, Some("9"));
    assert draft == expected;
    var r := Merged(row, draft, [2, 3]);
    assert |r| == 4;
    forall k | 0 <= k < 4 ensures r[k] == expected[k] {
      assert k in [2, 3] <==> k == 2 || k == 3;
    }
  }
}
