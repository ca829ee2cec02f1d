/**
 * The application shell's reads and writes against the spreadsheet: loading the values,
 * appending a row, overwriting one row, and deleting a row by clearing the sheet and writing
 * back the rest. Each remote call is replaced by the result it settled to; each operation
 * yields the requests it issued, whether it then reloaded, and the alert it raised.
 */
module Mutations {
  import opened Wrappers
  import opened Sheet
  import DataTable
  import Controls

  /** The sheet (tab) every request addresses. */
  const SheetName: string := "inventory"

  /** An A1 range: a whole sheet, or the columns `fromColumn`..`toColumn` of one sheet row (1-based). */
  datatype Range =
    | Whole(sheet: string)
    | RowSpan(sheet: string, fromColumn: char, toColumn: char, sheetRow: int)

  /** A request to the values API. */
  datatype Request =
    | GetValues(range: Range)
    | AppendRow(range: Range, row: Row)
    | WriteRow(range: Range, cells: seq<Cell>)   // `values.update` with one row built in the browser
    | WriteAll(range: Range, rows: seq<Row>)     // `values.update` with the remaining fetched rows
    | ClearValues(range: Range)

  /** How an awaited write settled. */
  datatype Outcome = Done | Failed(message: string)

  /** What a mutation did: its requests in order, whether it called `loadData`, and its alert. */
  datatype Effects = Effects(requests: seq<Request>, reload: bool, alert: Option<string>)

  /** `response.result.values || []`: a response without values is an empty sheet. */
  function ValuesOf(values: Option<seq<Row>>): (r: seq<Row>)
    ensures values.None? ==> r == []
    ensures values.Some? ==> r == values.value
  {
    if values.Some? then values.value else []
  }

  /**
   * `loadData` once its request settled: success replaces the data wholesale, failure keeps it
   * and raises an alert.
   */
  function Load(data: seq<Row>, response: Result<Option<seq<Row>>>): (res: (seq<Row>, Option<string>))
    ensures response.Ok? ==> res == (ValuesOf(response.value), None)
    ensures response.Err? ==>
              res == (data, Some("Failed to load data from Google Sheet. " + response.message))
  {
    match response
    case Ok(values) => (ValuesOf(values), None)
    case Err(m) => (data, Some("Failed to load data from Google Sheet. " + m))
  }

  /** `values.filter((_, index) => index !== rowIndex)` on the entries from position `start` on. */
  function FilterIndex(values: seq<Row>, rowIndex: int, start: nat): (r: seq<Row>)
    ensures start <= rowIndex < start + |values| ==> |r| == |values| - 1
    ensures !(start <= rowIndex < start + |values|) ==> |r| == |values|
    decreases |values|
  {
    if values == [] then []
    else (if start == rowIndex then [] else [values[0]]) + FilterIndex(values[1..], rowIndex, start + 1)
  }

  /** Filtering by position removes exactly the entry at `rowIndex`, if there is one. */
  lemma {:induction false} FilterIndexDrops(values: seq<Row>, rowIndex: int, start: nat)
    ensures start <= rowIndex < start + |values| ==>
              FilterIndex(values, rowIndex, start) ==
              values[..rowIndex - start] + values[rowIndex - start + 1..]
    ensures !(start <= rowIndex < start + |values|) ==> FilterIndex(values, rowIndex, start) == values
    decreases |values|
  {
    if values != [] {
      FilterIndexDrops(values[1..], rowIndex, start + 1);
      if start == rowIndex {
        assert values[..0] + values[1..] == values[1..];
      } else if start < rowIndex < start + |values| {
        assert values[..rowIndex - start] == [values[0]] + values[1..][..rowIndex - start - 1];
        assert values[rowIndex - start + 1..] == values[1..][rowIndex - start..];
      } else {
        assert values == [values[0]] + values[1..];
      }
    }
  }

  /**
   * The rows `deleteRow` writes back: the fetched values with the entry at `rowIndex` removed
   * and the others in their order; nothing is removed when `rowIndex` is out of range.
   */
  function Without(values: seq<Row>, rowIndex: int): (r: seq<Row>)
    ensures 0 <= rowIndex < |values| ==> r == values[..rowIndex] + values[rowIndex + 1..]
    ensures 0 <= rowIndex < |values| ==> |r| == |values| - 1
    ensures !(0 <= rowIndex < |values|) ==> r == values
  {
    FilterIndexDrops(values, rowIndex, 0);
    FilterIndex(values, rowIndex, 0)
  }

  /** The rows `deleteRow` writes back, given what its read settled to. */
  function Remaining(fetched: Result<Option<seq<Row>>>, rowIndex: int): seq<Row>
    requires fetched.Ok?
  {
    Without(ValuesOf(fetched.value), rowIndex)
  }

  /**
   * `deleteRow`: read the values, clear the sheet, write the remaining rows back only if there
   * are any, then reload. The first failure raises an alert and skips everything after it,
   * the reload included.
   */
  function Delete(rowIndex: int, fetched: Result<Option<seq<Row>>>, clear: Outcome, rewrite: Outcome): (e: Effects)
    ensures |e.requests| >= 1 && e.requests[0] == GetValues(Whole(SheetName))
    ensures fetched.Err? ==> e.requests == [GetValues(Whole(SheetName))]
    ensures fetched.Ok? ==>
              e.requests[1..] ==
                [ClearValues(Whole(SheetName))] +
                (if clear.Done? && Remaining(fetched, rowIndex) != []
                 then [WriteAll(Whole(SheetName), Remaining(fetched, rowIndex))] else [])
    ensures e.reload <==>
              fetched.Ok? && clear.Done? && (Remaining(fetched, rowIndex) == [] || rewrite.Done?)
    ensures e.alert.None? <==> e.reload
  {
    match fetched
    case Err(m) => Effects([GetValues(Whole(SheetName))], false, Some("Failed to delete row. " + m))
    case Ok(values) =>
      var newValues := Without(ValuesOf(values), rowIndex);
      var issued := [GetValues(Whole(SheetName)), ClearValues(Whole(SheetName))];
      match clear
      case Failed(m) => Effects(issued, false, Some("Failed to delete row. " + m))
      case Done =>
        if |newValues| > 0 then
          var issued' := issued + [WriteAll(Whole(SheetName), newValues)];
          match rewrite
          case Failed(m) => Effects(issued', false, Some("Failed to delete row. " + m))
          case Done => Effects(issued', true, None)
        else
          Effects(issued, true, None)
  }

  /** The range `updateRow` writes: columns A to Z of sheet row `rowIndex + 1`. */
  function RowRange(rowIndex: int): (r: Range)
    ensures r.RowSpan? && r.sheet == SheetName && r.fromColumn == 'A' && r.toColumn == 'Z'
    ensures r.sheetRow - 1 == rowIndex
  {
    RowSpan(SheetName, 'A', 'Z', rowIndex + 1)
  }

  /** `updateRow`: one write of the row to sheet row `rowIndex + 1`, then a reload only if it succeeded. */
  function Update(rowIndex: int, cells: seq<Cell>, write: Outcome): (e: Effects)
    ensures e.requests == [WriteRow(RowSpan(SheetName, 'A', 'Z', rowIndex + 1), cells)]
    ensures e.reload <==> write.Done?
    ensures write.Failed? ==> e.alert == Some("Failed to update row. " + write.message)
    ensures write.Done? ==> e.alert.None?
  {
    var issued := [WriteRow(RowRange(rowIndex), cells)];
    match write
    case Done => Effects(issued, true, None)
    case Failed(m) => Effects(issued, false, Some("Failed to update row. " + m))
  }

  /** `addRow`: one append of the row to the sheet, then a reload only if it succeeded. */
  function Add(row: Row, append: Outcome): (e: Effects)
    ensures e.requests == [AppendRow(Whole(SheetName), row)]
    ensures e.reload <==> append.Done?
    ensures append.Failed? ==> e.alert == Some("Failed to add row. " + append.message)
    ensures append.Done? ==> e.alert.None?
  {
    var issued := [AppendRow(Whole(SheetName), row)];
    match append
    case Done => Effects(issued, true, None)
    case Failed(m) => Effects(issued, false, Some("Failed to add row. " + m))
  }

  /**
   * The table passes row index `r + 1` for its rendered row `r`; the write goes to sheet row
   * `r + 2` (1-based), which holds the fetched entry `data[r + 1]`, the rendered row `r`.
   */
  lemma TableEditTargetsItsRow(data: seq<Row>, r: nat, cells: seq<Cell>, write: Outcome)
    requires r < |DataTable.Rows(data)|
    ensures var e := Update(r + 1, cells, write);
            e.requests[0].range.sheetRow == r + 2 &&
            data[e.requests[0].range.sheetRow - 1] == DataTable.Rows(data)[r]
  {
  }

  /**
   * Deleting rendered row `r` against an unchanged sheet writes back the header and every
   * other row in order. As the header is always kept, a delete issued from the table always
   * rewrites the sheet; only a raw index 0 can leave it empty.
   */
  lemma TableDeleteKeepsHeader(data: seq<Row>, r: nat)
    requires r < |DataTable.Rows(data)|
    ensures var rows := DataTable.Rows(data);
            Without(data, r + 1) == [DataTable.Headers(data)] + rows[..r] + rows[r + 1..]
    ensures var e := Delete(r + 1, Ok(Some(data)), Done, Done);
            e.reload &&
            e.requests == [GetValues(Whole(SheetName)), ClearValues(Whole(SheetName)),
                           WriteAll(Whole(SheetName), Without(data, r + 1))]
  {
    var rows := DataTable.Rows(data);
    assert data[..r + 1] == [data[0]] + rows[..r];
    assert data[r + 2..] == rows[r + 1..];
  }

  /** Deleting the only entry of a one-entry sheet clears it and writes nothing back. */
  lemma DeleteLastEntryOnlyClears(row: Row)
    ensures var e := Delete(0, Ok(Some([row])), Done, Done);
            e.requests == [GetValues(Whole(SheetName)), ClearValues(Whole(SheetName))] && e.reload
  {
  }

  /** A non-empty form sends exactly one append of its seven cells, with the default email. */
  lemma FormAddAppendsOneRow(d: Controls.Draft, timestamp: string, append: Outcome)
    requires Controls.HasValue(d)
    ensures var (_, row) := Controls.Add(d, timestamp, Controls.DefaultEmail);
            row.Some? &&
            Add(row.value, append).requests == [AppendRow(Whole(SheetName), row.value)] &&
            |row.value| == 7 && row.value[1] == "email"
  {
  }
}
