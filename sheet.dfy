/** The shapes of spreadsheet data shared by the application shell and the table view. */
module Sheet {
  import opened Wrappers

  /** One row of cell values as the values API returns it; trailing empty cells are omitted. */
  type Row = seq<string>

  /**
   * One slot of a JavaScript array built in the browser: a string, or a hole / `undefined`
   * (`None`), which is what reading or writing past the end of an array produces.
   */
  type Cell = Option<string>

  /** Reading index `k` of a JavaScript array: `undefined` past the end. */
  function CellAt(s: seq<Cell>, k: nat): (c: Cell)
    ensures k < |s| ==> c == s[k]
    ensures k >= |s| ==> c.None?
  {
    if k < |s| then s[k] else None
  }

  /** The spread copy `[...row]` of a fetched row. */
  function Cells(row: Row): (r: seq<Cell>)
    ensures |r| == |row|
    ensures forall k :: 0 <= k < |row| ==> r[k] == Some(row[k])
  {
    seq(|row|, k requires 0 <= k < |row| => Some(row[k]))
  }
}
