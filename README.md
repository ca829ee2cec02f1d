# Inventory sheet editor: a Dafny model of its core logic

The application is a browser front end over a Google spreadsheet. It signs the user in. It
loads the sheet's values, shows them in a table whose visible columns can be toggled, and
lets the user add, edit and delete rows. Every 30 seconds it checks whether the sheet was
modified.

This project models the logic underneath the markup and the remote calls:

- **Polling synchroniser** (`polling.dfy`, module `Polling`). `src/App.js` keeps two refs:
  the interval handle and the last seen modification token. `startAutoRefresh` always stops
  the old interval before creating a new one, and `stopAutoRefresh` is guarded.
  `checkForUpdates` reloads when the stored token is falsy or differs from the fetched one.
  A failed check schedules a one-shot retry, which re-checks only if an interval handle is
  still stored. The pure `Poller` state and its functions (`Start`, `Stop`, `Check`, `Retry`)
  say what each operation does. The class `Synchronizer` holds the same state in mutable
  fields, and each of its methods is proved to perform exactly that transition. The model
  also tracks the browser's side: the set of intervals registered and not yet cleared, and
  the number of retries scheduled and not yet fired. So "no interval leaks" is a statement
  about the model and not only about the stored handle.
- **Remote writes** (`mutations.dfy`, module `Mutations`). These are `loadData`, `addRow`,
  `updateRow` and `deleteRow`. Each remote call is replaced by the result it settled to. Each
  operation returns the requests it issued, whether it then called `loadData`, and the alert
  it raised.
- **Table view** (`data_table.dfy`, module `DataTable`). It splits the values into header and
  rows and computes the default visible columns. It toggles columns, keeping the list sorted.
  It edits the draft, and on save merges the draft into a copy of the full row. Only visible
  indices are overwritten; the loop that does this is the method `MergeEdit`.
- **Add-row form** (`controls.dfy`, module `Controls`). It holds five fields, each with a value
  and a placeholder. Add is guarded by "some value is non-empty". It emits a seven-cell row
  and then clears the values.

`wrappers.dfy` defines `Option` and `Result`. `sheet.dfy` defines rows and cells. A `Cell` is
`Option<string>`, because arrays built in the browser can have holes or `undefined` entries.

Where one might expect otherwise, the model follows the code:

- A mutation reloads only after its remote writes succeed, because `loadData()` sits inside
  the `try` after the `await`. It does not reload unconditionally.
- `save` copies `draft[colIndex]` as it is. A visible column past the end of the row
  therefore produces an absent cell, not an empty string (`DataTable.UnchangedDraftPastRowEnd`).
- A retry that fails again schedules another retry (`Polling.Retry`).
- The retry guard asks whether *any* handle is stored. A retry left over from before a stop
  therefore becomes active again once a later sign-in starts a new interval.
- The stored token is tested for JavaScript truthiness. A token that is absent from the
  metadata response, or empty, is never "set", so every tick then reloads
  (`Polling.MissingTokenReloadsEveryTick`).
- The table passes row index `r + 1` for its rendered row `r`. `deleteRow` filters that
  index out of the freshly fetched values, which still include the header. A delete issued
  from the table therefore always keeps the header and always rewrites the sheet.

## Model

| member | source | states |
|---|---|---|
| `Polling.Changed` | src/App.js:118-121 | no reload happens only when a set token is stored and the fetched token equals it; an absent or empty fetched token always reloads |
| `Polling.Stop` | src/App.js:98-104 | stopping leaves no handle; with no handle it changes nothing (idempotent); it clears exactly the stored interval and keeps the token and pending retries |
| `Polling.Start` | src/App.js:86-96 | starting stores a fresh handle; the previous interval is cleared first, so from a consistent state exactly one interval is registered, and it is the new one |
| `Polling.Check` | src/App.js:107-144 | with a set token equal to the fetched one: no reload, state unchanged; with an unset token or a different fetched one: one reload and the fetched token stored; on failure: exactly one retry scheduled, nothing else changed |
| `Polling.Retry` | src/App.js:137-142 | a firing retry is used up; with no handle stored it does nothing else; otherwise it re-checks, and a failed re-check schedules another retry |
| `Polling.Step` | src/App.js:52-104 | a sign-in change loads iff signed in and starts or stops polling; sign-out and unmount stop without loading; a tick with no stored interval does nothing; a retry with no handle never reloads; a tick or retry reloads only when the stored token was unset or is replaced |
| `Polling.StepConsistent` | src/App.js:52-104 | every event (client ready, sign-in change, sign-out, unmount, tick, retry) keeps "one interval registered exactly when one handle is stored" |
| `Polling.AtMostOneInterval` | src/App.js:86-104 | after any sequence of events at most one interval is registered with the browser |
| `Polling.RetriesInertWhileStopped` | src/App.js:137-142 | after a stop, pending retries that fire only use themselves up and trigger no reload |
| `Polling.StableTokenReloadsOnce` | src/App.js:117-125 | while the sheet keeps one non-empty token, ticks reload at most once, and never once it is stored |
| `Polling.MissingTokenReloadsEveryTick` | src/App.js:115-125 | with no usable token in the response, every tick reloads |
| `Polling.Synchronizer.constructor` | src/App.js:19-25 | the refs start empty: no handle, no token, signed out, no error |
| `Polling.Synchronizer.StopAutoRefresh` | src/App.js:98-104 | performs `Stop` on the fields; sign-in state untouched |
| `Polling.Synchronizer.StartAutoRefresh` | src/App.js:86-96 | performs `Start` on the fields; from a consistent state exactly one interval remains |
| `Polling.Synchronizer.CheckForUpdates` | src/App.js:107-144 | performs `Check` on the fields and returns its outcome |
| `Polling.Synchronizer.RetryFires` | src/App.js:137-142 | performs `Retry` on the fields and returns its outcome |
| `Polling.Synchronizer.OnSignInChanged` | src/App.js:52-60 | `true`: records sign-in, requests a load and (re)starts; `false`: records sign-out and stops |
| `Polling.Synchronizer.SignOut` | src/App.js:178-185 | stops the interval before signing out; nothing else changes |
| `Polling.Synchronizer.SignIn` | src/App.js:167-176 | a sign-in call that throws synchronously records its message, or "Failed to sign in" when empty; a call that returns (its promise is not awaited) changes nothing; polling untouched |
| `Polling.Synchronizer.Initialize` | src/App.js:27-75 | on success records the sign-in state, clears the error, and when signed in requests a load and starts; on failure records the message or "Failed to initialize Google API" and changes nothing else |
| `Mutations.ValuesOf` | src/App.js:153 | a response without values reads as an empty sheet; present values are used as they are |
| `Mutations.Load` | src/App.js:146-161 | success replaces the data with the returned values, or `[]` when absent; failure keeps the data and raises an alert |
| `Mutations.FilterIndex` | src/App.js:230 | the positional filter drops exactly one entry when `rowIndex` is in range and none otherwise |
| `Mutations.FilterIndexDrops` | src/App.js:230 | filtering by position removes exactly the entry at `rowIndex` when it is in range and nothing otherwise |
| `Mutations.Without` | src/App.js:227-230 | the new values are the fetched ones with exactly the entry at `rowIndex` removed and the others in order; the length drops by one iff `rowIndex` is in range |
| `Mutations.Delete` | src/App.js:219-253 | requests are a read; if it succeeded, a clear; if that succeeded and rows remain, one rewrite of exactly the remaining rows; it reloads iff every issued call succeeded, and alerts otherwise |
| `Mutations.RowRange` | src/App.js:205 | the update range spans columns A to Z of the 1-based sheet row `rowIndex + 1` of the inventory sheet |
| `Mutations.Update` | src/App.js:203-217 | one write to columns A to Z of sheet row `rowIndex + 1`; reloads iff it succeeded, and alerts otherwise |
| `Mutations.Add` | src/App.js:187-201 | one append of the row; reloads iff it succeeded, and alerts otherwise |
| `Mutations.TableEditTargetsItsRow` | src/App.js:205 | saving rendered row `r` (index `r + 1`) writes sheet row `r + 2`, which holds `data[r + 1]`, the rendered row `r` |
| `Mutations.TableDeleteKeepsHeader` | src/App.js:227-246 | deleting rendered row `r` writes back the header and all other rows in order, so a delete from the table always issues the rewrite |
| `Mutations.DeleteLastEntryOnlyClears` | src/App.js:239-246 | removing the only entry clears the sheet and issues no rewrite |
| `Mutations.FormAddAppendsOneRow` | src/components/Controls.js:28-38 | a non-empty form leads to exactly one append of its seven cells, with email "email" |
| `DataTable.Headers` | src/components/DataTable.js:15 | the header is the first fetched row, or empty when nothing was fetched |
| `DataTable.Rows` | src/components/DataTable.js:16 | the rows are the fetched rows after the header, in order, one fewer than fetched |
| `DataTable.HeaderRowsSplit` | src/components/DataTable.js:15-16 | the header is `data[0]` or empty; the header followed by the rows is the fetched data |
| `DataTable.ShownBelow` | src/components/DataTable.js:22-29 | the shown indices below `n` are strictly ascending and are exactly those whose header is neither "Timestamp" nor "Email Address" |
| `DataTable.DefaultColumns` | src/components/DataTable.js:22-29 | the default visible columns are strictly ascending and contain exactly the indices of headers other than "Timestamp" and "Email Address" |
| `DataTable.EffectiveColumns` | src/components/DataTable.js:19-35 | with no selected columns, a header and nothing visible, the defaults; given selected columns (even empty), those; otherwise unchanged |
| `DataTable.EffectSettles` | src/components/DataTable.js:19-35 | running the initialising effect again changes nothing |
| `DataTable.AllToggledOffRestoresDefaults` | src/components/DataTable.js:20-31 | when toggling empties the list, the effect restores the default columns |
| `DataTable.Insert` | src/components/DataTable.js:60 | inserting into an ascending list keeps it ascending and adds exactly one occurrence |
| `DataTable.SortAscending` | src/components/DataTable.js:60 | the numeric sort yields an ascending permutation of its input |
| `DataTable.Remove` | src/components/DataTable.js:58 | filtering out a column keeps an ascending list ascending and a strictly ascending one strictly ascending, and never lowers the head |
| `DataTable.RemoveCounts` | src/components/DataTable.js:58 | filtering removes every occurrence of the column and keeps every other entry |
| `DataTable.Toggle` | src/components/DataTable.js:55-63 | toggling flips the column's membership and no other column's; an added column leaves the list ascending with one more occurrence |
| `DataTable.ToggleKeepsStrict` | src/components/DataTable.js:55-63 | toggling preserves "sorted ascending with no duplicates" |
| `DataTable.ToggleTwice` | src/components/DataTable.js:55-63 | toggling the same column twice restores a strictly ascending list |
| `DataTable.HideThenShow` | src/components/DataTable.js:55-63 | hiding a visible column and showing it again restores a strictly ascending list |
| `DataTable.ShowThenHide` | src/components/DataTable.js:55-63 | showing a hidden column and hiding it again restores an ascending list |
| `DataTable.StaysStrict` | src/components/DataTable.js:19-63 | through any run of renders (with any header) and toggles, the visible columns stay sorted ascending without repetition |
| `DataTable.SetAt` | src/components/DataTable.js:39 | array assignment sets index `i`, keeps every other index, and grows the array with holes when `i` is past the end |
| `DataTable.ChangeCell` | src/components/DataTable.js:37-41 | `handleChange` changes only index `col` of the draft; every other draft index is unchanged |
| `DataTable.Merged` | src/components/DataTable.js:46-49 | the saved row holds the draft's cell at each visible index and the original cell at every other index |
| `DataTable.MergeEdit` | src/components/DataTable.js:46-49 | the in-place `forEach` loop over the copied row computes the merged row |
| `DataTable.UnchangedDraftKeepsRow` | src/components/DataTable.js:46-49 | merging an unedited draft returns the original row when every visible index lies inside it |
| `DataTable.UnchangedDraftPastRowEnd` | src/components/DataTable.js:48 | a visible index past the row's end makes the saved row longer, with an absent cell there |
| `DataTable.BeginEdit` | src/components/DataTable.js:194-197 | starting an edit of rendered row `r` sets the edit index to `r + 1` and the draft to a copy of the row, discarding any earlier draft |
| `DataTable.Save` | src/components/DataTable.js:43-53 | save calls `onUpdate` once with the edit index and the merged row, then leaves edit mode; hidden cells keep their values; if the row is gone nothing is sent |
| `DataTable.EditThenSaveUnchanged` | src/components/DataTable.js:194-197 | editing a row and saving without changes sends that row back unchanged |
| `DataTable.ChangedCellIsSaved` | src/components/DataTable.js:37-53 | a value typed into a visible column is what save sends at that column |
| `DataTable.HandleDelete` | src/components/DataTable.js:65-68 | clears the pending confirmation and calls `onDelete` once with the same row index |
| `DataTable.DefaultColumnsExample` | src/components/DataTable.js:20-31 | header Timestamp, Email Address, Style, Qty gives default columns [2, 3] |
| `DataTable.SaveExample` | src/components/DataTable.js:37-49 | with visible columns [2, 3], changing Qty to "9" saves ["t1", "e1", "A", "9"] |
| `Sheet.CellAt` | src/components/DataTable.js:48 | reading an index inside the array gives its cell; past the end it gives `undefined` |
| `Sheet.Cells` | src/components/DataTable.js:46 | the spread copy of a fetched row has its length and holds each of its strings at the same index |
| `Controls.InitialDraft` | src/components/Controls.js:4-10 | the five fields start empty, each with its fixed placeholder |
| `Controls.HandleChange` | src/components/Controls.js:12-20 | sets only that field's value; its placeholder and the other fields are unchanged |
| `Controls.HasValue` | src/components/Controls.js:24 | the add guard holds exactly when clearing the form would change it |
| `Controls.HasValueIsSome` | src/components/Controls.js:24 | the guard holds iff some field's value is non-empty |
| `Controls.Cleared` | src/components/Controls.js:41-47 | every value becomes empty and every placeholder is kept |
| `Controls.Add` | src/components/Controls.js:22-49 | with all values empty nothing is emitted and the draft is unchanged; otherwise exactly 7 cells are emitted in the order timestamp, email, style, quantity, color, size, box number, and the values are cleared |
| `Controls.AddTwiceAddsOnce` | src/components/Controls.js:22-49 | after an add, a second add emits nothing |
| `Controls.TypedValueIsAdded` | src/components/Controls.js:12-38 | typing a non-empty value into any field of a fresh form makes add emit a row carrying it |

## Left out

- The Google API client: loading, initialisation, sign-in and sign-out, and the values and
  metadata requests. They are foreign library calls. Each awaited call is replaced by the
  result it settled to, passed as a parameter.
- The promises returned by `signIn()` and `signOut()` (src/App.js:169-171, 181) are not
  awaited. A rejection, such as a closed sign-in popup, escapes the `try` uncaught and changes
  no state; `Polling.Synchronizer.SignIn(None)` models that case. Only a synchronous throw is
  recorded as an error.
- Real timers and durations (the 30 s interval, the 60 s retry delay). Ticks and retry
  firings are explicit events, so no bound on the number of checks in flight over time is
  modelled.
- Asynchronous interleaving. A check's request and its effect form one step. So are a
  mutation's awaited calls. Races between concurrent reloads are not modelled. Neither is a
  concurrent writer between the clear and the rewrite of a delete. Neither is a reload
  between rendering a row index and using it in save or delete.
- The `loadData` calls that the synchroniser and the mutations trigger are returned as flags.
  Their own outcome is modelled separately by `Mutations.Load`. `refreshData` is only a call
  to `loadData`.
- The loading and refreshing flags and the timestamp of `new Date()`, which is an input
  parameter of the form's add. Console output, `window.location` and all rendering are left
  out too.
- The column selector's show/hide switch, and the buttons that set or cancel a pending delete
  confirmation. They only set one state variable.
- Ranges stay structured values (`Mutations.Range`). They are not rendered to the A1 text
  `inventory!A<n>:Z<n>`.
- src/components/Login.js: presentation with a single button callback.
