# processos: the record table's client logic, in Dafny

A browser page (`script.js`) shows a table of "process" records with the
columns P.C., fornecedor, modalidade, nº modalidade and info. The user can
filter the table by free text, add a record through a form, edit any cell
in place (the row is sent to the server when a cell loses focus) and delete
a record after confirming in an overlay. This project models the decisions
that page makes once the DOM and the network are taken away:

- **Filter** (`Filter.dfy`): `filterTable` as a loop over the rows' texts
  that yields a visibility flag per row, the visible count and the
  "no results" flag; the reset button.
- **Delete confirmation** (`DeleteModal.dfy`): a class holding
  `processToDeleteId` and the overlay's display flag, with
  `showDeleteModal`, `hideModal` and `deleteProcess` as methods.
- **Add** (`AddProcess.dfy`): trimming and validating the form, building the
  posted body, clearing the form after success.
- **Load** (`LoadProcesses.dfy`): the in-place sort by `parseInt(pc)` as an
  insertion sort on an array, the rendering of each record into a row, and
  the filter applied afterwards.
- **Update** (`UpdateProcess.dfy`): the body built from a row's five cells.
- **Shared pieces**: `JsText.dfy` (`toLowerCase`, `includes`, `trim` and the
  decimal case of `parseInt`), `Records.dfy` (records, JSON bodies as
  ordered member lists, rows and their text), `Wrappers.dfy` (`Option`).

The outcome of every request (accepted or not) is a boolean parameter; what
the page does afterwards (alert, reload, clear the form, close the overlay)
is part of each operation's result.

Two consequences of the code that the proofs make explicit:

- A row's text includes the delete button's label "Excluir" and the
  template's whitespace, so the query "excluir" keeps every row visible
  (`Filter.DeleteLabelMatchesEveryRow`).
- `deleteProcess` tests `!processToDeleteId`, which is also true for an
  empty-string id: such a confirmation sends nothing and the overlay stays
  open (`DeleteModal.DeleteConfirmation.DeleteProcess`).

Behaviour sometimes ascribed to this page but absent from `script.js` is not
modelled: there is no edit/cancel snapshot or rollback (a failed update
reloads the whole table), no upper-casing of `fornecedor`, and no
server-side CRUD (`server.js` only serves two static files).

## Model

| member | source | states |
|---|---|---|
| JsText.IncludesIffContains | script.js:185 | `includes` answers true exactly when the query occurs as a contiguous substring of the text, in both directions |
| JsText.TrimStart | script.js:91-95 | leading `trim`: the result is a suffix of the input, everything dropped is ECMAScript whitespace, and the result does not start with whitespace |
| JsText.TrimEnd | script.js:91-95 | trailing `trim`: the result is a prefix of the input, everything dropped is whitespace, and the result does not end with whitespace |
| JsText.TrimIsInfix | script.js:91-95 | a trimmed value is a contiguous piece of the input with only whitespace before and after it |
| JsText.TrimEdges | script.js:91-95 | a non-empty trimmed value neither starts nor ends with whitespace |
| JsText.TrimEmptyIff | script.js:97 | the trimmed value is empty exactly when the input is all whitespace |
| JsText.TrimIdempotent | script.js:91-95 | trimming twice gives the same as trimming once |
| JsText.LowerConcat | script.js:178 | lower-casing a concatenation lower-cases each part |
| JsText.ParseDecimalBounds | script.js:55 | a digit string of length n parses below 10^n, and at least 10^(n-1) without a leading zero |
| Records.ObjectOfLayout | script.js:102 | the object `{ pc, fornecedor, modalidade, numMod, info }` has exactly those five names in that order, each bound to its value, and no `id` |
| Records.Display | script.js:64-68 | a present field is shown as its value, a missing one as the empty string |
| Records.RenderRow | script.js:59-70 | a rendered row has five editable cells showing the record's fields in column order, and carries the record's id |
| Records.CellInCellsText | script.js:63-70 | each cell's text occurs whole inside the row's text |
| Filter.CountVisibleBounds | script.js:182-191 | the visible count never exceeds the number of rows; it is 0 exactly when no row is visible and equals the row count exactly when all are |
| Filter.FilterTable | script.js:177-194 | one flag per row, set exactly when the lower-cased row text contains the lower-cased query; the count is the number of set flags; "no results" is raised exactly when there are rows and none is visible |
| Filter.EmptyQueryMatchesEveryRow | script.js:185 | the empty query matches every row |
| Filter.ResetFilter | script.js:20-23 | the reset button empties the query; afterwards every row is visible, all are counted and "no results" is down |
| Filter.CellMatchShowsRow | script.js:185 | a query found, ignoring case, in any one cell keeps that cell's row visible |
| Filter.DeleteLabelMatchesEveryRow | script.js:69 | the delete button's label is part of every row's text, so "excluir" matches every row |
| DeleteModal.DeleteConfirmation.constructor | script.js:6 | the page starts with no pending id and the overlay hidden |
| DeleteModal.DeleteConfirmation.ShowDeleteModal | script.js:35-38 | opening the overlay sets the pending id to the given id and shows it |
| DeleteModal.DeleteConfirmation.HideModal | script.js:40-43 | closing the overlay resets the pending id to null and hides it |
| DeleteModal.DeleteConfirmation.DeleteProcess | script.js:127-143 | with a null, undefined or empty pending id nothing is sent and nothing changes; otherwise the delete goes to the pending id, success closes the overlay and reloads, failure alerts and closes it, and no id is pending afterwards |
| DeleteModal.ConfirmAfterShow | script.js:24-25 | opening then confirming sends exactly one delete, for the row's id; opening then cancelling makes a later confirm send nothing |
| AddProcess.AddProcess | script.js:90-125 | an empty trimmed P.C. alerts and posts nothing; otherwise the body holds exactly the five trimmed inputs under their names and no id; the form is cleared and the table reloaded only when the server accepts, otherwise the user is alerted and the form is kept |
| AddProcess.PostedPcIsTrimmedAndNonEmpty | script.js:91-100 | every posted P.C. is non-empty, free of surrounding whitespace and unchanged by trimming again; an all-whitespace P.C. is never posted |
| UpdateProcess.UpdateProcess | script.js:145-174 | the PUT goes to the row's id; its body holds the five cell texts under `pc, fornecedor, modalidade, numMod, info` in that order and no `id`; a failure alerts and reloads the table |
| UpdateProcess.UnchangedRowSendsRecord | script.js:146-155 | a rendered row sent before any edit carries the record's fields (missing ones as empty strings) and the record's id in the path, "undefined" when it had none |
| LoadProcesses.SortByPc | script.js:55 | the fetched array is rearranged in place into a permutation ordered by non-decreasing `parseInt(pc)` |
| LoadProcesses.ShorterPcSortsFirst | script.js:55 | order is numeric, not textual: a P.C. with fewer digits and no leading zero sorts first ("2" before "10") |
| LoadProcesses.LoadProcesses | script.js:54-80 | after loading, the records are a sorted permutation of those fetched, there is one row per record in that order, the P.C. column reads in non-decreasing numeric order, and the filter is applied to the new rows |

## Left out

- `server.js`: an Express application that serves `index.html` and `processos.json` as static files; it makes no decisions of its own.
- Network and asynchrony: `fetch`, HTTP statuses, JSON parsing and promise chaining are replaced by a boolean "the server accepted" parameter; the interleaving of a request with later user actions (for instance a second click while a delete is in flight) is not modelled, each operation completes at once. `API_URL` and `window.onload` are left out.
- The failure branch of `loadProcesses` (script.js:82-87), which writes an error text into the "no results" area and shows it, is left out with the rest of the network handling; the model has the "no results" flag but not its text.
- DOM details: `innerHTML` templating, `contenteditable`, `style.display`, event wiring (`setupEventListeners` is represented only by which operation each control runs), `alert` and `console` (alerts are a flag). Field values are inserted into the table as HTML; the model treats them as plain text, so a value containing markup or character references is outside it.
- `toLowerCase` is modelled for ASCII letters only; other characters are left unchanged, whereas JavaScript also lower-cases non-ASCII letters.
- `parseInt` is modelled only for non-empty strings of decimal digits (`LoadProcesses.AllNumericPc`, required by `LoadProcesses.LoadProcesses`); signs, leading whitespace, hexadecimal prefixes, trailing garbage and the NaN comparisons that a missing or non-numeric P.C. produces are outside the model, as is the loss of precision of numbers beyond 2^53.
- LoadProcesses.SortByPc: does not state that the sort is stable, although `Array.prototype.sort` keeps records with equal P.C. in their fetched order.
- A JSON `null` and a missing member are both `None`; for an id this gives the dataset text "undefined", where a `null` id would actually give "null".
