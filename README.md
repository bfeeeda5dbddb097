# Multi-select table: selection and deletion controller

This project models the selection and deletion controller of the
`MultiSelectTable` React component, and proves properties about it. The
component lists rows (`DataItem`: id, name, category) owned by its parent. It
keeps five pieces of state:

- the set of selected ids (`selectedItems`);
- a bulk flag (`isBulkDelete`);
- whether the confirmation dialog is shown (`showConfirmDialog`);
- the text typed into that dialog (`confirmationText`);
- the row queued for a single delete (`itemToDelete`).

The user toggles rows, toggles "select all" or clears the selection. The user
then asks to delete one row or the selected rows, types a confirmation phrase
and confirms or cancels. A confirmed delete computes the new row list and
hands it to the parent through `onDataChange`.

Files and modules:

- `options.dfy` (`Options`): the `Option` datatype, standing for `T | null`
  and for the `undefined` that `find` returns.
- `text.dfy` (`Text`): `String.prototype.trim`. It strips the ECMAScript
  white-space and line-terminator code points from both ends. Lemmas pin it
  down independently of its code: the result has no white space at its ends,
  only white space was removed, the first two facts determine the result, and
  trimming twice changes nothing.
- `rows.dfy` (`Rows`): the `Row` datatype and the array computations of the
  component. These are the id set (`new Set(data.map(...))`), `data.find` by
  id and `data.filter` dropping a set of ids. Order preservation is stated with
  a `Subsequence` relation. The filter's output is proved to be the unique
  longest order-preserving selection of surviving rows.
- `selection.dfy` (`Selection`): the values derived on each render:
  `areAllItemsSelected`, the sets built by the two toggle handlers, and
  `isConfirmationValid`, with lemmas.
- `table.dfy` (`Table`): class `MultiSelectTable`. Its fields are the five
  pieces of state plus `data`, which stands for the parent's rows. Each
  handler is a method that changes only the fields the source handler sets.
  `Valid()` is the invariant every handler keeps: while the dialog is
  closed, nothing is pending, bulk is off and the text is empty.
- `scenarios.dfy` (`Scenarios`): runs of the class on the first five sample
  rows of the demo page, written as proofs.

One consequence the proofs make explicit: a row whose name begins or ends with
white space can never be deleted on its own. The typed text is trimmed before
the comparison, but the name is not (`Selection.UntrimmedNameNeverConfirms`).
The sample data has no such names.

Where the written description of the component and its code differ, the model
follows the code:

- Cancelling also turns the bulk flag off.
- Ids that name no row are tolerated in the selection. The code's handlers
  keep the selection within the rows' ids only when they are given ids of
  shown rows (`SelectionInData`, stated conditionally on each method).
- "Single" and "bulk" are a flag plus a nullable row, not a tagged variant.
  If the bulk flag is set, the bulk branch wins in both the validity check and
  the delete.

## Model

| member | source | states |
|---|---|---|
| `Text.TrimStartSpec` | components/MultiSelectTable.tsx:133-134 | leading-trim returns a suffix; what it dropped is all white space; it does not start with white space |
| `Text.TrimEndSpec` | components/MultiSelectTable.tsx:133-134 | trailing-trim returns a prefix; what it dropped is all white space; it does not end with white space |
| `Text.TrimNoEdgeSpace` | components/MultiSelectTable.tsx:133-134 | `trim()` leaves no white space at either end |
| `Text.TrimSplits` | components/MultiSelectTable.tsx:133-134 | the input is some white space, then the trimmed text, then some white space |
| `Text.TrimOfPadded` | components/MultiSelectTable.tsx:133-134 | any text without white space at its ends, padded by white space, trims to itself: with the two lemmas above this determines `trim()` |
| `Text.TrimIdempotent` | components/MultiSelectTable.tsx:133-134 | trimming twice is trimming once |
| `Rows.Ids` | components/MultiSelectTable.tsx:54 | an id is in the set exactly when some row has that id |
| `Rows.FindById` | components/MultiSelectTable.tsx:75 | `find` fails exactly when no row has the id; otherwise it returns a row with that id that stands at the first index carrying that id |
| `Rows.WithoutMembers` | components/MultiSelectTable.tsx:99 | the filter keeps exactly the rows whose id is not removed, and never grows the list |
| `Rows.WithoutIsSubsequence` | components/MultiSelectTable.tsx:69 | the surviving rows keep their relative order |
| `Rows.WithoutIsLargest` | components/MultiSelectTable.tsx:99 | every order-preserving choice of surviving rows is contained, in order, in the filter's output |
| `Rows.WithoutUnique` | components/MultiSelectTable.tsx:99 | the filter's output is the only order-preserving choice of surviving rows that is as long as it |
| `Rows.WithoutIds` | components/MultiSelectTable.tsx:99 | the ids left after filtering are the old ids minus the removed ones |
| `Rows.WithoutPrunes` | components/MultiSelectTable.tsx:104-112 | a selection within the old ids, minus the removed ids, lies within the new ids; no removed id survives |
| `Rows.WithoutIdempotent` | components/MultiSelectTable.tsx:69 | filtering again by the same ids changes nothing |
| `Selection.AllSelected` | components/MultiSelectTable.tsx:30 | true exactly when there are rows and every row id is selected; false for an empty table |
| `Selection.Toggled` | components/MultiSelectTable.tsx:37-45 | the toggled id flips membership; every other id keeps its own |
| `Selection.ToggleTwice` | components/MultiSelectTable.tsx:37-45 | toggling the same id twice restores the selection |
| `Selection.SelectAllToggled` | components/MultiSelectTable.tsx:48-57 | the result is empty or all current ids; only current ids are selected; the header box is checked afterwards exactly when it was not before and there are rows |
| `Selection.SelectAllTwice` | components/MultiSelectTable.tsx:48-57 | select-all twice from a selection that is not full ends empty |
| `Selection.SelectAllFromFullAndEmpty` | components/MultiSelectTable.tsx:48-57 | from a full selection select-all clears; from the empty selection it selects every current id |
| `Selection.ConfirmationValid` | components/MultiSelectTable.tsx:132-134 | confirmation can only be valid in bulk mode or with a row pending |
| `Selection.TrimMatchesIff` | components/MultiSelectTable.tsx:133-134 | trimmed text equals a phrase without edge white space exactly when the text is that phrase padded by white space |
| `Selection.BulkConfirmationIff` | components/MultiSelectTable.tsx:133 | in bulk mode the button is enabled exactly when the text is `DELETE`, in that case, padded only by white space |
| `Selection.SingleConfirmationIff` | components/MultiSelectTable.tsx:134 | in single mode the button is enabled exactly when the text is the pending row's name padded only by white space |
| `Selection.UntrimmedNameNeverConfirms` | components/MultiSelectTable.tsx:134 | a pending row whose name has white space at an end can never be confirmed |
| `Table.MultiSelectTable.constructor` | components/MultiSelectTable.tsx:19-27 | at mount nothing is selected or pending, the dialog is closed and the text is empty |
| `Table.MultiSelectTable.ToggleItemSelection` | components/MultiSelectTable.tsx:37-45 | the new selection is the old one with the id flipped; nothing else changes |
| `Table.MultiSelectTable.ToggleSelectAll` | components/MultiSelectTable.tsx:48-57 | the new selection is the select-all toggle of the current rows and the old selection |
| `Table.MultiSelectTable.ClearSelection` | components/MultiSelectTable.tsx:152 | the selection becomes empty; nothing else changes |
| `Table.MultiSelectTable.DeleteItem` | components/MultiSelectTable.tsx:64-71 | the parent's rows become the old rows without that id, and no remaining row has it |
| `Table.MultiSelectTable.HandleSingleDelete` | components/MultiSelectTable.tsx:74-81 | with no row of that id nothing changes; otherwise the first such row is pending, bulk is off and the dialog opens; rows, selection and text are untouched |
| `Table.MultiSelectTable.HandleBulkDeleteClick` | components/MultiSelectTable.tsx:84-87 | bulk is on and the dialog opens; nothing else changes |
| `Table.MultiSelectTable.SetConfirmationText` | components/MultiSelectTable.tsx:287 | while the dialog is shown, the text becomes what was typed |
| `Table.MultiSelectTable.CloseConfirmDialog` | components/MultiSelectTable.tsx:120-125 | dialog closed, text empty, nothing pending, bulk off; rows and selection untouched |
| `Table.MultiSelectTable.ExecuteDelete` | components/MultiSelectTable.tsx:90-117 | only callable while the dialog is open and the confirmation is valid; bulk: the parent gets the rows without the selected ids, in order, and the selection empties; single: it gets the rows without the pending id and the selection loses that id only; the dialog state is reset |
| `Table.MultiSelectTable.ApplyDeletion` | components/MultiSelectTable.tsx:91-113 | the two branches of the delete, on the rows and selection as they were when the handler started |
| `Scenarios.BulkFilterExample` | components/MultiSelectTable.tsx:99 | removing ids 002 and 004 from rows 001-005 leaves 001, 003, 005 |
| `Scenarios.SingleFilterExample` | components/MultiSelectTable.tsx:69 | removing id 005 from rows 001-005 leaves 001-004 |
| `Scenarios.FindEliteExample` | components/MultiSelectTable.tsx:75 | looking up 005 finds the Elite Innovations row |
| `Scenarios.ExactPhraseConfirmsBulk` | components/MultiSelectTable.tsx:133 | `DELETE` enables the bulk confirm |
| `Scenarios.PaddedPhraseConfirmsBulk` | components/MultiSelectTable.tsx:133 | `DELETE` with spaces before and a newline after also enables it |
| `Scenarios.LowerCasePhraseRejected` | components/MultiSelectTable.tsx:133 | `delete` does not enable it |
| `Scenarios.ExactNameConfirmsSingle` | components/MultiSelectTable.tsx:134 | `Elite Innovations` enables the single confirm of that row |
| `Scenarios.NamePrefixRejected` | components/MultiSelectTable.tsx:134 | `Elite Innovation` does not |
| `Scenarios.SelectAndRequestBulk` | components/MultiSelectTable.tsx:84-87 | selecting 002 and 004 and clicking bulk delete opens the bulk dialog with exactly those ids selected |
| `Scenarios.BulkDeleteRun` | components/MultiSelectTable.tsx:90-117 | typing `DELETE` and confirming leaves rows 001, 003, 005 and an empty selection |
| `Scenarios.SelectAndRequestElite` | components/MultiSelectTable.tsx:74-81 | selecting 005 and clicking its delete opens the single dialog with that row pending |
| `Scenarios.SingleDeleteRun` | components/MultiSelectTable.tsx:104-112 | typing the name and confirming leaves rows 001-004, and 005 is no longer selected |
| `Scenarios.CancelRestores` | components/MultiSelectTable.tsx:120-125 | opening either dialog, typing anything and cancelling leaves the rows and the selection exactly as they were |

## Left out

- Rendering (components/MultiSelectTable.tsx:136-314), class names and icons are presentation only. The model keeps just the facts that gate handlers: the input exists only while the dialog is shown, and the Delete button is disabled unless the confirmation is valid.
- The modal overlay is layout only, so it is not modelled. The request handlers can therefore be called while a dialog is already open. The component's code does not forbid it either.
- The 300 ms `setTimeout` delays (lines 66, 96) are left out. A confirm is one atomic step on the state as it was when the handler started. So the model does not capture a second confirm during the delay.
- React's batching of `useState` updates and its closure mechanics are not modelled beyond that snapshot.
- `onDataChange` is modelled as replacing the `data` field and as the value `ExecuteDelete` returns. The parent's own handling of it is not part of this model.
- White space for `trim`: the space separators are the Unicode `Zs` set as currently assigned. JS strings are UTF-16 code units, while Dafny `char` is a Unicode scalar value. For `trim` these agree, because every white-space code point is in the Basic Multilingual Plane.
- app/page.tsx holds only the sample data, the initial `slice(0, 15)` and page layout. Its first five rows appear in `Scenarios`.
- `ModernTableWithPagination` is not part of this model.
