/**
 * The values the table derives from its state on every render, and the
 * selection sets its handlers compute: `areAllItemsSelected`, the set built
 * by `toggleItemSelection` and `toggleSelectAll`, and `isConfirmationValid`.
 */
module Selection {
  import opened Options
  import opened Text
  import opened Rows

  /** The phrase a bulk delete must be confirmed with. */
  const BulkPhrase: string := "DELETE"

  /** `areAllItemsSelected`: `data.length > 0 && data.every(item => selectedItems.has(item.id))`. */
  function AllSelected(data: seq<Row>, selected: set<string>): (r: bool)
    ensures r <==> data != [] && Ids(data) <= selected
  {
    |data| > 0 && forall i :: 0 <= i < |data| ==> data[i].id in selected
  }

  /** The set `toggleItemSelection(id)` builds: `id` flips membership and
      every other id keeps its own. */
  function Toggled(selected: set<string>, id: string): (r: set<string>)
    ensures id in r <==> id !in selected
    ensures forall x :: x != id ==> (x in r <==> x in selected)
  {
    if id in selected then selected - {id} else selected + {id}
  }

  /** The set `toggleSelectAll` builds: empty when every row is selected,
      otherwise the ids of the current rows.  Afterwards the header box is
      checked exactly when it was not before (and there are rows), and the
      selection names only rows that exist. */
  function SelectAllToggled(data: seq<Row>, selected: set<string>): (r: set<string>)
    ensures AllSelected(data, r) <==> data != [] && !AllSelected(data, selected)
    ensures r <= Ids(data)
    ensures r == {} || r == Ids(data)
  {
    if AllSelected(data, selected) then
      assert data != [] ==> data[0].id in Ids(data);
      {}
    else
      Ids(data)
  }

  /** `isConfirmationValid`.  With no row pending and bulk off the source
      compares a string with `undefined`, which never holds. */
  function ConfirmationValid(bulk: bool, text: string, pending: Option<Row>): (v: bool)
    ensures v ==> bulk || pending.Some?
  {
    if bulk then Trim(text) == BulkPhrase
    else pending.Some? && Trim(text) == pending.value.name
  }

  /** Text padded with white space on either side. */
  ghost predicate Padded(text: string, core: string)
  {
    exists p, q :: AllSpace(p) && AllSpace(q) && text == p + core + q
  }

  /** The confirmation for `core` (a phrase without white space at its ends)
      accepts exactly `core` with any white space around it. */
  lemma TrimMatchesIff(text: string, core: string)
    requires NoEdgeSpace(core)
    ensures Trim(text) == core <==> Padded(text, core)
  {
    if Trim(text) == core {
      TrimSplits(text);
    }
    if Padded(text, core) {
      var p, q :| AllSpace(p) && AllSpace(q) && text == p + core + q;
      TrimOfPadded(p, core, q);
    }
  }

  /** Bulk mode: the confirm button is enabled exactly when the text is
      `DELETE`, in that case, with only white space around it. */
  lemma BulkConfirmationIff(text: string, pending: Option<Row>)
    ensures ConfirmationValid(true, text, pending) <==> Padded(text, BulkPhrase)
  {
    TrimMatchesIff(text, BulkPhrase);
  }

  /** Single mode: the confirm button is enabled exactly when the text is the
      pending row's name with only white space around it. */
  lemma SingleConfirmationIff(text: string, row: Row)
    requires NoEdgeSpace(row.name)
    ensures ConfirmationValid(false, text, Some(row)) <==> Padded(text, row.name)
  {
    TrimMatchesIff(text, row.name);
  }

  /** A row whose name starts or ends with white space can never be deleted
      on its own: no typed text trims to its name. */
  lemma UntrimmedNameNeverConfirms(text: string, row: Row)
    requires !NoEdgeSpace(row.name)
    ensures !ConfirmationValid(false, text, Some(row))
  {
    TrimNoEdgeSpace(text);
  }

  /** Toggling the same id twice restores the selection. */
  lemma ToggleTwice(selected: set<string>, id: string)
    ensures Toggled(Toggled(selected, id), id) == selected
  {
  }

  /** Toggling select-all twice from a selection that is not full ends with
      nothing selected. */
  lemma SelectAllTwice(data: seq<Row>, selected: set<string>)
    requires !AllSelected(data, selected)
    ensures SelectAllToggled(data, SelectAllToggled(data, selected)) == {}
  {
  }

  /** Select-all from a full selection clears it, and from the empty
      selection selects every current row. */
  lemma SelectAllFromFullAndEmpty(data: seq<Row>, selected: set<string>)
    ensures AllSelected(data, selected) ==> SelectAllToggled(data, selected) == {}
    ensures SelectAllToggled(data, {}) == Ids(data)
  {
  }
}
