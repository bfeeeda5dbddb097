/**
 * The selection and deletion controller of the `MultiSelectTable`
 * component.  Each field is one piece of component state; `data` stands for
 * the rows the parent owns, which the component replaces only through its
 * `onDataChange` callback.  Each handler is one atomic method.
 */
module Table {
  import opened Options
  import opened Text
  import opened Rows
  import opened Selection

  class MultiSelectTable {
    var selected: set<string>   // selectedItems
    var bulk: bool              // isBulkDelete
    var dialogOpen: bool        // showConfirmDialog
    var text: string            // confirmationText
    var pending: Option<Row>    // itemToDelete
    var data: seq<Row>          // the parent's rows

    /** While the dialog is closed nothing is pending and the input is empty:
        every path that closes the dialog resets the other three. */
    ghost predicate Valid()
      reads this
    {
      !dialogOpen ==> text == "" && pending == None && !bulk
    }

    /** No selected id is stale: each names a row currently shown. */
    ghost predicate SelectionInData()
      reads this
    {
      selected <= Ids(data)
    }

    /** Mounting the component: every piece of state at its initial value. */
    constructor (rows: seq<Row>)
      ensures Valid() && SelectionInData()
      ensures selected == {} && !bulk && !dialogOpen && text == "" && pending == None
      ensures data == rows
    {
      selected := {};
      bulk := false;
      dialogOpen := false;
      text := "";
      pending := None;
      data := rows;
    }

    /** `toggleItemSelection`: copy the set, then delete or add `id`. */
    method ToggleItemSelection(id: string)
      requires Valid()
      modifies this`selected
      ensures Valid()
      ensures selected == Toggled(old(selected), id)
      ensures old(SelectionInData()) && (id in old(selected) || id in Ids(data)) ==> SelectionInData()
    {
      var newSelection := selected;
      if id in newSelection {
        newSelection := newSelection - {id};
      } else {
        newSelection := newSelection + {id};
      }
      selected := newSelection;
    }

    /** `toggleSelectAll`. */
    method ToggleSelectAll()
      requires Valid()
      modifies this`selected
      ensures Valid() && SelectionInData()
      ensures selected == SelectAllToggled(data, old(selected))
    {
      if AllSelected(data, selected) {
        selected := {};
      } else {
        selected := Ids(data);
      }
    }

    /** The Clear Selection button. */
    method ClearSelection()
      requires Valid()
      modifies this`selected
      ensures Valid() && SelectionInData()
      ensures selected == {}
    {
      selected := {};
    }

    /** The data part of `deleteItem`: hand the parent the rows without `id`. */
    method DeleteItem(id: string)
      modifies this`data
      ensures data == Without(old(data), {id})
      ensures id !in Ids(data)
    {
      var newData := Without(data, {id});
      WithoutIds(data, {id});
      data := newData;
    }

    /** `handleSingleDelete`: a silent no-op when no row has `id`; otherwise
        queue the first such row and open the dialog in single mode. */
    method HandleSingleDelete(id: string)
      requires Valid()
      modifies this`pending, this`bulk, this`dialogOpen
      ensures Valid()
      ensures id !in Ids(data) ==>
        pending == old(pending) && bulk == old(bulk) && dialogOpen == old(dialogOpen)
      ensures id in Ids(data) ==>
        pending == FindById(data, id) && pending.Some? && pending.value.id == id &&
        !bulk && dialogOpen
    {
      var item := FindById(data, id);
      if item.None? {
        return;
      }
      pending := item;
      bulk := false;
      dialogOpen := true;
    }

    /** `handleBulkDeleteClick`: open the dialog in bulk mode. */
    method HandleBulkDeleteClick()
      requires Valid()
      modifies this`bulk, this`dialogOpen
      ensures Valid()
      ensures bulk && dialogOpen
    {
      bulk := true;
      dialogOpen := true;
    }

    /** Typing into the confirmation input, which only exists while the
        dialog is shown. */
    method SetConfirmationText(t: string)
      requires Valid() && dialogOpen
      modifies this`text
      ensures Valid()
      ensures text == t
    {
      text := t;
    }

    /** `closeConfirmDialog`, also the Cancel button: close the dialog and
        reset the input and the pending deletion; rows and selection stay. */
    method CloseConfirmDialog()
      modifies this`dialogOpen, this`text, this`pending, this`bulk
      ensures Valid()
      ensures !dialogOpen && text == "" && pending == None && !bulk
    {
      dialogOpen := false;
      text := "";
      pending := None;
      bulk := false;
    }

    /** `executeDelete`, run when the enabled Delete button of the dialog is
        pressed: apply the pending deletion, then close the dialog.
        `proposed` is what `onDataChange` receives. */
    method ExecuteDelete() returns (proposed: seq<Row>)
      requires Valid() && dialogOpen && ConfirmationValid(bulk, text, pending)
      modifies this`data, this`selected, this`dialogOpen, this`text, this`pending, this`bulk
      ensures Valid() && !dialogOpen
      ensures data == proposed
      ensures old(bulk) ==> proposed == Without(old(data), old(selected)) && selected == {}
      ensures !old(bulk) ==>
        proposed == Without(old(data), {old(pending).value.id}) &&
        selected == old(selected) - {old(pending).value.id}
      ensures old(SelectionInData()) ==> SelectionInData()
    {
      proposed := ApplyDeletion();
      CloseConfirmDialog();
    }

    /** The two branches of `executeDelete` before the dialog closes.  The
        rows and the selection are read once, as the handler's closure sees
        them. */
    method ApplyDeletion() returns (proposed: seq<Row>)
      requires bulk || pending.Some?
      modifies this`data, this`selected
      ensures data == proposed
      ensures bulk ==> proposed == Without(old(data), old(selected)) && selected == {}
      ensures !bulk ==>
        proposed == Without(old(data), {pending.value.id}) &&
        selected == old(selected) - {pending.value.id}
      ensures old(SelectionInData()) ==> SelectionInData()
    {
      var snapshotData, snapshotSelected := data, selected;
      if bulk {
        var selectedIds := snapshotSelected;
        proposed := Without(snapshotData, selectedIds);
        data := proposed;
        selected := {};
      } else if pending.Some? {
        var id := pending.value.id;
        DeleteItem(id);
        proposed := data;
        if id in snapshotSelected {
          var newSelection := snapshotSelected;
          newSelection := newSelection - {id};
          selected := newSelection;
        }
        if snapshotSelected <= Ids(snapshotData) {
          WithoutPrunes(snapshotData, snapshotSelected, {id});
        }
      }
    }
  }
}
