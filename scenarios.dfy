/**
 * Runs of the controller on the first rows of the demo page's sample data,
 * written as proofs: what the user sees after each sequence of clicks.
 */
module Scenarios {
  import opened Options
  import opened Text
  import opened Rows
  import opened Selection
  import opened Table

  const Acme := Row("001", "Acme Corporation", "Technology")
  const Bright := Row("002", "Bright Solutions Inc", "Finance")
  const Creative := Row("003", "Creative Minds LLC", "Marketing")
  const Dynamic := Row("004", "Dynamic Systems", "Healthcare")
  const Elite := Row("005", "Elite Innovations", "Technology")

  const Sample: seq<Row> := [Acme, Bright, Creative, Dynamic, Elite]

  /** Deleting the rows 002 and 004 keeps the other three in order. */
  lemma BulkFilterExample()
    ensures Without(Sample, {"002", "004"}) == [Acme, Creative, Elite]
  {
    var ids := {"002", "004"};
    assert Without([Elite], ids) == [Elite];
    assert Without([Dynamic, Elite], ids) == [Elite];
    assert Without([Creative, Dynamic, Elite], ids) == [Creative, Elite];
    assert Without([Bright, Creative, Dynamic, Elite], ids) == [Creative, Elite];
  }

  /** Deleting row 005 on its own keeps the first four in order. */
  lemma SingleFilterExample()
    ensures Without(Sample, {"005"}) == [Acme, Bright, Creative, Dynamic]
  {
    var ids := {"005"};
    assert Without([Elite], ids) == [];
    assert Without([Dynamic, Elite], ids) == [Dynamic];
    assert Without([Creative, Dynamic, Elite], ids) == [Creative, Dynamic];
    assert Without([Bright, Creative, Dynamic, Elite], ids) == [Bright, Creative, Dynamic];
  }

  /** Looking up 005 finds the fifth row. */
  lemma FindEliteExample()
    ensures FindById(Sample, "005") == Some(Elite)
  {
    assert FindById([Elite], "005") == Some(Elite);
    assert FindById([Dynamic, Elite], "005") == Some(Elite);
    assert FindById([Creative, Dynamic, Elite], "005") == Some(Elite);
    assert FindById([Bright, Creative, Dynamic, Elite], "005") == Some(Elite);
  }

  lemma ExactPhraseConfirmsBulk()
    ensures ConfirmationValid(true, "DELETE", None)
  {
    TrimOfUnpadded("DELETE");
  }

  /** Surrounding white space is ignored. */
  lemma PaddedPhraseConfirmsBulk()
    ensures ConfirmationValid(true, "  DELETE\n", None)
  {
    assert "  DELETE\n" == "  " + "DELETE" + "\n";
    TrimOfPadded("  ", "DELETE", "\n");
  }

  /** The bulk phrase is case-sensitive. */
  lemma LowerCasePhraseRejected()
    ensures !ConfirmationValid(true, "delete", None)
  {
    TrimOfUnpadded("delete");
    assert "delete"[0] != BulkPhrase[0];
  }

  /** A single delete is enabled by the row's exact name ... */
  lemma ExactNameConfirmsSingle()
    ensures ConfirmationValid(false, "Elite Innovations", Some(Elite))
  {
    TrimOfUnpadded("Elite Innovations");
  }

  /** ... and not by a prefix of it. */
  lemma NamePrefixRejected()
    ensures !ConfirmationValid(false, "Elite Innovation", Some(Elite))
  {
    TrimOfUnpadded("Elite Innovation");
    assert |"Elite Innovation"| != |Elite.name|;
  }

  /** Select 002 and 004 and open the bulk dialog. */
  method SelectAndRequestBulk() returns (table: MultiSelectTable)
    ensures fresh(table) && table.Valid()
    ensures table.data == Sample && table.selected == {"002", "004"}
    ensures table.dialogOpen && table.bulk
  {
    table := new MultiSelectTable(Sample);
    table.ToggleItemSelection("002");
    table.ToggleItemSelection("004");
    assert table.selected == {"002", "004"};
    table.HandleBulkDeleteClick();
  }

  /** Then type DELETE and confirm: the parent receives rows 001, 003 and
      005 and nothing stays selected. */
  method BulkDeleteRun() returns (rows: seq<Row>, selection: set<string>)
    ensures rows == [Acme, Creative, Elite]
    ensures selection == {}
  {
    var table := SelectAndRequestBulk();
    table.SetConfirmationText("DELETE");
    ExactPhraseConfirmsBulk();
    rows := table.ExecuteDelete();
    BulkFilterExample();
    selection := table.selected;
  }

  /** Select 005 and ask to delete it on its own: the dialog opens in
      single mode with row 005 pending. */
  method SelectAndRequestElite() returns (table: MultiSelectTable)
    ensures fresh(table) && table.Valid()
    ensures table.data == Sample && table.selected == {"005"}
    ensures table.dialogOpen && !table.bulk && table.pending == Some(Elite)
  {
    table := new MultiSelectTable(Sample);
    table.ToggleItemSelection("005");
    assert table.selected == {"005"};
    assert Sample[4].id == "005";
    table.HandleSingleDelete("005");
    FindEliteExample();
  }

  /** Then type the row's name and confirm: row 005 is gone and the
      selection no longer names it. */
  method SingleDeleteRun() returns (rows: seq<Row>, selection: set<string>)
    ensures rows == [Acme, Bright, Creative, Dynamic]
    ensures selection == {}
  {
    var table := SelectAndRequestElite();
    table.SetConfirmationText("Elite Innovations");
    ExactNameConfirmsSingle();
    rows := table.ExecuteDelete();
    assert table.selected == {"005"} - {"005"};
    SingleFilterExample();
    selection := table.selected;
  }

  /** Opening either dialog and cancelling it leaves the rows and the
      selection exactly as they were. */
  method CancelRestores(table: MultiSelectTable, id: string, typed: string, useBulk: bool)
    requires table.Valid()
    modifies table
    ensures table.Valid() && !table.dialogOpen
    ensures table.data == old(table.data) && table.selected == old(table.selected)
  {
    if useBulk {
      table.HandleBulkDeleteClick();
    } else {
      table.HandleSingleDelete(id);
    }
    if table.dialogOpen {
      table.SetConfirmationText(typed);
    }
    table.CloseConfirmDialog();
  }
}
