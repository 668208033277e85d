/**
 * The list screens for service categories and governorates share one behaviour:
 * rows held in component state, an edit dialog and a delete dialog opened for a
 * selected row, and a delete confirmation that asks the server to delete the
 * selected id and, when the server reports success, drops the rows with that id.
 */
module CrudTable {
  import opened Wrappers
  import opened Records

  /** What awaiting a server action gives: its answer, or an exception. */
  datatype CallOutcome<T> = Returned(value: T) | Threw

  /** How many rows carry the id `id`. */
  function CountId<T>(rows: seq<T>, idOf: T -> string, id: string): nat
    decreases |rows|
  {
    if |rows| == 0 then 0 else (if idOf(rows[0]) == id then 1 else 0) + CountId(rows[1..], idOf, id)
  }

  /** `rows.filter((r) => r.id !== id)` */
  function WithoutId<T>(rows: seq<T>, idOf: T -> string, id: string): (r: seq<T>)
    ensures |r| == |rows| - CountId(rows, idOf, id)
    ensures forall i :: 0 <= i < |r| ==> idOf(r[i]) != id
    ensures CountId(rows, idOf, id) == 0 ==> r == rows
    decreases |rows|
  {
    if |rows| == 0 then []
    else if idOf(rows[0]) == id then WithoutId(rows[1..], idOf, id)
    else [rows[0]] + WithoutId(rows[1..], idOf, id)
  }

  /**
   * The filter works row by row: over a concatenation it is the concatenation of
   * the filtered parts, so the surviving rows keep their order.
   */
  lemma {:induction false} WithoutIdAppend<T>(a: seq<T>, b: seq<T>, idOf: T -> string, id: string)
    ensures WithoutId(a + b, idOf, id) == WithoutId(a, idOf, id) + WithoutId(b, idOf, id)
    decreases |a|
  {
    if |a| > 0 {
      assert (a + b)[0] == a[0];
      assert (a + b)[1..] == a[1..] + b;
      WithoutIdAppend(a[1..], b, idOf, id);
    } else {
      assert a + b == b;
    }
  }

  /** One row survives exactly when its id differs. */
  lemma WithoutIdSingle<T>(x: T, idOf: T -> string, id: string)
    ensures WithoutId([x], idOf, id) == if idOf(x) == id then [] else [x]
  {
  }

  /** A row with another id survives, and no row is invented. */
  lemma {:induction false} WithoutIdMembers<T>(rows: seq<T>, idOf: T -> string, id: string, x: T)
    ensures x in WithoutId(rows, idOf, id) <==> x in rows && idOf(x) != id
    decreases |rows|
  {
    if |rows| > 0 {
      WithoutIdMembers(rows[1..], idOf, id, x);
      assert rows == [rows[0]] + rows[1..];
    }
  }

  /** Deleting the same id a second time changes nothing. */
  lemma WithoutIdIdempotent<T>(rows: seq<T>, idOf: T -> string, id: string)
    ensures WithoutId(WithoutId(rows, idOf, id), idOf, id) == WithoutId(rows, idOf, id)
  {
    var r := WithoutId(rows, idOf, id);
    assert CountId(r, idOf, id) == 0 by {
      CountIdZero(r, idOf, id);
    }
  }

  lemma {:induction false} CountIdZero<T>(rows: seq<T>, idOf: T -> string, id: string)
    requires forall i :: 0 <= i < |rows| ==> idOf(rows[i]) != id
    ensures CountId(rows, idOf, id) == 0
    decreases |rows|
  {
    if |rows| > 0 {
      CountIdZero(rows[1..], idOf, id);
    }
  }

  datatype TableDialog = CreateDialog | EditDialog | DeleteDialog

  /** The state of one list screen: its rows, which dialogs are open, and the selected row. */
  class ListTable<T(==)> {
    const idOf: T -> string
    var rows: seq<T>
    var open: set<TableDialog>
    var selected: Option<T>

    constructor(initial: seq<T>, idOf: T -> string)
      ensures this.idOf == idOf
      ensures rows == initial && open == {} && selected == None
    {
      this.idOf := idOf;
      rows := initial;
      open := {};
      selected := None;
    }

    /** `handleEdit`: select the row and open the edit dialog. */
    method HandleEdit(item: T)
      modifies this
      ensures selected == Some(item) && open == old(open) + {EditDialog} && rows == old(rows)
    {
      selected := Some(item);
      open := open + {EditDialog};
    }

    /** `handleDeletePrompt`: select the row and open the delete dialog. */
    method HandleDeletePrompt(item: T)
      modifies this
      ensures selected == Some(item) && open == old(open) + {DeleteDialog} && rows == old(rows)
    {
      selected := Some(item);
      open := open + {DeleteDialog};
    }

    /** A dialog's `onOpenChange`, its cancel button, or a form's `onSuccess` closing it. */
    method SetDialogOpen(dialog: TableDialog, isOpen: bool)
      modifies this
      ensures open == if isOpen then old(open) + {dialog} else old(open) - {dialog}
      ensures rows == old(rows) && selected == old(selected)
    {
      if isOpen {
        open := open + {dialog};
      } else {
        open := open - {dialog};
      }
    }

    /**
     * `confirmDelete`. `outcome` is what the delete action gives for the selected
     * id, which is returned as `requested`. Without a selection nothing happens.
     * An answer closes the delete dialog and clears the selection; only a
     * successful one removes rows. An exception escapes before either.
     */
    method ConfirmDelete(outcome: CallOutcome<ActionResult>) returns (requested: Option<string>)
      modifies this
      ensures old(selected).None? ==>
        requested == None && rows == old(rows) && open == old(open) && selected == old(selected)
      ensures old(selected).Some? ==> requested == Some(idOf(old(selected).value))
      ensures old(selected).Some? && outcome.Returned? ==>
        && rows == (if outcome.value.success then WithoutId(old(rows), idOf, requested.value) else old(rows))
        && open == old(open) - {DeleteDialog}
        && selected == None
      ensures outcome.Threw? ==> rows == old(rows) && open == old(open) && selected == old(selected)
    {
      if selected.None? {
        return None;
      }
      var id := idOf(selected.value);
      requested := Some(id);
      if outcome.Threw? {
        return;
      }
      if outcome.value.success {
        rows := WithoutId(rows, idOf, id);
      }
      open := open - {DeleteDialog};
      selected := None;
    }

    /** The id the update action is bound to: the selected row's, or "". */
    function BoundUpdateId(): (id: string)
      reads this
      ensures selected.None? ==> id == ""
      ensures selected.Some? ==> id == idOf(selected.value)
    {
      match selected
      case None => ""
      case Some(item) => idOf(item)
    }

    /** The "nothing to show" row appears exactly when the list is empty. */
    predicate ShowsEmptyState()
      reads this
    {
      |rows| == 0
    }
  }

  function CategoryId(c: Category): string {
    c.id
  }

  function GovernorateId(g: Governorate): string {
    g.id
  }
}
