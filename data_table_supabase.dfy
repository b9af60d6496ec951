/**
 * The uploaded-sheet table backed by Supabase. The versions come from the
 * backend already ordered, latest first. A status or name edit updates the
 * stored row, and it changes the page's own map whether or not that update
 * succeeded. Loading, filtering and the CSV export are those of
 * `UploadSheet`.
 */
module DataTableSupabase {
  import opened Wrappers
  import opened Records
  import opened UploadSheet

  /**
   * The page's state: the listed versions, the selected one, the stored
   * rows of that version in id order, and the table as last fetched and
   * then edited.
   */
  class SupabaseSheet {
    var versions: seq<string>
    var selected: string
    var stored: seq<Upload>
    var rows: seq<Row>
    var statuses: Assignments
    var names: Assignments

    /** The backend's rows are kept apart from the page's view of them. */
    constructor(stored: seq<Upload>)
      ensures this.stored == stored && versions == [] && selected == ""
      ensures rows == [] && statuses == map[] && names == map[]
    {
      this.stored := stored;
      versions, selected := [], "";
      rows, statuses, names := [], map[], map[];
    }

    /** `loadVersions`: the ids as received; the first is chosen when none is. */
    method LoadVersions(ids: seq<string>, ok: bool)
      modifies this
      ensures versions == (if ok then ids else old(versions))
      ensures selected == (if ok then AutoSelect(ids, old(selected)) else old(selected))
      ensures stored == old(stored) && rows == old(rows) && statuses == old(statuses) && names == old(names)
    {
      if ok {
        versions := ids;
        selected := AutoSelect(ids, selected);
      }
    }

    /** `fetchData`'s rows: the table rebuilt from the stored rows, unless the fetch failed. */
    method FetchRows(ok: bool)
      modifies this
      ensures ok ==> rows == RowsOf(stored) && statuses == MapOf(stored, StatusOf) && names == MapOf(stored, NameOf)
      ensures !ok ==> rows == old(rows) && statuses == old(statuses) && names == old(names)
      ensures stored == old(stored) && versions == old(versions) && selected == old(selected)
    {
      if ok {
        rows, statuses, names := LoadRows(stored);
      }
    }

    /** `handleStatusChange`: the stored row is updated if the write succeeds; the page's map always. */
    method HandleStatusChange(rowId: string, value: string, cells: seq<Option<string>>, ok: bool)
      modifies this
      ensures stored == (if ok then Edit(old(stored), StatusField, rowId, value, cells) else old(stored))
      ensures statuses == old(statuses)[rowId := Some(value)]
      ensures Assigned(statuses, rowId) == value
      ensures forall id :: id != rowId ==> Assigned(statuses, id) == Assigned(old(statuses), id)
      ensures rows == old(rows) && names == old(names) && versions == old(versions) && selected == old(selected)
    {
      if ok {
        stored := Edit(stored, StatusField, rowId, value, cells);
      }
      statuses := statuses[rowId := Some(value)];
    }

    /** `handleNameChange`, the same for the assignee. */
    method HandleNameChange(rowId: string, value: string, cells: seq<Option<string>>, ok: bool)
      modifies this
      ensures stored == (if ok then Edit(old(stored), NameField, rowId, value, cells) else old(stored))
      ensures names == old(names)[rowId := Some(value)]
      ensures Assigned(names, rowId) == value
      ensures forall id :: id != rowId ==> Assigned(names, id) == Assigned(old(names), id)
      ensures rows == old(rows) && statuses == old(statuses) && versions == old(versions) && selected == old(selected)
    {
      if ok {
        stored := Edit(stored, NameField, rowId, value, cells);
      }
      names := names[rowId := Some(value)];
    }
  }

  /**
   * When the page showed what is stored and the write to a stored row
   * succeeds, the page's edited map shows, for every row, what a fresh
   * fetch would show.
   */
  lemma EditedMatchesRefetch(stored: seq<Upload>, field: Field, local: Assignments, rowId: string, value: string, cells: seq<Option<string>>)
    requires DistinctIds(stored) && Stored(stored, rowId)
    requires forall id :: Assigned(local, id) == Shown(stored, field.Of(), id)
    ensures forall id :: Assigned(local[rowId := Some(value)], id) == Shown(Edit(stored, field, rowId, value, cells), field.Of(), id)
  {
    forall id ensures Assigned(local[rowId := Some(value)], id) == Shown(Edit(stored, field, rowId, value, cells), field.Of(), id) {
      EditShown(stored, field, rowId, value, cells, id);
    }
  }
}
