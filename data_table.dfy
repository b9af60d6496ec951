/**
 * The uploaded-sheet table backed by Firestore: the versions listed latest
 * first, and status and name edits merged into the stored row documents,
 * which reach the table through the next snapshot of the rows collection.
 * Loading, filtering and the CSV export are those of `UploadSheet`.
 */
module DataTable {
  import opened Wrappers
  import opened Strings
  import opened Records
  import Lists
  import opened UploadSheet

  // ---------------------------------------------------------------- edits

  /**
   * `setDoc(..., { merge: true })` on the row document `rowId`: the document
   * is updated in place when it exists and created with only the written
   * fields otherwise (the new document is taken to arrive last).
   */
  function Merge(docs: seq<Upload>, field: Field, rowId: string, value: string, cells: seq<Option<string>>): seq<Upload> {
    if Stored(docs, rowId) then Edit(docs, field, rowId, value, cells)
    else docs + [Put(field, value, cells)(Upload(rowId, [], None, None))]
  }

  /**
   * After the merge and the snapshot it triggers, the edited row shows the
   * chosen value and its cells, every other row shows what it showed, and
   * the other drop-down shows what it showed on every row.
   */
  lemma {:induction false} MergeShown(docs: seq<Upload>, field: Field, rowId: string, value: string, cells: seq<Option<string>>, id: string)
    requires DistinctIds(docs)
    ensures DistinctIds(Merge(docs, field, rowId, value, cells))
    ensures Row(rowId, cells) in RowsOf(Merge(docs, field, rowId, value, cells))
    ensures Shown(Merge(docs, field, rowId, value, cells), field.Of(), id)
         == if id == rowId then value else Shown(docs, field.Of(), id)
    ensures Shown(Merge(docs, field, rowId, value, cells), field.Other().Of(), id)
         == Shown(docs, field.Other().Of(), id)
  {
    var r := Merge(docs, field, rowId, value, cells);
    var f, g := field.Of(), field.Other().Of();
    if Stored(docs, rowId) {
      EditShown(docs, field, rowId, value, cells, id);
    } else {
      var n := |docs|;
      assert r[n].id == rowId;
      assert RowsOf(r)[n] == Row(rowId, cells);
      if i :| 0 <= i < |docs| && docs[i].id == id {
        assert r[i] == docs[i];
        ShownAt(docs, f, i);
        ShownAt(docs, g, i);
        ShownAt(r, f, i);
        ShownAt(r, g, i);
      } else if id == rowId {
        ShownAbsent(docs, g, id);
        ShownAt(r, f, n);
        ShownAt(r, g, n);
      } else {
        assert forall i :: 0 <= i < |r| ==> r[i].id != id;
        ShownAbsent(docs, f, id);
        ShownAbsent(docs, g, id);
        ShownAbsent(r, f, id);
        ShownAbsent(r, g, id);
      }
    }
  }

  // ---------------------------------------------------------------- the page

  /**
   * The page's state: the listed versions, the selected one, the stored row
   * documents of that version in snapshot order, and the table built from
   * the last snapshot.
   */
  class FirestoreSheet {
    var versions: seq<string>
    var selected: string
    var docs: seq<Upload>
    var rows: seq<Row>
    var statuses: Assignments
    var names: Assignments

    constructor()
      ensures versions == [] && selected == "" && docs == []
      ensures rows == [] && statuses == map[] && names == map[]
    {
      versions, selected, docs := [], "", [];
      rows, statuses, names := [], map[], map[];
    }

    /**
     * `loadVersions`: the meta document ids sorted and reversed, so latest
     * first (they are ISO-8601 instants of one width); the first is chosen
     * when none is.
     */
    method LoadVersions(ids: seq<string>)
      modifies this
      ensures versions == SortedDescending(ids)
      ensures selected == AutoSelect(versions, old(selected))
      ensures docs == old(docs) && rows == old(rows) && statuses == old(statuses) && names == old(names)
    {
      versions := SortedDescending(ids);
      selected := AutoSelect(versions, selected);
    }

    /** The rows listener: the table rebuilt from the stored documents. */
    method OnSnapshot()
      modifies this
      ensures rows == RowsOf(docs)
      ensures statuses == MapOf(docs, StatusOf)
      ensures names == MapOf(docs, NameOf)
      ensures docs == old(docs) && versions == old(versions) && selected == old(selected)
    {
      rows, statuses, names := LoadRows(docs);
    }

    /**
     * `handleStatusChange`: only the stored document changes, when the
     * merge succeeds (`ok`); the table waits for the snapshot.
     */
    method HandleStatusChange(rowId: string, value: string, cells: seq<Option<string>>, ok: bool)
      modifies this
      ensures docs == if ok then Merge(old(docs), StatusField, rowId, value, cells) else old(docs)
      ensures rows == old(rows) && statuses == old(statuses) && names == old(names)
      ensures versions == old(versions) && selected == old(selected)
    {
      if ok {
        docs := Merge(docs, StatusField, rowId, value, cells);
      }
    }

    /** `handleNameChange`, the same for the assignee. */
    method HandleNameChange(rowId: string, value: string, cells: seq<Option<string>>, ok: bool)
      modifies this
      ensures docs == if ok then Merge(old(docs), NameField, rowId, value, cells) else old(docs)
      ensures rows == old(rows) && statuses == old(statuses) && names == old(names)
      ensures versions == old(versions) && selected == old(selected)
    {
      if ok {
        docs := Merge(docs, NameField, rowId, value, cells);
      }
    }
  }
}
