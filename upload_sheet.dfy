/**
 * What the two uploaded-sheet tables share, the one backed by Supabase and
 * the one backed by Firestore: loading a version's rows with their status
 * and assignee, the four row filters, and the CSV export of the rows that
 * pass them.
 */
module UploadSheet {
  import opened Wrappers
  import opened Strings
  import opened Records
  import Lists

  /** The choices of the two drop-downs on every row. */
  const StatusOptions: seq<string> := ["Completed", "Extended", "Drop off", "Not Answered", "Call Back", "Other"]
  const NameOptions: seq<string> := ["Ayesha", "Harshetha", "Shahid", "Nithesh", "Yousuff", "Rafiqul", "Other"]

  /** The status filter's choice for rows without a status. */
  const NotSelected: string := "__not_selected__"

  /** A row as the table holds it: the status and name live in separate maps. */
  datatype Row = Row(id: string, cells: seq<Option<string>>)

  /** `statuses` or `names`: row id to the value stored with that row. */
  type Assignments = map<string, Option<string>>

  /** `m[id] || ""`. */
  function Assigned(m: Assignments, id: string): string {
    if id in m && Truthy(m[id]) then m[id].value else ""
  }

  // ---------------------------------------------------------------- loading

  function StatusOf(d: Upload): Option<string> { d.status }
  function NameOf(d: Upload): Option<string> { d.name }

  /** `map[doc.id] = field(doc)` for every document in order: a later duplicate id wins. */
  function MapOf(docs: seq<Upload>, field: Upload -> Option<string>): Assignments
    decreases |docs|
  {
    if |docs| == 0 then map[]
    else MapOf(docs[..|docs| - 1], field)[docs[|docs| - 1].id := field(docs[|docs| - 1])]
  }

  function RowsOf(docs: seq<Upload>): seq<Row> {
    seq(|docs|, i requires 0 <= i < |docs| => Row(docs[i].id, docs[i].cells))
  }

  /** The map's ids are the documents' ids. */
  lemma {:induction false} MapOfKeys(docs: seq<Upload>, field: Upload -> Option<string>)
    ensures forall id :: id in MapOf(docs, field) <==> exists i :: 0 <= i < |docs| && docs[i].id == id
    decreases |docs|
  {
    if |docs| > 0 {
      var n := |docs| - 1;
      MapOfKeys(docs[..n], field);
      forall id | id in MapOf(docs, field)
        ensures exists i :: 0 <= i < |docs| && docs[i].id == id
      {
        if id != docs[n].id {
          assert id in MapOf(docs[..n], field);
          var i :| 0 <= i < n && docs[..n][i].id == id;
          assert docs[i].id == id;
        }
      }
      forall id | exists i :: 0 <= i < |docs| && docs[i].id == id
        ensures id in MapOf(docs, field)
      {
        var i :| 0 <= i < |docs| && docs[i].id == id;
        if i < n {
          assert docs[..n][i].id == id;
        }
      }
    }
  }

  /** Each id maps to the field of the last document that carries it. */
  lemma {:induction false} MapOfValues(docs: seq<Upload>, field: Upload -> Option<string>, i: nat)
    requires i < |docs|
    requires forall j :: i < j < |docs| ==> docs[j].id != docs[i].id
    ensures docs[i].id in MapOf(docs, field) && MapOf(docs, field)[docs[i].id] == field(docs[i])
    decreases |docs|
  {
    var n := |docs| - 1;
    if i < n {
      assert docs[..n][i] == docs[i];
      MapOfValues(docs[..n], field, i);
    }
  }

  /**
   * Turning fetched documents into the table's state, one document at a
   * time: the rows in order, and the status and name of each row by id.
   */
  method LoadRows(docs: seq<Upload>) returns (rows: seq<Row>, statuses: Assignments, names: Assignments)
    ensures rows == RowsOf(docs)
    ensures statuses == MapOf(docs, StatusOf) && names == MapOf(docs, NameOf)
  {
    rows, statuses, names := [], map[], map[];
    var i := 0;
    while i < |docs|
      invariant 0 <= i <= |docs|
      invariant rows == RowsOf(docs[..i])
      invariant statuses == MapOf(docs[..i], StatusOf) && names == MapOf(docs[..i], NameOf)
    {
      var d := docs[i];
      rows := rows + [Row(d.id, d.cells)];
      statuses := statuses[d.id := d.status];
      names := names[d.id := d.name];
      assert docs[..i + 1][..i] == docs[..i];
      i := i + 1;
    }
    assert docs[..i] == docs;
  }

  /** With distinct ids, every loaded row shows the status and name stored with it. */
  lemma {:induction false} LoadedAssignments(docs: seq<Upload>, i: nat)
    requires i < |docs|
    requires forall j, k :: 0 <= j < k < |docs| ==> docs[j].id != docs[k].id
    ensures RowsOf(docs)[i] == Row(docs[i].id, docs[i].cells)
    ensures Assigned(MapOf(docs, StatusOf), docs[i].id) == Text(docs[i].status)
    ensures Assigned(MapOf(docs, NameOf), docs[i].id) == Text(docs[i].name)
  {
    MapOfValues(docs, StatusOf, i);
    MapOfValues(docs, NameOf, i);
  }

  /** No two documents share an id, as for the rows of one stored sheet. */
  predicate DistinctIds(docs: seq<Upload>) {
    forall j, k :: 0 <= j < k < |docs| ==> docs[j].id != docs[k].id
  }

  /** What the table shows for `id` once `docs` are loaded. */
  function Shown(docs: seq<Upload>, field: Upload -> Option<string>, id: string): string {
    Assigned(MapOf(docs, field), id)
  }

  /** A stored row shows its own field. */
  lemma ShownAt(docs: seq<Upload>, field: Upload -> Option<string>, i: nat)
    requires DistinctIds(docs) && i < |docs|
    ensures Shown(docs, field, docs[i].id) == Text(field(docs[i]))
  {
    MapOfValues(docs, field, i);
  }

  /** An id no document carries shows nothing. */
  lemma ShownAbsent(docs: seq<Upload>, field: Upload -> Option<string>, id: string)
    requires forall i :: 0 <= i < |docs| ==> docs[i].id != id
    ensures Shown(docs, field, id) == ""
  {
    MapOfKeys(docs, field);
  }

  /** The two drop-downs of a row. */
  datatype Field = StatusField | NameField {
    /** The document field the drop-down edits. */
    function Of(): Upload -> Option<string> {
      match this
      case StatusField => StatusOf
      case NameField => NameOf
    }

    /** The other drop-down. */
    function Other(): Field {
      if this == StatusField then NameField else StatusField
    }
  }

  /** `{ [field]: value, cells }` merged into one document. */
  function Put(field: Field, value: string, cells: seq<Option<string>>): Upload -> Upload {
    (d: Upload) => match field
      case StatusField => d.(status := Some(value), cells := cells)
      case NameField => d.(name := Some(value), cells := cells)
  }

  function HasId(id: string): Upload -> bool {
    (d: Upload) => d.id == id
  }

  predicate Stored(docs: seq<Upload>, id: string) {
    exists i :: 0 <= i < |docs| && docs[i].id == id
  }

  /** `update({ [field]: value, cells }).eq("id", rowId)`: every document with that id, in place. */
  function Edit(docs: seq<Upload>, field: Field, rowId: string, value: string, cells: seq<Option<string>>): seq<Upload> {
    Lists.UpdateWhere(docs, HasId(rowId), Put(field, value, cells))
  }

  /**
   * Reloaded after the edit, the edited row shows the chosen value and its
   * cells, every other row shows what it showed, and the other drop-down
   * shows what it showed on every row; an id no row carries changes nothing.
   */
  lemma {:induction false} EditShown(docs: seq<Upload>, field: Field, rowId: string, value: string, cells: seq<Option<string>>, id: string)
    requires DistinctIds(docs)
    ensures DistinctIds(Edit(docs, field, rowId, value, cells))
    ensures Stored(docs, rowId) ==> Row(rowId, cells) in RowsOf(Edit(docs, field, rowId, value, cells))
    ensures Shown(Edit(docs, field, rowId, value, cells), field.Of(), id)
         == if id == rowId && Stored(docs, rowId) then value else Shown(docs, field.Of(), id)
    ensures Shown(Edit(docs, field, rowId, value, cells), field.Other().Of(), id)
         == Shown(docs, field.Other().Of(), id)
  {
    var r := Edit(docs, field, rowId, value, cells);
    var f, g := field.Of(), field.Other().Of();
    assert forall i :: 0 <= i < |docs| ==> r[i].id == docs[i].id;
    if k :| 0 <= k < |docs| && docs[k].id == rowId {
      assert RowsOf(r)[k] == Row(rowId, cells);
    }
    if i :| 0 <= i < |docs| && docs[i].id == id {
      ShownAt(docs, f, i);
      ShownAt(docs, g, i);
      ShownAt(r, f, i);
      ShownAt(r, g, i);
    } else {
      ShownAbsent(docs, f, id);
      ShownAbsent(docs, g, id);
      ShownAbsent(r, f, id);
      ShownAbsent(r, g, id);
    }
  }

  /** The first version is chosen when none is chosen yet. */
  function AutoSelect(versions: seq<string>, selected: string): (r: string)
    ensures selected != "" ==> r == selected
    ensures selected == "" && |versions| > 0 ==> r == versions[0]
    ensures selected == "" && |versions| == 0 ==> r == ""
  {
    if |versions| > 0 && selected == "" then versions[0] else selected
  }

  // ---------------------------------------------------------------- filtering

  function HeaderHas(word: string): Option<string> -> bool {
    h => Contains(Lower(Text(h)), word)
  }

  /** The first header whose lower-cased text contains `word`, or -1. */
  function HeaderIndex(headers: seq<Option<string>>, word: string): (r: int)
    ensures -1 <= r < |headers|
    ensures r >= 0 ==> Contains(Lower(Text(headers[r])), word)
    ensures r >= 0 ==> forall k :: 0 <= k < r ==> !Contains(Lower(Text(headers[k])), word)
    ensures r == -1 <==> forall k :: 0 <= k < |headers| ==> !Contains(Lower(Text(headers[k])), word)
  {
    Lists.FindIndex(headers, HeaderHas(word))
  }

  /** `row.cells[i]`: undefined past either end. */
  function CellAt(cells: seq<Option<string>>, i: int): Option<string> {
    if 0 <= i < |cells| then cells[i] else None
  }

  /** The status, name and pickup drop-downs and the booking id search ("" when unset). */
  datatype Criteria = Criteria(status: string, name: string, pickup: string, booking: string)

  const NoCriteria := Criteria("", "", "", "")

  predicate StatusPasses(rowStatus: string, filter: string) {
    filter == "" || (filter == NotSelected && rowStatus == "") || rowStatus == filter
  }

  /** The four tests a row must pass to be shown and exported. */
  predicate RowPasses(row: Row, headers: seq<Option<string>>, statuses: Assignments, names: Assignments, c: Criteria) {
    var pickupIndex := HeaderIndex(headers, "pickup");
    var bookingIndex := HeaderIndex(headers, "booking");
    var rowPickup := if pickupIndex >= 0 then CellAt(row.cells, pickupIndex) else Some("");
    var rowBooking := if bookingIndex >= 0 then CellAt(row.cells, bookingIndex) else Some("");
    && StatusPasses(Assigned(statuses, row.id), c.status)
    && (c.name == "" || Assigned(names, row.id) == c.name)
    && (c.pickup == "" || rowPickup == Some(c.pickup))
    && (c.booking == "" || ContainsIgnoringCase(Text(rowBooking), c.booking))
  }

  function PassesFn(headers: seq<Option<string>>, statuses: Assignments, names: Assignments, c: Criteria): Row -> bool {
    row => RowPasses(row, headers, statuses, names, c)
  }

  /** The rows the table shows. */
  function Visible(rows: seq<Row>, headers: seq<Option<string>>, statuses: Assignments, names: Assignments, c: Criteria): seq<Row> {
    Lists.Filter(rows, PassesFn(headers, statuses, names, c))
  }

  /**
   * "Not selected" keeps the rows without a status, and also any row whose
   * status is that very marker text.
   */
  lemma NotSelectedStatus(rowStatus: string)
    ensures StatusPasses(rowStatus, NotSelected) <==> rowStatus == "" || rowStatus == NotSelected
  {
  }

  /** The shown rows keep their order and are exactly the rows that pass. */
  lemma VisibleSpec(rows: seq<Row>, headers: seq<Option<string>>, statuses: Assignments, names: Assignments, c: Criteria)
    ensures Lists.IsSubsequence(Visible(rows, headers, statuses, names, c), rows)
    ensures forall r :: r in Visible(rows, headers, statuses, names, c) <==> r in rows && RowPasses(r, headers, statuses, names, c)
    ensures forall r :: multiset(Visible(rows, headers, statuses, names, c))[r]
                     == if RowPasses(r, headers, statuses, names, c) then multiset(rows)[r] else 0
  {
    var p := PassesFn(headers, statuses, names, c);
    Lists.FilterIsSubsequence(rows, p);
    forall r ensures multiset(Visible(rows, headers, statuses, names, c))[r]
                  == if RowPasses(r, headers, statuses, names, c) then multiset(rows)[r] else 0 {
      Lists.FilterCount(rows, p, r);
    }
    forall r ensures r in Visible(rows, headers, statuses, names, c) <==> r in rows && RowPasses(r, headers, statuses, names, c) {
      Lists.FilterMembership(rows, p, r);
    }
  }

  /** With no filter set every row shows. */
  lemma NoCriteriaShowsAll(rows: seq<Row>, headers: seq<Option<string>>, statuses: Assignments, names: Assignments)
    ensures Visible(rows, headers, statuses, names, NoCriteria) == rows
  {
    Lists.FilterKeepsAll(rows, PassesFn(headers, statuses, names, NoCriteria));
  }

  // ---------------------------------------------------------------- export

  /** Cells as `join` writes them: a missing cell is empty. */
  function Texts(cells: seq<Option<string>>): seq<string> {
    seq(|cells|, i requires 0 <= i < |cells| => Text(cells[i]))
  }

  function HeaderText(headers: seq<Option<string>>): string {
    Join(Texts(headers), ",") + ",Status,Name"
  }

  function RowText(row: Row, statuses: Assignments, names: Assignments): string {
    Join(Texts(row.cells), ",") + "," + Assigned(statuses, row.id) + "," + Assigned(names, row.id)
  }

  function RowTexts(rows: seq<Row>, statuses: Assignments, names: Assignments): seq<string> {
    seq(|rows|, i requires 0 <= i < |rows| => RowText(rows[i], statuses, names))
  }

  /** Every line followed by a newline. */
  function Lines(ls: seq<string>): string
    decreases |ls|
  {
    if |ls| == 0 then "" else Lines(ls[..|ls| - 1]) + ls[|ls| - 1] + "\n"
  }

  /** The text `downloadCSV` writes for these rows: the header line, then each shown row's line. */
  function Export(rows: seq<Row>, headers: seq<Option<string>>, statuses: Assignments, names: Assignments, c: Criteria): string {
    Lines([HeaderText(headers)] + RowTexts(Visible(rows, headers, statuses, names, c), statuses, names))
  }

  /** One row of `downloadCSV`: whether the table filter keeps it, and its comma-joined line. */
  method ExportRow(row: Row, headers: seq<Option<string>>, pickupIndex: int, bookingIndex: int,
                   statuses: Assignments, names: Assignments, c: Criteria)
    returns (pass: bool, line: string)
    requires pickupIndex == HeaderIndex(headers, "pickup") && bookingIndex == HeaderIndex(headers, "booking")
    ensures pass == RowPasses(row, headers, statuses, names, c)
    ensures line == RowText(row, statuses, names)
  {
    var rowStatus := Assigned(statuses, row.id);
    var rowName := Assigned(names, row.id);
    var rowPickup := if pickupIndex >= 0 then CellAt(row.cells, pickupIndex) else Some("");
    var rowBooking := if bookingIndex >= 0 then CellAt(row.cells, bookingIndex) else Some("");
    pass := && (c.status == "" || (c.status == NotSelected && rowStatus == "") || rowStatus == c.status)
            && (c.name == "" || rowName == c.name)
            && (c.pickup == "" || rowPickup == Some(c.pickup))
            && (c.booking == "" || ContainsIgnoringCase(Text(rowBooking), c.booking));
    line := Join(Texts(row.cells), ",") + "," + rowStatus + "," + rowName;
  }

  /**
   * `downloadCSV`: the header line with Status and Name appended, then one
   * line per row the table filter keeps, in table order.
   */
  method DownloadCsv(headers: seq<Option<string>>, rows: seq<Row>, statuses: Assignments, names: Assignments, c: Criteria)
    returns (csv: string)
    ensures csv == Lines([HeaderText(headers)] + RowTexts(Visible(rows, headers, statuses, names, c), statuses, names))
  {
    var pickupIndex := HeaderIndex(headers, "pickup");
    var bookingIndex := HeaderIndex(headers, "booking");
    csv := Join(Texts(headers), ",") + ",Status,Name\n";
    ExportNoRows(headers, statuses, names, c);
    var i := 0;
    while i < |rows|
      invariant 0 <= i <= |rows|
      invariant csv == Export(rows[..i], headers, statuses, names, c)
    {
      var row := rows[i];
      assert rows[..i + 1] == rows[..i] + [row];
      var pass, line := ExportRow(row, headers, pickupIndex, bookingIndex, statuses, names, c);
      ExportSnoc(rows[..i], row, headers, statuses, names, c);
      if pass {
        csv := csv + line + "\n";
      }
      i := i + 1;
    }
    assert rows[..i] == rows;
  }

  /** One more row adds its line to the export exactly when it passes. */
  lemma {:induction false} ExportSnoc(rows: seq<Row>, row: Row, headers: seq<Option<string>>, statuses: Assignments, names: Assignments, c: Criteria)
    ensures Export(rows + [row], headers, statuses, names, c)
         == if RowPasses(row, headers, statuses, names, c)
            then Export(rows, headers, statuses, names, c) + RowText(row, statuses, names) + "\n"
            else Export(rows, headers, statuses, names, c)
  {
    var p := PassesFn(headers, statuses, names, c);
    Lists.FilterSnoc(rows, row, p);
    var ls := [HeaderText(headers)] + RowTexts(Visible(rows, headers, statuses, names, c), statuses, names);
    if RowPasses(row, headers, statuses, names, c) {
      var v := Visible(rows, headers, statuses, names, c);
      assert Visible(rows + [row], headers, statuses, names, c) == v + [row];
      assert RowTexts(v + [row], statuses, names) == RowTexts(v, statuses, names) + [RowText(row, statuses, names)];
      var ls' := ls + [RowText(row, statuses, names)];
      assert [HeaderText(headers)] + RowTexts(v + [row], statuses, names) == ls';
      assert ls'[..|ls'| - 1] == ls;
    } else {
      assert Visible(rows + [row], headers, statuses, names, c) == Visible(rows, headers, statuses, names, c);
    }
  }

  /** Without rows the export is the header line alone. */
  lemma ExportNoRows(headers: seq<Option<string>>, statuses: Assignments, names: Assignments, c: Criteria)
    ensures Export([], headers, statuses, names, c) == HeaderText(headers) + "\n"
  {
    var h := HeaderText(headers);
    assert Visible([], headers, statuses, names, c) == [];
    assert [h] + RowTexts([], statuses, names) == [h];
    assert [h][..0] == [];
    assert Lines([h]) == Lines([]) + h + "\n";
  }

  /** Lines written one after the other are the lines joined by newlines, plus a final one. */
  lemma {:induction false} LinesJoin(ls: seq<string>)
    ensures Lines(ls) == Join(ls + [""], "\n")
    decreases |ls|
  {
    if |ls| > 0 {
      var n := |ls| - 1;
      LinesJoin(ls[..n]);
      assert ls[..n] + [ls[n]] == ls;
      if n == 0 {
        assert ls + [""] == [ls[0], ""];
        assert Join([""], "\n") == "";
      } else {
        JoinSnoc(ls[..n], ls[n], "\n");
        JoinSnoc(ls[..n], "", "\n");
        JoinSnoc(ls, "", "\n");
      }
    }
  }

  /** Read back at newlines, the export gives its lines and an empty last piece. */
  lemma LinesSplit(ls: seq<string>)
    requires forall k :: 0 <= k < |ls| ==> '\n' !in ls[k]
    ensures Split(Lines(ls), '\n') == ls + [""]
  {
    LinesJoin(ls);
    var parts := ls + [""];
    forall k | 0 <= k < |parts| ensures '\n' !in parts[k] {
      if k < |ls| {
        assert parts[k] == ls[k];
      }
    }
    assert "\n" == ['\n'];
    SplitJoin(parts, '\n');
  }

  /**
   * Read back at commas, a row's line gives its cells, then its status and
   * name, when no value holds a comma and the row has a cell.
   */
  lemma RowFields(row: Row, statuses: Assignments, names: Assignments)
    requires |row.cells| >= 1
    requires forall k :: 0 <= k < |row.cells| ==> ',' !in Text(row.cells[k])
    requires ',' !in Assigned(statuses, row.id) && ',' !in Assigned(names, row.id)
    ensures Split(RowText(row, statuses, names), ',') == Texts(row.cells) + [Assigned(statuses, row.id), Assigned(names, row.id)]
  {
    var texts := Texts(row.cells);
    var s, n := Assigned(statuses, row.id), Assigned(names, row.id);
    JoinSnoc(texts, s, ",");
    JoinSnoc(texts + [s], n, ",");
    assert texts + [s] + [n] == texts + [s, n];
    SplitJoin(texts + [s, n], ',');
  }
}
