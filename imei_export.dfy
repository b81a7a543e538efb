/**
 * The IMEI data page: a table of free-text rows kept in the "devices"
 * collection, a draft row edited in a form, the computed duration of the
 * draft, and the body of the PDF export.
 */
module ImeiExport {
  import opened Options
  import opened Text
  import opened Seqs
  import StressTable
  import DeviceForm

  /** `COLUMNS`, in order; unlike the spreadsheet export it has a Condition
      column. */
  const Columns: seq<string> := [
    "IMEI", "SN", "Model", "OS Version", "Before Battery", "After Battery",
    "Time In", "Time Out", "Duration", "Status", "Condition", "Remarks",
    "Notes", "Assigned"
  ]

  /** A row: the text under each column and the optional `id` property. */
  datatype Row = Row(id: Option<string>, cells: map<string, string>)

  /** `emptyRow`: every column present and empty, no id. */
  const EmptyRow := Row(None, map c | c in Columns :: "")

  /** `r[c] ?? ""`. */
  function Cell(r: Row, c: string): (s: string)
    ensures c in r.cells ==> s == r.cells[c]
    ensures c !in r.cells ==> s == ""
  {
    if c in r.cells then r.cells[c] else ""
  }

  lemma EmptyRowCells()
    ensures EmptyRow.id.None?
    ensures forall c :: c in Columns ==> c in EmptyRow.cells && Cell(EmptyRow, c) == ""
  {
  }

  // ---------------------------------------------------------------------
  // diffHHmm
  // ---------------------------------------------------------------------

  const MsPerMinute: nat := 60000

  /** "HH:MM" for a whole number of minutes, each part padded to at least
      two digits: the same text an hour and minute give a time input. */
  function HHmm(totalMinutes: nat): string {
    DeviceForm.Clock24(totalMinutes / 60, totalMinutes % 60)
  }

  /** `diffHHmm`: "" for an empty or unparsable input or a negative span,
      otherwise the whole minutes elapsed as "HH:MM" (so equal instants give
      "00:00"). `parse` is what `new Date(text)` reads, in ms, or None for an
      Invalid Date. */
  function DiffHHmm(startIso: string, endIso: string, parse: string -> Option<int>): (r: string)
    ensures r == "" <==>
              || startIso == "" || endIso == ""
              || parse(startIso).None? || parse(endIso).None?
              || parse(endIso).value < parse(startIso).value
  {
    if startIso == "" || endIso == "" then ""
    else
      var start, end := parse(startIso), parse(endIso);
      if start.None? || end.None? then ""
      else
        var ms := end.value - start.value;
        if ms < 0 then ""
        else HHmm(ms / MsPerMinute)
  }

  /** Reading a non-empty result back: two digit groups around ':', the
      second exactly two digits below 60, together the whole minutes elapsed. */
  lemma DiffHHmmReadBack(startIso: string, endIso: string, parse: string -> Option<int>)
    requires DiffHHmm(startIso, endIso, parse) != ""
    ensures parse(startIso).Some? && parse(endIso).Some?
    ensures var parts := Split(DiffHHmm(startIso, endIso, parse), ':');
      && |parts| == 2
      && IsDigits(parts[0]) && IsDigits(parts[1])
      && |parts[0]| >= 2 && |parts[1]| == 2
      && DigitsValue(parts[1]) < 60
      && DigitsValue(parts[0]) * 60 + DigitsValue(parts[1])
         == (parse(endIso).value - parse(startIso).value) / MsPerMinute
  {
    var total: nat := (parse(endIso).value - parse(startIso).value) / MsPerMinute;
    DeviceForm.Clock24Split(total / 60, total % 60);
    PaddedValue(total / 60);
    PaddedValue(total % 60);
    PaddedLength(total % 60);
  }

  /** Equal instants give HHmm(0), "00:00", where `getDuration` gives its
      placeholder. */
  lemma EqualInstants(startIso: string, endIso: string, parse: string -> Option<int>)
    requires startIso != "" && endIso != ""
    requires parse(startIso).Some? && parse(startIso) == parse(endIso)
    ensures DiffHHmm(startIso, endIso, parse) == HHmm(0)
    ensures StressTable.Elapsed(StressTable.At(parse(startIso).value),
                                StressTable.At(parse(endIso).value)).Dash?
  {
    var ms := parse(endIso).value - parse(startIso).value;
    assert ms == 0 && ms / MsPerMinute == 0;
  }

  lemma ZeroMinutes(s: string)
    requires s == "00:00"
    ensures HHmm(0) == s
  {
    assert NatToString(0) == "0";
  }

  // ---------------------------------------------------------------------
  // Draft state
  // ---------------------------------------------------------------------

  /** `draftDuration`: a typed-in Duration wins, else the computed one. */
  function DraftDuration(draft: Row, parse: string -> Option<int>): (r: string)
    ensures Cell(draft, "Duration") != "" ==> r == Cell(draft, "Duration")
    ensures Cell(draft, "Duration") == "" ==>
              r == DiffHHmm(Cell(draft, "Time In"), Cell(draft, "Time Out"), parse)
  {
    var typed := Cell(draft, "Duration");
    if typed != "" then typed else DiffHHmm(Cell(draft, "Time In"), Cell(draft, "Time Out"), parse)
  }

  /** `{ ...draft, Duration: draftDuration }`: what add and save send. */
  function WithDuration(draft: Row, parse: string -> Option<int>): (r: Row)
    ensures r.id == draft.id
    ensures r.cells.Keys == draft.cells.Keys + {"Duration"}
    ensures Cell(r, "Duration") == DraftDuration(draft, parse)
    ensures forall c :: c != "Duration" ==> Cell(r, c) == Cell(draft, c)
  {
    Row(draft.id, draft.cells["Duration" := DraftDuration(draft, parse)])
  }

  /** Sending a draft twice sends the same row: the Duration it carries is
      then typed in, or still computes to the same text. */
  lemma WithDurationIdempotent(draft: Row, parse: string -> Option<int>)
    ensures WithDuration(WithDuration(draft, parse), parse) == WithDuration(draft, parse)
  {
    var once := WithDuration(draft, parse);
    assert DraftDuration(once, parse) == DraftDuration(draft, parse);
  }

  /** `updateDoc` on a row document: the sent cells replace the stored ones,
      the others stay; an `id` property is written only when sent. */
  function MergeRow(stored: Row, sent: Row): (r: Row)
    ensures r.cells.Keys == stored.cells.Keys + sent.cells.Keys
    ensures forall c :: c in sent.cells ==> Cell(r, c) == sent.cells[c]
    ensures forall c :: c !in sent.cells ==> Cell(r, c) == Cell(stored, c)
    ensures r.id == if sent.id.Some? then sent.id else stored.id
  {
    Row(if sent.id.Some? then sent.id else stored.id, stored.cells + sent.cells)
  }

  /** A row of the snapshot: `{ id: d.id, ...d.data() }`, so an `id`
      property stored in the document overrides the document id. */
  function SnapshotRow(docId: string, data: Row): (r: Row)
    ensures r.cells == data.cells
    ensures r.id == Some(if data.id.Some? then data.id.value else docId)
  {
    Row(Some(if data.id.Some? then data.id.value else docId), data.cells)
  }

  /** The body of the PDF: one line per row, the 14 cells in column order. */
  function Body(rows: seq<Row>): (body: seq<seq<string>>)
    ensures |body| == |rows|
    ensures forall i :: 0 <= i < |rows| ==> |body[i]| == |Columns|
    ensures forall i, j :: 0 <= i < |rows| && 0 <= j < |Columns| ==> body[i][j] == Cell(rows[i], Columns[j])
  {
    seq(|rows|, i requires 0 <= i < |rows| =>
      seq(|Columns|, j requires 0 <= j < |Columns| => Cell(rows[i], Columns[j])))
  }

  /** A row added from a fresh draft is exported with the draft's cells and
      the draft's duration in the Duration column. */
  lemma AddedRowExported(draft: Row, parse: string -> Option<int>)
    ensures var line := Body([WithDuration(draft, parse)])[0];
      && line[8] == DraftDuration(draft, parse)
      && forall j :: 0 <= j < |Columns| && j != 8 ==> line[j] == Cell(draft, Columns[j])
  {
    var sent := WithDuration(draft, parse);
    var line := Body([sent])[0];
    assert forall j :: 0 <= j < |Columns| ==> line[j] == Cell(sent, Columns[j]);
    DurationColumn();
  }

  /** "Duration" is the ninth column and no other. */
  lemma DurationColumn()
    ensures |Columns| == 14
    ensures forall j :: 0 <= j < |Columns| ==> (Columns[j] == "Duration" <==> j == 8)
  {
  }

  /** The "devices" collection: row documents by id. */
  class DevicesCollection {
    var docs: map<string, Row>

    constructor (initial: map<string, Row>)
      ensures docs == initial
    {
      docs := initial;
    }

    /** The rows `onSnapshot` delivers: one per document, each once, in the
        snapshot's document order `order`. */
    function Snapshot(order: seq<string>): (rows: seq<Row>)
      reads this
      requires ListsEachOnce(order, docs.Keys)
      ensures |rows| == |order| == |docs|
      ensures forall k :: 0 <= k < |order| ==> rows[k] == SnapshotRow(order[k], docs[order[k]])
      ensures forall id :: id in docs ==> SnapshotRow(id, docs[id]) in rows
    {
      ListsEachOnceSize(order, docs.Keys);
      var rows := seq(|order|, k requires 0 <= k < |order| && order[k] in docs reads this =>
        SnapshotRow(order[k], docs[order[k]]));
      assert forall id :: id in docs ==> SnapshotRow(id, docs[id]) in rows by {
        forall id | id in docs
          ensures SnapshotRow(id, docs[id]) in rows
        {
          var i :| 0 <= i < |order| && order[i] == id;
          assert rows[i] == SnapshotRow(id, docs[id]);
        }
      }
      rows
    }
  }

  /** The page's state: the subscribed rows, the draft and the id of the row
      being edited. `parse` stands for `new Date(text)`. */
  class ImeiPage {
    var rows: seq<Row>
    var draft: Row
    var editingId: Option<string>
    const store: DevicesCollection
    const parse: string -> Option<int>

    constructor (store: DevicesCollection, parse: string -> Option<int>)
      ensures this.store == store && this.parse == parse
      ensures rows == [] && draft == EmptyRow && editingId.None?
    {
      this.store := store;
      this.parse := parse;
      rows := [];
      draft := EmptyRow;
      editingId := None;
    }

    /** The snapshot listener: the rows are replaced by the collection's. */
    method OnSnapshot(order: seq<string>)
      requires ListsEachOnce(order, store.docs.Keys)
      modifies this
      ensures rows == store.Snapshot(order)
      ensures draft == old(draft) && editingId == old(editingId)
    {
      rows := store.Snapshot(order);
    }

    /** `updateDraft`: one cell of the draft changes. */
    method UpdateDraft(key: string, value: string)
      modifies this
      ensures draft == Row(old(draft).id, old(draft).cells[key := value])
      ensures rows == old(rows) && editingId == old(editingId)
    {
      draft := Row(draft.id, draft.cells[key := value]);
    }

    /** `addRow`: the draft with its duration is added under `newId`, then
        the draft is reset. A failed add leaves the draft as it was. */
    method AddRow(newId: string, reachable: bool) returns (ok: bool)
      requires newId !in store.docs
      modifies this, store
      ensures ok == reachable
      ensures store.docs == if ok then old(store.docs)[newId := WithDuration(old(draft), parse)]
                            else old(store.docs)
      ensures draft == if ok then EmptyRow else old(draft)
      ensures rows == old(rows) && editingId == old(editingId)
    {
      ok := reachable;
      if ok {
        store.docs := store.docs[newId := WithDuration(draft, parse)];
        draft := EmptyRow;
      }
    }

    /** `startEdit`: the row's id is being edited, on a copy of the row. */
    method StartEdit(r: Row)
      requires r.id.Some?
      modifies this
      ensures editingId == r.id && draft == r
      ensures rows == old(rows)
    {
      editingId := r.id;
      draft := r;
    }

    /** `saveEdit`: nothing without an (non-empty) editing id; otherwise the
        draft with its duration is merged into the document, then editing
        ends. A failed update (also for a missing document) changes nothing. */
    method SaveEdit(reachable: bool) returns (ok: bool)
      modifies this, store
      ensures old(editingId).None? || old(editingId) == Some("") ==>
                !ok && store.docs == old(store.docs) && draft == old(draft) && editingId == old(editingId)
      ensures ok <==> Truthy(old(editingId)) && reachable && old(editingId).value in old(store.docs)
      ensures ok ==> && editingId.None? && draft == EmptyRow
                     && var id := old(editingId).value;
                        store.docs == old(store.docs)[id := MergeRow(old(store.docs)[id], WithDuration(old(draft), parse))]
      ensures !ok ==> store.docs == old(store.docs) && draft == old(draft) && editingId == old(editingId)
      ensures rows == old(rows)
    {
      if editingId.None? || editingId.value == "" {
        return false;
      }
      var id := editingId.value;
      ok := reachable && id in store.docs;
      if ok {
        store.docs := store.docs[id := MergeRow(store.docs[id], WithDuration(draft, parse))];
        editingId := None;
        draft := EmptyRow;
      }
    }

    /** The Cancel button: editing ends and the draft is reset. */
    method CancelEdit()
      modifies this
      ensures editingId.None? && draft == EmptyRow && rows == old(rows)
    {
      editingId := None;
      draft := EmptyRow;
    }

    /** `deleteRow`. */
    method DeleteRow(id: string, reachable: bool) returns (ok: bool)
      modifies store
      ensures ok == reachable
      ensures store.docs == if ok then old(store.docs) - {id} else old(store.docs)
    {
      ok := reachable;
      if ok {
        store.docs := store.docs - {id};
      }
    }

    /** The export body of the current rows. */
    method ExportBody() returns (body: seq<seq<string>>)
      ensures body == Body(rows)
    {
      body := Body(rows);
    }
  }

  predicate Truthy(id: Option<string>) {
    id.Some? && id.value != ""
  }
}
