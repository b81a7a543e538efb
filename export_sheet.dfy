/**
 * The spreadsheet export of the dashboard header: one row per stored
 * device, keyed by the thirteen column labels, and the width of each
 * column. The header's own `parseTime` / `getDuration` are the same
 * definitions as the stress-test table's and are used from there.
 */
module ExportSheet {
  import opened Options
  import opened Text
  import opened Records
  import StressTable

  /** The device fields (and the computed duration) a column shows. */
  datatype Key =
    | Imei | Sn | Model | OsVersion | BeforeBattery | AfterBattery
    | TimeIn | TimeOut | Duration | Status | Remarks | Notes | Assigned

  datatype Column = Column(key: Key, heading: string)

  /** `COLUMNS`, in order. There is no condition column. */
  const Columns: seq<Column> := [
    Column(Imei, "IMEI"),
    Column(Sn, "SN"),
    Column(Model, "Model"),
    Column(OsVersion, "OS Version"),
    Column(BeforeBattery, "Before Battery"),
    Column(AfterBattery, "After Battery"),
    Column(TimeIn, "Time In"),
    Column(TimeOut, "Time Out"),
    Column(Duration, "Duration"),
    Column(Status, "Status"),
    Column(Remarks, "Remarks"),
    Column(Notes, "Notes"),
    Column(Assigned, "Assigned")
  ]

  /** The header row handed to the sheet. */
  function Labels(): (ls: seq<string>)
    ensures |ls| == |Columns|
    ensures forall i :: 0 <= i < |ls| ==> ls[i] == Columns[i].heading
  {
    seq(|Columns|, i requires 0 <= i < |Columns| => Columns[i].heading)
  }

  /** No two columns share a heading, so no cell of a row overwrites another. */
  lemma LabelsDistinct()
    ensures |Columns| == 13
    ensures forall i, j :: 0 <= i < j < |Columns| ==> Columns[i].heading != Columns[j].heading
    ensures "Condition" !in Labels()
  {
    var ls := Labels();
    assert ls == ["IMEI", "SN", "Model", "OS Version", "Before Battery", "After Battery",
                  "Time In", "Time Out", "Duration", "Status", "Remarks", "Notes", "Assigned"];
    DistinctHeadings(ls);
  }

  /** The headings differ pairwise in their first letter or their length. */
  lemma DistinctHeadings(ls: seq<string>)
    requires ls == ["IMEI", "SN", "Model", "OS Version", "Before Battery", "After Battery",
                    "Time In", "Time Out", "Duration", "Status", "Remarks", "Notes", "Assigned"]
    ensures forall i, j :: 0 <= i < j < |ls| ==> ls[i] != ls[j]
  {
    forall i, j | 0 <= i < j < |ls|
      ensures ls[i] != ls[j]
    {
      assert ls[i][0] != ls[j][0] || |ls[i]| != |ls[j]|;
    }
  }

  /** A cell value: text, or a number kept as a number. */
  datatype Cell = Str(s: string) | Number(n: int)

  /** One exported row: the heading/value pairs in insertion order. */
  type Row = seq<(string, Cell)>

  /** `d[key] ?? ""`, or the duration label for the Duration column. */
  function FieldCell(d: Device, key: Key, now: int): (c: Cell)
    requires StressTable.RecordTimesModelled(d.rec)
    ensures key == Duration ==>
              c == Str(StressTable.GetDuration(d.rec.timeIn, d.rec.timeOut, now).Label())
    ensures key == BeforeBattery ==> c == Number(d.rec.beforeBattery)
    ensures key == AfterBattery ==> c == Number(d.rec.afterBattery)
    ensures key == Model ==> c == Str(d.rec.model.GetOr(""))
    ensures key == Assigned ==> c == Str(d.rec.assignee.GetOr(""))
    ensures key !in {Duration, BeforeBattery, AfterBattery} ==> c.Str?
  {
    match key
    case Imei => Str(d.rec.imei)
    case Sn => Str(d.rec.sn)
    case Model => Str(d.rec.model.GetOr(""))
    case OsVersion => Str(d.rec.osVersion)
    case BeforeBattery => Number(d.rec.beforeBattery)
    case AfterBattery => Number(d.rec.afterBattery)
    case TimeIn => Str(d.rec.timeIn)
    case TimeOut => Str(d.rec.timeOut)
    case Duration => Str(StressTable.GetDuration(d.rec.timeIn, d.rec.timeOut, now).Label())
    case Status => Str(d.rec.status)
    case Remarks => Str(d.rec.remarks)
    case Notes => Str(d.rec.notes)
    case Assigned => Str(d.rec.assignee.GetOr(""))
  }

  /** The row of one device, column by column. */
  ghost function RowOf(d: Device, now: int): (row: Row)
    requires StressTable.RecordTimesModelled(d.rec)
  {
    seq(|Columns|, i requires 0 <= i < |Columns| => (Columns[i].heading, FieldCell(d, Columns[i].key, now)))
  }

  /** `row[heading]`: the cell stored under a heading, if any. */
  function Lookup(row: Row, heading: string): (c: Option<Cell>)
    ensures c.Some? <==> exists i :: 0 <= i < |row| && row[i].0 == heading
    ensures c.Some? ==> exists i :: 0 <= i < |row| && row[i] == (heading, c.value)
    decreases |row|
  {
    if row == [] then None
    else if row[|row| - 1].0 == heading then Some(row[|row| - 1].1)
    else
      var c := Lookup(row[..|row| - 1], heading);
      assert forall i :: 0 <= i < |row| - 1 ==> row[..|row| - 1][i] == row[i];
      c
  }

  /** Looking a heading up in a row built from the columns gives that
      column's cell. */
  lemma LookupColumn(d: Device, now: int, k: nat)
    requires StressTable.RecordTimesModelled(d.rec)
    requires k < |Columns|
    ensures Lookup(RowOf(d, now), Columns[k].heading) == Some(FieldCell(d, Columns[k].key, now))
  {
    LabelsDistinct();
    var row := RowOf(d, now);
    var c := Lookup(row, Columns[k].heading);
    assert row[k].0 == Columns[k].heading;
    var i :| 0 <= i < |row| && row[i] == (Columns[k].heading, c.value);
    assert i == k;
  }

  /** The Duration cell is the label of `getDuration`. */
  lemma DurationCell(d: Device, now: int)
    requires StressTable.RecordTimesModelled(d.rec)
    ensures Lookup(RowOf(d, now), "Duration")
         == Some(Str(StressTable.GetDuration(d.rec.timeIn, d.rec.timeOut, now).Label()))
  {
    CellUnder(d, now, 8, "Duration");
  }

  /** A missing model or assignee is exported as "". */
  lemma MissingFieldCells(d: Device, now: int)
    requires StressTable.RecordTimesModelled(d.rec)
    ensures d.rec.model.None? ==> Lookup(RowOf(d, now), "Model") == Some(Str(""))
    ensures d.rec.assignee.None? ==> Lookup(RowOf(d, now), "Assigned") == Some(Str(""))
  {
    CellUnder(d, now, 2, "Model");
    CellUnder(d, now, 12, "Assigned");
  }

  /** A battery reading is exported as the number itself (0 included). */
  lemma BatteryCells(d: Device, now: int)
    requires StressTable.RecordTimesModelled(d.rec)
    ensures Lookup(RowOf(d, now), "Before Battery") == Some(Number(d.rec.beforeBattery))
    ensures Lookup(RowOf(d, now), "After Battery") == Some(Number(d.rec.afterBattery))
  {
    BeforeBatteryCell(d, now);
    AfterBatteryCell(d, now);
  }

  lemma BeforeBatteryCell(d: Device, now: int)
    requires StressTable.RecordTimesModelled(d.rec)
    ensures Lookup(RowOf(d, now), "Before Battery") == Some(Number(d.rec.beforeBattery))
  {
    CellUnder(d, now, 4, "Before Battery");
  }

  lemma AfterBatteryCell(d: Device, now: int)
    requires StressTable.RecordTimesModelled(d.rec)
    ensures Lookup(RowOf(d, now), "After Battery") == Some(Number(d.rec.afterBattery))
  {
    CellUnder(d, now, 5, "After Battery");
  }

  /** LookupColumn, for the heading of column `k` written out. */
  lemma CellUnder(d: Device, now: int, k: nat, heading: string)
    requires StressTable.RecordTimesModelled(d.rec)
    requires k < |Columns| && Columns[k].heading == heading
    ensures Lookup(RowOf(d, now), heading) == Some(FieldCell(d, Columns[k].key, now))
  {
    LookupColumn(d, now, k);
  }

  /** A row has no Condition cell. */
  lemma NoConditionCell(d: Device, now: int)
    requires StressTable.RecordTimesModelled(d.rec)
    ensures Lookup(RowOf(d, now), "Condition") == None
  {
    LabelsDistinct();
    var row := RowOf(d, now);
    forall i | 0 <= i < |row|
      ensures row[i].0 != "Condition"
    {
      assert row[i].0 == Labels()[i];
    }
  }

  /** The `forEach` over `COLUMNS` that fills one row. */
  method BuildRow(d: Device, now: int) returns (row: Row)
    requires StressTable.RecordTimesModelled(d.rec)
    ensures |row| == |Columns|
    ensures forall i :: 0 <= i < |Columns| ==>
              row[i] == (Columns[i].heading, FieldCell(d, Columns[i].key, now))
  {
    row := [];
    for i := 0 to |Columns|
      invariant |row| == i
      invariant forall j :: 0 <= j < i ==> row[j] == (Columns[j].heading, FieldCell(d, Columns[j].key, now))
    {
      var column := Columns[i];
      var cell: Cell;
      if column.key == Duration {
        cell := Str(StressTable.GetDuration(d.rec.timeIn, d.rec.timeOut, now).Label());
      } else {
        cell := FieldCell(d, column.key, now);
      }
      row := row + [(column.heading, cell)];
    }
  }

  // ---------------------------------------------------------------------
  // Column widths
  // ---------------------------------------------------------------------

  /** JavaScript truthiness of a cell: "" and 0 are falsy. */
  predicate CellTruthy(c: Cell) {
    match c
    case Str(s) => s != ""
    case Number(n) => n != 0
  }

  /** `r[heading] ? String(r[heading]).length : 0`. */
  function CellLength(c: Option<Cell>): (n: nat)
    ensures c.None? || !CellTruthy(c.value) ==> n == 0
    ensures c.Some? && CellTruthy(c.value) ==> n >= 1
  {
    match c
    case None => 0
    case Some(Str(s)) => if s == "" then 0 else Utf16Length(s)
    case Some(Number(n)) => if n == 0 then 0 else |IntToString(n)|
  }

  /** The largest cell length under `heading` over `rows`, at least `floor`. */
  function MaxLength(floor: nat, rows: seq<Row>, heading: string): (m: nat)
    ensures m >= floor
    ensures forall i :: 0 <= i < |rows| ==> m >= CellLength(Lookup(rows[i], heading))
    ensures m == floor || exists i :: 0 <= i < |rows| && m == CellLength(Lookup(rows[i], heading))
    decreases |rows|
  {
    if rows == [] then floor
    else
      var rest := MaxLength(floor, rows[1..], heading);
      var here := CellLength(Lookup(rows[0], heading));
      assert forall i :: 1 <= i < |rows| ==> rows[i] == rows[1..][i - 1];
      if here > rest then here else rest
  }

  /** `wch` of a column: the longest of its heading and its truthy cells, plus 2. */
  function ColumnWidth(heading: string, rows: seq<Row>): (w: nat)
    ensures w >= Utf16Length(heading) + 2
    ensures forall i :: 0 <= i < |rows| ==> w >= CellLength(Lookup(rows[i], heading)) + 2
    ensures w == Utf16Length(heading) + 2
         || exists i :: 0 <= i < |rows| && w == CellLength(Lookup(rows[i], heading)) + 2
  {
    MaxLength(Utf16Length(heading), rows, heading) + 2
  }

  /** `colWidths`, one per column in order. */
  function ColumnWidths(rows: seq<Row>): (ws: seq<nat>)
    ensures |ws| == |Columns|
    ensures forall i :: 0 <= i < |Columns| ==> ws[i] == ColumnWidth(Columns[i].heading, rows)
  {
    seq(|Columns|, i requires 0 <= i < |Columns| => ColumnWidth(Columns[i].heading, rows))
  }

  /** Falsy cells do not widen a column: with no truthy cell under it, a
      column is its heading's length plus 2. */
  lemma FalsyCellsIgnored(heading: string, rows: seq<Row>)
    requires forall i :: 0 <= i < |rows| ==>
               Lookup(rows[i], heading).None? || !CellTruthy(Lookup(rows[i], heading).value)
    ensures ColumnWidth(heading, rows) == Utf16Length(heading) + 2
  {
  }

  /** The body of `downloadExcel` up to the sheet: every fetched device
      becomes one row, in fetch order, and the widths follow from the rows. */
  method ExportRows(devices: seq<Device>, now: int) returns (rows: seq<Row>, widths: seq<nat>)
    requires forall d :: d in devices ==> StressTable.RecordTimesModelled(d.rec)
    ensures |rows| == |devices|
    ensures forall i :: 0 <= i < |devices| ==> rows[i] == RowOf(devices[i], now)
    ensures widths == ColumnWidths(rows)
    ensures forall i :: 0 <= i < |Columns| ==> widths[i] >= Utf16Length(Columns[i].heading) + 2
  {
    rows := [];
    for i := 0 to |devices|
      invariant |rows| == i
      invariant forall j :: 0 <= j < i ==> rows[j] == RowOf(devices[j], now)
    {
      var row := BuildRow(devices[i], now);
      rows := rows + [row];
    }
    widths := ColumnWidths(rows);
  }
}
