/**
 CSV drops: the manifest-gated promotion of one file, the audit row that dedupes re-deliveries by
 content hash, and the state a source is left in.
 */
module CsvDrop {
  import opened Outcomes
  import opened PyText
  import opened Staging
  import opened ControlPlane

  datatype ColumnType = StringType | IntegerType | DecimalType | DateType

  datatype Column = Column(name: string, kind: ColumnType)

  datatype Cell = Null | Text(s: string) | Number(n: int) | Decimal(text: string) | Date(text: string)

  /** The approved schema of an entity, and the two casts that are not modelled. */
  datatype Schema = Schema(columns: seq<Column>, allowAdditive: bool, isDecimal: string -> bool, isDate: string -> bool)

  /** A dropped file: its rows are keyed by the header fields as they stand, padding included. */
  datatype File = File(hash: string, isBlank: bool, header: Option<seq<string>>, rows: seq<map<string, string>>)

  datatype ManifestEntry = ManifestEntry(sha256: string, rows: int)

  /** What a run finds for one entity: the batch, the manifest's entry and the file. */
  datatype Delivery = Delivery(batchId: string, entry: Option<ManifestEntry>, file: Option<File>)

  datatype Record = Record(cells: map<string, Cell>, rowNo: nat, batchId: string)

  datatype Reason = MissingFile | EmptyFile | ChecksumMismatch | HeaderDrift | ParseError | RowCountMismatch

  /* ---------- one file ---------- */

  /** A cell, or None when its text is not of the column's type. */
  function Cast(schema: Schema, kind: ColumnType, raw: string): Option<Cell> {
    var text := Strip(raw);
    if text == "" then Some(Null)
    else
      match kind
      case StringType => Some(Text(text))
      case IntegerType => (match ParseInt(text) case Some(n) => Some(Number(n)) case None => None)
      case DecimalType => if schema.isDecimal(text) then Some(Decimal(text)) else None
      case DateType => if schema.isDate(text) then Some(Date(text)) else None
  }

  function RawText(raw: map<string, string>, column: string): string {
    if column in raw then raw[column] else ""
  }

  function CellOf(schema: Schema, column: Column, raw: map<string, string>): Option<Cell> {
    Cast(schema, column.kind, RawText(raw, column.name))
  }

  function CellsOf(schema: Schema, columns: seq<Column>, raw: map<string, string>): map<string, Cell> {
    if columns == [] then map[]
    else
      var last := columns[|columns| - 1];
      CellsOf(schema, columns[..|columns| - 1], raw)[last.name := CellOf(schema, last, raw).UnwrapOr(Null)]
  }

  predicate RowCasts(schema: Schema, raw: map<string, string>) {
    forall k | 0 <= k < |schema.columns| :: CellOf(schema, schema.columns[k], raw).Some?
  }

  function RecordOf(schema: Schema, raw: map<string, string>, rowNo: nat, batchId: string): Record {
    Record(CellsOf(schema, schema.columns, raw), rowNo, batchId)
  }

  function RecordsOf(schema: Schema, rows: seq<map<string, string>>, batchId: string): (r: seq<Record>)
    ensures |r| == |rows|
    ensures forall k | 0 <= k < |rows| :: r[k] == RecordOf(schema, rows[k], k + 1, batchId)
  {
    seq(|rows|, k requires 0 <= k < |rows| => RecordOf(schema, rows[k], k + 1, batchId))
  }

  function StripAll(header: seq<string>): (r: seq<string>)
    ensures |r| == |header| && forall k | 0 <= k < |header| :: r[k] == Strip(header[k])
  {
    if header == [] then [] else [Strip(header[0])] + StripAll(header[1..])
  }

  /** Every approved column is there, and nothing else unless additions are allowed. */
  predicate HeaderFits(schema: Schema, header: seq<string>) {
    var names := StripAll(header);
    HasAllColumns(schema, names, |schema.columns|) && (schema.allowAdditive || HasOnlyColumns(schema, names, |names|))
  }

  /** The first k approved columns are among the names. */
  predicate HasAllColumns(schema: Schema, names: seq<string>, k: nat)
    requires k <= |schema.columns|
  {
    forall j | 0 <= j < k :: schema.columns[j].name in names
  }

  /** The first k names are approved. */
  predicate HasOnlyColumns(schema: Schema, names: seq<string>, k: nat)
    requires k <= |names|
  {
    forall j | 0 <= j < k :: IsColumn(schema, names[j])
  }

  predicate IsColumn(schema: Schema, name: string) {
    exists k :: 0 <= k < |schema.columns| && schema.columns[k].name == name
  }

  /** The records of a file that passes every gate, or the first gate it fails. */
  function Validated(schema: Schema, d: Delivery): Result<seq<Record>, Reason>
    requires d.entry.Some?
  {
    if d.file.None? then Err(MissingFile)
    else
      var file := d.file.value;
      if file.isBlank then Err(EmptyFile)
      else if file.hash != d.entry.value.sha256 then Err(ChecksumMismatch)
      else if file.header.None? || !HeaderFits(schema, file.header.value) then Err(HeaderDrift)
      else if !forall k | 0 <= k < |file.rows| :: RowCasts(schema, file.rows[k]) then Err(ParseError)
      else if |file.rows| != d.entry.value.rows then Err(RowCountMismatch)
      else Ok(RecordsOf(schema, file.rows, d.batchId))
  }

  /* ---------- one extract ---------- */

  /** Everything a run can change. */
  datatype Source = Source(
    audits: map<string, Audit>, watermarks: map<(string, Mode), string>, staged: map<string, seq<Record>>)

  datatype Run = Run(entity: string, mode: Mode, delivery: Delivery)

  datatype Verdict = Promote(records: seq<Record>) | Absorb | Quarantine(reason: Reason) | Undeclared

  function HashOf(d: Delivery): string {
    if d.file.Some? then d.file.value.hash else ""
  }

  /** The key of the audit row. */
  function AuditKey(d: Delivery): string {
    if HashOf(d) != "" then HashOf(d) else "unknown"
  }

  predicate IsSameBatch(s: Source, run: Run) {
    run.mode.Incremental? && WatermarkOf(s.watermarks, run.entity, run.mode) == Some(run.delivery.batchId)
  }

  function Judge(schema: Schema, s: Source, run: Run): Verdict {
    var d := run.delivery;
    if d.entry.None? then Undeclared
    else if HashOf(d) in s.audits || IsSameBatch(s, run) then Absorb
    else
      match Validated(schema, d)
      case Ok(records) => Promote(records)
      case Err(reason) => Quarantine(reason)
  }

  function StagedOf(s: Source, entity: string): Staged<Record> {
    if entity in s.staged then Some(s.staged[entity]) else None
  }

  /** The watermark a successful run writes. */
  function NextWatermark(s: Source, run: Run): Option<string> {
    if run.delivery.batchId != "" then Some(run.delivery.batchId) else WatermarkOf(s.watermarks, run.entity, run.mode)
  }

  function Next(schema: Schema, s: Source, run: Run): Source {
    var key := AuditKey(run.delivery);
    var watermarks := Upserted(s.watermarks, run.entity, run.mode, NextWatermark(s, run));
    match Judge(schema, s, run)
    case Undeclared => s
    case Quarantine(_) => s.(audits := Recorded(s.audits, Audit(key, Quarantined, 0)))
    case Absorb => s.(audits := Recorded(s.audits, Audit(key, SkippedDuplicate, 0)), watermarks := watermarks)
    case Promote(records) =>
      var staged := AfterSuccess(StagedOf(s, run.entity), records, run.mode);
      Source(Recorded(s.audits, Audit(key, Promoted, |records|)), watermarks,
             if staged.Some? then s.staged[run.entity := staged.value] else s.staged)
  }

  /* ---------- the connector ---------- */

  datatype Failure = FileQuarantined(reason: Reason) | NotDeclared

  class CsvSftpConnector {
    const schema: Schema
    const store: ControlPlaneStore
    var batchId: string
    var pendingAudit: Option<Audit>
    var staged: map<string, seq<Record>>

    ghost function State(): Source
      reads this, store
    {
      Source(store.audits, store.watermarks, staged)
    }

    constructor (schema: Schema, store: ControlPlaneStore)
      ensures this.schema == schema && this.store == store && pendingAudit == None && staged == map[]
    {
      this.schema, this.store := schema, store;
      batchId, pendingAudit, staged := "", None, map[];
    }

    /** All gates before the first row, so that a bad file leaves no partial output. */
    method ValidatedRows(d: Delivery) returns (r: Result<seq<Record>, Reason>)
      requires d.entry.Some? && batchId == d.batchId
      ensures r == Validated(schema, d)
    {
      hide RowCasts, RecordOf, HeaderFits;
      if d.file.None? {
        return Err(MissingFile);
      }
      var file := d.file.value;
      if file.isBlank {
        return Err(EmptyFile);
      }
      if file.hash != d.entry.value.sha256 {
        return Err(ChecksumMismatch);
      }
      if file.header.None? {
        return Err(HeaderDrift);
      }
      var fits := CheckHeader(file.header.value);
      if !fits {
        return Err(HeaderDrift);
      }
      var parsed, errors := ParseRows(file.rows);
      if errors > 0 {
        return Err(ParseError);
      }
      if |parsed| != d.entry.value.rows {
        return Err(RowCountMismatch);
      }
      return Ok(parsed);
    }

    /** The records of all rows, and the number of texts that do not cast. */
    method ParseRows(rows: seq<map<string, string>>) returns (parsed: seq<Record>, errors: nat)
      ensures parsed == RecordsOf(schema, rows, batchId)
      ensures errors == 0 <==> forall k | 0 <= k < |rows| :: RowCasts(schema, rows[k])
    {
      hide RowCasts, RecordOf;
      parsed, errors := [], 0;
      for i := 0 to |rows|
        invariant |parsed| == i
        invariant forall k | 0 <= k < i :: parsed[k] == RecordOf(schema, rows[k], k + 1, batchId)
        invariant errors == 0 <==> forall k | 0 <= k < i :: RowCasts(schema, rows[k])
      {
        var cells, bad := ParseRow(rows[i]);
        RecordCells(schema, rows[i], i + 1, batchId);
        errors := errors + bad;
        parsed := parsed + [Record(cells, i + 1, batchId)];
      }
      assert parsed == RecordsOf(schema, rows, batchId);
    }

    /** Missing columns are drift; extra ones are too, unless additions are allowed. */
    method CheckHeader(fields: seq<string>) returns (fits: bool)
      ensures fits == HeaderFits(schema, fields)
    {
      hide StripAll;
      var names := StripAll(fields);
      fits := FindMissing(names);
      if fits && !schema.allowAdditive {
        fits := FindExtra(names);
      }
    }

    method FindMissing(names: seq<string>) returns (none: bool)
      ensures none == HasAllColumns(schema, names, |schema.columns|)
    {
      none := true;
      for k := 0 to |schema.columns|
        invariant none == HasAllColumns(schema, names, k)
      {
        if schema.columns[k].name !in names {
          none := false;
        }
      }
    }

    method FindExtra(names: seq<string>) returns (none: bool)
      ensures none == HasOnlyColumns(schema, names, |names|)
    {
      none := true;
      for k := 0 to |names|
        invariant none == HasOnlyColumns(schema, names, k)
      {
        if !(exists j :: 0 <= j < |schema.columns| && schema.columns[j].name == names[k]) {
          assert !IsColumn(schema, names[k]);
          none := false;
        }
      }
    }

    /** The cells of one row and the number of texts that do not cast. */
    method ParseRow(raw: map<string, string>) returns (cells: map<string, Cell>, bad: nat)
      ensures cells == CellsOf(schema, schema.columns, raw)
      ensures bad == 0 <==> RowCasts(schema, raw)
    {
      hide Cast;
      cells, bad := map[], 0;
      var columns := schema.columns;
      for k := 0 to |columns|
        invariant cells == CellsOf(schema, columns[..k], raw)
        invariant bad == 0 <==> forall j | 0 <= j < k :: CellOf(schema, columns[j], raw).Some?
      {
        assert columns[..k + 1][..k] == columns[..k] && columns[..k + 1][k] == columns[k];
        var value := if columns[k].name in raw then raw[columns[k].name] else "";
        var cell := Cast(schema, columns[k].kind, value);
        if cell.None? {
          bad := bad + 1;
        }
        cells := cells[columns[k].name := cell.UnwrapOr(Null)];
      }
      assert columns[..|columns|] == columns;
    }

    /** Absorb, refuse, or hand over the rows; the audit row waits until the run has succeeded. */
    method IterRecords(run: Run) returns (r: Result<seq<Record>, Failure>)
      requires pendingAudit == None
      modifies this`batchId, this`pendingAudit
      ensures batchId == run.delivery.batchId
      ensures
        var key := AuditKey(run.delivery);
        match Judge(schema, State(), run) {
          case Undeclared => r == Err(NotDeclared) && pendingAudit == None
          case Absorb => r == Ok([]) && pendingAudit == Some(Audit(key, SkippedDuplicate, 0))
          case Quarantine(reason) =>
            r == Err(FileQuarantined(reason)) && pendingAudit == Some(Audit(key, Quarantined, 0))
          case Promote(records) => r == Ok(records) && pendingAudit == Some(Audit(key, Promoted, 0))
        }
    {
      var d := run.delivery;
      batchId := d.batchId;
      if d.entry.None? {
        return Err(NotDeclared);
      }
      var hash := if d.file.Some? then d.file.value.hash else "";
      var key := if hash != "" then hash else "unknown";
      var already := store.HasFileBeenProcessed(hash);
      var watermark := WatermarkOf(store.watermarks, run.entity, run.mode);
      if already || (run.mode.Incremental? && watermark == Some(d.batchId)) {
        pendingAudit := Some(Audit(key, SkippedDuplicate, 0));
        return Ok([]);
      }
      var rows := ValidatedRows(d);
      if rows.Err? {
        pendingAudit := Some(Audit(key, Quarantined, 0));
        return Err(FileQuarantined(rows.error));
      }
      pendingAudit := Some(Audit(key, Promoted, 0));
      return Ok(rows.value);
    }

    /** One extract: rows, then the watermark, then the audit row. */
    method Extract(run: Run) returns (r: Result<nat, Failure>)
      requires pendingAudit == None
      modifies this, store
      ensures pendingAudit == None && State() == Next(schema, old(State()), run)
      ensures match Judge(schema, old(State()), run) {
        case Promote(records) => r == Ok(|records|)
        case Absorb => r == Ok(0)
        case Quarantine(reason) => r == Err(FileQuarantined(reason))
        case Undeclared => r == Err(NotDeclared)
      }
    {
      hide Judge, Validated;
      var before := WatermarkOf(store.watermarks, run.entity, run.mode);
      var records := IterRecords(run);
      if records.Err? {
        if records.error.FileQuarantined? {
          store.FlushAudit(pendingAudit, 0);
          pendingAudit := None;
        }
        return Err(records.error);
      }
      var rows := records.value;
      if rows != [] {
        if run.mode.Incremental? && run.entity in staged {
          staged := staged[run.entity := staged[run.entity] + rows];
        } else {
          staged := staged[run.entity := rows];
        }
      } else {
        assert run.entity in staged ==> staged == staged[run.entity := staged[run.entity]];
      }
      store.UpsertWatermark(run.entity, run.mode, if batchId != "" then Some(batchId) else before);
      store.FlushAudit(pendingAudit, |rows|);
      pendingAudit := None;
      return Ok(|rows|);
    }
  }

  lemma RecordCells(schema: Schema, raw: map<string, string>, rowNo: nat, batchId: string)
    ensures RecordOf(schema, raw, rowNo, batchId) == Record(CellsOf(schema, schema.columns, raw), rowNo, batchId)
  {
  }
}
