/**
 What a CSV drop stages and records, spelled out: the value of every cell, the gate that refuses a
 file, and what a run leaves in the store.
 */
module CsvLaws {
  import opened Outcomes
  import opened PyText
  import opened Staging
  import opened ControlPlane
  import opened CsvDrop
  import opened CsvDropRuns

  /* ---------- cells ---------- */

  /** The text under a column, nothing if the row has none. */
  function TextUnder(raw: map<string, string>, name: string): string {
    if name in raw then raw[name] else ""
  }

  /** The text is blank or of the column's type. */
  predicate IsOfType(schema: Schema, kind: ColumnType, text: string) {
    AllSpace(text) ||
    match kind
    case StringType => true
    case IntegerType => ParseInt(text).Some?
    case DecimalType => schema.isDecimal(Strip(text))
    case DateType => schema.isDate(Strip(text))
  }

  /** The cell holds what the text says: nothing, or its value without the white space around it. */
  predicate Holds(kind: ColumnType, text: string, cell: Cell) {
    if AllSpace(text) then cell == Null
    else
      match kind
      case StringType => cell == Text(Strip(text))
      case IntegerType => cell.Number? && ParseInt(text) == Some(cell.n)
      case DecimalType => cell == Decimal(Strip(text))
      case DateType => cell == Date(Strip(text))
  }

  lemma CellIs(schema: Schema, column: Column, raw: map<string, string>)
    ensures CellOf(schema, column, raw).Some? <==> IsOfType(schema, column.kind, TextUnder(raw, column.name))
    ensures CellOf(schema, column, raw).Some? ==>
              Holds(column.kind, TextUnder(raw, column.name), CellOf(schema, column, raw).value)
  {
    hide AllSpace;
    var text := TextUnder(raw, column.name);
    var _, _ := StripParts(text);
    StripKeepsTrimmed(Strip(text));
  }

  /** Every text of the file is of its column's type. */
  ghost predicate AllOfType(schema: Schema, rows: seq<map<string, string>>) {
    forall i, k | 0 <= i < |rows| && 0 <= k < |schema.columns| ::
      IsOfType(schema, schema.columns[k].kind, TextUnder(rows[i], schema.columns[k].name))
  }

  lemma RowsCastIff(schema: Schema, rows: seq<map<string, string>>)
    ensures (forall i | 0 <= i < |rows| :: RowCasts(schema, rows[i])) <==> AllOfType(schema, rows)
  {
    hide CellOf, IsOfType;
    forall i, k | 0 <= i < |rows| && 0 <= k < |schema.columns|
      ensures CellOf(schema, schema.columns[k], rows[i]).Some?
         <==> IsOfType(schema, schema.columns[k].kind, TextUnder(rows[i], schema.columns[k].name))
    {
      CellIs(schema, schema.columns[k], rows[i]);
    }
    if forall i | 0 <= i < |rows| :: RowCasts(schema, rows[i]) {
      forall i, k | 0 <= i < |rows| && 0 <= k < |schema.columns|
        ensures IsOfType(schema, schema.columns[k].kind, TextUnder(rows[i], schema.columns[k].name))
      {
        assert RowCasts(schema, rows[i]);
      }
    }
  }

  function Names(columns: seq<Column>): set<string> {
    set k | 0 <= k < |columns| :: columns[k].name
  }

  lemma {:induction false} CellNames(schema: Schema, columns: seq<Column>, raw: map<string, string>)
    ensures CellsOf(schema, columns, raw).Keys == Names(columns)
    decreases |columns|
  {
    hide CellOf;
    if columns != [] {
      var front := columns[..|columns| - 1];
      CellNames(schema, front, raw);
      assert Names(columns) == Names(front) + {columns[|columns| - 1].name};
    }
  }

  /**
   A promoted file: one record a row, in the file's order and numbered from 1, under its batch, with
   exactly the approved columns; and in each the value that the row's text says.
   */
  lemma PromotedCells(schema: Schema, s: Source, run: Run, i: nat)
    requires Judge(schema, s, run).Promote? && DistinctColumns(schema.columns)
    requires i < |Judge(schema, s, run).records|
    ensures run.delivery.file.Some? && |Judge(schema, s, run).records| == |run.delivery.file.value.rows|
    ensures
      var record, raw := Judge(schema, s, run).records[i], run.delivery.file.value.rows[i];
      && record.rowNo == i + 1 && record.batchId == run.delivery.batchId
      && record.cells.Keys == Names(schema.columns)
      && forall k | 0 <= k < |schema.columns| ::
           Holds(schema.columns[k].kind, TextUnder(raw, schema.columns[k].name), record.cells[schema.columns[k].name])
  {
    hide CellOf, HeaderFits, CellsOf, DistinctColumns, RowCasts, Holds, Names;
    var record, raw := Judge(schema, s, run).records[i], run.delivery.file.value.rows[i];
    CellNames(schema, schema.columns, raw);
    assert RowCasts(schema, raw);
    forall k | 0 <= k < |schema.columns|
      ensures schema.columns[k].name in record.cells
      ensures Holds(schema.columns[k].kind, TextUnder(raw, schema.columns[k].name),
                    record.cells[schema.columns[k].name])
    {
      ColumnCasts(schema, raw, k);
      CellsMean(schema, schema.columns, raw, k);
      CellIs(schema, schema.columns[k], raw);
    }
  }

  lemma ColumnCasts(schema: Schema, raw: map<string, string>, k: nat)
    requires RowCasts(schema, raw) && k < |schema.columns|
    ensures CellOf(schema, schema.columns[k], raw).Some?
  {
    hide CellOf;
  }

  /** So an int written in an integer column is staged as that int. */
  lemma IntsAreStaged(n: int, cell: Cell)
    requires |Digits(if n < 0 then -n else n)| <= INT_MAX_STR_DIGITS && Holds(IntegerType, IntText(n), cell)
    ensures cell == Number(n)
  {
    var t := IntText(n);
    ParseIntText(n);
    assert IsDigit(t[|t| - 1]);
  }

  /* ---------- gates ---------- */

  /** Some header field is this name, white space around it aside. */
  predicate Declares(header: seq<string>, name: string) {
    exists j | 0 <= j < |header| :: Strip(header[j]) == name
  }

  /** Every approved column is declared, and without additions nothing else is. */
  ghost predicate FitsSchema(schema: Schema, header: seq<string>) {
    && (forall name | name in Names(schema.columns) :: Declares(header, name))
    && (schema.allowAdditive || forall j | 0 <= j < |header| :: Strip(header[j]) in Names(schema.columns))
  }

  lemma HeaderFitsIff(schema: Schema, header: seq<string>)
    ensures HeaderFits(schema, header) <==> FitsSchema(schema, header)
  {
    hide Strip, HasAllColumns, HasOnlyColumns, Declares;
    AllColumnsIff(schema, header);
    OnlyColumnsIff(schema, header);
  }

  lemma AllColumnsIff(schema: Schema, header: seq<string>)
    ensures HasAllColumns(schema, StripAll(header), |schema.columns|)
       <==> forall name | name in Names(schema.columns) :: Declares(header, name)
  {
    hide Strip;
    var names := StripAll(header);
    forall name ensures name in names <==> Declares(header, name) {
      if Declares(header, name) {
        var j :| 0 <= j < |header| && Strip(header[j]) == name;
        assert names[j] == name;
      }
    }
  }

  lemma OnlyColumnsIff(schema: Schema, header: seq<string>)
    ensures HasOnlyColumns(schema, StripAll(header), |StripAll(header)|)
       <==> forall j | 0 <= j < |header| :: Strip(header[j]) in Names(schema.columns)
  {
    hide Strip;
    var names := StripAll(header);
    forall j | 0 <= j < |header| ensures IsColumn(schema, names[j]) <==> Strip(header[j]) in Names(schema.columns) {
    }
  }

  /** The gate that refuses a declared file: the first that it does not pass, and none exactly for a sound one. */
  lemma RefusedAs(schema: Schema, d: Delivery)
    requires d.entry.Some?
    ensures
      var r, file, entry := Validated(schema, d), d.file, d.entry.value;
      if file.None? then r == Err(MissingFile)
      else if file.value.isBlank then r == Err(EmptyFile)
      else if file.value.hash != entry.sha256 then r == Err(ChecksumMismatch)
      else if file.value.header.None? || !FitsSchema(schema, file.value.header.value) then r == Err(HeaderDrift)
      else if !AllOfType(schema, file.value.rows) then r == Err(ParseError)
      else if |file.value.rows| != entry.rows then r == Err(RowCountMismatch)
      else r.Ok?
  {
    hide HeaderFits, FitsSchema, AllOfType, RowCasts;
    if d.file.Some? {
      RowsCastIff(schema, d.file.value.rows);
      if d.file.value.header.Some? {
        HeaderFitsIff(schema, d.file.value.header.value);
      }
    }
  }

  /* ---------- runs ---------- */

  /** What became of a run, from the delivery and the store alone. */
  lemma RunIsJudged(schema: Schema, s: Source, run: Run)
    ensures
      var verdict, d := Judge(schema, s, run), run.delivery;
      var hash := if d.file.Some? then d.file.value.hash else "";
      var seen := hash in s.audits ||
                  (run.mode.Incremental? && (run.entity, run.mode) in s.watermarks
                   && s.watermarks[(run.entity, run.mode)] == d.batchId);
      if d.entry.None? then verdict.Undeclared?
      else if seen then verdict.Absorb?
      else if Validated(schema, d).Ok? then verdict == Promote(Validated(schema, d).value)
      else verdict == Quarantine(Validated(schema, d).error)
  {
    hide Validated;
  }

  /** Other entities keep their rows, other entities and modes their watermarks, other hashes their audit rows. */
  ghost predicate TouchesOne(a: Source, b: Source, run: Run, key: string) {
    && b.staged - {run.entity} == a.staged - {run.entity}
    && b.watermarks - {(run.entity, run.mode)} == a.watermarks - {(run.entity, run.mode)}
    && b.audits - {key} == a.audits - {key}
  }

  /**
   What a run leaves behind. Its batch id, if it has one, becomes the watermark of its entity and
   mode exactly when it succeeds; its rows are staged exactly when it promotes them, after what is there in an
   incremental run, in its place otherwise; and its outcome is recorded under its content, unless
   that has a record.
   */
  lemma RunLeaves(schema: Schema, s: Source, run: Run)
    ensures
      var verdict, next, key := Judge(schema, s, run), Next(schema, s, run), AuditKey(run.delivery);
      var at, past := (run.entity, run.mode), (if run.entity in s.staged then s.staged[run.entity] else []);
      var marks := (verdict.Absorb? || verdict.Promote?) && run.delivery.batchId != "";
      && TouchesOne(s, next, run, key)
      && (at in next.watermarks <==> at in s.watermarks || marks)
      && (marks ==> next.watermarks[at] == run.delivery.batchId)
      && (!marks && at in s.watermarks ==> next.watermarks[at] == s.watermarks[at])
      && (if verdict.Promote? && verdict.records != [] then
            && run.entity in next.staged
            && next.staged[run.entity]
                 == (if run.mode.Incremental? then past else []) + verdict.records
          else next.staged == s.staged)
      && (key in next.audits <==> key in s.audits || !verdict.Undeclared?)
      && (key in next.audits ==>
            next.audits[key] ==
              if key in s.audits then s.audits[key]
              else match verdict {
                case Promote(records) => Audit(key, Promoted, |records|)
                case Absorb => Audit(key, SkippedDuplicate, 0)
                case _ => Audit(key, Quarantined, 0)
              })
  {
    hide Judge;
    var verdict := Judge(schema, s, run);
    if verdict.Promote? {
      assert [] + verdict.records == verdict.records;
    }
  }

  /** The audit key of a file is its hash; a file that is absent goes by a word. */
  lemma AuditKeyIs(d: Delivery)
    ensures AuditKey(d) == if d.file.Some? && d.file.value.hash != "" then d.file.value.hash else "unknown"
  {
  }
}
