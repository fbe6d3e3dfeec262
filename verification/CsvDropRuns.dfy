/**
 CSV drops over whole runs: no content is promoted twice, a promoted file contributes exactly what
 its manifest declares, and a file that fails a gate changes no staged row - nor, ever after, does
 the same content under a corrected manifest.
 */
module CsvDropRuns {
  import opened Outcomes
  import opened PyText
  import opened Staging
  import opened ControlPlane
  import opened CsvDrop

  function After(schema: Schema, s: Source, runs: seq<Run>): Source
    decreases |runs|
  {
    if runs == [] then s else After(schema, Next(schema, s, runs[0]), runs[1..])
  }

  /** The content hashes promoted by a sequence of runs, in order. */
  function Promotions(schema: Schema, s: Source, runs: seq<Run>): seq<string>
    decreases |runs|
  {
    if runs == [] then []
    else (if Judge(schema, s, runs[0]).Promote? then [HashOf(runs[0].delivery)] else [])
         + Promotions(schema, Next(schema, s, runs[0]), runs[1..])
  }

  predicate Distinct(hashes: seq<string>) {
    forall i, j | 0 <= i < j < |hashes| :: hashes[i] != hashes[j]
  }

  /** Audit rows are never lost and never rewritten. */
  lemma AuditsStay(schema: Schema, s: Source, run: Run, hash: string)
    requires hash in s.audits
    ensures hash in Next(schema, s, run).audits && Next(schema, s, run).audits[hash] == s.audits[hash]
  {
  }

  lemma PromotionIsAudited(schema: Schema, s: Source, run: Run)
    requires Judge(schema, s, run).Promote? && HashOf(run.delivery) != ""
    ensures HashOf(run.delivery) !in s.audits && HashOf(run.delivery) in Next(schema, s, run).audits
  {
  }

  /** Content digests are never empty. */
  predicate HasDigests(runs: seq<Run>) {
    forall k | 0 <= k < |runs| && runs[k].delivery.file.Some? :: runs[k].delivery.file.value.hash != ""
  }

  /** Over any runs a content hash is promoted at most once, and never one that had an audit row. */
  lemma {:induction false} PromotedAtMostOnce(schema: Schema, s: Source, runs: seq<Run>)
    requires HasDigests(runs)
    ensures Distinct(Promotions(schema, s, runs))
    ensures forall h | h in Promotions(schema, s, runs) :: h !in s.audits
    decreases |runs|
  {
    hide Judge, Next;
    if runs != [] {
      var next := Next(schema, s, runs[0]);
      var rest := Promotions(schema, next, runs[1..]);
      assert forall k | 0 <= k < |runs[1..]| :: runs[1..][k] == runs[k + 1];
      PromotedAtMostOnce(schema, next, runs[1..]);
      forall h | h in rest ensures h !in s.audits {
        if h in s.audits {
          AuditsStay(schema, s, runs[0], h);
        }
      }
      if Judge(schema, s, runs[0]).Promote? {
        PromotedHasFile(schema, s, runs[0]);
        PromotionIsAudited(schema, s, runs[0]);
        assert HashOf(runs[0].delivery) !in rest;
      }
    }
  }

  lemma PromotedHasFile(schema: Schema, s: Source, run: Run)
    requires Judge(schema, s, run).Promote?
    ensures run.delivery.file.Some?
  {
  }

  predicate DistinctColumns(columns: seq<Column>) {
    forall i, j | 0 <= i < j < |columns| :: columns[i].name != columns[j].name
  }

  /** Every approved column has its cell, read under the column's own name. */
  lemma {:induction false} CellsMean(schema: Schema, columns: seq<Column>, raw: map<string, string>, k: nat)
    requires DistinctColumns(columns) && k < |columns|
    ensures columns[k].name in CellsOf(schema, columns, raw)
    ensures CellsOf(schema, columns, raw)[columns[k].name] == CellOf(schema, columns[k], raw).UnwrapOr(Null)
    decreases |columns|
  {
    hide CellOf;
    var last := |columns| - 1;
    if k < last {
      assert columns[..last][k] == columns[k];
      CellsMean(schema, columns[..last], raw, k);
    }
  }

  /** A promoted file has the manifest's hash and row count, and every value of it casts. */
  lemma PromotedFits(schema: Schema, s: Source, run: Run)
    requires Judge(schema, s, run).Promote? && DistinctColumns(schema.columns)
    ensures
      var records, file, entry := Judge(schema, s, run).records, run.delivery.file.value, run.delivery.entry.value;
      && |records| == |file.rows| == entry.rows && file.hash == entry.sha256
      && forall i, k | 0 <= i < |records| && 0 <= k < |schema.columns| ::
           var column := schema.columns[k];
           && column.name in records[i].cells
           && CellOf(schema, column, file.rows[i]) == Some(records[i].cells[column.name])
  {
    hide CellOf, HeaderFits;
    var records, file := Judge(schema, s, run).records, run.delivery.file.value;
    forall i, k | 0 <= i < |records| && 0 <= k < |schema.columns|
      ensures
        var column := schema.columns[k];
        && column.name in records[i].cells
        && CellOf(schema, column, file.rows[i]) == Some(records[i].cells[column.name])
    {
      assert RowCasts(schema, file.rows[i]);
      CellsMean(schema, schema.columns, file.rows[i], k);
    }
  }

  /** No run of this entity is promoted. */
  predicate NonePromoted(schema: Schema, s: Source, runs: seq<Run>, entity: string)
    decreases |runs|
  {
    runs == [] || (
      && (runs[0].entity == entity ==> !Judge(schema, s, runs[0]).Promote?)
      && NonePromoted(schema, Next(schema, s, runs[0]), runs[1..], entity))
  }

  /** Every run of this entity is quarantined or finds nothing declared. */
  predicate AllRefused(schema: Schema, s: Source, runs: seq<Run>, entity: string)
    decreases |runs|
  {
    runs == [] || (
      && (runs[0].entity == entity ==> Judge(schema, s, runs[0]).Quarantine? || Judge(schema, s, runs[0]).Undeclared?)
      && AllRefused(schema, Next(schema, s, runs[0]), runs[1..], entity))
  }

  /**
   Over any runs, whatever happens to other entities: the staged rows of an entity change only by
   a promotion of it, and its watermarks not at all while its files are refused.
   */
  lemma {:induction false} FailuresChangeNothing(schema: Schema, s: Source, runs: seq<Run>, entity: string, mode: Mode)
    ensures NonePromoted(schema, s, runs, entity) ==> StagedOf(After(schema, s, runs), entity) == StagedOf(s, entity)
    ensures AllRefused(schema, s, runs, entity) ==>
              && NonePromoted(schema, s, runs, entity)
              && WatermarkOf(After(schema, s, runs).watermarks, entity, mode) == WatermarkOf(s.watermarks, entity, mode)
    decreases |runs|
  {
    hide Judge, Next, StagedOf, WatermarkOf;
    if runs != [] {
      RunChangesOne(schema, s, runs[0], entity, mode);
      FailuresChangeNothing(schema, Next(schema, s, runs[0]), runs[1..], entity, mode);
    }
  }

  lemma RunChangesOne(schema: Schema, s: Source, run: Run, entity: string, mode: Mode)
    ensures (run.entity == entity && Judge(schema, s, run).Promote?)
            || StagedOf(Next(schema, s, run), entity) == StagedOf(s, entity)
    ensures (run.entity == entity && !(Judge(schema, s, run).Quarantine? || Judge(schema, s, run).Undeclared?))
         || WatermarkOf(Next(schema, s, run).watermarks, entity, mode) == WatermarkOf(s.watermarks, entity, mode)
  {
    hide Judge;
  }

  /**
   A delivery that passes every gate is promoted exactly when its content has no audit row at all
   - not even one saying QUARANTINED - and an incremental run has not seen its batch.
   */
  lemma SoundDeliveryPromotedIff(schema: Schema, s: Source, run: Run)
    requires run.delivery.entry.Some? && Validated(schema, run.delivery).Ok?
    ensures Judge(schema, s, run).Promote? <==> HashOf(run.delivery) !in s.audits && !IsSameBatch(s, run)
  {
  }

  /** Content that was quarantined once is never promoted, whatever manifests follow. */
  lemma QuarantineIsForever(schema: Schema, s: Source, run: Run, later: seq<Run>)
    requires Judge(schema, s, run).Quarantine? && run.delivery.file.Some? && HasDigests(later)
    requires run.delivery.file.value.hash != ""
    ensures HashOf(run.delivery) !in Promotions(schema, Next(schema, s, run), later)
  {
    PromotedAtMostOnce(schema, Next(schema, s, run), later);
  }

  const ONE_COLUMN := Schema([Column("sku", StringType)], true, (s: string) => false, (s: string) => false)

  /**
   A manifest with a wrong row count, then the same file under a corrected one: the second run
   reports success and moves the watermark, and no row was ever staged.
   */
  lemma CorrectedManifestIsSkipped()
    ensures
      var file := File("h1", false, Some(["sku"]), [map["sku" := "A"]]);
      var wrong := Run("items", Backfill, Delivery("b1", Some(ManifestEntry("h1", 2)), Some(file)));
      var right := Run("items", Backfill, Delivery("b2", Some(ManifestEntry("h1", 1)), Some(file)));
      var s := After(ONE_COLUMN, Source(map[], map[], map[]), [wrong, right]);
      && Validated(ONE_COLUMN, right.delivery).Ok?
      && s.staged == map[]
      && WatermarkOf(s.watermarks, "items", Backfill) == Some("b2")
      && s.audits == map["h1" := Audit("h1", Quarantined, 0)]
  {
    var file := File("h1", false, Some(["sku"]), [map["sku" := "A"]]);
    var wrong := Run("items", Backfill, Delivery("b1", Some(ManifestEntry("h1", 2)), Some(file)));
    var right := Run("items", Backfill, Delivery("b2", Some(ManifestEntry("h1", 1)), Some(file)));
    var s0 := Source(map[], map[], map[]);
    PlainFileFits(file);
    assert Judge(ONE_COLUMN, s0, wrong) == Quarantine(RowCountMismatch);
    var s1 := Next(ONE_COLUMN, s0, wrong);
    assert Judge(ONE_COLUMN, s1, right) == Absorb;
    assert [wrong, right][1..] == [right] && [right][1..] == [];
    assert After(ONE_COLUMN, s1, [right]) == After(ONE_COLUMN, Next(ONE_COLUMN, s1, right), []);
  }

  lemma PlainFileFits(file: File)
    requires file == File("h1", false, Some(["sku"]), [map["sku" := "A"]])
    ensures HeaderFits(ONE_COLUMN, file.header.value) && RowCasts(ONE_COLUMN, file.rows[0])
  {
    StripKeepsTrimmed("sku");
    StripKeepsTrimmed("A");
    assert StripAll(["sku"]) == ["sku"];
    assert "sku" in StripAll(file.header.value);
  }

  /**
   The header gate looks at trimmed names, the rows are keyed by untrimmed ones: a cell of a
   promoted row holds something exactly when the row has a non-blank text under the column's name
   as it is approved, letter by letter.
   */
  lemma CellHoldsIff(schema: Schema, raw: map<string, string>, k: nat)
    requires DistinctColumns(schema.columns) && k < |schema.columns| && RowCasts(schema, raw)
    ensures
      var cells, name := CellsOf(schema, schema.columns, raw), schema.columns[k].name;
      name in cells && (cells[name] != Null <==> name in raw && Strip(raw[name]) != "")
  {
    hide CellsOf, Strip, ParseInt;
    CellsMean(schema, schema.columns, raw, k);
    assert CellOf(schema, schema.columns[k], raw).Some?;
    NothingStrips();
  }

  lemma NothingStrips()
    ensures Strip("") == ""
  {
  }

  /** So a column whose header field is padded passes the gate and reads as empty in every row. */
  lemma PaddedColumnReadsNull(schema: Schema, d: Delivery, k: nat, i: nat)
    requires d.entry.Some? && Validated(schema, d).Ok? && DistinctColumns(schema.columns)
    requires k < |schema.columns| && i < |d.file.value.rows|
    requires d.file.value.rows[i].Keys <= HeaderFields(d.file.value)
    requires schema.columns[k].name !in HeaderFields(d.file.value)
    ensures schema.columns[k].name in StripAll(d.file.value.header.value)
    ensures
      var cells, name := Validated(schema, d).value[i].cells, schema.columns[k].name;
      name in cells && cells[name] == Null
  {
    hide Cast, RowCasts, CellsOf, HeaderFits, StripAll, HeaderFields, DistinctColumns;
    HeaderHas(schema, d.file.value.header.value, k);
    assert RowCasts(schema, d.file.value.rows[i]);
    CellHoldsIff(schema, d.file.value.rows[i], k);
  }

  /** One space before the header field: every gate passes, and the value is gone. */
  lemma OneSpaceLosesTheValue()
    ensures
      var file := File("h1", false, Some([" sku"]), [map[" sku" := "A"]]);
      var d := Delivery("b1", Some(ManifestEntry("h1", 1)), Some(file));
      Validated(ONE_COLUMN, d) == Ok([Record(map["sku" := Null], 1, "b1")])
  {
    var file := File("h1", false, Some([" sku"]), [map[" sku" := "A"]]);
    var d := Delivery("b1", Some(ManifestEntry("h1", 1)), Some(file));
    assert LStrip(" sku") == LStrip("sku") by { assert " sku"[1..] == "sku"; }
    StripKeepsTrimmed("sku");
    NothingStrips();
    assert StripAll([" sku"]) == ["sku"] by { assert [" sku"][1..] == []; }
    assert "sku" in StripAll(file.header.value);
    assert HeaderFits(ONE_COLUMN, [" sku"]);
    assert " sku" != "sku";
    assert CellOf(ONE_COLUMN, ONE_COLUMN.columns[0], file.rows[0]) == Some(Null);
    OneCell(file.rows[0]);
    assert RecordsOf(ONE_COLUMN, file.rows, "b1") == [Record(map["sku" := Null], 1, "b1")];
  }

  lemma OneCell(raw: map<string, string>)
    requires CellOf(ONE_COLUMN, ONE_COLUMN.columns[0], raw) == Some(Null)
    ensures CellsOf(ONE_COLUMN, ONE_COLUMN.columns, raw) == map["sku" := Null] && RowCasts(ONE_COLUMN, raw)
  {
    hide CellOf;
    assert ONE_COLUMN.columns[..0] == [];
    assert CellsOf(ONE_COLUMN, [], raw) == map[];
  }

  function HeaderFields(file: File): set<string> {
    if file.header.None? then {} else set name | name in file.header.value
  }

  lemma HeaderHas(schema: Schema, header: seq<string>, k: nat)
    requires HeaderFits(schema, header) && k < |schema.columns|
    ensures schema.columns[k].name in StripAll(header)
  {
  }
}
