/**
 Incremental extraction of document lines: one keyset-paged scan per configured document type,
 per-type checkpoints of the largest document number, and the merge of each delta into history.
 */
module BisTrack {
  import opened Outcomes
  import opened PyText
  import opened Documents
  import opened Staging

  const PAGE_SIZE: nat := 500

  /** A row of the header/line join. */
  datatype SourceRow = SourceRow(docType: string, doc: Doc, line: int, payload: string)

  /** A scan: the key its checkpoint is stored under and the type it filters on, if any. */
  datatype Scan = Scan(key: string, docType: Option<string>)

  /** The parameters of one page query. */
  datatype Query = Query(docType: Option<string>, watermark: Option<string>, cursor: Option<Cursor>)
  datatype Cursor = Cursor(doc: string, line: int)

  /** The stored checkpoint: largest document number, as text, per scan key. */
  type Marks = map<string, string>

  /* ---------- the database's side of the contract ---------- */

  predicate InScan(row: SourceRow, docType: Option<string>) {
    docType.None? || row.docType == docType.value
  }

  /** The WHERE clause of a page query. An empty watermark text adds no condition. */
  predicate Matches(q: Query, row: SourceRow) {
    && InScan(row, q.docType)
    && (q.watermark.Some? && q.watermark.value != "" ==> DocLess(DocOf(q.watermark.value), row.doc))
    && (q.cursor.Some? ==>
          var d := DocOf(q.cursor.value.doc);
          DocLess(d, row.doc) || (row.doc == d && q.cursor.value.line < row.line))
  }

  /** ORDER BY document, line. */
  predicate RowLess(a: SourceRow, b: SourceRow) {
    DocLess(a.doc, b.doc) || (a.doc == b.doc && a.line < b.line)
  }

  predicate Ascending(rows: seq<SourceRow>) {
    forall i, j | 0 <= i < j < |rows| :: RowLess(rows[i], rows[j])
  }

  /** What one scan relies on: well-formed numbers of one kind, (document, line) unique. */
  ghost predicate ScanOK(table: set<SourceRow>, docType: Option<string>) {
    && (forall r | r in table && InScan(r, docType) :: IsDoc(r.doc))
    && (forall a, b | a in table && b in table && InScan(a, docType) && InScan(b, docType) ::
          SameKind(a.doc, b.doc) && (a.doc == b.doc && a.line == b.line ==> a == b))
  }

  /** A page: the first rows, in order, that match the query; a short page holds them all. */
  ghost predicate IsPage(table: set<SourceRow>, q: Query, page: seq<SourceRow>) {
    && |page| <= PAGE_SIZE && Ascending(page)
    && (forall r | r in page :: r in table && Matches(q, r))
    && (forall r | r in table && Matches(q, r) && r !in page ::
          |page| == PAGE_SIZE && RowLess(page[PAGE_SIZE - 1], r))
  }

  /** A database connection during one run: the page of a query, or a driver failure. */
  type Server = Query -> Option<seq<SourceRow>>

  ghost predicate Serves(server: Server, table: set<SourceRow>) {
    forall q :: server(q).Some? ==> IsPage(table, q, server(q).value)
  }

  /* ---------- one scan ---------- */

  /** The rows a scan is to deliver. */
  function Wanted(table: set<SourceRow>, docType: Option<string>, watermark: Option<string>): set<SourceRow> {
    set r | r in table && Matches(Query(docType, watermark, None), r)
  }

  /** Rows in order that are exactly those wanted. */
  ghost predicate IsScan(table: set<SourceRow>, docType: Option<string>, watermark: Option<string>,
                         rows: seq<SourceRow>) {
    Ascending(rows) && forall r :: r in rows <==> r in Wanted(table, docType, watermark)
  }

  /** Rows in order that are wanted and hold every wanted row up to the last of them. */
  ghost predicate IsScanPrefix(table: set<SourceRow>, docType: Option<string>, watermark: Option<string>,
                               rows: seq<SourceRow>) {
    && Ascending(rows)
    && (forall r | r in rows :: r in Wanted(table, docType, watermark))
    && (forall r | r in Wanted(table, docType, watermark) && r !in rows :: rows == [] || RowLess(rows[|rows| - 1], r))
  }

  lemma RowOrderTransitive(a: SourceRow, b: SourceRow, c: SourceRow)
    requires RowLess(a, b) && RowLess(b, c)
    ensures RowLess(a, c)
  {
    if DocLess(a.doc, b.doc) && DocLess(b.doc, c.doc) {
      DocOrderTransitive(a.doc, b.doc, c.doc);
    }
  }

  lemma RowOrderTotal(a: SourceRow, b: SourceRow)
    requires SameKind(a.doc, b.doc)
    ensures RowLess(a, b) || RowLess(b, a) || (a.doc == b.doc && a.line == b.line)
    ensures !(RowLess(a, b) && RowLess(b, a)) && !RowLess(a, a)
  {
    DocOrderTotal(a.doc, b.doc);
    DocOrderTotal(a.doc, a.doc);
  }

  /** The keyset cursor selects exactly the rows after the last one read. */
  lemma CursorSelectsAfter(docType: Option<string>, watermark: Option<string>, last: SourceRow, r: SourceRow)
    requires IsDoc(last.doc)
    ensures Matches(Query(docType, watermark, Some(Cursor(DocText(last.doc), last.line))), r)
       <==> Matches(Query(docType, watermark, None), r) && RowLess(last, r)
  {
    DocTextRoundTrips(last.doc);
  }

  /** Appending a page that starts after the last row read extends the scanned prefix. */
  lemma PageExtends(table: set<SourceRow>, docType: Option<string>, watermark: Option<string>,
                    rows: seq<SourceRow>, page: seq<SourceRow>, q: Query)
    requires ScanOK(table, docType) && IsScanPrefix(table, docType, watermark, rows)
    requires q == Query(docType, watermark,
                        if rows == [] then None else Some(Cursor(DocText(rows[|rows| - 1].doc), rows[|rows| - 1].line)))
    requires IsPage(table, q, page)
    ensures IsScanPrefix(table, docType, watermark, rows + page)
    ensures |page| < PAGE_SIZE ==> IsScan(table, docType, watermark, rows + page)
    ensures forall r | r in page :: r in Wanted(table, docType, watermark) && r !in rows
  {
    hide DocLess, IsDoc, DocOf, DocText, Wanted, Matches, RowLess, ScanOK;
    var out := rows + page;
    PageIsNew(table, docType, watermark, rows, page, q);
    forall i, j | 0 <= i < j < |out|
      ensures RowLess(out[i], out[j])
    {
      if i < |rows| <= j {
        var last := rows[|rows| - 1];
        assert out[j] in page && RowLess(last, out[j]);
        if i < |rows| - 1 {
          assert RowLess(rows[i], last);
          RowOrderTransitive(out[i], last, out[j]);
        }
      }
    }
    forall r | r in Wanted(table, docType, watermark) && r !in out
      ensures |page| == PAGE_SIZE && RowLess(out[|out| - 1], r)
    {
      assert r !in rows && r !in page;
    }
    forall r | r in page
      ensures r !in rows
    {
      if r in rows {
        NothingAfterLast(rows, r);
      }
    }
  }

  /** No row of an ascending run comes after its last one. */
  lemma NothingAfterLast(rows: seq<SourceRow>, r: SourceRow)
    requires Ascending(rows) && r in rows
    ensures !RowLess(rows[|rows| - 1], r)
  {
    hide RowLess;
    var k :| 0 <= k < |rows| && rows[k] == r;
    RowOrderTotal(r, r);
    if k < |rows| - 1 {
      assert RowLess(rows[k], rows[|rows| - 1]);
      if RowLess(rows[|rows| - 1], r) {
        RowOrderTransitive(r, rows[|rows| - 1], r);
      }
    }
  }

  lemma NothingRead(table: set<SourceRow>, docType: Option<string>, watermark: Option<string>)
    ensures IsScanPrefix(table, docType, watermark, [])
  {
  }

  /** What a page query asks for, in terms of the rows already read. */
  lemma PageIsNew(table: set<SourceRow>, docType: Option<string>, watermark: Option<string>,
                  rows: seq<SourceRow>, page: seq<SourceRow>, q: Query)
    requires ScanOK(table, docType) && IsScanPrefix(table, docType, watermark, rows)
    requires q == Query(docType, watermark,
                        if rows == [] then None else Some(Cursor(DocText(rows[|rows| - 1].doc), rows[|rows| - 1].line)))
    requires IsPage(table, q, page)
    ensures forall r | r in page ::
              r in Wanted(table, docType, watermark) && (rows != [] ==> RowLess(rows[|rows| - 1], r))
    ensures forall r | r in Wanted(table, docType, watermark) && r !in rows && r !in page ::
              |page| == PAGE_SIZE && RowLess(page[PAGE_SIZE - 1], r)
  {
    hide DocLess, RowLess, DocOf, DocText;
    if rows != [] {
      var last := rows[|rows| - 1];
      assert last in rows;
      forall r
        ensures Matches(q, r) <==> Matches(Query(docType, watermark, None), r) && RowLess(last, r)
      {
        CursorSelectsAfter(docType, watermark, last, r);
      }
    }
  }

  class BisTrackConnector {
    /** Largest document seen per scan key, as text; kept across runs of this connector. */
    var maxTypeSeen: Marks

    constructor ()
      ensures maxTypeSeen == map[]
    {
      maxTypeSeen := map[];
    }

    method ObserveTypeMax(scanKey: string, doc: Doc)
      modifies this
      ensures maxTypeSeen == Observed(old(maxTypeSeen), scanKey, [doc])
    {
      var current := if scanKey in maxTypeSeen then Some(maxTypeSeen[scanKey]) else None;
      maxTypeSeen := maxTypeSeen[scanKey := MaxDocument(current, Some(DocText(doc))).value];
    }

    /** One type's scan: pages strictly after the last row read, until a short page. A backfill observes nothing. */
    method ScanType(server: Server, ghost table: set<SourceRow>, scan: Scan, watermark: Option<string>, mode: Mode)
      returns (rows: seq<SourceRow>, failed: bool)
      requires Serves(server, table) && ScanOK(table, scan.docType)
      modifies this
      ensures !failed ==> IsScan(table, scan.docType, watermark, rows)
      ensures IsScanPrefix(table, scan.docType, watermark, rows)
      ensures maxTypeSeen
           == if mode.Incremental? then Observed(old(maxTypeSeen), scan.key, Docs(rows)) else old(maxTypeSeen)
    {
      hide Observed, Docs, IsScan, IsScanPrefix, IsPage, Wanted, Matches, ScanOK;
      rows, failed := [], false;
      NothingRead(table, scan.docType, watermark);
      ObservedNothing(maxTypeSeen, scan.key);
      var cursor: Option<Cursor> := None;
      while true
        invariant IsScanPrefix(table, scan.docType, watermark, rows)
        invariant cursor == if rows == [] then None
                            else Some(Cursor(DocText(rows[|rows| - 1].doc), rows[|rows| - 1].line))
        invariant maxTypeSeen
               == if mode.Incremental? then Observed(old(maxTypeSeen), scan.key, Docs(rows)) else old(maxTypeSeen)
        decreases Wanted(table, scan.docType, watermark) - (set r | r in rows)
      {
        var q := Query(scan.docType, watermark, cursor);
        var answer := server(q);
        if answer.None? {
          return rows, true;
        }
        var page := answer.value;
        PageExtends(table, scan.docType, watermark, rows, page, q);
        ghost var before := rows;
        if mode.Incremental? {
          ObservePage(scan.key, before, page);
        }
        rows := rows + page;
        if |page| < PAGE_SIZE {
          return;
        }
        var last := page[|page| - 1];
        NewRowShrinks(Wanted(table, scan.docType, watermark), before, rows, last);
        cursor := Some(Cursor(DocText(last.doc), last.line));
      }
    }

    /** Every mapped row of a page is observed in turn. */
    method ObservePage(scanKey: string, ghost before: seq<SourceRow>, page: seq<SourceRow>)
      modifies this
      ensures forall seen :: old(maxTypeSeen) == Observed(seen, scanKey, Docs(before)) ==>
                maxTypeSeen == Observed(seen, scanKey, Docs(before + page))
    {
      for k := 0 to |page|
        invariant maxTypeSeen == Observed(old(maxTypeSeen), scanKey, Docs(page[..k]))
      {
        ObserveTypeMax(scanKey, page[k].doc);
        assert page[..k + 1] == page[..k] + [page[k]];
        ObservedAppend(old(maxTypeSeen), scanKey, page[..k], [page[k]]);
      }
      assert page[..|page|] == page;
      forall seen | old(maxTypeSeen) == Observed(seen, scanKey, Docs(before))
        ensures maxTypeSeen == Observed(seen, scanKey, Docs(before + page))
      {
        ObservedAppend(seen, scanKey, before, page);
      }
    }
  }

  lemma NewRowShrinks(wanted: set<SourceRow>, before: seq<SourceRow>, rows: seq<SourceRow>, r: SourceRow)
    requires (forall x | x in before :: x in rows) && r in rows && r in wanted && r !in before
    ensures wanted - (set x | x in rows) < wanted - (set x | x in before)
  {
    var a, b := wanted - (set x | x in rows), wanted - (set x | x in before);
    assert a <= b && r in b && r !in a;
  }

  lemma ObservedNothing(seen: Marks, key: string)
    ensures Observed(seen, key, Docs([])) == seen
  {
  }

  function Docs(rows: seq<SourceRow>): seq<Doc> {
    if rows == [] then [] else [rows[0].doc] + Docs(rows[1..])
  }

  /** The maxima after observing these documents under one key. */
  function Observed(seen: Marks, key: string, docs: seq<Doc>): Marks
    decreases |docs|
  {
    if docs == [] then seen
    else
      var current := if key in seen then Some(seen[key]) else None;
      Observed(seen[key := MaxDocument(current, Some(DocText(docs[0]))).value], key, docs[1..])
  }

  lemma {:induction false} ObservedAppend(seen: Marks, key: string, a: seq<SourceRow>, b: seq<SourceRow>)
    ensures Observed(seen, key, Docs(a + b)) == Observed(Observed(seen, key, Docs(a)), key, Docs(b))
    decreases |a|
  {
    if a == [] {
      assert a + b == b;
    } else {
      assert (a + b)[1..] == a[1..] + b;
      var current := if key in seen then Some(seen[key]) else None;
      ObservedAppend(seen[key := MaxDocument(current, Some(DocText(a[0].doc))).value], key, a[1..], b);
    }
  }
}
