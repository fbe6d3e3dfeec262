/**
 One incremental run stages every new source row of the configured types exactly once - exactly
 when the source only adds documents numbered above those already staged for their type.
 */
module BisTrackExact {
  import opened Outcomes
  import opened PyText
  import opened Documents
  import opened Staging
  import opened BisTrack
  import opened BisTrackRuns

  /* ---------- the rows of a plan ---------- */

  predicate InPlan(plan: seq<Scan>, r: SourceRow) {
    plan != [] && (InScan(r, plan[0].docType) || InPlan(plan[1..], r))
  }

  /** The source rows of the configured types. */
  function Scope(table: set<SourceRow>, plan: seq<Scan>): set<SourceRow> {
    set r | r in table && InPlan(plan, r)
  }

  /** The rows of one scan. */
  function ScanRows(table: set<SourceRow>, docType: Option<string>): set<SourceRow> {
    set r | r in table && InScan(r, docType)
  }

  function WantedAll(table: set<SourceRow>, plan: seq<Scan>, stored: Option<Marks>): set<SourceRow> {
    if plan == [] then {}
    else Wanted(table, plan[0].docType, MarkOf(stored, plan[0].key)) + WantedAll(table, plan[1..], stored)
  }

  lemma PlanTail(plan: seq<Scan>)
    requires IsPlan(plan) && plan != []
    ensures IsPlan(plan[1..])
    ensures forall r | InScan(r, plan[0].docType) :: !InPlan(plan[1..], r)
    ensures forall k | 0 < k < |plan| :: plan[k].key != plan[0].key
  {
    forall r | InPlan(plan[1..], r)
      ensures !InScan(r, plan[0].docType)
    {
      TypesDiffer(plan, r);
    }
  }

  lemma TypesDiffer(plan: seq<Scan>, r: SourceRow)
    requires IsPlan(plan) && plan != [] && InPlan(plan[1..], r)
    ensures !InScan(r, plan[0].docType)
  {
    var k := PlanIndex(plan[1..], r);
    assert plan[1..][k] == plan[k + 1];
  }

  lemma {:induction false} PlanIndex(plan: seq<Scan>, r: SourceRow) returns (k: nat)
    requires InPlan(plan, r)
    ensures k < |plan| && InScan(r, plan[k].docType)
  {
    if InScan(r, plan[0].docType) {
      k := 0;
    } else {
      var j := PlanIndex(plan[1..], r);
      k := j + 1;
    }
  }

  lemma {:induction false} InPlanAt(plan: seq<Scan>, r: SourceRow, k: nat)
    requires k < |plan| && InScan(r, plan[k].docType)
    ensures InPlan(plan, r)
  {
    if k > 0 {
      InPlanAt(plan[1..], r, k - 1);
    }
  }

  /* ---------- a scan's rows, once each ---------- */

  lemma {:induction false} AscendingOnce(rows: seq<SourceRow>, s: set<SourceRow>)
    requires Ascending(rows) && forall r :: r in rows <==> r in s
    ensures multiset(rows) == multiset(s)
  {
    hide RowLess;
    if rows != [] {
      var first := rows[0];
      forall r
        ensures r in rows[1..] <==> r in s - {first}
      {
        assert r in rows <==> r == first || r in rows[1..];
        if first in rows[1..] {
          var k :| 0 < k < |rows| && rows[k] == first;
          assert RowLess(rows[0], rows[k]);
          RowOrderTotal(first, first);
        }
      }
      AscendingOnce(rows[1..], s - {first});
      assert rows == [first] + rows[1..];
      assert s == (s - {first}) + {first};
    } else {
      assert s == {};
    }
  }

  /** The delta of a successful run holds each wanted row once. */
  lemma {:induction false} DeltaOnce(table: set<SourceRow>, plan: seq<Scan>, stored: Option<Marks>,
                                     parts: seq<seq<SourceRow>>)
    requires IsPlan(plan) && Scanned(table, plan, stored, parts)
    ensures multiset(Flatten(parts)) == multiset(WantedAll(table, plan, stored))
    ensures WantedAll(table, plan, stored) <= Scope(table, plan)
    decreases |plan|
  {
    hide Matches, Ascending, IsPlan, InPlan, ScanRows, Wanted;
    if plan != [] {
      var wanted := Wanted(table, plan[0].docType, MarkOf(stored, plan[0].key));
      var rest := WantedAll(table, plan[1..], stored);
      AscendingOnce(parts[0], wanted);
      PlanTail(plan);
      ScannedTail(table, plan, stored, parts);
      DeltaOnce(table, plan[1..], stored, parts[1..]);
      WantedInScan(table, plan[0].docType, MarkOf(stored, plan[0].key));
      ScopeParts(table, plan);
      assert wanted !! rest;
      assert multiset(wanted + rest) == multiset(wanted) + multiset(rest);
      assert multiset(parts[0] + Flatten(parts[1..])) == multiset(parts[0]) + multiset(Flatten(parts[1..]));
    }
  }

  /** The rows of the first scan and those of the other scans: apart, and all of the scope. */
  lemma ScopeParts(table: set<SourceRow>, plan: seq<Scan>)
    requires IsPlan(plan) && plan != []
    ensures ScanRows(table, plan[0].docType) !! Scope(table, plan[1..])
    ensures ScanRows(table, plan[0].docType) + Scope(table, plan[1..]) == Scope(table, plan)
  {
    PlanTail(plan);
  }

  lemma ScannedTail(table: set<SourceRow>, plan: seq<Scan>, stored: Option<Marks>, parts: seq<seq<SourceRow>>)
    requires plan != [] && Scanned(table, plan, stored, parts)
    ensures IsScan(table, plan[0].docType, MarkOf(stored, plan[0].key), parts[0])
    ensures Scanned(table, plan[1..], stored, parts[1..])
  {
    hide IsScan;
    assert forall k | 0 <= k < |plan| - 1 :: plan[1..][k] == plan[k + 1] && parts[1..][k] == parts[k + 1];
  }

  lemma WantedInScan(table: set<SourceRow>, docType: Option<string>, mark: Option<string>)
    ensures Wanted(table, docType, mark) <= ScanRows(table, docType)
  {
  }

  /* ---------- marks ---------- */

  /** This text is the largest document of these rows. */
  ghost predicate IsTop(text: string, rows: set<SourceRow>) {
    exists top :: top in rows && text == DocText(top.doc) && forall r | r in rows :: !DocLess(top.doc, r.doc)
  }

  /** The stored mark of a scan: none without rows, else the largest document. */
  ghost predicate MarkFits(mark: Option<string>, rows: set<SourceRow>) {
    if mark.None? then rows == {} else IsTop(mark.value, rows)
  }

  /** Whatever was observed under a key is the number of one of these rows. */
  ghost predicate SeenFits(seen: Marks, key: string, rows: set<SourceRow>) {
    key in seen ==> exists r :: r in rows && seen[key] == DocText(r.doc)
  }

  /** Numbered above all of these rows. */
  predicate AboveAll(r: SourceRow, rows: set<SourceRow>) {
    forall o | o in rows :: DocLess(o.doc, r.doc)
  }

  /** Every row added between two states of the source is numbered above the older rows of its scan. */
  ghost predicate AddsAbove(before: set<SourceRow>, after: set<SourceRow>, docType: Option<string>) {
    && ScanRows(before, docType) <= ScanRows(after, docType)
    && forall r | r in ScanRows(after, docType) && r !in before :: AboveAll(r, ScanRows(before, docType))
  }

  lemma AddsAboveTransitive(a: set<SourceRow>, b: set<SourceRow>, c: set<SourceRow>, docType: Option<string>)
    requires AddsAbove(a, b, docType) && AddsAbove(b, c, docType)
    ensures AddsAbove(a, c, docType)
  {
    hide DocLess;
    forall r | r in ScanRows(c, docType) && r !in a
      ensures AboveAll(r, ScanRows(a, docType))
    {
      if r in b {
        assert r in ScanRows(b, docType);
      } else {
        assert AboveAll(r, ScanRows(b, docType));
      }
    }
  }

  /** Above a fitting mark the scan wants exactly the rows numbered over every staged one. */
  lemma WantedAboveMark(before: set<SourceRow>, after: set<SourceRow>, docType: Option<string>, mark: Option<string>)
    requires ScanOK(after, docType) && ScanRows(before, docType) <= ScanRows(after, docType)
    requires MarkFits(mark, ScanRows(before, docType))
    ensures forall r :: r in Wanted(after, docType, mark)
              <==> r in ScanRows(after, docType) && AboveAll(r, ScanRows(before, docType))
  {
    hide DocLess, DocOf, DocText, IsDoc, Wanted, ScanOK, ScanRows, AboveAll;
    if mark.Some? {
      var top :| top in ScanRows(before, docType) && mark.value == DocText(top.doc)
                 && forall r | r in ScanRows(before, docType) :: !DocLess(top.doc, r.doc);
      TopReads(before, after, docType, top);
      WantsAbove(after, docType, mark.value, top.doc);
      forall r | r in ScanRows(after, docType)
        ensures DocLess(top.doc, r.doc) <==> AboveAll(r, ScanRows(before, docType))
      {
        AboveTop(ScanRows(before, docType), top, r);
      }
    } else {
      WantsAll(after, docType);
      NothingToExceed(ScanRows(before, docType));
    }
  }

  lemma TopReads(before: set<SourceRow>, after: set<SourceRow>, docType: Option<string>, top: SourceRow)
    requires ScanOK(after, docType) && ScanRows(before, docType) <= ScanRows(after, docType)
    requires top in ScanRows(before, docType)
    ensures DocText(top.doc) != "" && DocOf(DocText(top.doc)) == top.doc
    ensures forall o | o in ScanRows(before, docType) :: SameKind(o.doc, top.doc)
  {
    hide DocText, DocOf;
    assert top in ScanRows(after, docType);
    DocTextRoundTrips(top.doc);
    forall o | o in ScanRows(before, docType)
      ensures SameKind(o.doc, top.doc)
    {
      assert o in ScanRows(after, docType);
    }
  }

  lemma WantsAbove(table: set<SourceRow>, docType: Option<string>, text: string, top: Doc)
    requires text != "" && DocOf(text) == top
    ensures forall r :: r in Wanted(table, docType, Some(text))
              <==> r in ScanRows(table, docType) && DocLess(top, r.doc)
  {
    hide DocLess, DocOf;
  }

  lemma WantsAll(table: set<SourceRow>, docType: Option<string>)
    ensures Wanted(table, docType, None) == ScanRows(table, docType)
  {
    hide DocLess, DocOf;
  }

  lemma NothingToExceed(rows: set<SourceRow>)
    requires rows == {}
    ensures forall r :: AboveAll(r, rows)
  {
  }

  lemma AboveTop(rows: set<SourceRow>, top: SourceRow, r: SourceRow)
    requires top in rows && forall o | o in rows :: !DocLess(top.doc, o.doc) && SameKind(o.doc, top.doc)
    ensures DocLess(top.doc, r.doc) <==> AboveAll(r, rows)
  {
    hide DocLess;
    if DocLess(top.doc, r.doc) {
      forall o | o in rows
        ensures DocLess(o.doc, r.doc)
      {
        DocOrderTotal(o.doc, top.doc);
        if o.doc != top.doc {
          DocOrderTransitive(o.doc, top.doc, r.doc);
        }
      }
    }
  }

  /** No staged row is wanted again. */
  lemma StagedNotWanted(before: set<SourceRow>, after: set<SourceRow>, docType: Option<string>, mark: Option<string>)
    requires ScanOK(after, docType) && ScanRows(before, docType) <= ScanRows(after, docType)
    requires MarkFits(mark, ScanRows(before, docType))
    ensures Wanted(after, docType, mark) !! ScanRows(before, docType)
  {
    WantedAboveMark(before, after, docType, mark);
    forall r | r in ScanRows(before, docType)
      ensures r !in Wanted(after, docType, mark)
    {
      DocOrderTotal(r.doc, r.doc);
    }
  }

  lemma ScanRowsSplit(before: set<SourceRow>, after: set<SourceRow>, docType: Option<string>)
    ensures forall r | r in ScanRows(after, docType) :: r in before <==> r in ScanRows(before, docType)
  {
  }

  /** A scan that starts at a fitting mark wants every new row exactly when the source added above it. */
  lemma WantedIsNew(before: set<SourceRow>, after: set<SourceRow>, docType: Option<string>, mark: Option<string>)
    requires ScanOK(after, docType) && ScanRows(before, docType) <= ScanRows(after, docType)
    requires MarkFits(mark, ScanRows(before, docType))
    ensures Wanted(after, docType, mark) == ScanRows(after, docType) - ScanRows(before, docType)
       <==> AddsAbove(before, after, docType)
  {
    hide Wanted, DocLess, MarkFits, ScanOK, ScanRows, AboveAll;
    ScanRowsSplit(before, after, docType);
    var rows, past, wanted := ScanRows(after, docType), ScanRows(before, docType), Wanted(after, docType, mark);
    WantedAboveMark(before, after, docType, mark);
    StagedNotWanted(before, after, docType, mark);
    if AddsAbove(before, after, docType) {
      forall r
        ensures r in wanted <==> r in rows - past
      {
      }
    } else {
      var r :| r in rows && r !in before && !AboveAll(r, past);
      assert r in rows - past && r !in wanted;
    }
  }

  /* ---------- observing ---------- */

  lemma {:induction false} ObservedKey(seen: Marks, key: string, docs: seq<Doc>)
    ensures key in Observed(seen, key, docs) <==> key in seen || docs != []
    ensures forall other | other != key ::
              (other in Observed(seen, key, docs) <==> other in seen)
              && (other in seen ==> Observed(seen, key, docs)[other] == seen[other])
    decreases |docs|
  {
    if docs != [] {
      var current := if key in seen then Some(seen[key]) else None;
      ObservedKey(seen[key := MaxDocument(current, Some(DocText(docs[0]))).value], key, docs[1..]);
    }
  }

  /** What is seen after a scan is the number of an old or a scanned row, and no scanned row exceeds it. */
  lemma {:induction false} ObservedTop(seen: Marks, key: string, part: seq<SourceRow>, rows: set<SourceRow>)
    requires SeenFits(seen, key, rows) && forall r | r in part :: r in rows
    requires forall a, b | a in rows && b in rows :: SameKind(a.doc, b.doc)
    requires forall r | r in rows :: IsDoc(r.doc)
    ensures SeenFits(Observed(seen, key, Docs(part)), key, rows)
    ensures key in Observed(seen, key, Docs(part)) <==> key in seen || part != []
    ensures part != [] ==> forall r | r in part :: !DocLess(DocOf(Observed(seen, key, Docs(part))[key]), r.doc)
    ensures key in seen ==> !DocLess(DocOf(Observed(seen, key, Docs(part))[key]), DocOf(seen[key]))
    decreases |part|
  {
    hide DocLess, DocOf, IsDoc, DocText;
    if part == [] {
      if key in seen {
        var r :| r in rows && seen[key] == DocText(r.doc);
        DocTextRoundTrips(r.doc);
        DocOrderTotal(r.doc, r.doc);
      }
    } else {
      var first := part[0];
      var current := if key in seen then Some(seen[key]) else None;
      var mid := seen[key := MaxDocument(current, Some(DocText(first.doc))).value];
      assert first in part;
      DocTextRoundTrips(first.doc);
      DocOrderTotal(first.doc, first.doc);
      if key in seen {
        var r :| r in rows && seen[key] == DocText(r.doc);
        MaxDocumentIsMaximum(r.doc, first.doc);
        DocTextRoundTrips(r.doc);
        DocOrderTotal(r.doc, first.doc);
        DocOrderTotal(r.doc, r.doc);
        assert mid[key] == DocText(MaxDoc(r.doc, first.doc));
      } else {
        assert mid[key] == DocText(first.doc);
      }
      assert SeenFits(mid, key, rows);
      ObservedTop(mid, key, part[1..], rows);
      var end := Observed(mid, key, Docs(part[1..]));
      ObservedKey(mid, key, Docs(part[1..]));
      var last :| last in rows && end[key] == DocText(last.doc);
      var m :| m in rows && mid[key] == DocText(m.doc);
      DocTextRoundTrips(last.doc);
      DocTextRoundTrips(m.doc);
      NotBelow(last.doc, m.doc, first.doc);
      if key in seen {
        var r :| r in rows && seen[key] == DocText(r.doc);
        DocTextRoundTrips(r.doc);
        NotBelow(last.doc, m.doc, r.doc);
      }
      forall r | r in part
        ensures !DocLess(DocOf(end[key]), r.doc)
      {
        assert r == first || r in part[1..];
      }
    }
  }

  lemma NotBelow(a: Doc, b: Doc, c: Doc)
    requires SameKind(a, b) && SameKind(b, c) && !DocLess(a, b) && !DocLess(b, c)
    ensures !DocLess(a, c)
  {
    DocOrderTotal(a, b);
    DocOrderTotal(b, c);
    DocOrderTotal(a, c);
    if DocLess(a, c) && b != c {
      DocOrderTransitive(a, c, b);
    }
  }

  lemma {:induction false} SeenAfterAt(seen: Marks, plan: seq<Scan>, parts: seq<seq<SourceRow>>, k: nat)
    requires IsPlan(plan) && |parts| <= |plan| && k < |plan|
    ensures var key := plan[k].key;
            var local := if k < |parts| then Observed(seen, key, Docs(parts[k])) else seen;
            var all := SeenAfter(seen, plan, parts);
            (key in all <==> key in local) && (key in all ==> all[key] == local[key])
    decreases |parts|
  {
    if parts != [] {
      var next := Observed(seen, plan[0].key, Docs(parts[0]));
      PlanTail(plan);
      if k == 0 {
        SeenAfterElsewhere(next, plan[1..], parts[1..], plan[0].key);
      } else {
        SeenAfterAt(next, plan[1..], parts[1..], k - 1);
        ObservedKey(seen, plan[0].key, Docs(parts[0]));
        var key := plan[k].key;
        if k < |parts| {
          ObservedLocal(next, seen, key, Docs(parts[k]));
        }
      }
    }
  }

  /** Observing a key looks at nothing else. */
  lemma {:induction false} ObservedLocal(a: Marks, b: Marks, key: string, docs: seq<Doc>)
    requires (key in a <==> key in b) && (key in a ==> a[key] == b[key])
    ensures var x, y := Observed(a, key, docs), Observed(b, key, docs);
            (key in x <==> key in y) && (key in x ==> x[key] == y[key])
    decreases |docs|
  {
    hide MaxDocument;
    if docs != [] {
      var current := if key in a then Some(a[key]) else None;
      var text := MaxDocument(current, Some(DocText(docs[0]))).value;
      ObservedLocal(a[key := text], b[key := text], key, docs[1..]);
    }
  }

  lemma {:induction false} SeenAfterElsewhere(seen: Marks, plan: seq<Scan>, parts: seq<seq<SourceRow>>, key: string)
    requires |parts| <= |plan| && forall k | 0 <= k < |plan| :: plan[k].key != key
    ensures var all := SeenAfter(seen, plan, parts);
            (key in all <==> key in seen) && (key in all ==> all[key] == seen[key])
    decreases |parts|
  {
    if parts != [] {
      ObservedKey(seen, plan[0].key, Docs(parts[0]));
      SeenAfterElsewhere(Observed(seen, plan[0].key, Docs(parts[0])), plan[1..], parts[1..], key);
    }
  }

  /* ---------- whole runs ---------- */

  /**
   The mark of a scan is its largest document in `done`, the connector remembers documents of
   `latest` only, and the source has only added above since.
   */
  ghost predicate ScanCaughtUp(f: Feed, done: set<SourceRow>, latest: set<SourceRow>, scan: Scan) {
    && MarkFits(MarkOf(f.stored, scan.key), ScanRows(done, scan.docType))
    && SeenFits(f.seen, scan.key, ScanRows(latest, scan.docType))
    && AddsAbove(done, latest, scan.docType)
  }

  ghost predicate SourceAdds(before: set<SourceRow>, after: set<SourceRow>, plan: seq<Scan>) {
    forall k | 0 <= k < |plan| :: AddsAbove(before, after, plan[k].docType)
  }

  /** Growth without the numbering promise. */
  ghost predicate SourceKeeps(before: set<SourceRow>, after: set<SourceRow>, plan: seq<Scan>) {
    forall k | 0 <= k < |plan| :: ScanRows(before, plan[k].docType) <= ScanRows(after, plan[k].docType)
  }

  ghost predicate MarksFit(stored: Option<Marks>, done: set<SourceRow>, plan: seq<Scan>) {
    forall k | 0 <= k < |plan| :: MarkFits(MarkOf(stored, plan[k].key), ScanRows(done, plan[k].docType))
  }

  /** What a run wants is new, and it is everything new exactly when the source added above. */
  lemma {:induction false} WantedAllIsNew(before: set<SourceRow>, after: set<SourceRow>, plan: seq<Scan>,
                                          stored: Option<Marks>)
    requires IsPlan(plan) && PlanOK(after, plan) && SourceKeeps(before, after, plan) && MarksFit(stored, before, plan)
    ensures WantedAll(after, plan, stored) !! Scope(before, plan)
    ensures WantedAll(after, plan, stored) <= Scope(after, plan) && Scope(before, plan) <= Scope(after, plan)
    ensures WantedAll(after, plan, stored) == Scope(after, plan) - Scope(before, plan)
       <==> SourceAdds(before, after, plan)
    decreases |plan|
  {
    hide Wanted, MarkFits, ScanOK, AddsAbove, IsPlan, WantedAll, Scope, InPlan;
    ScopeUnfold(before, plan);
    ScopeUnfold(after, plan);
    WantedAllUnfold(after, plan, stored);
    if plan != [] {
      var d, mark, tail := plan[0].docType, MarkOf(stored, plan[0].key), plan[1..];
      PlanTail(plan);
      assert forall k | 0 <= k < |tail| :: tail[k] == plan[k + 1];
      WantedAllIsNew(before, after, tail, stored);
      WantedIsNew(before, after, d, mark);
      StagedNotWanted(before, after, d, mark);
      WantedInScan(after, d, mark);
      assert SourceAdds(before, after, plan) <==> AddsAbove(before, after, d) && SourceAdds(before, after, tail);
      ScansApart(before, after, plan);
      UnionOfNews(ScanRows(before, d), ScanRows(after, d), Wanted(after, d, mark),
                  Scope(before, tail), Scope(after, tail), WantedAll(after, tail, stored));
    }
  }

  lemma ScopeUnfold(table: set<SourceRow>, plan: seq<Scan>)
    ensures plan == [] ==> Scope(table, plan) == {}
    ensures plan != [] ==> Scope(table, plan) == ScanRows(table, plan[0].docType) + Scope(table, plan[1..])
  {
  }

  lemma WantedAllUnfold(table: set<SourceRow>, plan: seq<Scan>, stored: Option<Marks>)
    ensures plan == [] ==> WantedAll(table, plan, stored) == {}
    ensures plan != [] ==>
      WantedAll(table, plan, stored)
        == Wanted(table, plan[0].docType, MarkOf(stored, plan[0].key)) + WantedAll(table, plan[1..], stored)
  {
  }

  lemma ScansApart(before: set<SourceRow>, after: set<SourceRow>, plan: seq<Scan>)
    requires IsPlan(plan) && plan != []
    ensures ScanRows(after, plan[0].docType) !! Scope(after, plan[1..])
    ensures ScanRows(before, plan[0].docType) !! Scope(after, plan[1..])
    ensures ScanRows(after, plan[0].docType) !! Scope(before, plan[1..])
  {
    PlanTail(plan);
  }

  /** Over two disjoint parts, being everything new is being everything new in each. */
  lemma UnionOfNews(a: set<SourceRow>, b: set<SourceRow>, w: set<SourceRow>,
                    a': set<SourceRow>, b': set<SourceRow>, w': set<SourceRow>)
    requires b !! b' && a !! b' && b !! a' && w <= b && w' <= b' && a <= b && a' <= b'
    ensures w + w' == (b + b') - (a + a') <==> w == b - a && w' == b' - a'
    ensures (w !! a && w' !! a') ==> (w + w') !! (a + a')
  {
    if w + w' == (b + b') - (a + a') {
      forall r
        ensures r in w <==> r in b - a
        ensures r in w' <==> r in b' - a'
      {
        assert r in w + w' <==> r in (b + b') - (a + a');
      }
    }
  }

  /**
   One successful run from a feed that is caught up with `done`: the staged file holds every row
   of the plan exactly once if and only if every row the source gained since is numbered above
   the staged rows of its scan. A row that arrives late is never staged.
   */
  lemma RunIsExactIff(f: Feed, g: Feed, done: set<SourceRow>, table: set<SourceRow>, plan: seq<Scan>,
                      parts: seq<seq<SourceRow>>)
    requires IsPlan(plan) && PlanOK(table, plan)
    requires multiset(Rows(f.staged)) == multiset(Scope(done, plan)) && MarksFit(f.stored, done, plan)
    requires SourceKeeps(done, table, plan) && RunSucceeds(f, table, plan, parts, g)
    ensures multiset(Rows(g.staged)) == multiset(Scope(table, plan)) <==> SourceAdds(done, table, plan)
  {
    hide Scope, WantedAll, Scanned, PlanOK, MarksFit, SourceKeeps, SourceAdds, IsPlan, CurrentWatermark, SeenAfter;
    DeltaOnce(table, plan, f.stored, parts);
    WantedAllIsNew(done, table, plan, f.stored);
    var wanted, past, all := WantedAll(table, plan, f.stored), Scope(done, plan), Scope(table, plan);
    MergeAppends(f.staged, Flatten(parts));
    assert multiset(past + wanted) == multiset(past) + multiset(wanted);
    assert multiset(Rows(g.staged)) == multiset(past + wanted);
    if multiset(past + wanted) == multiset(all) {
      SameElements(past + wanted, all);
      assert wanted == all - past;
    }
    if wanted == all - past {
      assert past + wanted == all;
    }
  }

  lemma SameElements(a: set<SourceRow>, b: set<SourceRow>)
    requires multiset(a) == multiset(b)
    ensures a == b
  {
    forall r
      ensures r in a <==> r in b
    {
      assert r in a <==> r in multiset(a);
      assert r in b <==> r in multiset(b);
    }
  }

  lemma MergeAppends(staged: Staged<SourceRow>, delta: seq<SourceRow>)
    ensures multiset(Rows(AfterSuccess(staged, delta, Incremental))) == multiset(Rows(staged)) + multiset(delta)
  {
    if staged.Some? {
      assert staged.value + [] == staged.value;
    } else {
      assert [] + delta == delta;
    }
  }

  /** A successful run advances the mark of every scan to the largest document of the source. */
  lemma MarkAdvances(f: Feed, g: Feed, done: set<SourceRow>, latest: set<SourceRow>, table: set<SourceRow>,
                     plan: seq<Scan>, parts: seq<seq<SourceRow>>, k: nat)
    requires IsPlan(plan) && k < |plan| && ScanOK(table, plan[k].docType)
    requires ScanCaughtUp(f, done, latest, plan[k])
    requires AddsAbove(done, table, plan[k].docType)
    requires ScanRows(latest, plan[k].docType) <= ScanRows(table, plan[k].docType)
    requires RunSucceeds(f, table, plan, parts, g)
    ensures MarkFits(MarkOf(g.stored, plan[k].key), ScanRows(table, plan[k].docType))
    ensures SeenFits(g.seen, plan[k].key, ScanRows(table, plan[k].docType))
  {
    hide Observed, SeenAfter, Matches, DocLess, DocOf, DocText, IsDoc, Docs, Flatten, AfterSuccess, IsPlan;
    var key, d := plan[k].key, plan[k].docType;
    var rows := ScanRows(table, d);
    var mark := MarkOf(f.stored, key);
    var local := Observed(f.seen, key, Docs(parts[k]));
    WantedIsNew(done, table, d, mark);
    WantedInScan(table, d, mark);
    assert forall r :: r in parts[k] <==> r in Wanted(table, d, mark);
    SeenWidens(f.seen, key, ScanRows(latest, d), rows);
    ScanKinds(table, d);
    ObservedTop(f.seen, key, parts[k], rows);
    SeenAfterAt(f.seen, plan, parts, k);
    MarkReads(f.stored, g.seen, key);
    RaisedFits(mark, local, key, ScanRows(done, d), parts[k], rows);
    RaisedLocal(mark, local, g.seen, key);
  }

  lemma RaisedLocal(mark: Option<string>, a: Marks, b: Marks, key: string)
    requires (key in a <==> key in b) && (key in a ==> a[key] == b[key])
    ensures Raised(mark, a, key) == Raised(mark, b, key)
  {
  }

  lemma MarkReads(stored: Option<Marks>, seen: Marks, key: string)
    ensures MarkOf(CurrentWatermark(stored, seen), key) == Raised(MarkOf(stored, key), seen, key)
  {
    hide MaxDocument;
  }

  lemma SeenWidens(seen: Marks, key: string, a: set<SourceRow>, b: set<SourceRow>)
    requires SeenFits(seen, key, a) && a <= b
    ensures SeenFits(seen, key, b)
  {
  }

  lemma ScanKinds(table: set<SourceRow>, docType: Option<string>)
    requires ScanOK(table, docType)
    ensures forall a, b | a in ScanRows(table, docType) && b in ScanRows(table, docType) :: SameKind(a.doc, b.doc)
    ensures forall r | r in ScanRows(table, docType) :: IsDoc(r.doc)
  {
  }

  /** Raising a fitting mark by the documents of all newer rows gives a fitting mark. */
  lemma RaisedFits(mark: Option<string>, seen: Marks, key: string,
                   past: set<SourceRow>, part: seq<SourceRow>, rows: set<SourceRow>)
    requires MarkFits(mark, past) && past <= rows && SeenFits(seen, key, rows)
    requires forall r :: r in rows <==> r in past || r in part
    requires part != [] ==> key in seen && forall r | r in part :: !DocLess(DocOf(seen[key]), r.doc)
    requires forall a, b | a in rows && b in rows :: SameKind(a.doc, b.doc)
    requires forall r | r in rows :: IsDoc(r.doc)
    ensures MarkFits(Raised(mark, seen, key), rows)
  {
    hide DocLess, DocOf, DocText, IsDoc, MaxDocument;
    if key !in seen {
      assert rows == past;
    } else {
      var s :| s in rows && seen[key] == DocText(s.doc);
      DocTextRoundTrips(s.doc);
      if mark.None? {
        MaxOfNone(seen[key]);
        assert IsTop(seen[key], rows);
      } else {
        var m :| m in past && mark.value == DocText(m.doc) && forall r | r in past :: !DocLess(m.doc, r.doc);
        MaxDocumentIsMaximum(m.doc, s.doc);
        var top := if DocLess(m.doc, s.doc) then s else m;
        assert Raised(mark, seen, key).value == DocText(top.doc);
        forall r | r in rows
          ensures !DocLess(top.doc, r.doc)
        {
          DocOrderTotal(m.doc, s.doc);
          DocOrderTotal(m.doc, m.doc);
          DocOrderTotal(s.doc, s.doc);
          if r in past {
            NotBelow(top.doc, m.doc, r.doc);
          } else {
            NotBelow(top.doc, s.doc, r.doc);
          }
        }
      }
    }
  }

  lemma MaxOfNone(text: string)
    ensures MaxDocument(None, Some(text)) == Some(text)
  {
  }

  lemma SeenAfterFailure(f: Feed, g: Feed, latest: set<SourceRow>, table: set<SourceRow>,
                         plan: seq<Scan>, parts: seq<seq<SourceRow>>, k: nat)
    requires IsPlan(plan) && k < |plan| && ScanOK(table, plan[k].docType)
    requires SeenFits(f.seen, plan[k].key, ScanRows(latest, plan[k].docType))
    requires ScanRows(latest, plan[k].docType) <= ScanRows(table, plan[k].docType)
    requires PartlyScanned(table, plan, f.stored, parts) && g.seen == SeenAfter(f.seen, plan, parts)
    ensures SeenFits(g.seen, plan[k].key, ScanRows(table, plan[k].docType))
  {
    hide Observed, SeenAfter, Matches, DocLess, DocOf, DocText, IsDoc, Docs, IsPlan;
    var key, d := plan[k].key, plan[k].docType;
    var rows := ScanRows(table, d);
    SeenWidens(f.seen, key, ScanRows(latest, d), rows);
    SeenAfterAt(f.seen, plan, parts, k);
    if k < |parts| {
      ScanKinds(table, d);
      WantedInScan(table, d, MarkOf(f.stored, key));
      ObservedTop(f.seen, key, parts[k], rows);
      SeenSame(Observed(f.seen, key, Docs(parts[k])), g.seen, key, rows);
    } else {
      SeenSame(f.seen, g.seen, key, rows);
    }
  }

  lemma SeenSame(a: Marks, b: Marks, key: string, rows: set<SourceRow>)
    requires SeenFits(a, key, rows) && (key in b ==> key in a && b[key] == a[key])
    ensures SeenFits(b, key, rows)
  {
  }
}
