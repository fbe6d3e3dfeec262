/**
 Whole runs. An incremental one scans every configured type above its stored mark, merges the delta
 into the staged file and advances the marks; a backfill scans everything, replaces the file and
 leaves the marks alone.
 */
module BisTrackRuns {
  import opened Outcomes
  import opened PyText
  import opened Documents
  import opened Staging
  import opened BisTrack

  /** One scan an unscoped key, or scans of distinct types keyed by their type. */
  predicate IsPlan(plan: seq<Scan>) {
    || (|plan| == 1 && plan[0] == Scan("*", None))
    || (&& (forall k | 0 <= k < |plan| :: plan[k].docType == Some(plan[k].key))
        && (forall i, j | 0 <= i < j < |plan| :: plan[i].key != plan[j].key))
  }

  function MarkOf(stored: Option<Marks>, key: string): Option<string> {
    if stored.Some? && key in stored.value then Some(stored.value[key]) else None
  }

  /** The new mark of a key: the stored one, raised by what was observed. */
  function Raised(mark: Option<string>, seen: Marks, key: string): Option<string> {
    if key in seen then MaxDocument(mark, Some(seen[key])) else mark
  }

  function StoredKeys(stored: Option<Marks>): set<string> {
    if stored.Some? then stored.value.Keys else {}
  }

  /** Stored maxima merged with those observed; unchanged when nothing was ever observed. */
  function CurrentWatermark(before: Option<Marks>, seen: Marks): Option<Marks> {
    if seen == map[] then before
    else Some(map key | key in StoredKeys(before) + seen.Keys :: Raised(MarkOf(before, key), seen, key).value)
  }

  function Flatten(parts: seq<seq<SourceRow>>): seq<SourceRow> {
    if parts == [] then [] else parts[0] + Flatten(parts[1..])
  }

  /** The maxima seen after the parts of a plan were observed. */
  function SeenAfter(seen: Marks, plan: seq<Scan>, parts: seq<seq<SourceRow>>): Marks
    requires |parts| <= |plan|
    decreases |parts|
  {
    if parts == [] then seen else SeenAfter(Observed(seen, plan[0].key, Docs(parts[0])), plan[1..], parts[1..])
  }

  /** Everything a run leaves behind: the staged file, the stored marks, the connector's memory. */
  datatype Feed = Feed(staged: Staged<SourceRow>, stored: Option<Marks>, seen: Marks)

  ghost predicate PlanOK(table: set<SourceRow>, plan: seq<Scan>) {
    forall k | 0 <= k < |plan| :: ScanOK(table, plan[k].docType)
  }

  /** The parts a successful run scans. */
  ghost predicate Scanned(table: set<SourceRow>, plan: seq<Scan>, stored: Option<Marks>, parts: seq<seq<SourceRow>>) {
    && |parts| == |plan|
    && forall k | 0 <= k < |plan| :: IsScan(table, plan[k].docType, MarkOf(stored, plan[k].key), parts[k])
  }

  /** The parts a run got before the driver failed. */
  ghost predicate PartlyScanned(table: set<SourceRow>, plan: seq<Scan>, stored: Option<Marks>,
                                parts: seq<seq<SourceRow>>) {
    && |parts| <= |plan|
    && forall k | 0 <= k < |parts| :: IsScanPrefix(table, plan[k].docType, MarkOf(stored, plan[k].key), parts[k])
  }

  ghost predicate RunSucceeds(f: Feed, table: set<SourceRow>, plan: seq<Scan>, parts: seq<seq<SourceRow>>, g: Feed) {
    && Scanned(table, plan, f.stored, parts)
    && g.staged == AfterSuccess(f.staged, Flatten(parts), Incremental)
    && g.seen == SeenAfter(f.seen, plan, parts)
    && g.stored == CurrentWatermark(f.stored, g.seen)
  }

  ghost predicate RunFails(f: Feed, table: set<SourceRow>, plan: seq<Scan>, parts: seq<seq<SourceRow>>, g: Feed) {
    && PartlyScanned(table, plan, f.stored, parts)
    && g.staged == AfterFailure(f.staged, Flatten(parts), Incremental)
    && g.seen == SeenAfter(f.seen, plan, parts)
    && g.stored == f.stored
  }

  /** A backfill asks for everything, replaces the staged file, and leaves checkpoint and memory alone. */
  ghost predicate BackfillSucceeds(f: Feed, table: set<SourceRow>, plan: seq<Scan>, parts: seq<seq<SourceRow>>,
                                   g: Feed) {
    Scanned(table, plan, None, parts) && g == f.(staged := AfterSuccess(f.staged, Flatten(parts), Backfill))
  }

  ghost predicate BackfillFails(f: Feed, table: set<SourceRow>, plan: seq<Scan>, parts: seq<seq<SourceRow>>, g: Feed) {
    PartlyScanned(table, plan, None, parts) && g == f.(staged := AfterFailure(f.staged, Flatten(parts), Backfill))
  }

  /** A run of either mode, and how it ended. */
  ghost predicate Ran(f: Feed, table: set<SourceRow>, plan: seq<Scan>, mode: Mode, ok: bool,
                      parts: seq<seq<SourceRow>>, g: Feed) {
    match mode
    case Incremental => if ok then RunSucceeds(f, table, plan, parts, g) else RunFails(f, table, plan, parts, g)
    case Backfill => if ok then BackfillSucceeds(f, table, plan, parts, g) else BackfillFails(f, table, plan, parts, g)
  }

  class DocumentFeed {
    const connector: BisTrackConnector
    const file: StagedFile<SourceRow>
    /** The checkpoint of the incremental mode; a backfill has one of its own, which stays empty. */
    var stored: Option<Marks>

    constructor ()
      ensures fresh(connector) && fresh(file)
      ensures file.content == None && stored == None && connector.maxTypeSeen == map[]
    {
      connector := new BisTrackConnector();
      file := new StagedFile();
      stored := None;
    }

    ghost function State(): Feed
      reads this, connector, file
    {
      Feed(file.content, stored, connector.maxTypeSeen)
    }

    /** Scan every type of the plan, above the marks if there are any, stopping at the first driver failure. */
    method ScanDocuments(server: Server, ghost table: set<SourceRow>, plan: seq<Scan>, marks: Option<Marks>, mode: Mode)
      returns (parts: seq<seq<SourceRow>>, failed: bool)
      requires Serves(server, table) && PlanOK(table, plan)
      modifies connector
      ensures PartlyScanned(table, plan, marks, parts)
      ensures !failed ==> Scanned(table, plan, marks, parts)
      ensures connector.maxTypeSeen
           == if mode.Incremental? then SeenAfter(old(connector.maxTypeSeen), plan, parts)
              else old(connector.maxTypeSeen)
    {
      hide IsScan, IsScanPrefix, SeenAfter, Observed, Docs, ScanOK, Serves;
      parts, failed := [], false;
      SeenNothing(connector.maxTypeSeen, plan);
      while |parts| < |plan|
        invariant |parts| <= |plan|
        invariant PartlyScanned(table, plan, marks, parts)
        invariant forall k | 0 <= k < |parts| :: IsScan(table, plan[k].docType, MarkOf(marks, plan[k].key), parts[k])
        invariant connector.maxTypeSeen
               == if mode.Incremental? then SeenAfter(old(connector.maxTypeSeen), plan, parts)
                  else old(connector.maxTypeSeen)
      {
        var scan := plan[|parts|];
        var rows: seq<SourceRow>;
        SeenAppend(old(connector.maxTypeSeen), plan, parts);
        rows, failed := connector.ScanType(server, table, scan, MarkOf(marks, scan.key), mode);
        parts := parts + [rows];
        if failed {
          return;
        }
      }
    }

    /** One extract; on failure the stored checkpoint is not touched. */
    method Extract(server: Server, ghost table: set<SourceRow>, plan: seq<Scan>, mode: Mode)
      returns (ok: bool, parts: seq<seq<SourceRow>>)
      requires Serves(server, table) && PlanOK(table, plan)
      modifies this, connector, file
      ensures Ran(old(State()), table, plan, mode, ok, parts, State())
    {
      hide Scanned, PartlyScanned, SeenAfter, Flatten, AfterSuccess, AfterFailure, PlanOK, Serves;
      var failed: bool;
      parts, failed := ScanDocuments(server, table, plan, if mode.Incremental? then stored else None, mode);
      var _ := file.WriteRecords(Flatten(parts), failed, mode);
      if failed {
        return false, parts;
      }
      if mode.Incremental? {
        stored := ComposeWatermark(stored, connector.maxTypeSeen);
      }
      return true, parts;
    }
  }

  /** The loop over the observed maxima that composes the new checkpoint. */
  method ComposeWatermark(before: Option<Marks>, seen: Marks) returns (after: Option<Marks>)
    ensures after == CurrentWatermark(before, seen)
  {
    if seen == map[] {
      return before;
    }
    hide MaxDocument;
    var merged: Marks := if before.Some? then before.value else map[];
    var left, done: set<string> := seen.Keys, {};
    while left != {}
      invariant left <= seen.Keys && done == seen.Keys - left
      invariant merged.Keys == StoredKeys(before) + done
      invariant forall key | key in merged && key !in done :: Some(merged[key]) == MarkOf(before, key)
      invariant forall key | key in done :: Some(merged[key]) == Raised(MarkOf(before, key), seen, key)
      decreases left
    {
      var key :| key in left;
      var current := if key in merged then Some(merged[key]) else None;
      merged := merged[key := MaxDocument(current, Some(seen[key])).value];
      left, done := left - {key}, done + {key};
    }
    assert merged == CurrentWatermark(before, seen).value;
    return Some(merged);
  }

  lemma SeenNothing(seen: Marks, plan: seq<Scan>)
    ensures SeenAfter(seen, plan, []) == seen
  {
  }

  lemma {:induction false} SeenAppend(seen: Marks, plan: seq<Scan>, parts: seq<seq<SourceRow>>)
    requires |parts| < |plan|
    ensures forall rows :: SeenAfter(seen, plan, parts + [rows])
              == Observed(SeenAfter(seen, plan, parts), plan[|parts|].key, Docs(rows))
    decreases |parts|
  {
    if parts == [] {
      forall rows
        ensures SeenAfter(seen, plan, parts + [rows])
             == Observed(SeenAfter(seen, plan, parts), plan[|parts|].key, Docs(rows))
      {
        assert parts + [rows] == [rows];
        assert [rows][1..] == [];
        SeenNothing(Observed(seen, plan[0].key, Docs(rows)), plan[1..]);
      }
    } else {
      SeenAppend(Observed(seen, plan[0].key, Docs(parts[0])), plan[1..], parts[1..]);
      forall rows
        ensures SeenAfter(seen, plan, parts + [rows])
             == Observed(SeenAfter(seen, plan, parts), plan[|parts|].key, Docs(rows))
      {
        assert (parts + [rows])[1..] == parts[1..] + [rows];
      }
    }
  }
}
