/**
 Full deliveries ordered by their manifest's generation: the composite watermark, the refusal of
 stale and regenerated batches, and the audit row that waits for the staged file.
 */
module Spruce {
  import opened Outcomes
  import opened Staging
  import opened ControlPlane
  import CsvDrop

  /** A manifest's identity. */
  datatype Stamp = Stamp(generatedAt: string, batchId: string)

  /** How generation texts are ordered; None where the text is not a timestamp. */
  type Instants = string -> Option<int>

  /**
   A delivery of one entity: its manifest, whether the manifest declares the file, the file's
   digest ("" when it is absent), and its rows if it passes the row gates.
   */
  datatype Drop = Drop(
    stamp: Stamp, manifestHash: string, declared: bool, hash: string, rows: Option<seq<CsvDrop.Record>>)

  /** Whether writing the staged file works; when it breaks, what is left on the disk. */
  datatype Disk = Fine | Breaks(left: Staged<CsvDrop.Record>)

  datatype Attempt = Attempt(entity: string, drop: Drop, mode: Mode, disk: Disk)

  /* ---------- the composite watermark ---------- */

  function AsWatermark(stamp: Stamp): string {
    stamp.generatedAt + "|" + stamp.batchId
  }

  /** Where the first '|' stands, or |s|. */
  function BarAt(s: string): (n: nat)
    ensures n <= |s| && (n < |s| ==> s[n] == '|')
    ensures forall k | 0 <= k < n :: s[k] != '|'
  {
    if s == "" || s[0] == '|' then 0 else 1 + BarAt(s[1..])
  }

  datatype NotComposite = NotComposite

  function FromWatermark(watermark: Option<string>): Result<Option<Stamp>, NotComposite> {
    if watermark.None? || watermark.value == "" then Ok(None)
    else
      var w := watermark.value;
      var bar := BarAt(w);
      if bar == |w| || w[..bar] == "" || w[bar + 1..] == "" then Err(NotComposite)
      else Ok(Some(Stamp(w[..bar], w[bar + 1..])))
  }

  predicate IsPlain(stamp: Stamp) {
    '|' !in stamp.generatedAt && stamp.generatedAt != "" && stamp.batchId != ""
  }

  /** The watermark text reads back as its stamp exactly when both parts are there and the generation has no '|'. */
  lemma WatermarkReadsBackIff(stamp: Stamp)
    ensures FromWatermark(Some(AsWatermark(stamp))) == Ok(Some(stamp)) <==> IsPlain(stamp)
  {
    var w, bar := AsWatermark(stamp), BarAt(AsWatermark(stamp));
    assert w[|stamp.generatedAt|] == '|';
    if '|' !in stamp.generatedAt {
      assert forall k | 0 <= k < |stamp.generatedAt| :: w[k] == stamp.generatedAt[k];
      assert bar == |stamp.generatedAt|;
      assert w[..bar] == stamp.generatedAt && w[bar + 1..] == stamp.batchId;
    } else {
      var k: nat :| k < |stamp.generatedAt| && stamp.generatedAt[k] == '|';
      assert w[k] == '|';
      assert bar <= k;
    }
  }

  /* ---------- one attempt ---------- */

  /**
   What an attempt can change: audit rows, one watermark per entity and mode, the staged file of
   each entity, and the audit row that the connector instance holds back.
   */
  datatype State = State(
    audits: map<string, Audit>, watermarks: map<(string, Mode), string>,
    staged: map<string, seq<CsvDrop.Record>>, pending: Option<Audit>)

  function StagedOf(s: State, entity: string): Staged<CsvDrop.Record> {
    if entity in s.staged then Some(s.staged[entity]) else None
  }

  /** The staged files after the one of an entity became `content`. */
  function WithStaged(staged: map<string, seq<CsvDrop.Record>>, entity: string, content: Staged<CsvDrop.Record>)
    : (r: map<string, seq<CsvDrop.Record>>)
    ensures (entity in r <==> content.Some?) && (content.Some? ==> r[entity] == content.value)
    ensures r - {entity} == staged - {entity}
  {
    if content.Some? then staged[entity := content.value] else staged - {entity}
  }

  datatype Verdict =
    | Undeclared | Absorb | BadWatermark | Regenerated | BadGeneration | Stale | GateFailed
    | Promote(rows: seq<CsvDrop.Record>)

  /** Why a manifest may not follow the stored watermark, if it may not. */
  function OutOfOrder(instants: Instants, watermark: Option<string>, stamp: Stamp): (r: Option<Verdict>)
    ensures r.Some? ==> r.value in {BadWatermark, Regenerated, BadGeneration, Stale}
  {
    match FromWatermark(watermark)
    case Err(_) => Some(BadWatermark)
    case Ok(None) => None
    case Ok(Some(prior)) =>
      if prior.batchId == stamp.batchId then Some(Regenerated)
      else if instants(stamp.generatedAt).None? || instants(prior.generatedAt).None? then Some(BadGeneration)
      else if instants(stamp.generatedAt).value <= instants(prior.generatedAt).value then Some(Stale)
      else None
  }

  function Judge(instants: Instants, s: State, a: Attempt): Verdict {
    if !a.drop.declared then Undeclared
    else if a.drop.hash in s.audits then Absorb
    else
      var order := OutOfOrder(instants, WatermarkOf(s.watermarks, a.entity, a.mode), a.drop.stamp);
      if order.Some? then order.value
      else if a.drop.rows.Some? then Promote(a.drop.rows.value)
      else GateFailed
  }

  function KeyOf(hash: string): string {
    if hash != "" then hash else "unknown"
  }

  /** The watermarks after a successful attempt: that of its own entity and mode. */
  function Marked(s: State, a: Attempt): map<(string, Mode), string> {
    Upserted(s.watermarks, a.entity, a.mode, Some(AsWatermark(a.drop.stamp)))
  }

  function Next(instants: Instants, s: State, a: Attempt): State {
    var drop := a.drop;
    match Judge(instants, s, a)
    case Undeclared => s
    case BadWatermark => s
    case BadGeneration => s
    case Regenerated => Refused(s, drop)
    case Stale => Refused(s, drop)
    case GateFailed => s.(audits := Recorded(s.audits, Audit(KeyOf(drop.hash), Quarantined, 0)), pending := None)
    case Absorb =>
      s.(audits := Recorded(s.audits, Audit(KeyOf(drop.hash), SkippedDuplicate, 0)),
         watermarks := Marked(s, a), pending := None)
    case Promote(rows) =>
      var audit := Audit(KeyOf(drop.hash), Promoted, 0);
      if a.disk.Breaks? && rows != [] then
        s.(staged := WithStaged(s.staged, a.entity, a.disk.left), pending := Some(audit))
      else
        State(Recorded(s.audits, audit.(rows := |rows|)), Marked(s, a),
              WithStaged(s.staged, a.entity, AfterSuccess(StagedOf(s, a.entity), rows, a.mode)), None)
  }

  /** A batch refused at the manifest: the audit row an earlier attempt left behind is written too. */
  function Refused(s: State, drop: Drop): State {
    var audits := Recorded(s.audits, Audit(KeyOf(drop.manifestHash), Quarantined, 0));
    s.(audits := Flushed(audits, s.pending, 0), pending := None)
  }

  datatype Failure = FileQuarantined(verdict: Verdict) | ConnectorError(verdict: Verdict) | DiskError

  class EciSpruceConnector {
    const instants: Instants
    const store: ControlPlaneStore
    var staged: map<string, seq<CsvDrop.Record>>
    var batchStamp: Option<Stamp>
    var pendingAudit: Option<Audit>

    ghost function Now(): State
      reads this, store
    {
      State(store.audits, store.watermarks, staged, pendingAudit)
    }

    constructor (instants: Instants, store: ControlPlaneStore)
      ensures this.instants == instants && this.store == store
      ensures staged == map[] && batchStamp == None && pendingAudit == None
    {
      this.instants, this.store := instants, store;
      staged, batchStamp, pendingAudit := map[], None, None;
    }

    /** Refuse stale generations and regenerated batches; None lets the delivery through. */
    method EnforceBatchOrder(drop: Drop, priorWatermark: Option<string>) returns (failure: Option<Failure>)
      modifies store`audits
      ensures
        var order := OutOfOrder(instants, priorWatermark, drop.stamp);
        && failure == (if order.None? then None
                       else if order.value in {Regenerated, Stale} then Some(FileQuarantined(order.value))
                       else Some(ConnectorError(order.value)))
        && store.audits == (if order in {Some(Regenerated), Some(Stale)}
                            then Recorded(old(store.audits), Audit(KeyOf(drop.manifestHash), Quarantined, 0))
                            else old(store.audits))
    {
      var prior := FromWatermark(priorWatermark);
      if prior.Err? {
        return Some(ConnectorError(BadWatermark));
      }
      if prior.value.None? {
        return None;
      }
      var stored := prior.value.value;
      if stored.batchId == drop.stamp.batchId {
        store.RecordFileAudit(Audit(KeyOf(drop.manifestHash), Quarantined, 0));
        return Some(FileQuarantined(Regenerated));
      }
      var generation, newest := instants(drop.stamp.generatedAt), instants(stored.generatedAt);
      if generation.None? || newest.None? {
        return Some(ConnectorError(BadGeneration));
      }
      if generation.value <= newest.value {
        store.RecordFileAudit(Audit(KeyOf(drop.manifestHash), Quarantined, 0));
        return Some(FileQuarantined(Stale));
      }
      return None;
    }

    method IterRecords(a: Attempt) returns (rows: Result<seq<CsvDrop.Record>, Failure>)
      modifies store`audits, this`batchStamp, this`pendingAudit
      ensures batchStamp == Some(a.drop.stamp)
      ensures
        var drop := a.drop;
        var verdict, key := Judge(instants, old(Now()), a), KeyOf(drop.hash);
        match verdict {
          case Promote(rs) =>
            rows == Ok(rs) && store.audits == old(store.audits) && pendingAudit == Some(Audit(key, Promoted, 0))
          case Absorb =>
            rows == Ok([]) && store.audits == old(store.audits) && pendingAudit == Some(Audit(key, SkippedDuplicate, 0))
          case GateFailed =>
            && rows == Err(FileQuarantined(GateFailed)) && store.audits == old(store.audits)
            && pendingAudit == Some(Audit(key, Quarantined, 0))
          case Regenerated =>
            && rows == Err(FileQuarantined(verdict)) && pendingAudit == old(pendingAudit)
            && store.audits == Recorded(old(store.audits), Audit(KeyOf(drop.manifestHash), Quarantined, 0))
          case Stale =>
            && rows == Err(FileQuarantined(verdict)) && pendingAudit == old(pendingAudit)
            && store.audits == Recorded(old(store.audits), Audit(KeyOf(drop.manifestHash), Quarantined, 0))
          case _ =>
            && rows == Err(ConnectorError(verdict)) && store.audits == old(store.audits)
            && pendingAudit == old(pendingAudit)
        }
    {
      hide OutOfOrder;
      var drop := a.drop;
      batchStamp := Some(drop.stamp);
      if !drop.declared {
        return Err(ConnectorError(Undeclared));
      }
      if drop.hash in store.audits {
        pendingAudit := Some(Audit(KeyOf(drop.hash), SkippedDuplicate, 0));
        return Ok([]);
      }
      var failure := EnforceBatchOrder(drop, WatermarkOf(store.watermarks, a.entity, a.mode));
      if failure.Some? {
        return Err(failure.value);
      }
      if drop.rows.None? {
        pendingAudit := Some(Audit(KeyOf(drop.hash), Quarantined, 0));
        return Err(FileQuarantined(GateFailed));
      }
      pendingAudit := Some(Audit(KeyOf(drop.hash), Promoted, 0));
      return Ok(drop.rows.value);
    }

    /** One extract: rows, staged file, watermark, and last the audit row. */
    method Extract(a: Attempt) returns (r: Result<nat, Failure>)
      modifies this, store
      ensures Now() == Next(instants, old(Now()), a)
      ensures r.Ok? <==>
        var verdict := Judge(instants, old(Now()), a);
        verdict.Absorb? || (verdict.Promote? && (a.disk.Fine? || verdict.rows == []))
    {
      hide Judge;
      var records := IterRecords(a);
      if records.Err? {
        if records.error.FileQuarantined? {
          store.FlushAudit(pendingAudit, 0);
          pendingAudit := None;
        }
        return Err(records.error);
      }
      var rows := records.value;
      if rows != [] {
        if a.disk.Breaks? {
          staged := WithStaged(staged, a.entity, a.disk.left);
          return Err(DiskError);
        }
        if a.mode.Incremental? && a.entity in staged {
          staged := staged[a.entity := staged[a.entity] + rows];
        } else {
          staged := staged[a.entity := rows];
        }
      } else {
        assert a.entity in staged ==> staged == staged[a.entity := staged[a.entity]];
        assert a.entity !in staged ==> staged == staged - {a.entity};
      }
      store.UpsertWatermark(a.entity, a.mode, Some(AsWatermark(batchStamp.value)));
      store.FlushAudit(pendingAudit, |rows|);
      pendingAudit := None;
      return Ok(|rows|);
    }
  }
}
