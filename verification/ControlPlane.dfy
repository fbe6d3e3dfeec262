/**
 The control-plane store as the connectors use it: file-audit rows, which are inserted or ignored,
 and one watermark per entity and mode.
 */
module ControlPlane {
  import opened Outcomes
  import opened Staging

  datatype Status = Promoted | SkippedDuplicate | Quarantined

  datatype Audit = Audit(hash: string, status: Status, rows: nat)

  /** Insert or ignore: the first row of a hash stays. */
  function Recorded(audits: map<string, Audit>, audit: Audit): map<string, Audit> {
    if audit.hash in audits then audits else audits[audit.hash := audit]
  }

  function Flushed(audits: map<string, Audit>, pending: Option<Audit>, rows: nat): map<string, Audit> {
    if pending.None? then audits
    else Recorded(audits, if pending.value.status.Promoted? then pending.value.(rows := rows) else pending.value)
  }

  class ControlPlaneStore {
    var audits: map<string, Audit>
    var watermarks: map<(string, Mode), string>

    constructor ()
      ensures audits == map[] && watermarks == map[]
    {
      audits, watermarks := map[], map[];
    }

    method RecordFileAudit(audit: Audit)
      modifies this`audits
      ensures audits == Recorded(old(audits), audit)
    {
      if audit.hash !in audits {
        audits := audits[audit.hash := audit];
      }
    }

    /** Write the audit row a run held back, with the rows it parsed when it promoted them. */
    method FlushAudit(pending: Option<Audit>, rowsParsed: nat)
      modifies this`audits
      ensures audits == Flushed(old(audits), pending, rowsParsed)
    {
      if pending.None? {
        return;
      }
      var audit := pending.value;
      if audit.status.Promoted? && audit.rows != rowsParsed {
        audit := audit.(rows := rowsParsed);
      }
      RecordFileAudit(audit);
    }

    method HasFileBeenProcessed(hash: string) returns (r: bool)
      ensures r == (hash in audits)
    {
      r := hash in audits;
    }

    method UpsertWatermark(entity: string, mode: Mode, watermark: Option<string>)
      modifies this`watermarks
      ensures watermarks == Upserted(old(watermarks), entity, mode, watermark)
    {
      if watermark.Some? {
        watermarks := watermarks[(entity, mode) := watermark.value];
      } else {
        watermarks := watermarks - {(entity, mode)};
      }
    }
  }

  function Upserted(w: map<(string, Mode), string>, entity: string, mode: Mode, watermark: Option<string>)
    : map<(string, Mode), string>
  {
    if watermark.Some? then w[(entity, mode) := watermark.value] else w - {(entity, mode)}
  }

  function WatermarkOf(w: map<(string, Mode), string>, entity: string, mode: Mode): Option<string> {
    if (entity, mode) in w then Some(w[(entity, mode)]) else None
  }
}
