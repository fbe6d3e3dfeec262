/**
 What one attempt at a delivery does, spelled out: how the stored watermark is read, which verdict
 is given and why, and what every verdict leaves of the audit rows, the watermarks and the files.
 */
module SpruceLaws {
  import opened Outcomes
  import opened Staging
  import opened ControlPlane
  import opened Spruce
  import CsvDrop

  /* ---------- the watermark ---------- */

  /** A watermark text names a stamp: generation and batch, both there, the generation ending at the first bar. */
  predicate Names(text: string, stamp: Stamp) {
    text == stamp.generatedAt + "|" + stamp.batchId
    && '|' !in stamp.generatedAt && stamp.generatedAt != "" && stamp.batchId != ""
  }

  lemma BarIsFirst(before: string, after: string)
    requires '|' !in before
    ensures BarAt(before + "|" + after) == |before|
  {
    var s := before + "|" + after;
    assert s[|before|] == '|';
    assert forall k | 0 <= k < |before| :: s[k] == before[k];
  }

  lemma NamedIsRead(text: string, stamp: Stamp)
    requires Names(text, stamp)
    ensures FromWatermark(Some(text)) == Ok(Some(stamp))
  {
    BarIsFirst(stamp.generatedAt, stamp.batchId);
    assert text[..|stamp.generatedAt|] == stamp.generatedAt;
    assert text[|stamp.generatedAt| + 1..] == stamp.batchId;
  }

  /** A stored watermark reads as the stamp it names; none when it is empty or absent; else it is refused. */
  lemma WatermarkReads(mark: Option<string>)
    ensures FromWatermark(mark) == Ok(None) <==> mark in {None, Some("")}
    ensures forall stamp :: FromWatermark(mark) == Ok(Some(stamp)) <==> mark.Some? && Names(mark.value, stamp)
  {
    if mark.Some? && mark.value != "" {
      var w := mark.value;
      var bar := BarAt(w);
      if FromWatermark(mark).Ok? {
        var read := FromWatermark(mark).value.value;
        assert w == w[..bar] + [w[bar]] + w[bar + 1..];
        assert '|' !in read.generatedAt;
        assert Names(w, read);
      }
      forall stamp | Names(w, stamp) ensures FromWatermark(mark) == Ok(Some(stamp)) {
        NamedIsRead(w, stamp);
      }
    }
  }

  /* ---------- the verdict ---------- */

  /**
   Why a manifest that follows a stored stamp is refused: it carries the same batch, or a text that
   is no timestamp stands on either side, or it is not later.
   */
  predicate MayFollow(instants: Instants, prior: Stamp, stamp: Stamp) {
    && prior.batchId != stamp.batchId
    && instants(prior.generatedAt).Some? && instants(stamp.generatedAt).Some?
    && instants(prior.generatedAt).value < instants(stamp.generatedAt).value
  }

  /** The verdict on an attempt, by the first question that decides it. */
  lemma JudgedAs(instants: Instants, s: State, a: Attempt)
    ensures
      var verdict, drop, at := Judge(instants, s, a), a.drop, (a.entity, a.mode);
      var gated := if drop.rows.Some? then Promote(drop.rows.value) else GateFailed;
      if !drop.declared then verdict.Undeclared?
      else if drop.hash in s.audits then verdict.Absorb?
      else if at !in s.watermarks || s.watermarks[at] == "" then verdict == gated
      else if forall prior :: !Names(s.watermarks[at], prior) then verdict.BadWatermark?
      else
        forall prior | Names(s.watermarks[at], prior) ::
          if MayFollow(instants, prior, drop.stamp) then verdict == gated
          else if prior.batchId == drop.stamp.batchId then verdict.Regenerated?
          else if instants(prior.generatedAt).None? || instants(drop.stamp.generatedAt).None? then
            verdict.BadGeneration?
          else verdict.Stale?
  {
    hide FromWatermark, Names;
    WatermarkReads(WatermarkOf(s.watermarks, a.entity, a.mode));
  }

  /* ---------- what is left ---------- */

  /** One audit row more, unless its hash has one. */
  predicate Gains(before: map<string, Audit>, after: map<string, Audit>, row: Audit) {
    && before.Keys + {row.hash} == after.Keys
    && (forall hash | hash in before :: after[hash] == before[hash])
    && (row.hash !in before ==> after[row.hash] == row)
  }

  /** The attempt found its file unusable on the disk while it was being written. */
  predicate BreaksOff(verdict: Verdict, a: Attempt) {
    verdict.Promote? && verdict.rows != [] && a.disk.Breaks?
  }

  /**
   Only the watermark of the attempt's own entity and mode can move, and it does exactly when the
   delivery was absorbed, or promoted and written: to this manifest, whatever it was before.
   */
  lemma WatermarksLeft(instants: Instants, s: State, a: Attempt)
    ensures
      var verdict, t, at := Judge(instants, s, a), Next(instants, s, a), (a.entity, a.mode);
      if verdict.Absorb? || (verdict.Promote? && !BreaksOff(verdict, a)) then
        t.watermarks == s.watermarks[at := a.drop.stamp.generatedAt + "|" + a.drop.stamp.batchId]
      else t.watermarks == s.watermarks
  {
    hide Judge, Recorded, WithStaged;
  }

  /**
   Only a promotion with rows touches the file of its entity, and no other file: it appends to a
   file that exists in incremental mode, else replaces it, or leaves what a failing disk left.
   */
  lemma FilesLeft(instants: Instants, s: State, a: Attempt)
    ensures
      var verdict, t := Judge(instants, s, a), Next(instants, s, a);
      && (forall e | e != a.entity ::
            (e in s.staged <==> e in t.staged) && (e in s.staged ==> s.staged[e] == t.staged[e]))
      && (!verdict.Promote? || verdict.rows == [] ==> t.staged == s.staged)
      && (verdict.Promote? && verdict.rows != [] && a.disk.Fine? ==>
            && a.entity in t.staged
            && t.staged[a.entity]
                 == (if a.mode.Incremental? && a.entity in s.staged then s.staged[a.entity] else []) + verdict.rows)
      && (BreaksOff(verdict, a) ==>
            (a.entity in t.staged <==> a.disk.left.Some?)
            && (a.entity in t.staged ==> t.staged[a.entity] == a.disk.left.value))
  {
    hide Judge, Recorded, WithStaged;
    var verdict, t := Judge(instants, s, a), Next(instants, s, a);
    if verdict.Promote? {
      var content := if BreaksOff(verdict, a) then a.disk.left
                     else AfterSuccess(StagedOf(s, a.entity), verdict.rows, a.mode);
      assert t.staged == WithStaged(s.staged, a.entity, content);
      OneFileChanges(s.staged, a.entity, content);
    }
  }

  lemma OneFileChanges(staged: map<string, seq<CsvDrop.Record>>, entity: string, content: Staged<CsvDrop.Record>)
    ensures
      var r := WithStaged(staged, entity, content);
      && (forall e | e != entity :: (e in staged <==> e in r) && (e in staged ==> staged[e] == r[e]))
      && (content == (if entity in staged then Some(staged[entity]) else None) ==> r == staged)
  {
  }

  /** The audit row held back: that of a promotion which broke off; nothing else is ever held back anew. */
  lemma HeldBack(instants: Instants, s: State, a: Attempt)
    ensures
      var verdict, pending := Judge(instants, s, a), Next(instants, s, a).pending;
      if BreaksOff(verdict, a) then
        pending == Some(Audit(if a.drop.hash == "" then "unknown" else a.drop.hash, Promoted, 0))
      else if verdict.Undeclared? || verdict.BadWatermark? || verdict.BadGeneration? then pending == s.pending
      else pending == None
  {
    hide Judge, Recorded, WithStaged, Upserted;
  }

  /**
   The audit rows: one of the file's hash with its outcome, none when the attempt broke off or was
   refused for its form, and for a refused manifest its own row, then the one held back.
   */
  lemma AuditsLeft(instants: Instants, s: State, a: Attempt)
    ensures
      var verdict, after := Judge(instants, s, a), Next(instants, s, a).audits;
      var hash := if a.drop.hash == "" then "unknown" else a.drop.hash;
      match verdict {
        case Absorb => Gains(s.audits, after, Audit(hash, SkippedDuplicate, 0))
        case GateFailed => Gains(s.audits, after, Audit(hash, Quarantined, 0))
        case Promote(rows) =>
          if BreaksOff(verdict, a) then after == s.audits
          else Gains(s.audits, after, Audit(hash, Promoted, |rows|))
        case Regenerated => Refuses(s, a.drop, after)
        case Stale => Refuses(s, a.drop, after)
        case _ => after == s.audits
      }
  {
    hide Judge, Recorded, WithStaged, Upserted, Gains;
    RowsAreGained();
    RefusalGains(s, a.drop);
  }

  /** The row of a refused manifest, then the one held back, which counts no rows. */
  ghost predicate Refuses(s: State, drop: Drop, after: map<string, Audit>) {
    var own := Audit(if drop.manifestHash == "" then "unknown" else drop.manifestHash, Quarantined, 0);
    if s.pending.None? then Gains(s.audits, after, own)
    else
      var late := if s.pending.value.status.Promoted? then s.pending.value.(rows := 0) else s.pending.value;
      exists audits :: Gains(s.audits, audits, own) && Gains(audits, after, late)
  }

  lemma RefusalGains(s: State, drop: Drop)
    ensures Refuses(s, drop, Refused(s, drop).audits)
  {
    hide Recorded, Gains;
    RowsAreGained();
    var own := Audit(KeyOf(drop.manifestHash), Quarantined, 0);
    assert Gains(s.audits, Recorded(s.audits, own), own);
  }

  lemma RowsAreGained()
    ensures forall audits, row: Audit :: Gains(audits, Recorded(audits, row), row)
  {
  }
}
