/**
 Batch order over whole runs: what a promotion guarantees, exactly when a delivery replaces rows of
 a newer generation, exactly when a watermark falls behind what is staged, and exactly when a
 PROMOTED audit row can name content that was never staged.
 */
module SpruceRuns {
  import opened Outcomes
  import opened Staging
  import opened ControlPlane
  import opened Spruce
  import CsvDrop

  /** A stamp whose watermark text reads back and whose generation is a timestamp. */
  predicate IsOrdered(instants: Instants, stamp: Stamp) {
    IsPlain(stamp) && instants(stamp.generatedAt).Some?
  }

  function GenerationOf(instants: Instants, drop: Drop): Option<int> {
    instants(drop.stamp.generatedAt)
  }

  /** The watermark that an entity's attempts of a mode are judged against. */
  function MarkOf(s: State, entity: string, mode: Mode): Option<string> {
    WatermarkOf(s.watermarks, entity, mode)
  }

  /** The watermark is absent or the text of an ordered stamp. */
  predicate HasOrderedMark(instants: Instants, s: State, entity: string, mode: Mode) {
    var mark := MarkOf(s, entity, mode);
    mark.None? || (
      && FromWatermark(mark).Ok? && FromWatermark(mark).value.Some?
      && IsOrdered(instants, FromWatermark(mark).value.value))
  }

  /** The stamp and the generation of the watermark; None before the first. */
  function MarkedStamp(s: State, entity: string, mode: Mode): Option<Stamp> {
    match FromWatermark(MarkOf(s, entity, mode))
    case Ok(stamp) => stamp
    case Err(_) => None
  }

  function MarkedGeneration(instants: Instants, s: State, entity: string, mode: Mode): Option<int> {
    var stamp := MarkedStamp(s, entity, mode);
    if stamp.Some? then instants(stamp.value.generatedAt) else None
  }

  predicate NotEarlier(a: Option<int>, b: Option<int>) {
    b.None? || (a.Some? && b.value <= a.value)
  }

  /* ---------- one attempt ---------- */

  /** A promoted delivery has another batch id and a strictly later generation than the stored stamp. */
  lemma PromotedIsNewer(instants: Instants, s: State, a: Attempt, stored: Stamp)
    requires MarkOf(s, a.entity, a.mode) == Some(AsWatermark(stored)) && IsPlain(stored)
    requires Judge(instants, s, a).Promote?
    ensures a.drop.stamp.batchId != stored.batchId
    ensures instants(stored.generatedAt).Some? && GenerationOf(instants, a.drop).Some?
    ensures instants(stored.generatedAt).value < GenerationOf(instants, a.drop).value
  {
    WatermarkReadsBackIff(stored);
  }

  /** The attempt succeeds: it absorbs its file, or promotes it and can write what there is to write. */
  predicate Succeeds(instants: Instants, s: State, a: Attempt) {
    var verdict := Judge(instants, s, a);
    verdict.Absorb? || (verdict.Promote? && (a.disk.Fine? || verdict.rows == []))
  }

  /** The attempt stages its rows. */
  predicate Stages(instants: Instants, s: State, a: Attempt) {
    var verdict := Judge(instants, s, a);
    verdict.Promote? && verdict.rows != [] && a.disk.Fine?
  }

  /** A successful attempt writes the watermark of its own entity and mode; no other watermark moves. */
  lemma MarkAfter(instants: Instants, s: State, a: Attempt, entity: string, mode: Mode)
    requires IsOrdered(instants, a.drop.stamp)
    ensures
      var own := Succeeds(instants, s, a) && a.entity == entity && a.mode == mode;
      && MarkOf(Next(instants, s, a), entity, mode)
           == (if own then Some(AsWatermark(a.drop.stamp)) else MarkOf(s, entity, mode))
      && MarkedGeneration(instants, Next(instants, s, a), entity, mode)
           == (if own then GenerationOf(instants, a.drop) else MarkedGeneration(instants, s, entity, mode))
    ensures HasOrderedMark(instants, s, entity, mode) ==> HasOrderedMark(instants, Next(instants, s, a), entity, mode)
  {
    hide FromWatermark, OutOfOrder, AsWatermark;
    WatermarkReadsBackIff(a.drop.stamp);
  }

  /**
   One attempt takes a watermark's generation backwards exactly when it absorbs, under the same
   entity and mode, a re-delivery older than it: absorbing writes the watermark too.
   */
  lemma GoesBackIff(instants: Instants, s: State, a: Attempt, entity: string, mode: Mode)
    requires HasOrderedMark(instants, s, entity, mode) && IsOrdered(instants, a.drop.stamp)
    ensures !NotEarlier(MarkedGeneration(instants, Next(instants, s, a), entity, mode),
                        MarkedGeneration(instants, s, entity, mode))
       <==> && a.entity == entity && a.mode == mode && Judge(instants, s, a).Absorb?
            && !NotEarlier(GenerationOf(instants, a.drop), MarkedGeneration(instants, s, entity, mode))
  {
    hide FromWatermark, Next;
    MarkAfter(instants, s, a, entity, mode);
    NoMark();
  }

  lemma NoMark()
    ensures FromWatermark(None) == Ok(None)
  {
  }

  /** A new file of a later batch, written on a working disk, replaces the staged rows. */
  lemma LaterBatchReplaces(instants: Instants, s: State, a: Attempt, stored: Option<Stamp>)
    requires MarkOf(s, a.entity, a.mode) == (if stored.None? then None else Some(AsWatermark(stored.value)))
    requires stored.Some? ==>
      && IsOrdered(instants, stored.value) && IsOrdered(instants, a.drop.stamp)
      && stored.value.batchId != a.drop.stamp.batchId
      && instants(stored.value.generatedAt).value < GenerationOf(instants, a.drop).value
    requires a.drop.declared && a.drop.hash != "" && a.drop.hash !in s.audits
    requires a.drop.rows.Some? && a.drop.rows.value != []
    ensures Judge(instants, s, a) == Promote(a.drop.rows.value)
    ensures (a.mode.Backfill? || a.entity !in s.staged) && a.disk.Fine? ==>
      Next(instants, s, a) == State(s.audits[a.drop.hash := Audit(a.drop.hash, Promoted, |a.drop.rows.value|)],
                                    s.watermarks[(a.entity, a.mode) := AsWatermark(a.drop.stamp)],
                                    s.staged[a.entity := a.drop.rows.value], None)
    ensures a.disk.Breaks? ==>
      Next(instants, s, a) == s.(staged := WithStaged(s.staged, a.entity, a.disk.left),
                                 pending := Some(Audit(a.drop.hash, Promoted, 0)))
  {
    if stored.Some? {
      WatermarkReadsBackIff(stored.value);
    }
  }

  /* ---------- runs ---------- */

  function After(instants: Instants, s: State, attempts: seq<Attempt>): State
    decreases |attempts|
  {
    if attempts == [] then s else After(instants, Next(instants, s, attempts[0]), attempts[1..])
  }

  /** No attempt on the entity is promoted; with `absorbed` false, none is absorbed either. */
  predicate NonePromoted(instants: Instants, s: State, attempts: seq<Attempt>, entity: string, absorbed: bool)
    decreases |attempts|
  {
    attempts == [] || (
      && (attempts[0].entity == entity ==>
            && !Judge(instants, s, attempts[0]).Promote?
            && (Judge(instants, s, attempts[0]).Absorb? ==> absorbed))
      && NonePromoted(instants, Next(instants, s, attempts[0]), attempts[1..], entity, absorbed))
  }

  /**
   Over any attempts on any entities, the staged file of an entity none of whose deliveries is
   promoted stays, and its watermarks too unless one is absorbed.
   */
  lemma {:induction false} RefusalsChangeNothing(instants: Instants, s: State, attempts: seq<Attempt>, entity: string,
                                                 absorbed: bool)
    requires NonePromoted(instants, s, attempts, entity, absorbed)
    ensures StagedOf(After(instants, s, attempts), entity) == StagedOf(s, entity)
    ensures !absorbed ==> forall mode :: MarkOf(After(instants, s, attempts), entity, mode) == MarkOf(s, entity, mode)
    decreases |attempts|
  {
    hide Judge, Next;
    if attempts != [] {
      RefusalKeeps(instants, s, attempts[0], entity);
      RefusalsChangeNothing(instants, Next(instants, s, attempts[0]), attempts[1..], entity, absorbed);
    }
  }

  lemma RefusalKeeps(instants: Instants, s: State, a: Attempt, entity: string)
    requires a.entity == entity ==> !Judge(instants, s, a).Promote?
    ensures StagedOf(Next(instants, s, a), entity) == StagedOf(s, entity)
    ensures (a.entity == entity ==> !Judge(instants, s, a).Absorb?) ==>
              forall mode :: MarkOf(Next(instants, s, a), entity, mode) == MarkOf(s, entity, mode)
  {
    hide OutOfOrder, WithStaged;
    if a.entity != entity {
      OtherFilesStay(instants, s, a, entity);
    }
  }

  /** An attempt leaves the staged files of other entities alone. */
  lemma OtherFilesStay(instants: Instants, s: State, a: Attempt, entity: string)
    requires a.entity != entity
    ensures StagedOf(Next(instants, s, a), entity) == StagedOf(s, entity)
  {
    hide Judge, Recorded, Refused, Marked;
    var staged := Next(instants, s, a).staged;
    RefusedKeepsFiles(s, a.drop);
    assert staged - {a.entity} == s.staged - {a.entity};
    assert entity in staged <==> entity in staged - {a.entity};
    assert entity in s.staged <==> entity in s.staged - {a.entity};
    assert entity in staged ==> staged[entity] == (staged - {a.entity})[entity];
  }

  lemma RefusedKeepsFiles(s: State, drop: Drop)
    ensures Refused(s, drop).staged == s.staged && Refused(s, drop).watermarks == s.watermarks
  {
  }

  /** Every manifest is ordered, and none absorbed under this entity and mode is older than the stamp stored by then. */
  predicate NoOldReplays(instants: Instants, s: State, attempts: seq<Attempt>, entity: string, mode: Mode)
    decreases |attempts|
  {
    attempts == [] || (
      && IsOrdered(instants, attempts[0].drop.stamp)
      && (attempts[0].entity == entity && attempts[0].mode == mode && Judge(instants, s, attempts[0]).Absorb? ==>
            NotEarlier(GenerationOf(instants, attempts[0].drop), MarkedGeneration(instants, s, entity, mode)))
      && NoOldReplays(instants, Next(instants, s, attempts[0]), attempts[1..], entity, mode))
  }

  /** Then the stored generation of this entity and mode never decreases. */
  lemma {:induction false} GenerationsNeverDecrease(instants: Instants, s: State, attempts: seq<Attempt>,
                                                    entity: string, mode: Mode)
    requires HasOrderedMark(instants, s, entity, mode) && NoOldReplays(instants, s, attempts, entity, mode)
    ensures NotEarlier(MarkedGeneration(instants, After(instants, s, attempts), entity, mode),
                       MarkedGeneration(instants, s, entity, mode))
    decreases |attempts|
  {
    hide Next, Judge, MarkedGeneration, HasOrderedMark;
    if attempts != [] {
      GoesBackIff(instants, s, attempts[0], entity, mode);
      MarkAfter(instants, s, attempts[0], entity, mode);
      GenerationsNeverDecrease(instants, Next(instants, s, attempts[0]), attempts[1..], entity, mode);
    }
  }

  /* ---------- newer generations ---------- */

  /** A state, and for each entity the delivery of the newest generation ever staged. */
  datatype Watched = Watched(state: State, newest: map<string, Drop>)

  function NewestOf(instants: Instants, w: Watched, entity: string): Option<int> {
    if entity in w.newest then GenerationOf(instants, w.newest[entity]) else None
  }

  function Watch(instants: Instants, w: Watched, a: Attempt): Watched {
    var newer := !NotEarlier(NewestOf(instants, w, a.entity), GenerationOf(instants, a.drop));
    Watched(Next(instants, w.state, a),
            if Stages(instants, w.state, a) && newer then w.newest[a.entity := a.drop] else w.newest)
  }

  /** What the stamps met so far look like. */
  ghost predicate IsWatched(instants: Instants, w: Watched) {
    && (forall entity, mode :: HasOrderedMark(instants, w.state, entity, mode))
    && (forall entity | entity in w.newest :: IsOrdered(instants, w.newest[entity].stamp))
  }

  /** The attempt stages rows although the newest generation staged for the entity is not earlier. */
  predicate Overwrites(instants: Instants, w: Watched, a: Attempt) {
    && Stages(instants, w.state, a) && a.entity in w.newest
    && NotEarlier(NewestOf(instants, w, a.entity), GenerationOf(instants, a.drop))
  }

  /** The watermark of this entity and mode is earlier than what was staged. */
  predicate Lags(instants: Instants, w: Watched, entity: string, mode: Mode) {
    !NotEarlier(MarkedGeneration(instants, w.state, entity, mode), NewestOf(instants, w, entity))
  }

  /** A declared file of new content that passes its row gates and can be written. */
  predicate IsSound(s: State, a: Attempt) {
    && a.drop.declared && a.drop.hash !in s.audits && a.disk.Fine?
    && a.drop.rows.Some? && a.drop.rows.value != []
  }

  /**
   A delivery may never overwrite a newer generation. A sound one does exactly when the newest
   staged generation is not earlier than its own, while the watermark of its own mode is absent,
   or of another batch and earlier.
   */
  lemma OverwritesIff(instants: Instants, w: Watched, a: Attempt)
    requires IsWatched(instants, w) && IsOrdered(instants, a.drop.stamp) && IsSound(w.state, a)
    ensures Overwrites(instants, w, a)
       <==> && a.entity in w.newest
            && NotEarlier(NewestOf(instants, w, a.entity), GenerationOf(instants, a.drop))
            && var mark := MarkedStamp(w.state, a.entity, a.mode);
               mark.None? || (
                 && mark.value.batchId != a.drop.stamp.batchId
                 && !NotEarlier(instants(mark.value.generatedAt), GenerationOf(instants, a.drop)))
    ensures Overwrites(instants, w, a) ==>
      StagedOf(Next(instants, w.state, a), a.entity)
        == Some((if a.mode.Incremental? then Rows(StagedOf(w.state, a.entity)) else []) + a.drop.rows.value)
  {
    assert HasOrderedMark(instants, w.state, a.entity, a.mode);
    NoMark();
    assert [] + a.drop.rows.value == a.drop.rows.value;
  }

  lemma WatchKeeps(instants: Instants, w: Watched, a: Attempt)
    requires IsWatched(instants, w) && IsOrdered(instants, a.drop.stamp)
    ensures IsWatched(instants, Watch(instants, w, a))
  {
    hide Next, HasOrderedMark, Stages, IsOrdered;
    forall entity, mode ensures HasOrderedMark(instants, Watch(instants, w, a).state, entity, mode) {
      MarkAfter(instants, w.state, a, entity, mode);
    }
  }

  /**
   Exactly when a watermark lags after an attempt: a successful attempt of its own entity and mode
   leaves it behind only what was staged before; rows staged under the other mode may leave it
   behind them; other attempts change nothing.
   */
  lemma LagsAfterIff(instants: Instants, w: Watched, a: Attempt, entity: string, mode: Mode)
    requires IsWatched(instants, w) && IsOrdered(instants, a.drop.stamp)
    ensures Lags(instants, Watch(instants, w, a), entity, mode)
       <==> if a.entity == entity && a.mode == mode && Succeeds(instants, w.state, a) then
              !NotEarlier(GenerationOf(instants, a.drop), NewestOf(instants, w, entity))
            else
              || Lags(instants, w, entity, mode)
              || (a.entity == entity && a.mode != mode && Stages(instants, w.state, a)
                  && !NotEarlier(MarkedGeneration(instants, w.state, entity, mode), GenerationOf(instants, a.drop)))
  {
    hide Next, HasOrderedMark, Judge, MarkedGeneration;
    MarkAfter(instants, w.state, a, entity, mode);
  }

  /**
   A watermark that keeps up begins to lag in exactly two ways: a re-delivery older than what is
   staged is absorbed under its mode, or newer rows are staged under the other mode.
   */
  lemma LagBeginsIff(instants: Instants, w: Watched, a: Attempt, entity: string, mode: Mode)
    requires IsWatched(instants, w) && IsOrdered(instants, a.drop.stamp) && !Lags(instants, w, entity, mode)
    ensures Lags(instants, Watch(instants, w, a), entity, mode)
       <==> && a.entity == entity
            && if a.mode == mode then
                 && Judge(instants, w.state, a).Absorb?
                 && !NotEarlier(GenerationOf(instants, a.drop), NewestOf(instants, w, entity))
               else
                 && Stages(instants, w.state, a)
                 && !NotEarlier(MarkedGeneration(instants, w.state, entity, mode), GenerationOf(instants, a.drop))
  {
    hide Watch, HasOrderedMark, Judge;
    LagsAfterIff(instants, w, a, entity, mode);
    if a.entity == entity && a.mode == mode && Judge(instants, w.state, a).Promote? {
      PromotedIsAhead(instants, w, a);
    }
  }

  /** A promotion is of a later generation than the watermark it was judged against. */
  lemma PromotedIsAhead(instants: Instants, w: Watched, a: Attempt)
    requires IsWatched(instants, w) && IsOrdered(instants, a.drop.stamp) && Judge(instants, w.state, a).Promote?
    ensures !NotEarlier(MarkedGeneration(instants, w.state, a.entity, a.mode), GenerationOf(instants, a.drop))
  {
    assert HasOrderedMark(instants, w.state, a.entity, a.mode);
    NoMark();
  }

  /** Under a watermark some delivery can overwrite a newer generation exactly when the watermark lags. */
  lemma LagsIffOpen(instants: Instants, w: Watched, entity: string, mode: Mode, hash: string)
    requires IsWatched(instants, w) && hash !in w.state.audits
    ensures Lags(instants, w, entity, mode)
       <==> exists a: Attempt :: && a.entity == entity && a.mode == mode && a.drop.hash == hash
                                 && IsOrdered(instants, a.drop.stamp) && Overwrites(instants, w, a)
  {
    hide Judge, OutOfOrder;
    assert HasOrderedMark(instants, w.state, entity, mode);
    if Lags(instants, w, entity, mode) {
      var mark := MarkedStamp(w.state, entity, mode);
      var batch := if mark.None? then "x" else mark.value.batchId + "x";
      var rows := [CsvDrop.Record(map[], 0, batch)];
      var drop := Drop(Stamp(w.newest[entity].stamp.generatedAt, batch), "", true, hash, Some(rows));
      var a := Attempt(entity, drop, mode, Fine);
      assert IsOrdered(instants, drop.stamp);
      OverwritesIff(instants, w, a);
    }
    if a: Attempt :| && a.entity == entity && a.mode == mode && a.drop.hash == hash
                     && IsOrdered(instants, a.drop.stamp) && Overwrites(instants, w, a) {
      PromotedIsAhead(instants, w, a);
    }
  }

  /* ---------- one mode for each entity ---------- */

  function WatchAll(instants: Instants, w: Watched, attempts: seq<Attempt>): Watched
    decreases |attempts|
  {
    if attempts == [] then w else WatchAll(instants, Watch(instants, w, attempts[0]), attempts[1..])
  }

  /** Each entity is delivered under its own mode, and what is absorbed is not older than what is staged. */
  predicate IsSteady(instants: Instants, w: Watched, attempts: seq<Attempt>, modeOf: string -> Mode)
    decreases |attempts|
  {
    attempts == [] || (
      var a := attempts[0];
      && IsOrdered(instants, a.drop.stamp) && a.mode == modeOf(a.entity)
      && (Judge(instants, w.state, a).Absorb? ==>
            NotEarlier(GenerationOf(instants, a.drop), NewestOf(instants, w, a.entity)))
      && IsSteady(instants, Watch(instants, w, a), attempts[1..], modeOf))
  }

  predicate NoneOverwrites(instants: Instants, w: Watched, attempts: seq<Attempt>)
    decreases |attempts|
  {
    attempts == [] || (
      !Overwrites(instants, w, attempts[0]) && NoneOverwrites(instants, Watch(instants, w, attempts[0]), attempts[1..]))
  }

  /** No entity's own mode lags. */
  ghost predicate KeepsUp(instants: Instants, w: Watched, modeOf: string -> Mode) {
    forall entity :: !Lags(instants, w, entity, modeOf(entity))
  }

  /** Over such a run no delivery overwrites a newer generation, whatever fails or is refused on the way. */
  lemma {:induction false} SteadyRunsAreSafe(instants: Instants, w: Watched, attempts: seq<Attempt>,
                                             modeOf: string -> Mode)
    requires IsWatched(instants, w) && KeepsUp(instants, w, modeOf) && IsSteady(instants, w, attempts, modeOf)
    ensures NoneOverwrites(instants, w, attempts)
    ensures KeepsUp(instants, WatchAll(instants, w, attempts), modeOf)
    decreases |attempts|
  {
    hide Watch, Judge, Lags, IsWatched, Overwrites;
    if attempts != [] {
      SteadyStep(instants, w, attempts[0], modeOf);
      SteadyRunsAreSafe(instants, Watch(instants, w, attempts[0]), attempts[1..], modeOf);
    }
  }

  lemma SteadyStep(instants: Instants, w: Watched, a: Attempt, modeOf: string -> Mode)
    requires IsWatched(instants, w) && KeepsUp(instants, w, modeOf)
    requires IsOrdered(instants, a.drop.stamp) && a.mode == modeOf(a.entity)
    requires Judge(instants, w.state, a).Absorb? ==>
               NotEarlier(GenerationOf(instants, a.drop), NewestOf(instants, w, a.entity))
    ensures !Overwrites(instants, w, a)
    ensures IsWatched(instants, Watch(instants, w, a)) && KeepsUp(instants, Watch(instants, w, a), modeOf)
  {
    hide Watch, Judge;
    WatchKeeps(instants, w, a);
    assert !Lags(instants, w, a.entity, modeOf(a.entity));
    if Overwrites(instants, w, a) {
      PromotedIsAhead(instants, w, a);
      assert false;
    }
    forall entity ensures !Lags(instants, Watch(instants, w, a), entity, modeOf(entity)) {
      LagBeginsIff(instants, w, a, entity, modeOf(entity));
    }
  }

  /** The staged file of the entity is the delivery of its newest generation. */
  predicate HoldsNewest(w: Watched, entity: string) {
    StagedOf(w.state, entity) == if entity in w.newest then w.newest[entity].rows else None
  }

  /**
   A backfilled entity whose watermark keeps up: while its writes work, its staged file is always
   exactly the newest generation ever staged for it.
   */
  lemma {:induction false} NewestIsStaged(instants: Instants, w: Watched, attempts: seq<Attempt>,
                                          modeOf: string -> Mode, entity: string)
    requires IsWatched(instants, w) && KeepsUp(instants, w, modeOf) && IsSteady(instants, w, attempts, modeOf)
    requires modeOf(entity) == Backfill && HoldsNewest(w, entity)
    requires forall k | 0 <= k < |attempts| :: attempts[k].entity == entity ==> attempts[k].disk.Fine?
    ensures HoldsNewest(WatchAll(instants, w, attempts), entity)
    decreases |attempts|
  {
    hide Watch, Judge, Lags, IsWatched, Overwrites, HoldsNewest, KeepsUp;
    if attempts != [] {
      SteadyStep(instants, w, attempts[0], modeOf);
      NewestStep(instants, w, attempts[0], entity);
      assert forall k | 0 <= k < |attempts[1..]| :: attempts[1..][k] == attempts[k + 1];
      NewestIsStaged(instants, Watch(instants, w, attempts[0]), attempts[1..], modeOf, entity);
    }
  }

  lemma NewestStep(instants: Instants, w: Watched, a: Attempt, entity: string)
    requires HoldsNewest(w, entity) && !Overwrites(instants, w, a) && IsOrdered(instants, a.drop.stamp)
    requires a.entity == entity ==> a.mode.Backfill? && a.disk.Fine?
    ensures HoldsNewest(Watch(instants, w, a), entity)
  {
    hide OutOfOrder;
    if a.entity != entity {
      OtherFilesStay(instants, w.state, a, entity);
    }
  }

  /* ---------- two runs that replace newer rows ---------- */

  /** Days written as one digit. */
  function DayOf(text: string): Option<int> {
    if text == "1" then Some(1) else if text == "2" then Some(2) else if text == "3" then Some(3) else None
  }

  function Delivered(entity: string, day: string, batch: string, hash: string, note: nat): Attempt {
    var rows := [CsvDrop.Record(map[], note, batch)];
    Attempt(entity, Drop(Stamp(day, batch), "m" + batch, true, hash, Some(rows)), Backfill, Fine)
  }

  const FRESH := State(map[], map[], map[], None)

  /** Batches of day 1 and day 3, the day-1 batch again, and then a batch of day 2 replaces the rows of day 3. */
  lemma OlderBatchOverwritesNewer()
    ensures
      var d1, d2, d3 := Delivered("items", "1", "a", "ha", 1), Delivered("items", "2", "b", "hb", 2),
                        Delivered("items", "3", "c", "hc", 3);
      var s := After(DayOf, FRESH, [d1, d3, d1]);
      && StagedOf(s, "items") == Some([CsvDrop.Record(map[], 3, "c")])
      && StagedOf(Next(DayOf, s, d2), "items") == Some([CsvDrop.Record(map[], 2, "b")])
  {
    hide After, Next, Judge, AsWatermark, IsOrdered;
    var d1, d2 := Delivered("items", "1", "a", "ha", 1), Delivered("items", "2", "b", "hb", 2);
    var s := DayOneAgain();
    DaysDiffer();
    LaterBatchReplaces(DayOf, s, d2, Some(d1.drop.stamp));
  }

  /** Absorbing the day-1 batch puts its stamp before that of day 3, whose rows stay. */
  lemma DayOneAgain() returns (s: State)
    ensures
      var d1, d3 := Delivered("items", "1", "a", "ha", 1), Delivered("items", "3", "c", "hc", 3);
      && s == After(DayOf, FRESH, [d1, d3, d1]) && s.audits.Keys == {"ha", "hc"}
      && MarkOf(s, "items", Backfill) == Some(AsWatermark(d1.drop.stamp)) && StagedOf(s, "items") == d3.drop.rows
  {
    hide After, Next, Judge, AsWatermark, IsOrdered;
    var d1, d3 := Delivered("items", "1", "a", "ha", 1), Delivered("items", "3", "c", "hc", 3);
    DaysDiffer();
    LaterBatchReplaces(DayOf, FRESH, d1, None);
    var s1 := Next(DayOf, FRESH, d1);
    LaterBatchReplaces(DayOf, s1, d3, Some(d1.drop.stamp));
    var s2 := Next(DayOf, s1, d3);
    KnownIsAbsorbed(DayOf, s2, d1);
    s := Next(DayOf, s2, d1);
    AfterThree(DayOf, FRESH, d1, d3, d1);
  }

  /** An incremental delivery of day 3, and then a backfill of day 2 replaces its rows: nothing was absorbed. */
  lemma MixedModesOverwrite()
    ensures
      var d2 := Delivered("items", "2", "b", "hb", 2);
      var d3 := Delivered("items", "3", "c", "hc", 3).(mode := Incremental);
      var s := Next(DayOf, FRESH, d3);
      && Judge(DayOf, FRESH, d3).Promote? && Judge(DayOf, s, d2).Promote?
      && StagedOf(s, "items") == Some([CsvDrop.Record(map[], 3, "c")])
      && StagedOf(Next(DayOf, s, d2), "items") == Some([CsvDrop.Record(map[], 2, "b")])
      && Judge(DayOf, s, d2.(mode := Incremental)).Stale?
  {
    var d2, d3 := Delivered("items", "2", "b", "hb", 2), Delivered("items", "3", "c", "hc", 3).(mode := Incremental);
    hide Next, Judge, AsWatermark, IsOrdered;
    DaysDiffer();
    LaterBatchReplaces(DayOf, FRESH, d3, None);
    var s := Next(DayOf, FRESH, d3);
    LaterBatchReplaces(DayOf, s, d2, None);
    EarlierBatchIsRefused(DayOf, s, d2.(mode := Incremental), d3.drop.stamp);
  }

  lemma DaysDiffer()
    ensures DayOf("1") == Some(1) && DayOf("2") == Some(2) && DayOf("3") == Some(3)
    ensures "a"[0] == 'a' && "b"[0] == 'b' && "c"[0] == 'c'
    ensures "ha"[1] == 'a' && "hb"[1] == 'b' && "hc"[1] == 'c'
    ensures forall day, batch | day in {"1", "2", "3"} && batch in {"a", "b", "c"} ::
              IsOrdered(DayOf, Stamp(day, batch))
  {
  }

  lemma KnownIsAbsorbed(instants: Instants, s: State, a: Attempt)
    requires a.drop.declared && a.drop.hash != "" && a.drop.hash in s.audits
    ensures Judge(instants, s, a).Absorb?
    ensures Next(instants, s, a)
         == s.(watermarks := s.watermarks[(a.entity, a.mode) := AsWatermark(a.drop.stamp)], pending := None)
  {
  }

  lemma AfterThree(instants: Instants, s: State, a: Attempt, b: Attempt, c: Attempt)
    ensures After(instants, s, [a, b, c]) == Next(instants, Next(instants, Next(instants, s, a), b), c)
  {
    hide Next;
    assert [a, b, c][1..] == [b, c] && [b, c][1..] == [c] && [c][1..] == [];
    var next := Next(instants, s, a);
    assert After(instants, next, [b, c]) == After(instants, Next(instants, next, b), [c]);
  }

  /* ---------- what a PROMOTED audit row means ---------- */

  /** The content staged by a successful attempt, if it is one. */
  function Loaded(instants: Instants, s: State, a: Attempt): set<string> {
    match Judge(instants, s, a)
    case Promote(rows) => if a.disk.Breaks? && rows != [] then {} else {KeyOf(a.drop.hash)}
    case _ => {}
  }

  /** Every PROMOTED audit row names content that was staged. */
  ghost predicate IsHonest(s: State, loaded: set<string>) {
    forall hash | hash in s.audits && s.audits[hash].status.Promoted? :: hash in loaded
  }

  /** The row an instance holds back is one no file backs. */
  predicate HoldsFalseReceipt(s: State, loaded: set<string>) {
    s.pending.Some? && s.pending.value.status.Promoted? && s.pending.value.hash !in loaded + s.audits.Keys
  }

  /** The invariant that attempts on one instance keep about the row it holds back. */
  predicate KeysAgree(s: State) {
    forall hash | hash in s.audits :: s.audits[hash].hash == hash
  }

  /** The audit rows after an attempt. */
  lemma AuditsAfter(instants: Instants, s: State, a: Attempt)
    ensures
      var key := KeyOf(a.drop.hash);
      Next(instants, s, a).audits ==
        match Judge(instants, s, a) {
          case Regenerated => Refused(s, a.drop).audits
          case Stale => Refused(s, a.drop).audits
          case GateFailed => Recorded(s.audits, Audit(key, Quarantined, 0))
          case Absorb => Recorded(s.audits, Audit(key, SkippedDuplicate, 0))
          case Promote(rows) =>
            if a.disk.Breaks? && rows != [] then s.audits else Recorded(s.audits, Audit(key, Promoted, |rows|))
          case _ => s.audits
        }
  {
    hide Judge, WithStaged, Refused;
  }

  /**
   The audit row is the promotion receipt: it stays honest over an attempt on whatever entity,
   unless the attempt is refused at the manifest while the instance still holds the row of an
   earlier attempt whose file could not be written.
   */
  lemma DishonestIff(instants: Instants, s: State, a: Attempt, loaded: set<string>)
    requires IsHonest(s, loaded) && KeysAgree(s)
    ensures KeysAgree(Next(instants, s, a))
    ensures !IsHonest(Next(instants, s, a), loaded + Loaded(instants, s, a))
       <==> && Judge(instants, s, a) in {Regenerated, Stale}
            && HoldsFalseReceipt(s, loaded) && s.pending.value.hash != KeyOf(a.drop.manifestHash)
  {
    hide Next, Judge;
    var next := Next(instants, s, a);
    AuditsAfter(instants, s, a);
    if Judge(instants, s, a) in {Regenerated, Stale} && HoldsFalseReceipt(s, loaded)
       && s.pending.value.hash != KeyOf(a.drop.manifestHash) {
      assert s.pending.value.hash in next.audits;
      assert next.audits[s.pending.value.hash].status.Promoted?;
    }
  }

  /** An instance holds a row back only after an attempt whose file could not be written. */
  lemma HoldsBackIff(instants: Instants, s: State, a: Attempt)
    requires s.pending.None?
    ensures Next(instants, s, a).pending.Some?
       <==> Judge(instants, s, a).Promote? && a.disk.Breaks? && Judge(instants, s, a).rows != []
  {
  }

  /** While the disk holds, every PROMOTED row is honest over any run. */
  lemma {:induction false} HonestWhileDiskHolds(instants: Instants, s: State, attempts: seq<Attempt>,
                                                loaded: set<string>)
    returns (all: set<string>)
    requires IsHonest(s, loaded) && KeysAgree(s) && s.pending.None?
    requires forall k | 0 <= k < |attempts| :: attempts[k].disk.Fine?
    ensures IsHonest(After(instants, s, attempts), all)
    ensures all == loaded + AllLoaded(instants, s, attempts)
    decreases |attempts|
  {
    hide Next, Judge, Loaded, IsHonest;
    if attempts == [] {
      all := loaded;
    } else {
      DishonestIff(instants, s, attempts[0], loaded);
      HoldsBackIff(instants, s, attempts[0]);
      assert forall k | 0 <= k < |attempts[1..]| :: attempts[1..][k] == attempts[k + 1];
      all := HonestWhileDiskHolds(instants, Next(instants, s, attempts[0]), attempts[1..],
                                  loaded + Loaded(instants, s, attempts[0]));
    }
  }

  function AllLoaded(instants: Instants, s: State, attempts: seq<Attempt>): set<string>
    decreases |attempts|
  {
    if attempts == [] then {}
    else Loaded(instants, s, attempts[0]) + AllLoaded(instants, Next(instants, s, attempts[0]), attempts[1..])
  }

  /**
   A write of one entity that fails, then a stale manifest at another: the audit says the content
   of the first was promoted, nothing of it is staged, and its re-delivery is absorbed.
   */
  lemma FalseReceipt()
    ensures
      var good, stale := Delivered("vendors", "2", "b", "hb", 2), Delivered("vendors", "1", "c", "hc", 3);
      var lost := Delivered("items", "1", "a", "ha", 1);
      var s := After(DayOf, FRESH, [good, lost.(disk := Breaks(None)), stale]);
      && "ha" in s.audits && s.audits["ha"].status.Promoted? && StagedOf(s, "items") == None
      && Judge(DayOf, s, lost).Absorb?
  {
    var good, stale := Delivered("vendors", "2", "b", "hb", 2), Delivered("vendors", "1", "c", "hc", 3);
    var lost := Delivered("items", "1", "a", "ha", 1);
    var fails := lost.(disk := Breaks(None));
    hide After, Next, Judge, AsWatermark, IsOrdered;
    DaysDiffer();
    LaterBatchReplaces(DayOf, FRESH, good, None);
    var s1 := Next(DayOf, FRESH, good);
    LaterBatchReplaces(DayOf, s1, fails, None);
    var s2 := Next(DayOf, s1, fails);
    assert KeyOf(stale.drop.manifestHash)[0] == 'm' && "ha"[0] == 'h';
    EarlierBatchIsRefused(DayOf, s2, stale, good.drop.stamp);
    AfterThree(DayOf, FRESH, good, fails, stale);
    KnownIsAbsorbed(DayOf, Refused(s2, stale.drop), lost);
  }

  lemma EarlierBatchIsRefused(instants: Instants, s: State, a: Attempt, stored: Stamp)
    requires MarkOf(s, a.entity, a.mode) == Some(AsWatermark(stored))
    requires IsOrdered(instants, stored) && IsOrdered(instants, a.drop.stamp)
    requires stored.batchId != a.drop.stamp.batchId
    requires GenerationOf(instants, a.drop).value <= instants(stored.generatedAt).value
    requires a.drop.declared && a.drop.hash !in s.audits
    ensures Judge(instants, s, a).Stale? && Next(instants, s, a) == Refused(s, a.drop)
  {
    WatermarkReadsBackIff(stored);
  }
}
