/**
 Any history of incremental runs and backfills, with failures anywhere: how often the staged file
 holds each row. Incremental runs alone hold every row once; one that follows a backfill asks
 again for what only the backfill has read, and appends it.
 */
module BisTrackHistories {
  import opened Outcomes
  import opened PyText
  import opened Documents
  import opened Staging
  import opened BisTrack
  import opened BisTrackRuns
  import opened BisTrackExact

  /* ---------- what a history amounts to ---------- */

  /** One run: the source it met, its mode, how it ended, what it got and what it left. */
  datatype Round = Round(table: set<SourceRow>, mode: Mode, ok: bool, parts: seq<seq<SourceRow>>, after: Feed)

  /** Runs over a source that only adds above; each may end well or fail anywhere. */
  ghost predicate IsHistory(f: Feed, latest: set<SourceRow>, plan: seq<Scan>, rounds: seq<Round>)
    decreases |rounds|
  {
    rounds != [] ==>
      var r := rounds[0];
      && PlanOK(r.table, plan) && SourceAdds(latest, r.table, plan)
      && Ran(f, r.table, plan, r.mode, r.ok, r.parts, r.after)
      && IsHistory(r.after, r.table, plan, rounds[1..])
  }

  function LastFeed(f: Feed, rounds: seq<Round>): Feed {
    if rounds == [] then f else rounds[|rounds| - 1].after
  }

  /**
   The source at the last successful run and at the last successful incremental one, the rows held
   twice, and whether the file has its rows: a failed run may have taken some.
   */
  datatype Tally = Tally(done: set<SourceRow>, marked: set<SourceRow>, twice: set<SourceRow>, whole: bool)

  function NextTally(f: Feed, t: Tally, plan: seq<Scan>, r: Round): Tally {
    if !r.ok then t.(whole := t.whole && Rows(r.after.staged) == Rows(f.staged))
    else match r.mode
      case Incremental =>
        Tally(r.table, r.table, t.twice + (Scope(t.done, plan) - Scope(t.marked, plan)), t.whole)
      case Backfill => Tally(r.table, t.marked, {}, t.whole || Flatten(r.parts) != [])
  }

  function TallyOf(f: Feed, t: Tally, plan: seq<Scan>, rounds: seq<Round>): Tally
    decreases |rounds|
  {
    if rounds == [] then t
    else TallyOf(rounds[0].after, NextTally(f, t, plan, rounds[0]), plan, rounds[1..])
  }

  /** The feed after a history is what its tally says. */
  ghost predicate Fits(f: Feed, t: Tally, latest: set<SourceRow>, plan: seq<Scan>) {
    && (forall k | 0 <= k < |plan| :: ScanCaughtUp(f, t.marked, latest, plan[k]))
    && SourceAdds(t.marked, t.done, plan) && SourceAdds(t.done, latest, plan)
    && (t.whole ==> Holds(Rows(f.staged), Scope(t.done, plan), t.twice))
    && (t.twice != {} ==> Scope(t.marked, plan) == Scope(t.done, plan))
  }

  /** Each of these rows once, and those of `twice` once more. */
  ghost predicate Holds(rows: seq<SourceRow>, all: set<SourceRow>, twice: set<SourceRow>) {
    multiset(rows) == multiset(all) + multiset(twice) && twice <= all
  }

  lemma HoldsExactlyIff(rows: seq<SourceRow>, all: set<SourceRow>, twice: set<SourceRow>)
    requires Holds(rows, all, twice)
    ensures multiset(rows) == multiset(all) <==> twice == {}
    ensures forall r :: multiset(rows)[r] == (if r in twice then 2 else if r in all then 1 else 0)
  {
    assert |multiset(rows)| == |multiset(all)| + |twice|;
  }

  /* ---------- one run ---------- */

  lemma SourceAddsFurther(a: set<SourceRow>, b: set<SourceRow>, c: set<SourceRow>, plan: seq<Scan>)
    requires SourceAdds(a, b, plan) && SourceAdds(b, c, plan)
    ensures SourceAdds(a, c, plan)
  {
    hide AddsAbove;
    forall k | 0 <= k < |plan| ensures AddsAbove(a, c, plan[k].docType) {
      AddsAboveTransitive(a, b, c, plan[k].docType);
    }
  }

  lemma SourceAddsNothing(a: set<SourceRow>, plan: seq<Scan>)
    ensures SourceAdds(a, a, plan)
  {
  }

  /** Nothing a scan covers gets lost. */
  lemma {:induction false} AddsKeepScope(a: set<SourceRow>, b: set<SourceRow>, plan: seq<Scan>)
    requires SourceAdds(a, b, plan)
    ensures Scope(a, plan) <= Scope(b, plan)
    decreases |plan|
  {
    hide Scope, ScanRows, AddsAbove;
    ScopeUnfold(a, plan);
    ScopeUnfold(b, plan);
    if plan != [] {
      AddsKeepScan(a, b, plan[0].docType);
      assert forall k | 0 <= k < |plan[1..]| :: plan[1..][k] == plan[k + 1];
      AddsKeepScope(a, b, plan[1..]);
    }
  }

  lemma AddsKeepScan(a: set<SourceRow>, b: set<SourceRow>, docType: Option<string>)
    requires AddsAbove(a, b, docType)
    ensures ScanRows(a, docType) <= ScanRows(b, docType)
  {
  }

  lemma MarksOfFeed(f: Feed, t: Tally, latest: set<SourceRow>, table: set<SourceRow>, plan: seq<Scan>)
    requires Fits(f, t, latest, plan) && SourceAdds(latest, table, plan)
    ensures MarksFit(f.stored, t.marked, plan)
    ensures SourceAdds(t.marked, table, plan) && SourceKeeps(t.marked, table, plan)
    ensures SourceAdds(t.done, table, plan) && SourceKeeps(latest, table, plan)
    ensures Scope(t.marked, plan) <= Scope(t.done, plan) <= Scope(table, plan)
  {
    hide MarkFits, SeenFits, Scope, Holds;
    SourceAddsFurther(t.done, latest, table, plan);
    SourceAddsFurther(t.marked, t.done, table, plan);
    AddsKeepScope(t.marked, t.done, plan);
    AddsKeepScope(t.done, table, plan);
    forall k | 0 <= k < |plan| ensures MarkFits(MarkOf(f.stored, plan[k].key), ScanRows(t.marked, plan[k].docType)) {
      assert ScanCaughtUp(f, t.marked, latest, plan[k]);
    }
  }

  /** A successful incremental run appends what its marks do not cover. */
  lemma IncrementAppends(f: Feed, g: Feed, marked: set<SourceRow>, table: set<SourceRow>, plan: seq<Scan>,
                         parts: seq<seq<SourceRow>>)
    requires IsPlan(plan) && PlanOK(table, plan) && MarksFit(f.stored, marked, plan)
    requires SourceAdds(marked, table, plan) && SourceKeeps(marked, table, plan)
    requires RunSucceeds(f, table, plan, parts, g)
    ensures multiset(Rows(g.staged)) == multiset(Rows(f.staged)) + multiset(Scope(table, plan) - Scope(marked, plan))
  {
    hide Scope, WantedAll, Scanned, PlanOK, MarksFit, SourceKeeps, SourceAdds, IsPlan, CurrentWatermark, SeenAfter;
    DeltaOnce(table, plan, f.stored, parts);
    WantedAllIsNew(marked, table, plan, f.stored);
    MergeAppends(f.staged, Flatten(parts));
  }

  /** What only a backfill had read is then held twice. */
  lemma IncrementHolds(before: seq<SourceRow>, after: seq<SourceRow>, marked: set<SourceRow>, done: set<SourceRow>,
                       all: set<SourceRow>, twice: set<SourceRow>)
    requires marked <= done <= all && Holds(before, done, twice) && (twice != {} ==> marked == done)
    requires multiset(after) == multiset(before) + multiset(all - marked)
    ensures Holds(after, all, twice + (done - marked))
  {
    forall r ensures multiset(after)[r] == (multiset(all) + multiset(twice + (done - marked)))[r] {
      assert multiset(before)[r] == multiset(done)[r] + multiset(twice)[r];
    }
  }

  /** A run over everything reads each row of the scope once. */
  lemma BackfillReadsAll(table: set<SourceRow>, plan: seq<Scan>, parts: seq<seq<SourceRow>>)
    requires IsPlan(plan) && PlanOK(table, plan) && Scanned(table, plan, None, parts)
    ensures multiset(Flatten(parts)) == multiset(Scope(table, plan))
  {
    hide Scope, WantedAll, Scanned, PlanOK, IsPlan, Flatten;
    DeltaOnce(table, plan, None, parts);
    UnmarkedWantsAll(table, plan);
  }

  lemma UnmarkedWantsAll(table: set<SourceRow>, plan: seq<Scan>)
    requires IsPlan(plan) && PlanOK(table, plan)
    ensures WantedAll(table, plan, None) == Scope(table, plan)
  {
    hide WantedAll, PlanOK, IsPlan, InPlan;
    assert Scope({}, plan) == {};
    forall k | 0 <= k < |plan|
      ensures ScanRows({}, plan[k].docType) == {}
    {
    }
    WantedAllIsNew({}, table, plan, None);
  }

  lemma IncrementKeepsFit(f: Feed, t: Tally, latest: set<SourceRow>, plan: seq<Scan>, r: Round)
    requires IsPlan(plan) && PlanOK(r.table, plan) && Fits(f, t, latest, plan) && SourceAdds(latest, r.table, plan)
    requires r.mode.Incremental? && r.ok && RunSucceeds(f, r.table, plan, r.parts, r.after)
    ensures Fits(r.after, NextTally(f, t, plan, r), r.table, plan)
  {
    hide MarkFits, SeenFits, RunSucceeds, IsPlan, Scope, ScanOK, Holds;
    MarksOfFeed(f, t, latest, r.table, plan);
    SourceAddsNothing(r.table, plan);
    if t.whole {
      IncrementAppends(f, r.after, t.marked, r.table, plan, r.parts);
      IncrementHolds(Rows(f.staged), Rows(r.after.staged), Scope(t.marked, plan), Scope(t.done, plan),
                     Scope(r.table, plan), t.twice);
    }
    forall k | 0 <= k < |plan| ensures ScanCaughtUp(r.after, r.table, r.table, plan[k]) {
      MarkAdvances(f, r.after, t.marked, latest, r.table, plan, r.parts, k);
    }
  }

  lemma BackfillKeepsFit(f: Feed, t: Tally, latest: set<SourceRow>, plan: seq<Scan>, r: Round)
    requires IsPlan(plan) && PlanOK(r.table, plan) && Fits(f, t, latest, plan) && SourceAdds(latest, r.table, plan)
    requires r.mode.Backfill? && r.ok && BackfillSucceeds(f, r.table, plan, r.parts, r.after)
    ensures Fits(r.after, NextTally(f, t, plan, r), r.table, plan)
  {
    hide MarkFits, IsPlan, Scope, Scanned, PlanOK, Flatten;
    MarksOfFeed(f, t, latest, r.table, plan);
    SourceAddsNothing(r.table, plan);
    BackfillReadsAll(r.table, plan, r.parts);
    BackfillHolds(f.staged, Flatten(r.parts), Scope(t.done, plan), Scope(r.table, plan), t);
    RememberFurther(f, r.after, t.marked, latest, r.table, plan);
  }

  lemma BackfillHolds(staged: Staged<SourceRow>, stream: seq<SourceRow>, done: set<SourceRow>, all: set<SourceRow>,
                      t: Tally)
    requires multiset(stream) == multiset(all) && done <= all
    requires t.whole ==> Holds(Rows(staged), done, t.twice)
    ensures t.whole || stream != [] ==> Holds(Rows(AfterSuccess(staged, stream, Backfill)), all, {})
  {
    assert |all| == |multiset(stream)| == |stream|;
  }

  /** The marks and the memory stay, and the source has added above since. */
  lemma RememberFurther(f: Feed, g: Feed, marked: set<SourceRow>, latest: set<SourceRow>, table: set<SourceRow>,
                        plan: seq<Scan>)
    requires g.stored == f.stored && g.seen == f.seen && SourceAdds(latest, table, plan)
    requires forall k | 0 <= k < |plan| :: ScanCaughtUp(f, marked, latest, plan[k])
    ensures forall k | 0 <= k < |plan| :: ScanCaughtUp(g, marked, table, plan[k])
  {
    hide MarkFits, SeenFits, AddsAbove;
    forall k | 0 <= k < |plan| ensures ScanCaughtUp(g, marked, table, plan[k]) {
      assert ScanCaughtUp(f, marked, latest, plan[k]);
      AddsAboveTransitive(marked, latest, table, plan[k].docType);
      AddsKeepScan(latest, table, plan[k].docType);
      SeenWidens(f.seen, plan[k].key, ScanRows(latest, plan[k].docType), ScanRows(table, plan[k].docType));
    }
  }

  /** A failed run: the marks stay, and the file is as it was or has lost rows. */
  lemma FailureKeepsFit(f: Feed, t: Tally, latest: set<SourceRow>, plan: seq<Scan>, r: Round)
    requires IsPlan(plan) && PlanOK(r.table, plan) && Fits(f, t, latest, plan) && SourceAdds(latest, r.table, plan)
    requires !r.ok && Ran(f, r.table, plan, r.mode, false, r.parts, r.after)
    ensures Fits(r.after, NextTally(f, t, plan, r), r.table, plan)
  {
    hide MarkFits, SeenFits, IsPlan, Scope, ScanOK, SeenAfter, Holds, PartlyScanned, AfterFailure;
    MarksOfFeed(f, t, latest, r.table, plan);
    if r.mode.Backfill? {
      RememberFurther(f, r.after, t.marked, latest, r.table, plan);
    } else {
      forall k | 0 <= k < |plan| ensures ScanCaughtUp(r.after, t.marked, r.table, plan[k]) {
        assert ScanCaughtUp(f, t.marked, latest, plan[k]);
        SeenAfterFailure(f, r.after, latest, r.table, plan, r.parts, k);
      }
    }
  }

  /* ---------- whole histories ---------- */

  lemma {:induction false} HistoryFits(f: Feed, t: Tally, latest: set<SourceRow>, plan: seq<Scan>, rounds: seq<Round>)
    requires IsPlan(plan) && Fits(f, t, latest, plan) && IsHistory(f, latest, plan, rounds)
    ensures var end := TallyOf(f, t, plan, rounds);
      && (end.whole ==> Holds(Rows(LastFeed(f, rounds).staged), Scope(end.done, plan), end.twice))
    decreases |rounds|
  {
    hide ScanCaughtUp, RunSucceeds, RunFails, BackfillSucceeds, IsPlan, Scope, PlanOK, SourceAdds, NextTally, Holds;
    if rounds != [] {
      var r := rounds[0];
      if !r.ok {
        FailureKeepsFit(f, t, latest, plan, r);
      } else if r.mode.Incremental? {
        IncrementKeepsFit(f, t, latest, plan, r);
      } else {
        BackfillKeepsFit(f, t, latest, plan, r);
      }
      HistoryFits(r.after, NextTally(f, t, plan, r), r.table, plan, rounds[1..]);
      assert LastFeed(f, rounds) == LastFeed(r.after, rounds[1..]);
    }
  }

  const FRESH_FEED := Feed(None, None, map[])
  const FRESH_TALLY := Tally({}, {}, {}, true)

  lemma FreshFits(plan: seq<Scan>)
    ensures Fits(FRESH_FEED, FRESH_TALLY, {}, plan)
  {
    assert Scope({}, plan) == {};
    forall k | 0 <= k < |plan|
      ensures ScanCaughtUp(FRESH_FEED, {}, {}, plan[k])
    {
      assert ScanRows({}, plan[k].docType) == {};
    }
  }

  /**
   From an empty feed, over any incremental runs and backfills, failing anywhere: unless a failure
   took rows that no backfill has brought back, the staged file holds every row of the configured
   types that the source had at the last successful run - no row more than twice, and exactly
   once all of them if and only if the tally has no row twice.
   */
  lemma RowsAreTallied(plan: seq<Scan>, rounds: seq<Round>)
    requires IsPlan(plan) && IsHistory(FRESH_FEED, {}, plan, rounds)
    ensures
      var end, rows := TallyOf(FRESH_FEED, FRESH_TALLY, plan, rounds), Rows(LastFeed(FRESH_FEED, rounds).staged);
      end.whole ==>
        && (forall r :: multiset(rows)[r]
              == (if r in end.twice then 2 else if r in Scope(end.done, plan) then 1 else 0))
        && (multiset(rows) == multiset(Scope(end.done, plan)) <==> end.twice == {})
  {
    hide Scope, Fits, IsPlan, IsHistory, TallyOf;
    FreshFits(plan);
    HistoryFits(FRESH_FEED, FRESH_TALLY, {}, plan, rounds);
    var end := TallyOf(FRESH_FEED, FRESH_TALLY, plan, rounds);
    if end.whole {
      HoldsExactlyIff(Rows(LastFeed(FRESH_FEED, rounds).staged), Scope(end.done, plan), end.twice);
    }
  }

  /** The source as the last successful run met it. */
  function LastDone(done: set<SourceRow>, rounds: seq<Round>): set<SourceRow>
    decreases |rounds|
  {
    if rounds == [] then done else LastDone(if rounds[0].ok then rounds[0].table else done, rounds[1..])
  }

  predicate AnySucceeds(rounds: seq<Round>) {
    exists k | 0 <= k < |rounds| :: rounds[k].ok
  }

  /** Incremental runs only; one that fails before the staged file exists has not got a full batch. */
  predicate AreIncrements(f: Feed, rounds: seq<Round>)
    decreases |rounds|
  {
    rounds == [] || (
      && rounds[0].mode.Incremental?
      && (!rounds[0].ok ==> f.staged.Some? || |Flatten(rounds[0].parts)| < PARQUET_BATCH_SIZE)
      && AreIncrements(rounds[0].after, rounds[1..]))
  }

  /** The first of them that succeeds asks again for what only a backfill had read; later ones do not. */
  lemma {:induction false} IncrementsTally(f: Feed, t: Tally, latest: set<SourceRow>, plan: seq<Scan>,
                                           rounds: seq<Round>)
    requires IsHistory(f, latest, plan, rounds) && AreIncrements(f, rounds)
    ensures
      var end := TallyOf(f, t, plan, rounds);
      && end.whole == t.whole && end.done == LastDone(t.done, rounds)
      && end.twice == t.twice + (if AnySucceeds(rounds) then Scope(t.done, plan) - Scope(t.marked, plan) else {})
    decreases |rounds|
  {
    hide Scope, PlanOK, SourceAdds, RunSucceeds, Flatten, PartlyScanned, SeenAfter;
    if rounds != [] {
      var r := rounds[0];
      assert !r.ok ==> Rows(r.after.staged) == Rows(f.staged);
      IncrementsTally(r.after, NextTally(f, t, plan, r), r.table, plan, rounds[1..]);
      assert forall k | 0 <= k < |rounds[1..]| :: rounds[1..][k] == rounds[k + 1];
      assert AnySucceeds(rounds) <==> r.ok || AnySucceeds(rounds[1..]);
      if r.ok {
        assert Scope(r.table, plan) - Scope(r.table, plan) == {};
      }
    }
  }

  /**
   Exactly once, over any number of incremental runs: from an empty feed, whatever runs succeed or
   fail, the staged file holds every row of the configured types that the source had at the last
   successful run, and holds it exactly once.
   */
  lemma EveryRowExactlyOnce(plan: seq<Scan>, rounds: seq<Round>)
    requires IsPlan(plan) && IsHistory(FRESH_FEED, {}, plan, rounds) && AreIncrements(FRESH_FEED, rounds)
    ensures multiset(Rows(LastFeed(FRESH_FEED, rounds).staged)) == multiset(Scope(LastDone({}, rounds), plan))
  {
    hide Scope, IsPlan, IsHistory, AreIncrements, TallyOf;
    RowsAreTallied(plan, rounds);
    IncrementsTally(FRESH_FEED, FRESH_TALLY, {}, plan, rounds);
  }

  /**
   A source brought in by a backfill and kept up by incremental runs: the staged file holds every
   row exactly once if and only if no incremental run has succeeded yet, or the backfill had
   nothing to read. Otherwise every row of the backfill is there twice.
   */
  lemma SwitchIsExactIff(plan: seq<Scan>, first: Round, rounds: seq<Round>)
    requires IsPlan(plan) && IsHistory(FRESH_FEED, {}, plan, [first] + rounds)
    requires first.mode.Backfill? && first.ok && AreIncrements(first.after, rounds)
    ensures
      var rows, all := Rows(LastFeed(FRESH_FEED, [first] + rounds).staged), Scope(LastDone(first.table, rounds), plan);
      && (multiset(rows) == multiset(all) <==> !AnySucceeds(rounds) || Scope(first.table, plan) == {})
      && (AnySucceeds(rounds) ==> forall r | r in Scope(first.table, plan) :: multiset(rows)[r] == 2)
  {
    hide Scope, IsPlan, AreIncrements, AnySucceeds, Ran, PlanOK, SourceAdds;
    assert ([first] + rounds)[1..] == rounds;
    RowsAreTallied(plan, [first] + rounds);
    NothingInScope(plan);
    IncrementsTally(first.after, NextTally(FRESH_FEED, FRESH_TALLY, plan, first), first.table, plan, rounds);
  }

  lemma NothingInScope(plan: seq<Scan>)
    ensures Scope({}, plan) == {}
  {
  }

  /**
   The case that `AreIncrements` excludes: when the very first run fails, the run after it stages
   every row exactly once if and only if fewer than one batch of rows had arrived before the failure.
   */
  lemma FirstFailureThenSuccess(plan: seq<Scan>, t1: set<SourceRow>, p1: seq<seq<SourceRow>>, g: Feed,
                                t2: set<SourceRow>, p2: seq<seq<SourceRow>>, h: Feed)
    requires IsPlan(plan) && PlanOK(t2, plan)
    requires RunFails(FRESH_FEED, t1, plan, p1, g) && RunSucceeds(g, t2, plan, p2, h)
    ensures multiset(Rows(h.staged)) == multiset(Scope(t2, plan)) <==> |Flatten(p1)| < PARQUET_BATCH_SIZE
  {
    hide Scope, WantedAll, Scanned, PartlyScanned, PlanOK, IsPlan, CurrentWatermark, SeenAfter, Flatten;
    BackfillReadsAll(t2, plan, p2);
    MergeAppends(g.staged, Flatten(p2));
    var left := Rows(g.staged);
    assert multiset(Rows(h.staged)) == multiset(left) + multiset(Scope(t2, plan));
    assert |multiset(Rows(h.staged))| == |left| + |multiset(Scope(t2, plan))|;
    assert |left| == 0 <==> |Flatten(p1)| < PARQUET_BATCH_SIZE;
  }

  /* ---------- two histories that stage rows twice ---------- */

  const EVERYTHING := [Scan("*", None)]

  /** n documents, numbered from 0. */
  function Numbered(n: nat): (rows: seq<SourceRow>)
    ensures |rows| == n && forall i | 0 <= i < n :: rows[i] == SourceRow("", Num(i), 1, "")
  {
    seq(n, i requires 0 <= i < n => SourceRow("", Num(i), 1, ""))
  }

  function TableOf(rows: seq<SourceRow>): set<SourceRow> {
    set r | r in rows
  }

  lemma DigitsAreFew(n: nat)
    requires n < 100000
    ensures |Digits(n)| <= 5
  {
    var a, b, c, d := n / 10, n / 100, n / 1000, n / 10000;
    assert a / 10 == b && b / 10 == c && c / 10 == d && d < 10;
    assert |Digits(d)| == 1;
    assert |Digits(c)| <= 2;
    assert |Digits(b)| <= 3;
    assert |Digits(a)| <= 4;
  }

  lemma NumberedScans(n: nat)
    requires n <= PARQUET_BATCH_SIZE
    ensures
      var rows := Numbered(n);
      && IsPlan(EVERYTHING) && PlanOK(TableOf(rows), EVERYTHING)
      && Scanned(TableOf(rows), EVERYTHING, None, [rows]) && PartlyScanned(TableOf(rows), EVERYTHING, None, [rows])
      && Flatten([rows]) == rows
  {
    var rows := Numbered(n);
    forall r | r in TableOf(rows) ensures IsDoc(r.doc) {
      DigitsAreFew(r.doc.n);
    }
    assert [rows][1..] == [] && rows + [] == rows;
  }

  /** A first run that fails after one whole batch: the next one has that batch in the file twice. */
  lemma WholeBatchComesTwice() returns (g: Feed, h: Feed)
    ensures
      var rows := Numbered(PARQUET_BATCH_SIZE);
      && RunFails(FRESH_FEED, TableOf(rows), EVERYTHING, [rows], g)
      && RunSucceeds(g, TableOf(rows), EVERYTHING, [rows], h)
      && Rows(h.staged) == rows + rows
  {
    hide Numbered, Scanned, PartlyScanned, SeenAfter, CurrentWatermark, TableOf, Flatten;
    var rows := Numbered(PARQUET_BATCH_SIZE);
    NumberedScans(PARQUET_BATCH_SIZE);
    g := Feed(Some(rows), None, SeenAfter(map[], EVERYTHING, [rows]));
    assert rows[..|rows| - |rows| % PARQUET_BATCH_SIZE] == rows;
    var seen := SeenAfter(g.seen, EVERYTHING, [rows]);
    h := Feed(Some(rows + rows), CurrentWatermark(None, seen), seen);
  }

  /** A backfill, then an incremental run over the same single row: it is staged twice. */
  lemma BackfilledRowComesTwice() returns (g: Feed, h: Feed)
    ensures
      var rows := Numbered(1);
      && BackfillSucceeds(FRESH_FEED, TableOf(rows), EVERYTHING, [rows], g)
      && RunSucceeds(g, TableOf(rows), EVERYTHING, [rows], h)
      && Rows(h.staged) == rows + rows
  {
    hide Numbered, Scanned, PartlyScanned, SeenAfter, CurrentWatermark, TableOf, Flatten;
    var rows := Numbered(1);
    NumberedScans(1);
    g := FRESH_FEED.(staged := Some(rows));
    var seen := SeenAfter(g.seen, EVERYTHING, [rows]);
    h := Feed(Some(rows + rows), CurrentWatermark(None, seen), seen);
  }
}
