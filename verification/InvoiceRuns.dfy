/**
 Incremental invoice runs: each asks for the trailing window again, and the shared writer appends
 what comes. How often the staged file then holds a line.
 */
module InvoiceRuns {
  import opened Outcomes
  import opened Staging
  import opened Agility
  import opened AgilityRuns

  /** A run: its day, what the server holds by then, the responses, and whether it ended well or where it broke off. */
  datatype InvoiceRun = InvoiceRun(today: int, held: set<Record>, requests: seq<Pages>, ok: bool, stream: seq<Record>)

  /** The day of a line's invoice. */
  type Days = Record -> int

  /** The line is in the window that a run of this day asks for. */
  predicate InWindow(days: Days, r: Record, today: int, windowDays: nat) {
    today - windowDays <= days(r) <= today
  }

  /**
   What a successful run relies on and delivers: one record a natural key, the responses to the
   window hold exactly the lines dated in it, and the run streams their first occurrences.
   */
  ghost predicate Delivers(id: Identity, days: Days, windowDays: nat, run: InvoiceRun) {
    && (forall a, b | a in run.held && b in run.held && id(a) == id(b) :: a == b)
    && AllRecords(run.requests).Some?
    && (forall r :: r in AllRecords(run.requests).value
                    <==> r in run.held && InWindow(days, r, run.today, windowDays))
    && run.stream == Fresh(id, {}, AllRecords(run.requests).value)
  }

  /** A run whose window covers the line. */
  predicate Covers(days: Days, windowDays: nat, run: InvoiceRun, r: Record) {
    run.ok && r in run.held && InWindow(days, r, run.today, windowDays)
  }

  function CoveringRuns(days: Days, windowDays: nat, runs: seq<InvoiceRun>, r: Record): nat {
    if runs == [] then 0
    else (if Covers(days, windowDays, runs[0], r) then 1 else 0) + CoveringRuns(days, windowDays, runs[1..], r)
  }

  /** The staged file after incremental runs; one that fails leaves an existing file alone. */
  function StagedAfter(staged: Staged<Record>, runs: seq<InvoiceRun>): Staged<Record>
    decreases |runs|
  {
    if runs == [] then staged
    else
      var run := runs[0];
      StagedAfter(if run.ok then AfterSuccess(staged, run.stream, Incremental)
                  else AfterFailure(staged, run.stream, Incremental), runs[1..])
  }

  /** The first occurrences hold a record once if it is the first of its key, and else not. */
  lemma {:induction false} FreshOnce(id: Identity, seen: set<string>, records: seq<Record>, r: Record)
    ensures multiset(Fresh(id, seen, records))[r] == if r in Fresh(id, seen, records) then 1 else 0
    decreases |records|
  {
    if records != [] {
      var rest := Fresh(id, seen + {id(records[0])}, records[1..]);
      FreshOnce(id, seen + {id(records[0])}, records[1..], r);
      if id(records[0]) !in seen {
        FreshHolds(id, seen + {id(records[0])}, records[1..], records[0]);
        assert multiset([records[0]] + rest) == multiset{records[0]} + multiset(rest);
      } else {
        assert [] + rest == rest;
      }
    }
  }

  lemma {:induction false} FirstIsOnly(id: Identity, records: seq<Record>, r: Record)
    requires forall a | a in records && id(a) == id(r) :: a == r
    ensures r in records <==> FirstOf(id, records, id(r)) == Some(r)
  {
    FirstOfIsNew(id, records, id(r));
    if r in records {
      assert id(r) in Ids(id, records);
    }
  }

  /** A successful run streams a line once if its window covers it, and else not. */
  lemma StreamHolds(id: Identity, days: Days, windowDays: nat, run: InvoiceRun, r: Record)
    requires run.ok && Delivers(id, days, windowDays, run)
    ensures multiset(run.stream)[r] == if Covers(days, windowDays, run, r) then 1 else 0
  {
    hide AllRecords, Fresh;
    var all := AllRecords(run.requests).value;
    FreshOnce(id, {}, all, r);
    FreshHolds(id, {}, all, r);
    if r in all {
      FirstIsOnly(id, all, r);
    } else if FirstOf(id, all, id(r)) == Some(r) {
      FirstOfIsNew(id, all, id(r));
    }
  }

  /** Over any incremental runs a line is staged once more for every successful run whose window covers it. */
  lemma {:induction false} StagedPerRun(id: Identity, days: Days, windowDays: nat, staged: Staged<Record>,
                                        runs: seq<InvoiceRun>, r: Record)
    requires staged.Some?
    requires forall k | 0 <= k < |runs| && runs[k].ok :: Delivers(id, days, windowDays, runs[k])
    ensures multiset(Rows(StagedAfter(staged, runs)))[r]
         == multiset(Rows(staged))[r] + CoveringRuns(days, windowDays, runs, r)
    decreases |runs|
  {
    hide Delivers, Covers;
    if runs != [] {
      var run := runs[0];
      var next := if run.ok then AfterSuccess(staged, run.stream, Incremental)
                  else AfterFailure(staged, run.stream, Incremental);
      if run.ok {
        StreamHolds(id, days, windowDays, run, r);
        assert Rows(next) == staged.value + run.stream;
      } else {
        FailedCoversNot(days, windowDays, run, r);
      }
      assert forall k | 0 <= k < |runs[1..]| :: runs[1..][k] == runs[k + 1];
      StagedPerRun(id, days, windowDays, next, runs[1..], r);
    }
  }

  lemma FailedCoversNot(days: Days, windowDays: nat, run: InvoiceRun, r: Record)
    requires !run.ok
    ensures !Covers(days, windowDays, run, r)
  {
  }

  /** A run a day, each successful and holding the line from its own day on. */
  predicate AreDaily(days: Days, runs: seq<InvoiceRun>, from: int, r: Record) {
    forall k | 0 <= k < |runs| ::
      runs[k].ok && runs[k].today == from + k && (days(r) <= runs[k].today ==> r in runs[k].held)
  }

  /** How many of the days from..to lie within windowDays after this one. */
  function DaysCovered(day: int, windowDays: nat, from: int, to: int): int {
    var first, last := if day < from then from else day, if day + windowDays < to then day + windowDays else to;
    if first <= last then last - first + 1 else 0
  }

  lemma {:induction false} DailyCovers(days: Days, windowDays: nat, runs: seq<InvoiceRun>, from: int, r: Record)
    requires AreDaily(days, runs, from, r)
    ensures CoveringRuns(days, windowDays, runs, r) == DaysCovered(days(r), windowDays, from, from + |runs| - 1)
    decreases |runs|
  {
    if runs != [] {
      var rest := runs[1..];
      assert forall k | 0 <= k < |rest| :: rest[k] == runs[k + 1];
      DailyCovers(days, windowDays, rest, from + 1, r);
      assert runs[0].today == from + 0;
    }
  }

  /**
   Run once a day, a line that was not staged before is staged exactly once if and only if one
   single run fell into the days of its window; a line whose days have all passed is staged
   windowDays + 1 times.
   */
  lemma DailyRunsRepeat(id: Identity, days: Days, windowDays: nat, staged: Staged<Record>,
                        runs: seq<InvoiceRun>, from: int, r: Record)
    requires staged.Some? && r !in Rows(staged) && AreDaily(days, runs, from, r)
    requires forall k | 0 <= k < |runs| :: Delivers(id, days, windowDays, runs[k])
    ensures
      var copies, to := multiset(Rows(StagedAfter(staged, runs)))[r], from + |runs| - 1;
      && copies == DaysCovered(days(r), windowDays, from, to)
      && (from <= days(r) && days(r) + windowDays <= to ==> copies == windowDays + 1)
  {
    StagedPerRun(id, days, windowDays, staged, runs, r);
    DailyCovers(days, windowDays, runs, from, r);
  }
}
