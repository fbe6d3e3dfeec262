/**
 Concurrent promotions inside one process: every find-then-create window runs under the mutex of
 its question, in any interleaving, with a failure possible at every step.
 */
module Promotion {
  import opened Outcomes
  import opened Superset

  /** One promotion: its question's hash, its date, and its physical table if it has a backing. */
  datatype Job = Job(hash: string, date: string, backing: Option<string>)

  datatype Kind = Dataset | Chart

  /** Where a promotion stands. Between Looking and Placing it holds its question's mutex. */
  datatype Pc =
    | Waiting
    | Looking(kind: Kind)
    | Making(kind: Kind)
    | Updating(chart: int)
    | Placing(chart: int)
    | Finished(chart: int)
    | Failed

  /** What find-then-create depends on: ids and names. */
  type Listed = Item<()>

  datatype Sys = Sys(datasets: seq<Listed>, charts: seq<Listed>, locks: map<string, nat>, pcs: seq<Pc>)

  /** The scheduler's choices. `lost`: the create reached the server but its answer did not come back. */
  datatype Step = Enter(i: nat) | Go(i: nat, newId: int, lost: bool) | Fail(i: nat)

  /** The name a promotion looks for. */
  function Name(job: Job, kind: Kind): string {
    match kind
    case Dataset => if job.backing.Some? && job.backing.value != "" then job.backing.value else TableName(job.hash)
    case Chart => Slug(job.hash, job.date)
  }

  function Items(s: Sys, kind: Kind): seq<Listed> {
    if kind.Dataset? then s.datasets else s.charts
  }

  predicate Holds(pc: Pc) {
    pc.Looking? || pc.Making? || pc.Updating? || pc.Placing?
  }

  function Move(s: Sys, i: nat, pc: Pc): Sys
    requires i < |s.pcs|
  {
    s.(pcs := s.pcs[i := pc])
  }

  /** Leave the mutex, with a result or by an exception. */
  function Leave(jobs: seq<Job>, s: Sys, i: nat, pc: Pc): Sys
    requires i < |s.pcs| == |jobs|
  {
    Move(s.(locks := s.locks - {jobs[i].hash}), i, pc)
  }

  function Create(s: Sys, kind: Kind, item: Listed): Sys {
    if kind.Dataset? then s.(datasets := s.datasets + [item]) else s.(charts := s.charts + [item])
  }

  /** One step; a step that is not enabled changes nothing. */
  function Next(jobs: seq<Job>, s: Sys, step: Step): (r: Sys)
    requires |s.pcs| == |jobs|
    ensures |r.pcs| == |jobs|
  {
    if step.i >= |jobs| then s
    else
      var i, job, pc := step.i, jobs[step.i], s.pcs[step.i];
      match step
      case Enter(_) =>
        if pc.Waiting? && job.hash !in s.locks
        then Move(s.(locks := s.locks[job.hash := i]), i, Looking(Dataset)) else s
      case Fail(_) => if Holds(pc) then Leave(jobs, s, i, Failed) else s
      case Go(_, newId, lost) =>
        match pc
        case Looking(kind) =>
          var found := Named(Items(s, kind), Name(job, kind));
          if found == [] then Move(s, i, Making(kind))
          else if kind.Dataset? then Move(s, i, Looking(Chart))
          else Move(s, i, Updating(found[0].id))
        case Making(kind) =>
          var made := Create(s, kind, Item(newId, Name(job, kind), ()));
          if lost then Leave(jobs, made, i, Failed)
          else if kind.Dataset? then Move(made, i, Looking(Chart))
          else Move(made, i, Placing(newId))
        case Updating(chart) => Move(s, i, Placing(chart))
        case Placing(chart) => Leave(jobs, s, i, Finished(chart))
        case _ => s
  }

  function Run(jobs: seq<Job>, s: Sys, steps: seq<Step>): (r: Sys)
    requires |s.pcs| == |jobs|
    ensures |r.pcs| == |jobs|
    decreases |steps|
  {
    if steps == [] then s else Run(jobs, Next(jobs, s, steps[0]), steps[1..])
  }

  /** Any catalogue, before any of the promotions has started. */
  predicate IsStart(jobs: seq<Job>, s: Sys) {
    |s.pcs| == |jobs| && s.locks == map[] && forall i | 0 <= i < |jobs| :: s.pcs[i].Waiting?
  }

  predicate AreHashes(jobs: seq<Job>) {
    forall i | 0 <= i < |jobs| :: |jobs[i].hash| == HASH_LENGTH
  }

  /* ---------- the invariant ---------- */

  /** A question's mutex is held by exactly the promotion that is inside. */
  ghost predicate LocksHold(jobs: seq<Job>, s: Sys)
    requires |s.pcs| == |jobs|
  {
    forall i: nat | i < |jobs| :: Holds(s.pcs[i]) <==> jobs[i].hash in s.locks && s.locks[jobs[i].hash] == i
  }

  /** Only one question names this object. */
  ghost predicate IsOwned(jobs: seq<Job>, kind: Kind, name: string) {
    forall i: nat, j: nat | i < |jobs| && j < |jobs| && Name(jobs[i], kind) == name == Name(jobs[j], kind) ::
      jobs[i].hash == jobs[j].hash
  }

  /** The objects of a name are those there were, or the first one. */
  predicate AtMostFirst(before: seq<Listed>, now: seq<Listed>) {
    now == before || (before == [] && |now| == 1)
  }

  ghost predicate IsSingle(jobs: seq<Job>, s0: Sys, s: Sys, kind: Kind, name: string)
    requires |s.pcs| == |jobs|
  {
    && AtMostFirst(Named(Items(s0, kind), name), Named(Items(s, kind), name))
    && forall i: nat | i < |jobs| && s.pcs[i] == Making(kind) && Name(jobs[i], kind) == name ::
         Named(Items(s, kind), name) == []
  }

  /** The chart a promotion works on, once it has one. */
  function ChartOf(pc: Pc): Option<int> {
    match pc
    case Updating(c) => Some(c)
    case Placing(c) => Some(c)
    case Finished(c) => Some(c)
    case _ => None
  }

  ghost predicate ChartsAreFirst(jobs: seq<Job>, s: Sys)
    requires |s.pcs| == |jobs|
  {
    forall i: nat | i < |jobs| && ChartOf(s.pcs[i]).Some? ::
      var named := Named(s.charts, Name(jobs[i], Chart));
      named != [] && named[0].id == ChartOf(s.pcs[i]).value
  }

  lemma NextKeepsLocks(jobs: seq<Job>, s: Sys, step: Step)
    requires |s.pcs| == |jobs| && LocksHold(jobs, s)
    ensures LocksHold(jobs, Next(jobs, s, step))
  {
    hide Named, Name;
  }

  /** What a step does to the objects of one name. */
  lemma NextNamed(jobs: seq<Job>, s: Sys, step: Step, kind: Kind, name: string)
    requires |s.pcs| == |jobs|
    ensures
      var s', i := Next(jobs, s, step), step.i;
      if step.Go? && i < |jobs| && s.pcs[i] == Making(kind) && Name(jobs[i], kind) == name
      then Named(Items(s', kind), name) == Named(Items(s, kind), name) + [Item(step.newId, name, ())]
      else Named(Items(s', kind), name) == Named(Items(s, kind), name)
  {
    hide Named, Name;
    if step.Go? && step.i < |jobs| && s.pcs[step.i] == Making(kind) {
      NamedNext(Items(s, kind), Item(step.newId, Name(jobs[step.i], kind), ()), name);
    }
  }

  lemma OneInside(jobs: seq<Job>, s: Sys, i: nat, j: nat)
    requires |s.pcs| == |jobs| && LocksHold(jobs, s) && i < |jobs| && j < |jobs|
    ensures Holds(s.pcs[i]) && Holds(s.pcs[j]) && jobs[i].hash == jobs[j].hash ==> i == j
  {
  }

  lemma NextKeepsSingle(jobs: seq<Job>, s0: Sys, s: Sys, step: Step, kind: Kind, name: string)
    requires |s.pcs| == |jobs| && LocksHold(jobs, s)
    requires IsOwned(jobs, kind, name) && IsSingle(jobs, s0, s, kind, name)
    ensures IsSingle(jobs, s0, Next(jobs, s, step), kind, name)
  {
    hide Named, Name;
    NextNamed(jobs, s, step, kind, name);
    var s' := Next(jobs, s, step);
    forall i: nat | i < |jobs| && s'.pcs[i] == Making(kind) && Name(jobs[i], kind) == name
      ensures Named(Items(s', kind), name) == []
    {
      if step.i < |jobs| {
        OneInside(jobs, s, i, step.i);
      }
    }
  }

  lemma NextKeepsFirst(jobs: seq<Job>, s: Sys, step: Step)
    requires |s.pcs| == |jobs| && ChartsAreFirst(jobs, s) && LocksHold(jobs, s)
    requires forall i: nat | i < |jobs| && s.pcs[i] == Making(Chart) :: Named(s.charts, Name(jobs[i], Chart)) == []
    ensures ChartsAreFirst(jobs, Next(jobs, s, step))
  {
    hide Named, Name;
    var s' := Next(jobs, s, step);
    forall i: nat | i < |jobs| && ChartOf(s'.pcs[i]).Some?
      ensures var named := Named(s'.charts, Name(jobs[i], Chart));
        named != [] && named[0].id == ChartOf(s'.pcs[i]).value
    {
      NextNamed(jobs, s, step, Chart, Name(jobs[i], Chart));
    }
  }

  ghost predicate IsSound(jobs: seq<Job>, s0: Sys, s: Sys)
    requires |s.pcs| == |jobs|
  {
    && LocksHold(jobs, s)
    && ChartsAreFirst(jobs, s)
    && forall kind, name | IsOwned(jobs, kind, name) :: IsSingle(jobs, s0, s, kind, name)
  }

  lemma NextKeepsSound(jobs: seq<Job>, s0: Sys, s: Sys, step: Step)
    requires AreHashes(jobs) && |s.pcs| == |jobs| && IsSound(jobs, s0, s)
    ensures IsSound(jobs, s0, Next(jobs, s, step))
  {
    hide Next, Named, LocksHold, ChartsAreFirst, IsOwned;
    NextKeepsLocks(jobs, s, step);
    forall i: nat | i < |jobs| && s.pcs[i] == Making(Chart)
      ensures Named(s.charts, Name(jobs[i], Chart)) == []
    {
      SlugsAreOwned(jobs, Name(jobs[i], Chart));
      assert IsSingle(jobs, s0, s, Chart, Name(jobs[i], Chart));
    }
    NextKeepsFirst(jobs, s, step);
    forall kind, name | IsOwned(jobs, kind, name)
      ensures IsSingle(jobs, s0, Next(jobs, s, step), kind, name)
    {
      NextKeepsSingle(jobs, s0, s, step, kind, name);
    }
  }

  lemma {:induction false} RunKeepsSound(jobs: seq<Job>, s0: Sys, s: Sys, steps: seq<Step>)
    requires AreHashes(jobs) && |s.pcs| == |jobs| && IsSound(jobs, s0, s)
    ensures IsSound(jobs, s0, Run(jobs, s, steps))
    decreases |steps|
  {
    hide Next, IsSound;
    if steps != [] {
      NextKeepsSound(jobs, s0, s, steps[0]);
      RunKeepsSound(jobs, s0, Next(jobs, s, steps[0]), steps[1..]);
    }
  }

  lemma StartIsSound(jobs: seq<Job>, s: Sys)
    requires IsStart(jobs, s)
    ensures IsSound(jobs, s, s)
  {
  }

  /** The mutex key and the slug are built from the same hash. */
  lemma SlugsAreOwned(jobs: seq<Job>, name: string)
    requires AreHashes(jobs)
    ensures IsOwned(jobs, Chart, name)
  {
    forall i: nat, j: nat | i < |jobs| && j < |jobs| && Name(jobs[i], Chart) == name == Name(jobs[j], Chart)
      ensures jobs[i].hash == jobs[j].hash
    {
      SlugDetermines(jobs[i].hash, jobs[i].date, jobs[j].hash, jobs[j].date);
    }
  }

  /* ---------- the theorems ---------- */

  /**
   In every interleaving, whatever fails where, no slug gets a second chart: its charts stay those
   there were at the start, or one is made where there was none.
   */
  lemma NoSecondChart(jobs: seq<Job>, s0: Sys, steps: seq<Step>, slug: string)
    requires AreHashes(jobs) && IsStart(jobs, s0)
    ensures AtMostFirst(Named(s0.charts, slug), Named(Run(jobs, s0, steps).charts, slug))
  {
    hide Run, Named, IsOwned;
    StartIsSound(jobs, s0);
    RunKeepsSound(jobs, s0, s0, steps);
    SlugsAreOwned(jobs, slug);
    assert IsSingle(jobs, s0, Run(jobs, s0, steps), Chart, slug);
  }

  /**
   Promotions of one question on one day end with the same chart. Should the catalogue hold two
   charts of that slug from the start, this rests on the server listing them in a fixed order.
   */
  lemma SameDaySameChart(jobs: seq<Job>, s0: Sys, steps: seq<Step>, i: nat, j: nat)
    requires AreHashes(jobs) && IsStart(jobs, s0) && i < |jobs| && j < |jobs|
    requires jobs[i].hash == jobs[j].hash && jobs[i].date == jobs[j].date
    requires Run(jobs, s0, steps).pcs[i].Finished? && Run(jobs, s0, steps).pcs[j].Finished?
    ensures Run(jobs, s0, steps).pcs[i].chart == Run(jobs, s0, steps).pcs[j].chart
  {
    hide Run, Named, IsOwned;
    StartIsSound(jobs, s0);
    RunKeepsSound(jobs, s0, s0, steps);
    var s := Run(jobs, s0, steps);
    assert ChartOf(s.pcs[i]).Some? && ChartOf(s.pcs[j]).Some?;
  }

  /** When no promotion has a physical backing, no table name gets a second dataset. */
  lemma NoSecondVirtualDataset(jobs: seq<Job>, s0: Sys, steps: seq<Step>, table: string)
    requires AreHashes(jobs) && IsStart(jobs, s0)
    requires forall i | 0 <= i < |jobs| :: jobs[i].backing.None?
    ensures AtMostFirst(Named(s0.datasets, table), Named(Run(jobs, s0, steps).datasets, table))
  {
    forall i: nat, j: nat | i < |jobs| && j < |jobs| && Name(jobs[i], Dataset) == table == Name(jobs[j], Dataset)
      ensures jobs[i].hash == jobs[j].hash
    {
      TableNameDetermines(jobs[i].hash, jobs[j].hash);
    }
    NoSecondOwned(jobs, s0, steps, table);
  }

  lemma NoSecondOwned(jobs: seq<Job>, s0: Sys, steps: seq<Step>, table: string)
    requires AreHashes(jobs) && IsStart(jobs, s0) && IsOwned(jobs, Dataset, table)
    ensures AtMostFirst(Named(s0.datasets, table), Named(Run(jobs, s0, steps).datasets, table))
  {
    hide Run, Named, IsOwned;
    StartIsSound(jobs, s0);
    RunKeepsSound(jobs, s0, s0, steps);
    assert IsSingle(jobs, s0, Run(jobs, s0, steps), Dataset, table);
  }

  /**
   A missing table can get a second dataset exactly when two promotions of different questions
   name it: the mutex is per question, the table is not.
   */
  lemma SecondDatasetIff(jobs: seq<Job>, s0: Sys, table: string)
    requires AreHashes(jobs) && IsStart(jobs, s0) && Named(s0.datasets, table) == []
    ensures (exists steps :: |Named(Run(jobs, s0, steps).datasets, table)| > 1) <==> !IsOwned(jobs, Dataset, table)
  {
    if IsOwned(jobs, Dataset, table) {
      forall steps ensures |Named(Run(jobs, s0, steps).datasets, table)| <= 1 {
        NoSecondOwned(jobs, s0, steps, table);
      }
    } else {
      var i: nat, j: nat :| i < |jobs| && j < |jobs|
        && Name(jobs[i], Dataset) == table == Name(jobs[j], Dataset) && jobs[i].hash != jobs[j].hash;
      BothCreate(jobs, s0, table, i, j);
    }
  }

  /** Both look before either makes. */
  lemma {:induction false} BothCreate(jobs: seq<Job>, s0: Sys, table: string, i: nat, j: nat)
    requires IsStart(jobs, s0) && Named(s0.datasets, table) == []
    requires i < |jobs| && j < |jobs| && jobs[i].hash != jobs[j].hash
    requires Name(jobs[i], Dataset) == table == Name(jobs[j], Dataset)
    ensures exists steps :: |Named(Run(jobs, s0, steps).datasets, table)| > 1
  {
    hide Run, Next, Named, Name;
    var s4 := BothLook(jobs, s0, table, i, j);
    var s6 := BothMake(jobs, s4, table, i, j);
    var a, b, c, d, f := Enter(i), Enter(j), Go(i, 1, false), Go(j, 1, false), Go(j, 2, false);
    RunSix(jobs, s0, a, b, c, d, c, f);
    assert Run(jobs, s0, [a, b, c, d, c, f]) == s6;
  }

  lemma {:induction false} BothLook(jobs: seq<Job>, s0: Sys, table: string, i: nat, j: nat) returns (s4: Sys)
    requires IsStart(jobs, s0) && Named(s0.datasets, table) == []
    requires i < |jobs| && j < |jobs| && jobs[i].hash != jobs[j].hash
    requires Name(jobs[i], Dataset) == table == Name(jobs[j], Dataset)
    ensures s4
         == Next(jobs, Next(jobs, Next(jobs, Next(jobs, s0, Enter(i)), Enter(j)), Go(i, 1, false)), Go(j, 1, false))
    ensures |s4.pcs| == |jobs| && s4.pcs[i] == s4.pcs[j] == Making(Dataset) && s4.datasets == s0.datasets
  {
    hide Named, Name;
    var s2 := Next(jobs, Next(jobs, s0, Enter(i)), Enter(j));
    assert s2.pcs[i] == s2.pcs[j] == Looking(Dataset) && s2.datasets == s0.datasets;
    s4 := Next(jobs, Next(jobs, s2, Go(i, 1, false)), Go(j, 1, false));
  }

  lemma {:induction false} BothMake(jobs: seq<Job>, s4: Sys, table: string, i: nat, j: nat) returns (s6: Sys)
    requires |s4.pcs| == |jobs| && Named(s4.datasets, table) == []
    requires i < |jobs| && j < |jobs| && jobs[i].hash != jobs[j].hash
    requires Name(jobs[i], Dataset) == table == Name(jobs[j], Dataset)
    requires s4.pcs[i] == s4.pcs[j] == Making(Dataset)
    ensures s6 == Next(jobs, Next(jobs, s4, Go(i, 1, false)), Go(j, 2, false))
    ensures |Named(s6.datasets, table)| == 2
  {
    hide Named, Name;
    var s5 := Next(jobs, s4, Go(i, 1, false));
    NextNamed(jobs, s4, Go(i, 1, false), Dataset, table);
    s6 := Next(jobs, s5, Go(j, 2, false));
    NextNamed(jobs, s5, Go(j, 2, false), Dataset, table);
  }

  /** Two questions over one missing table, each looking before the other makes: two datasets of that name. */
  lemma TwoQuestionsTwoDatasets(first: string, second: string)
    requires |first| == |second| == HASH_LENGTH && first != second
    ensures
      var jobs := [Job(first, "2026-01-01", Some("sales")), Job(second, "2026-01-01", Some("sales"))];
      var s0 := Sys([], [], map[], [Waiting, Waiting]);
      var steps := [Enter(0), Enter(1), Go(0, 1, false), Go(1, 1, false), Go(0, 1, false), Go(1, 2, false)];
      |Named(Run(jobs, s0, steps).datasets, "sales")| == 2
  {
    hide Run, Next, Named;
    var jobs := [Job(first, "2026-01-01", Some("sales")), Job(second, "2026-01-01", Some("sales"))];
    var s0 := Sys([], [], map[], [Waiting, Waiting]);
    NoneNamed("sales");
    var s4 := BothLook(jobs, s0, "sales", 0, 1);
    var s6 := BothMake(jobs, s4, "sales", 0, 1);
    RunSix(jobs, s0, Enter(0), Enter(1), Go(0, 1, false), Go(1, 1, false), Go(0, 1, false), Go(1, 2, false));
  }

  lemma NoneNamed(name: string)
    ensures Named<()>([], name) == []
  {
  }

  lemma RunNext(jobs: seq<Job>, s: Sys, step: Step, rest: seq<Step>)
    requires |s.pcs| == |jobs|
    ensures Run(jobs, s, [step] + rest) == Run(jobs, Next(jobs, s, step), rest)
  {
    assert ([step] + rest)[1..] == rest;
  }

  lemma RunSix(jobs: seq<Job>, s: Sys, a: Step, b: Step, c: Step, d: Step, e: Step, f: Step)
    requires |s.pcs| == |jobs|
    ensures Run(jobs, s, [a, b, c, d, e, f])
         == Next(jobs, Next(jobs, Next(jobs, Next(jobs, Next(jobs, Next(jobs, s, a), b), c), d), e), f)
  {
    hide Next;
    var s1 := Next(jobs, s, a);
    var s2 := Next(jobs, s1, b);
    var s3 := Next(jobs, s2, c);
    var s4 := Next(jobs, s3, d);
    assert [a] + ([b] + ([c] + ([d] + ([e] + [f])))) == [a, b, c, d, e, f];
    RunNext(jobs, s, a, [b] + ([c] + ([d] + ([e] + [f]))));
    RunNext(jobs, s1, b, [c] + ([d] + ([e] + [f])));
    RunNext(jobs, s2, c, [d] + ([e] + [f]));
    RunNext(jobs, s3, d, [e] + [f]);
    RunNext(jobs, s4, e, [f]);
    RunNext(jobs, Next(jobs, s4, e), f, []);
    assert [f] + [] == [f];
  }

  /* ---------- a promotion by itself ---------- */

  /** The first object of a name after a find-then-create. */
  function FirstId(items: seq<Listed>, name: string): int
    requires Named(items, name) != []
  {
    Named(items, name)[0].id
  }

  /**
   A promotion that gets its mutex and is not disturbed ends within five steps, whatever the others
   are doing: the dataset and the chart of its names are ensured and nothing else is made, the mutex
   is given back, and its chart is the first one of its slug.
   */
  lemma LonePromotion(jobs: seq<Job>, s: Sys, i: nat, dataset: int, chart: int)
    requires i < |jobs| == |s.pcs| && s.pcs[i].Waiting? && jobs[i].hash !in s.locks
    ensures
      var job := jobs[i];
      var table := match job.backing {
                     case Some(name) => if name == "" then "genbi_q_" + job.hash else name
                     case None => "genbi_q_" + job.hash
                   };
      var slug := "genbi-" + job.hash + "-" + job.date;
      var r := Run(jobs, s, [Enter(i), Go(i, dataset, false), Go(i, dataset, false),
                             Go(i, chart, false), Go(i, chart, false), Go(i, chart, false)]);
      && r.datasets == Ensured(s.datasets, Item(dataset, table, ()))
      && r.charts == Ensured(s.charts, Item(chart, slug, ()))
      && r.locks == s.locks && Named(r.charts, slug) != []
      && r.pcs == s.pcs[i := Finished(FirstId(r.charts, slug))]
  {
    hide Run, Named;
    var d, c := Go(i, dataset, false), Go(i, chart, false);
    RunSix(jobs, s, Enter(i), d, d, c, c, c);
    var s1 := Next(jobs, s, Enter(i));
    assert s1.pcs[i] == Looking(Dataset) && jobs[i].hash in s1.locks;
    assert s1.locks - {jobs[i].hash} == s.locks;
    NamedNext(s.datasets, Item(dataset, Name(jobs[i], Dataset), ()), Name(jobs[i], Dataset));
    NamedNext(s.charts, Item(chart, Name(jobs[i], Chart), ()), Name(jobs[i], Chart));
    var s2 := Next(jobs, s1, d);
    if Named(s.datasets, Name(jobs[i], Dataset)) == [] {
      var s3 := Next(jobs, s2, d);
      ChartIsPlaced(jobs, s3, i, chart);
    } else {
      ChartIsPlaced(jobs, s2, i, chart);
    }
  }

  /** From the chart's lookup on. */
  lemma ChartIsPlaced(jobs: seq<Job>, s: Sys, i: nat, chart: int)
    requires i < |jobs| == |s.pcs| && s.pcs[i] == Looking(Chart)
    ensures
      var slug := Name(jobs[i], Kind.Chart);
      var once := Next(jobs, s, Go(i, chart, false));
      var r := Next(jobs, Next(jobs, once, Go(i, chart, false)), Go(i, chart, false));
      && Named(Ensured(s.charts, Item(chart, slug, ())), slug) != []
      && r == Sys(s.datasets, Ensured(s.charts, Item(chart, slug, ())), s.locks - {jobs[i].hash},
                  s.pcs[i := Finished(FirstId(Ensured(s.charts, Item(chart, slug, ())), slug))])
      && forall other :: Next(jobs, r, Go(i, other, false)) == r
  {
    hide Named;
    NamedNext(s.charts, Item(chart, Name(jobs[i], Chart), ()), Name(jobs[i], Chart));
  }
}
